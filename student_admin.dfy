/**
 * The administrator's student page: the checks made before adding,
 * deleting or renaming a student, and where a rename is stored. Its two
 * built-in-number regular expressions are alternations whose `^` and `$`
 * bind to the first and last alternative only.
 */
module StudentAdmin {
  import opened Wrappers
  import opened Types
  import opened Text
  import opened Students
  import opened Storage

  predicate IsDigit(c: char) {
    '0' <= c <= '9'
  }

  /** `/^RA\d{13}$/`: 'RA' and thirteen digits, nothing else. */
  predicate IsRegNumberFormat(s: string) {
    |s| == 15 && s[..2] == "RA" && forall i :: 2 <= i < 15 ==> IsDigit(s[i])
  }

  /** `stem` followed by a character in `[lo-hi]`, starting at position `k`. */
  predicate StemAt(s: string, k: int, stem: string, lo: char, hi: char) {
    0 <= k && k + |stem| < |s| && s[k..k + |stem|] == stem && lo <= s[k + |stem|] <= hi
  }

  /** The unanchored regular expression `stem[lo-hi]`. */
  predicate StemAnywhere(s: string, stem: string, lo: char, hi: char) {
    exists k :: 0 <= k < |s| && StemAt(s, k, stem, lo, hi)
  }

  /** `stem[lo-hi]$`. */
  predicate StemAtEnd(s: string, stem: string, lo: char, hi: char) {
    StemAt(s, |s| - |stem| - 1, stem, lo, hi)
  }

  /**
   * `/^RA241104301007[4-9]|RA241104301008[0-4]$/` (line 83): starts with
   * the first alternative or ends with the second.
   */
  predicate RenamePattern(reg: string) {
    StemAt(reg, 0, "RA241104301007", '4', '9') || StemAtEnd(reg, "RA241104301008", '0', '4')
  }

  /**
   * `isDefaultStudent`: starts with `RA241104301006[2-9]`, or contains
   * `RA24110430100[7-9]` followed by a digit anywhere, or ends with
   * `RA24110430101[0-1][0-9]`.
   */
  predicate DefaultStudentPattern(reg: string) {
    || StemAt(reg, 0, "RA241104301006", '2', '9')
    || StemAnywhere(reg, "RA241104301007", '0', '9')
    || StemAnywhere(reg, "RA241104301008", '0', '9')
    || StemAnywhere(reg, "RA241104301009", '0', '9')
    || (StemAt(reg, |reg| - 15, "RA24110430101", '0', '1') && IsDigit(reg[|reg| - 1]))
  }

  /** The number formed by the last three digits of a registration number. */
  function Serial(reg: string): (n: int)
    requires IsRegNumberFormat(reg)
    ensures 0 <= n <= 999
  {
    (reg[12] - '0') as int * 100 + (reg[13] - '0') as int * 10 + (reg[14] - '0') as int
  }

  /** A prefix equal to a concatenation, part by part. */
  lemma PrefixConcat(s: string, a: string, b: string)
    requires |a| + |b| <= |s|
    ensures s[..|a| + |b|] == a + b <==> s[..|a|] == a && s[|a|..|a| + |b|] == b
  {
    assert s[..|a| + |b|] == s[..|a|] + s[|a|..|a| + |b|];
    if s[..|a| + |b|] == a + b {
      assert s[..|a|] == (a + b)[..|a|];
      assert s[|a|..|a| + |b|] == (a + b)[|a|..];
    }
  }

  /** A two-character slice, character by character. */
  lemma TwoChars(s: string, k: nat, c1: char, c2: char)
    requires k + 2 <= |s|
    ensures s[k..k + 2] == [c1, c2] <==> s[k] == c1 && s[k + 1] == c2
  {
    if s[k] == c1 && s[k + 1] == c2 {
      assert s[k..k + 2] == [c1, c2];
    }
  }

  /** The common prefix of the built-in numbers followed by two given digits. */
  lemma Stem14(reg: string, stem: string, c1: char, c2: char)
    requires |reg| == 15 && stem == "RA2411043010" + [c1, c2]
    ensures reg[..14] == stem <==> reg[..12] == "RA2411043010" && reg[12] == c1 && reg[13] == c2
  {
    PrefixConcat(reg, "RA2411043010", [c1, c2]);
    TwoChars(reg, 12, c1, c2);
  }

  /** A 15-character text can hold a 14-character stem and one more character only at its start. */
  lemma StemOnlyAtStart(reg: string, stem: string, lo: char, hi: char)
    requires |reg| == 15 && |stem| == 14
    ensures StemAnywhere(reg, stem, lo, hi) <==> StemAt(reg, 0, stem, lo, hi)
    ensures StemAtEnd(reg, stem, lo, hi) <==> StemAt(reg, 0, stem, lo, hi)
  {
  }

  /**
   * On well-formed registration numbers the rename pattern is the range
   * RA2411043010074 to RA2411043010084.
   */
  lemma RenamePatternRange(reg: string)
    requires IsRegNumberFormat(reg)
    ensures RenamePattern(reg) <==> reg[..12] == "RA2411043010" && 74 <= Serial(reg) <= 84
  {
    StemOnlyAtStart(reg, "RA241104301008", '0', '4');
    assert "RA241104301007" == "RA2411043010" + ['0', '7'];
    assert "RA241104301008" == "RA2411043010" + ['0', '8'];
    Stem14(reg, "RA241104301007", '0', '7');
    Stem14(reg, "RA241104301008", '0', '8');
  }

  /**
   * On well-formed registration numbers `isDefaultStudent` is the range
   * RA2411043010062 to RA2411043010119.
   */
  lemma DefaultStudentPatternRange(reg: string)
    requires IsRegNumberFormat(reg)
    ensures DefaultStudentPattern(reg) <==> reg[..12] == "RA2411043010" && 62 <= Serial(reg) <= 119
  {
    StemOnlyAtStart(reg, "RA241104301007", '0', '9');
    StemOnlyAtStart(reg, "RA241104301008", '0', '9');
    StemOnlyAtStart(reg, "RA241104301009", '0', '9');
    assert "RA241104301006" == "RA2411043010" + ['0', '6'];
    assert "RA241104301007" == "RA2411043010" + ['0', '7'];
    assert "RA241104301008" == "RA2411043010" + ['0', '8'];
    assert "RA241104301009" == "RA2411043010" + ['0', '9'];
    Stem14(reg, "RA241104301006", '0', '6');
    Stem14(reg, "RA241104301007", '0', '7');
    Stem14(reg, "RA241104301008", '0', '8');
    Stem14(reg, "RA241104301009", '0', '9');
    assert "RA24110430101" == "RA2411043010" + ['1'];
    PrefixConcat(reg, "RA2411043010", ['1']);
    assert reg[..13][12] == reg[12];
  }

  /** Each half of the rename pattern is anchored on one side only. */
  lemma RenamePatternHalfAnchored()
    ensures RenamePattern("RA2411043010074-extra")
    ensures RenamePattern("extra-RA2411043010080")
    ensures !RenamePattern("RA2411043010085")
  {
    assert "RA2411043010074-extra"[0..14] == "RA241104301007";
    var s := "extra-RA2411043010080";
    assert s[6..20] == "RA241104301008";
    var t := "RA2411043010085";
    assert t[0..14] != "RA241104301007" by { assert t[13] != "RA241104301007"[13]; }
    assert t[14] == '5';
  }

  /** The middle alternatives of `isDefaultStudent` match anywhere in the text. */
  lemma DefaultStudentPatternUnanchored()
    ensures DefaultStudentPattern("x-RA2411043010090-y")
  {
    var s := "x-RA2411043010090-y";
    assert s[2..16] == "RA241104301009";
    assert StemAt(s, 2, "RA241104301009", '0', '9');
  }

  /**
   * What `handleAddStudent` checks before calling `addStudent`: both fields
   * filled in, and the registration number in the 'RA' plus 13 digits
   * format. None when the student may be added.
   */
  function AddStudentError(regNumber: string, name: string): (error: Option<string>)
    ensures error.None? <==> name != "" && IsRegNumberFormat(regNumber)
    ensures regNumber == "" || name == "" ==> error == Some("Please fill in all fields")
  {
    if regNumber == "" || name == "" then Some("Please fill in all fields")
    else if !IsRegNumberFormat(regNumber) then Some("Registration number must be in the format RA followed by 13 digits")
    else None
  }

  /**
   * `handleAddStudent`: a rejected form stores nothing; an accepted one is
   * added unless its registration number is already on the roster.
   */
  method HandleAddStudent(st: LocalStore, regNumber: string, name: string) returns (error: Option<string>)
    modifies st`additionalStudents
    ensures error.None? <==> AddStudentError(regNumber, name).None?
                             && !Registered(AllStudents(st.catalog.students, old(st.additionalStudents)), regNumber)
    ensures st.additionalStudents == if error.None? then old(st.additionalStudents) + [Student(regNumber, name, None)]
                                     else old(st.additionalStudents)
  {
    error := AddStudentError(regNumber, name);
    if error.Some? {
      return;
    }
    var ok := AddStudent(st, Student(regNumber, name, None));
    if !ok {
      error := Some("A student with this registration number already exists");
    }
  }

  /**
   * `handleDeleteStudent`: the administrator's number is refused before the
   * confirmation is asked; after a confirmation `deleteStudent` refuses the
   * built-in students.
   */
  method HandleDeleteStudent(st: LocalStore, regNumber: string, confirmed: bool) returns (error: Option<string>)
    modifies st`additionalStudents
    ensures regNumber == AdminRegNumber ==> error == Some("Cannot delete admin account")
    ensures error.Some? ==> st.additionalStudents == old(st.additionalStudents)
    ensures regNumber != AdminRegNumber && !confirmed ==> error.None? && st.additionalStudents == old(st.additionalStudents)
    ensures regNumber != AdminRegNumber && confirmed ==>
              (error.None? <==> !Registered(st.catalog.students, regNumber))
              && (error.None? ==> st.additionalStudents == WithoutReg(old(st.additionalStudents), regNumber))
  {
    if regNumber == AdminRegNumber {
      return Some("Cannot delete admin account");
    }
    error := None;
    if confirmed {
      var ok := DeleteStudent(st, regNumber);
      if !ok {
        error := Some("Cannot delete default students");
      }
    }
  }

  /** `additional.map(s => s.regNumber === reg ? { ...s, name } : s)`. */
  function Rename(students: seq<Student>, reg: string, name: string): (r: seq<Student>)
    ensures |r| == |students|
    ensures forall i :: 0 <= i < |students| ==>
              r[i] == if students[i].regNumber == reg then students[i].(name := name) else students[i]
  {
    seq(|students|, i requires 0 <= i < |students| =>
      if students[i].regNumber == reg then students[i].(name := name) else students[i])
  }

  /**
   * `handleUpdateStudent`: nothing without a student being edited; a blank
   * name is refused; a number matching the rename pattern gets an override
   * in `modifiedStudents`, any other renames the additional records with
   * that number.
   */
  method HandleUpdateStudent(st: LocalStore, editing: Option<Student>, newName: string) returns (error: Option<string>)
    modifies st`modifiedStudents, st`additionalStudents
    ensures editing.None? || IsBlank(newName) ==>
              st.modifiedStudents == old(st.modifiedStudents) && st.additionalStudents == old(st.additionalStudents)
    ensures error.Some? <==> editing.Some? && IsBlank(newName)
    ensures editing.Some? && !IsBlank(newName) && RenamePattern(editing.value.regNumber) ==>
              st.modifiedStudents == old(st.modifiedStudents)[editing.value.regNumber := newName]
              && st.additionalStudents == old(st.additionalStudents)
    ensures editing.Some? && !IsBlank(newName) && !RenamePattern(editing.value.regNumber) ==>
              st.additionalStudents == Rename(old(st.additionalStudents), editing.value.regNumber, newName)
              && st.modifiedStudents == old(st.modifiedStudents)
  {
    if editing.None? {
      return None;
    }
    TrimEmptyIffBlank(newName);
    if Trim(newName) == "" {
      return Some("Please enter a name");
    }
    var reg := editing.value.regNumber;
    if RenamePattern(reg) {
      st.modifiedStudents := st.modifiedStudents[reg := newName];
    } else {
      st.additionalStudents := Rename(st.additionalStudents, reg, newName);
    }
    return None;
  }

  /** A rename routed to the override map shows for a built-in student. */
  lemma RenameOverrideShown(builtIns: seq<Student>, modified: map<string, string>, additional: seq<Student>, reg: string, name: string)
    requires Registered(builtIns, reg) && !IsBlank(name)
    ensures StudentNameSync(builtIns, modified[reg := name], additional, reg) == name
  {
  }

  /**
   * A rename routed to the additional records leaves the name shown for a
   * built-in student as it was: such edits of built-ins outside the
   * pattern's range are lost.
   */
  lemma RenameOfBuiltInLost(builtIns: seq<Student>, modified: map<string, string>, additional: seq<Student>, reg: string, name: string)
    requires Registered(builtIns, reg)
    ensures StudentNameSync(builtIns, modified, Rename(additional, reg, name), reg)
         == StudentNameSync(builtIns, modified, additional, reg)
  {
    var i :| 0 <= i < |builtIns| && builtIns[i].regNumber == reg;
    assert builtIns[i] in builtIns;
  }

  /** A rename routed to the additional records shows for an additional student. */
  lemma RenameAdditionalShown(builtIns: seq<Student>, modified: map<string, string>, additional: seq<Student>, reg: string, name: string)
    requires !Registered(builtIns, reg) && Registered(additional, reg)
    ensures StudentNameSync(builtIns, modified, Rename(additional, reg, name), reg) == name
  {
    var renamed := Rename(additional, reg, name);
    var i :| 0 <= i < |additional| && additional[i].regNumber == reg;
    assert renamed[i].regNumber == reg;
    var j :| 0 <= j < |renamed| && renamed[j].regNumber == reg && StudentNameSync(builtIns, modified, renamed, reg) == renamed[j].name;
    assert additional[j].regNumber == reg;
  }
}
