/**
 * The class roster kept in the browser: the built-in students followed by
 * the stored additional students, name overrides for built-ins in a
 * `modifiedStudents` map, and penalties, for built-ins in a
 * `studentPenalties` map and for additional students on their records.
 */
module Students {
  import opened Wrappers
  import opened Types
  import opened Lists
  import opened Storage

  /** `s => s.regNumber === reg`. */
  function RegIs(reg: string): Student -> bool {
    (s: Student) => s.regNumber == reg
  }

  /** `s => s.regNumber !== reg`. */
  function RegIsNot(reg: string): Student -> bool {
    (s: Student) => s.regNumber != reg
  }

  /** `students.some(s => s.regNumber === reg)`. */
  predicate Registered(students: seq<Student>, reg: string) {
    exists i :: 0 <= i < |students| && students[i].regNumber == reg
  }

  /** No registration number occurs twice. */
  predicate DistinctRegs(students: seq<Student>) {
    forall i, j :: 0 <= i < j < |students| ==> students[i].regNumber != students[j].regNumber
  }

  /** `getAllStudents`: the built-in students, then the additional ones. */
  function AllStudents(builtIns: seq<Student>, additional: seq<Student>): (r: seq<Student>)
    ensures forall reg :: Registered(r, reg) <==> Registered(builtIns, reg) || Registered(additional, reg)
  {
    RegisteredConcat(builtIns, additional);
    builtIns + additional
  }

  lemma RegisteredConcat(a: seq<Student>, b: seq<Student>)
    ensures forall reg :: Registered(a + b, reg) <==> Registered(a, reg) || Registered(b, reg)
  {
    forall reg ensures Registered(a + b, reg) <==> Registered(a, reg) || Registered(b, reg) {
      if Registered(a, reg) {
        var i :| 0 <= i < |a| && a[i].regNumber == reg;
        assert (a + b)[i] == a[i];
      }
      if Registered(b, reg) {
        var i :| 0 <= i < |b| && b[i].regNumber == reg;
        assert (a + b)[|a| + i] == b[i];
      }
      if Registered(a + b, reg) {
        var i :| 0 <= i < |a + b| && (a + b)[i].regNumber == reg;
        if i >= |a| { assert (a + b)[i] == b[i - |a|]; }
      }
    }
  }

  /**
   * `addStudent`: refused (false, nothing stored) when the registration
   * number is already on the roster; otherwise the student is pushed.
   */
  method AddStudent(st: LocalStore, s: Student) returns (ok: bool)
    modifies st`additionalStudents
    ensures ok <==> !Registered(AllStudents(st.catalog.students, old(st.additionalStudents)), s.regNumber)
    ensures st.additionalStudents == if ok then old(st.additionalStudents) + [s] else old(st.additionalStudents)
  {
    var all := AllStudents(st.catalog.students, st.additionalStudents);
    if Find(all, RegIs(s.regNumber)).Some? {
      return false;
    }
    st.additionalStudents := st.additionalStudents + [s];
    return true;
  }

  /** A roster without repeated registration numbers keeps that property through an accepted add. */
  lemma AddKeepsRegsDistinct(builtIns: seq<Student>, additional: seq<Student>, s: Student)
    requires DistinctRegs(AllStudents(builtIns, additional))
    requires !Registered(AllStudents(builtIns, additional), s.regNumber)
    ensures DistinctRegs(AllStudents(builtIns, additional + [s]))
    ensures Registered(AllStudents(builtIns, additional + [s]), s.regNumber)
  {
    var before := AllStudents(builtIns, additional);
    var after := AllStudents(builtIns, additional + [s]);
    assert after == before + [s];
    assert after[|before|] == s;
  }

  /** `additional.filter(s => s.regNumber !== reg)`. */
  function WithoutReg(students: seq<Student>, reg: string): (r: seq<Student>)
    ensures !Registered(r, reg)
  {
    var r := Filter(students, RegIsNot(reg));
    assert forall i :: 0 <= i < |r| ==> r[i] in r;
    r
  }

  /**
   * `deleteStudent`: refused (false, nothing changed) for a built-in
   * registration number; otherwise every additional student with it is
   * removed and the answer is true, whether or not there was one.
   */
  method DeleteStudent(st: LocalStore, reg: string) returns (ok: bool)
    modifies st`additionalStudents
    ensures ok <==> !Registered(st.catalog.students, reg)
    ensures st.additionalStudents == if ok then WithoutReg(old(st.additionalStudents), reg) else old(st.additionalStudents)
  {
    if Find(st.catalog.students, RegIs(reg)).Some? {
      return false;
    }
    st.additionalStudents := WithoutReg(st.additionalStudents, reg);
    return true;
  }

  /**
   * After an accepted delete the registration number is gone from the
   * roster, and every other registration number resolves to the same
   * student as before.
   */
  lemma DeleteUnregisters(builtIns: seq<Student>, additional: seq<Student>, reg: string)
    requires !Registered(builtIns, reg)
    ensures !Registered(AllStudents(builtIns, WithoutReg(additional, reg)), reg)
    ensures forall other :: other != reg ==>
              Find(AllStudents(builtIns, WithoutReg(additional, reg)), RegIs(other))
              == Find(AllStudents(builtIns, additional), RegIs(other))
  {
    forall other | other != reg
      ensures Find(AllStudents(builtIns, WithoutReg(additional, reg)), RegIs(other))
              == Find(AllStudents(builtIns, additional), RegIs(other))
    {
      FindAppend(builtIns, WithoutReg(additional, reg), RegIs(other));
      FindAppend(builtIns, additional, RegIs(other));
      FindFiltered(additional, RegIsNot(reg), RegIs(other));
    }
  }

  /** `modifiedStudents[reg]` is truthy: present and not the empty string. */
  predicate HasOverride(modified: map<string, string>, reg: string) {
    reg in modified && modified[reg] != ""
  }

  /**
   * `getStudentNameSync`: a built-in student's name, or its non-empty
   * override; else the first additional student's name; else
   * 'Unknown Student'.
   */
  function StudentNameSync(builtIns: seq<Student>, modified: map<string, string>, additional: seq<Student>, reg: string): (name: string)
    ensures !Registered(builtIns, reg) && !Registered(additional, reg) ==> name == "Unknown Student"
    ensures Registered(builtIns, reg) && HasOverride(modified, reg) ==> name == modified[reg]
    ensures Registered(builtIns, reg) && !HasOverride(modified, reg) ==>
              exists i :: 0 <= i < |builtIns| && builtIns[i].regNumber == reg && name == builtIns[i].name
                          && forall j :: 0 <= j < i ==> builtIns[j].regNumber != reg
    ensures !Registered(builtIns, reg) && Registered(additional, reg) ==>
              exists i :: 0 <= i < |additional| && additional[i].regNumber == reg && name == additional[i].name
                          && forall j :: 0 <= j < i ==> additional[j].regNumber != reg
  {
    match Find(builtIns, RegIs(reg))
    case Some(b) => if HasOverride(modified, reg) then modified[reg] else b.name
    case None =>
      match Find(additional, RegIs(reg))
      case Some(a) => a.name
      case None =>
        "Unknown Student"
  }

  /**
   * The local part of `getStudentName`: the same lookups as
   * `getStudentNameSync`; None where it would go on to ask the server.
   */
  function LocalStudentName(builtIns: seq<Student>, modified: map<string, string>, additional: seq<Student>, reg: string): (name: Option<string>)
    ensures name.None? <==> forall s :: s in builtIns + additional ==> s.regNumber != reg
  {
    match Find(builtIns, RegIs(reg))
    case Some(b) => Some(if HasOverride(modified, reg) then modified[reg] else b.name)
    case None =>
      match Find(additional, RegIs(reg))
      case Some(a) => Some(a.name)
      case None => None
  }

  /**
   * The asynchronous lookup agrees with the synchronous one wherever it
   * answers locally, and it turns to the server exactly for the numbers the
   * synchronous one calls 'Unknown Student' for lack of a record.
   */
  lemma LocalNameAgrees(builtIns: seq<Student>, modified: map<string, string>, additional: seq<Student>, reg: string)
    ensures var local := LocalStudentName(builtIns, modified, additional, reg);
            && (local.Some? ==> local.value == StudentNameSync(builtIns, modified, additional, reg))
            && (local.None? <==> !Registered(AllStudents(builtIns, additional), reg))
  {
    if Registered(builtIns, reg) {
      var i :| 0 <= i < |builtIns| && builtIns[i].regNumber == reg;
      assert builtIns[i] in builtIns;
    } else if Registered(additional, reg) {
      var i :| 0 <= i < |additional| && additional[i].regNumber == reg;
      assert additional[i] in additional;
    }
  }

  /** A student just added is found under their registration number by name. */
  lemma AddedStudentNamed(builtIns: seq<Student>, modified: map<string, string>, additional: seq<Student>, s: Student)
    requires !Registered(AllStudents(builtIns, additional), s.regNumber)
    ensures StudentNameSync(builtIns, modified, additional + [s], s.regNumber) == s.name
  {
    FindAppend(additional, [s], RegIs(s.regNumber));
    assert [s][0] == s;
  }

  /** `additional.map(s => s.regNumber === reg ? { ...s, penalty } : s)`. */
  function SetPenalty(students: seq<Student>, reg: string, penalty: int): (r: seq<Student>)
    ensures |r| == |students|
    ensures forall i :: 0 <= i < |students| ==>
              r[i] == if students[i].regNumber == reg then students[i].(penalty := Some(penalty)) else students[i]
  {
    seq(|students|, i requires 0 <= i < |students| =>
      if students[i].regNumber == reg then students[i].(penalty := Some(penalty)) else students[i])
  }

  /**
   * `applyPenalty`: refused (false, nothing stored) for a number not on the
   * roster; for a built-in student the penalty goes into the penalty map,
   * for an additional one onto every record with the number.
   */
  method ApplyPenalty(st: LocalStore, reg: string, penalty: int) returns (ok: bool)
    modifies st`studentPenalties, st`additionalStudents
    ensures ok <==> Registered(AllStudents(st.catalog.students, old(st.additionalStudents)), reg)
    ensures !ok ==> st.studentPenalties == old(st.studentPenalties) && st.additionalStudents == old(st.additionalStudents)
    ensures ok && Registered(st.catalog.students, reg) ==>
              st.studentPenalties == old(st.studentPenalties)[reg := penalty] && st.additionalStudents == old(st.additionalStudents)
    ensures ok && !Registered(st.catalog.students, reg) ==>
              st.additionalStudents == SetPenalty(old(st.additionalStudents), reg, penalty) && st.studentPenalties == old(st.studentPenalties)
  {
    var all := AllStudents(st.catalog.students, st.additionalStudents);
    if Find(all, RegIs(reg)).None? {
      return false;
    }
    if Find(st.catalog.students, RegIs(reg)).Some? {
      st.studentPenalties := st.studentPenalties[reg := penalty];
      return true;
    }
    st.additionalStudents := SetPenalty(st.additionalStudents, reg, penalty);
    return true;
  }

  /**
   * `getStudentPenalty`: the penalty map's entry when it has one; else the
   * first additional record's penalty, with a missing or zero penalty read
   * as 0.
   */
  function StudentPenalty(penalties: map<string, int>, additional: seq<Student>, reg: string): (p: int)
    ensures reg in penalties ==> p == penalties[reg]
    ensures reg !in penalties && !Registered(additional, reg) ==> p == 0
    ensures reg !in penalties && Registered(additional, reg) ==>
              exists i :: 0 <= i < |additional| && additional[i].regNumber == reg
                          && (forall j :: 0 <= j < i ==> additional[j].regNumber != reg)
                          && p == additional[i].penalty.GetOr(0)
  {
    if reg in penalties then penalties[reg]
    else
      match Find(additional, RegIs(reg))
      case Some(s) => s.penalty.GetOr(0)
      case None =>
        0
  }

  /**
   * A penalty applied is read back: always for a built-in student; for an
   * additional student when the penalty map has no entry for the number.
   */
  lemma PenaltyReadBack(builtIns: seq<Student>, penalties: map<string, int>, additional: seq<Student>, reg: string, penalty: int)
    requires Registered(AllStudents(builtIns, additional), reg)
    ensures Registered(builtIns, reg) ==> StudentPenalty(penalties[reg := penalty], additional, reg) == penalty
    ensures !Registered(builtIns, reg) && reg !in penalties ==>
              StudentPenalty(penalties, SetPenalty(additional, reg, penalty), reg) == penalty
  {
    if !Registered(builtIns, reg) && reg !in penalties {
      var updated := SetPenalty(additional, reg, penalty);
      var i :| 0 <= i < |additional| && additional[i].regNumber == reg;
      assert updated[i].regNumber == reg;
      assert updated[i] in updated;
      var found := Find(updated, RegIs(reg));
      assert found.Some?;
      var j :| 0 <= j < |updated| && updated[j] == found.value;
      assert found.value.penalty == Some(penalty);
    }
  }
}
