/**
 * The storage helpers behind the application's API routes: each loads a
 * stored list, changes it in place and writes it back.
 */
module ServerStorage {
  import opened Wrappers
  import opened Types
  import opened Lists
  import opened Storage
  import opened Students

  /**
   * `addServerStudent`: pushes the student and answers true unless an
   * additional student already has the registration number; then false
   * and nothing is written.
   */
  method AddServerStudent(st: LocalStore, s: Student) returns (ok: bool)
    modifies st`additionalStudents
    ensures ok <==> !Registered(old(st.additionalStudents), s.regNumber)
    ensures st.additionalStudents == if ok then old(st.additionalStudents) + [s] else old(st.additionalStudents)
  {
    var students := st.additionalStudents;
    if Find(students, RegIs(s.regNumber)).None? {
      students := students + [s];
      st.additionalStudents := students;
      return true;
    }
    return false;
  }

  /** Pushing only unregistered numbers keeps registration numbers distinct. */
  lemma AddServerKeepsRegsDistinct(students: seq<Student>, s: Student)
    requires DistinctRegs(students) && !Registered(students, s.regNumber)
    ensures DistinctRegs(students + [s])
  {
    assert forall i :: 0 <= i < |students| ==> (students + [s])[i] == students[i];
  }

  /**
   * `deleteServerStudent`: the students without the registration number;
   * written, with answer true, exactly when that dropped at least one.
   */
  method DeleteServerStudent(st: LocalStore, reg: string) returns (ok: bool)
    modifies st`additionalStudents
    ensures ok <==> Registered(old(st.additionalStudents), reg)
    ensures st.additionalStudents == if ok then WithoutReg(old(st.additionalStudents), reg) else old(st.additionalStudents)
  {
    var students := st.additionalStudents;
    var filtered := WithoutReg(students, reg);
    FilterKeepsLength(students, RegIsNot(reg));
    if |filtered| != |students| {
      st.additionalStudents := filtered;
      return true;
    }
    return false;
  }

  /**
   * Deleting keeps the other students in order: a student whose number is
   * not the deleted one survives, and a list without it is unchanged.
   */
  lemma DeleteServerKeepsOthers(students: seq<Student>, reg: string)
    ensures forall s :: s in students && s.regNumber != reg ==> s in WithoutReg(students, reg)
    ensures !Registered(students, reg) ==> WithoutReg(students, reg) == students
  {
    if !Registered(students, reg) {
      FilterAll(students, RegIsNot(reg));
    }
  }

  /**
   * `updateServerStudent`: renames the first student with the number in
   * place and answers true; without one answers false and writes nothing.
   */
  method UpdateServerStudent(st: LocalStore, reg: string, name: string) returns (ok: bool)
    modifies st`additionalStudents
    ensures ok <==> Registered(old(st.additionalStudents), reg)
    ensures var before := old(st.additionalStudents);
            ok ==> (exists i :: 0 <= i < |before| && before[i].regNumber == reg
                              && (forall j :: 0 <= j < i ==> before[j].regNumber != reg)
                              && st.additionalStudents == before[i := before[i].(name := name)])
    ensures !ok ==> st.additionalStudents == old(st.additionalStudents)
  {
    var students := st.additionalStudents;
    var index := FindIndex(students, RegIs(reg));
    if index.Some? {
      students := students[index.value := students[index.value].(name := name)];
      st.additionalStudents := students;
      return true;
    }
    return false;
  }

  /** `r => r.regNumber === reg` on results. */
  function ResultRegIs(reg: string): QuizResult -> bool {
    (r: QuizResult) => r.regNumber == reg
  }

  /** No registration number has two results. */
  predicate DistinctResultRegs(results: seq<QuizResult>) {
    forall i, j :: 0 <= i < j < |results| ==> results[i].regNumber != results[j].regNumber
  }

  /**
   * What `addQuizResult` stores: the result in place of the first one with
   * its registration number, or pushed when there is none.
   */
  function UpsertResult(results: seq<QuizResult>, r: QuizResult): (u: seq<QuizResult>)
    ensures r in u
    ensures |results| <= |u| <= |results| + 1
    ensures |u| == |results| + 1 <==> forall i :: 0 <= i < |results| ==> results[i].regNumber != r.regNumber
    ensures || (exists i :: 0 <= i < |results| && results[i].regNumber == r.regNumber
                            && (forall j :: 0 <= j < i ==> results[j].regNumber != r.regNumber)
                            && u == results[i := r])
            || ((forall x :: x in results ==> x.regNumber != r.regNumber) && u == results + [r])
  {
    match FindIndex(results, ResultRegIs(r.regNumber))
    case Some(i) =>
      assert results[i := r][i] == r;
      results[i := r]
    case None => results + [r]
  }

  /** Registration numbers that had one result each still do after an upsert, and the new result is the only one of its number. */
  lemma UpsertKeepsRegsDistinct(results: seq<QuizResult>, r: QuizResult)
    requires DistinctResultRegs(results)
    ensures DistinctResultRegs(UpsertResult(results, r))
    ensures forall x :: x in UpsertResult(results, r) && x.regNumber == r.regNumber ==> x == r
  {
    var u := UpsertResult(results, r);
    if FindIndex(results, ResultRegIs(r.regNumber)).None? {
      assert forall i :: 0 <= i < |results| ==> u[i] == results[i];
    }
  }

  /** `addQuizResult`: stores the upserted list and always answers true. */
  method AddQuizResult(st: LocalStore, r: QuizResult) returns (ok: bool)
    modifies st`quizResults
    ensures ok
    ensures st.quizResults == UpsertResult(old(st.quizResults), r)
  {
    var results := st.quizResults;
    var existing := FindIndex(results, ResultRegIs(r.regNumber));
    if existing.Some? {
      results := results[existing.value := r];
    } else {
      results := results + [r];
    }
    st.quizResults := results;
    return true;
  }

  /** `getQuizSettings` of the API: the stored settings, or `{ totalQuestions: 10 }`. */
  function GetServerQuizSettings(stored: Option<QuizSettings>): (s: QuizSettings)
    ensures stored.Some? ==> s == stored.value
    ensures stored.None? ==> s == QuizSettings(Some(10), None, None, None, None, None, None, None)
  {
    stored.GetOr(QuizSettings(Some(10), None, None, None, None, None, None, None))
  }
}
