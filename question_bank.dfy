/**
 * The regular question bank kept in the browser: the built-in questions
 * patched by stored modifications and followed by the stored additional
 * questions; the bulk time-limit update; and the random draw of an
 * attempt's questions.
 */
module QuestionBank {
  import opened Wrappers
  import opened Types
  import opened Storage

  /** The settings the code falls back to; they are never returned. */
  const DefaultSettings: QuizSettings :=
    QuizSettings(Some(15), Some(10), Some(12), Some(15), Some(8), Some(4), Some(3), None)

  /**
   * `getQuizSettings`: the stored settings. A missing key falls back to the
   * string '[]', which is truthy, so it parses to an empty array: every
   * setting is absent, and the defaults are never used.
   */
  function GetQuizSettings(stored: Option<QuizSettings>): (s: QuizSettings)
    ensures stored.Some? ==> s == stored.value
    ensures stored.None? ==> s != DefaultSettings && s == QuizSettings(None, None, None, None, None, None, None, None)
  {
    match stored
    case Some(settings) => settings
    case None => QuizSettings(None, None, None, None, None, None, None, None)
  }

  /** `qs.findIndex(q => q.id === id)`. */
  function FirstIndex(qs: seq<Question>, id: int): (r: Option<nat>)
    ensures r.Some? ==> r.value < |qs| && qs[r.value].id == id && forall j :: 0 <= j < r.value ==> qs[j].id != id
    ensures r.None? ==> forall j :: 0 <= j < |qs| ==> qs[j].id != id
  {
    if qs == [] then None
    else if qs[0].id == id then Some(0)
    else match FirstIndex(qs[1..], id)
      case None => None
      case Some(i) => Some(i + 1)
  }

  /** Two question lists carry the same ids at the same positions. */
  ghost predicate SameIds(a: seq<Question>, b: seq<Question>) {
    |a| == |b| && forall i :: 0 <= i < |a| ==> a[i].id == b[i].id
  }

  /** `findIndex` by id only looks at ids. */
  lemma FirstIndexSameIds(a: seq<Question>, b: seq<Question>, id: int)
    requires SameIds(a, b)
    ensures FirstIndex(a, id) == FirstIndex(b, id)
  {
    var ra, rb := FirstIndex(a, id), FirstIndex(b, id);
    if ra.Some? && rb.Some? {
      assert !(ra.value < rb.value) && !(rb.value < ra.value);
    }
  }

  /** One modification applied: it patches the first question with its id, if any. */
  function PatchStep(qs: seq<Question>, m: QuestionPatch): (r: seq<Question>)
    ensures SameIds(r, qs)
    ensures FirstIndex(qs, m.id).None? ==> r == qs
    ensures FirstIndex(qs, m.id).Some? ==>
              var i := FirstIndex(qs, m.id).value;
              r[i] == ApplyPatch(qs[i], m) && forall j :: 0 <= j < |qs| && j != i ==> r[j] == qs[j]
  {
    match FirstIndex(qs, m.id)
    case None => qs
    case Some(i) => qs[i := ApplyPatch(qs[i], m)]
  }

  /** The built-in questions with the stored modifications applied in order. */
  function Patched(defaults: seq<Question>, mods: seq<QuestionPatch>): (r: seq<Question>)
    ensures SameIds(r, defaults)
  {
    if mods == [] then defaults
    else PatchStep(Patched(defaults, mods[..|mods| - 1]), mods[|mods| - 1])
  }

  /** What `getAllQuestions` returns. */
  function AllQuestions(defaults: seq<Question>, mods: seq<QuestionPatch>, additional: seq<Question>): (r: seq<Question>)
    ensures |r| == |defaults| + |additional|
    ensures r[|defaults|..] == additional
    ensures forall i :: 0 <= i < |defaults| ==> r[i].id == defaults[i].id
  {
    Patched(defaults, mods) + additional
  }

  /**
   * A further modification for an id no built-in question has changes
   * nothing; one for a built-in id patches the first question with that id
   * over everything earlier modifications did, and touches no other.
   */
  lemma PatchedAppend(defaults: seq<Question>, mods: seq<QuestionPatch>, m: QuestionPatch)
    ensures (forall q :: q in defaults ==> q.id != m.id) ==> Patched(defaults, mods + [m]) == Patched(defaults, mods)
    ensures FirstIndex(defaults, m.id).Some? ==>
              var i := FirstIndex(defaults, m.id).value;
              && Patched(defaults, mods + [m])[i] == ApplyPatch(Patched(defaults, mods)[i], m)
              && forall j :: 0 <= j < |defaults| && j != i ==> Patched(defaults, mods + [m])[j] == Patched(defaults, mods)[j]
  {
    assert (mods + [m])[..|mods|] == mods;
    FirstIndexSameIds(Patched(defaults, mods), defaults, m.id);
    if FirstIndex(defaults, m.id).Some? {
      assert defaults[FirstIndex(defaults, m.id).value] in defaults;
    }
  }

  /**
   * `getAllQuestions`: a copy of the built-in questions; each stored
   * modification, in order, is spread over the first question with its id;
   * then the additional questions are pushed.
   */
  method GetAllQuestions(st: LocalStore) returns (all: seq<Question>)
    ensures all == AllQuestions(st.catalog.questions, st.modifiedQuestions, st.additionalQuestions)
  {
    var defaults := st.catalog.questions;
    var a := new Question[|defaults|](i requires 0 <= i < |defaults| => defaults[i]);
    assert a[..] == defaults;
    ApplyModifications(a, st.modifiedQuestions);
    all := a[..] + st.additionalQuestions;
  }

  /** The `forEach` over the stored modifications, spreading each over the first question with its id. */
  method ApplyModifications(a: array<Question>, mods: seq<QuestionPatch>)
    modifies a
    ensures a[..] == Patched(old(a[..]), mods)
  {
    ghost var defaults := a[..];
    for k := 0 to |mods|
      invariant a[..] == Patched(defaults, mods[..k])
    {
      assert mods[..k + 1][..k] == mods[..k] && mods[..k + 1][k] == mods[k];
      assert Patched(defaults, mods[..k + 1]) == PatchStep(a[..], mods[k]);
      var index := FirstIndex(a[..], mods[k].id);
      if index.Some? {
        a[index.value] := ApplyPatch(a[index.value], mods[k]);
      }
    }
    assert mods[..|mods|] == mods;
  }

  /** `{ ...q, time_limit: t }` for every question of difficulty `d`, others as they are. */
  function Retimed(qs: seq<Question>, d: Difficulty, t: int): (r: seq<Question>)
    ensures SameIds(r, qs)
    ensures forall i :: 0 <= i < |qs| && qs[i].difficulty == d ==> r[i] == qs[i].(timeLimit := t)
    ensures forall i :: 0 <= i < |qs| && qs[i].difficulty != d ==> r[i] == qs[i]
  {
    seq(|qs|, i requires 0 <= i < |qs| => if qs[i].difficulty == d then qs[i].(timeLimit := t) else qs[i])
  }

  /**
   * `mods.find(mq => mq.id === id)`, as a position: the lookup `FirstIndex`
   * makes on questions, made here on the stored modifications, a type that
   * shares no supertype with `Question` to carry the common `id`.
   */
  function FirstModIndex(mods: seq<QuestionPatch>, id: int): (r: Option<nat>)
    ensures r.Some? ==> r.value < |mods| && mods[r.value].id == id && forall j :: 0 <= j < r.value ==> mods[j].id != id
    ensures r.None? ==> forall j :: 0 <= j < |mods| ==> mods[j].id != id
  {
    if mods == [] then None
    else if mods[0].id == id then Some(0)
    else match FirstModIndex(mods[1..], id)
      case None => None
      case Some(i) => Some(i + 1)
  }

  /** The ids of the stored modifications. */
  function ModIds(mods: seq<QuestionPatch>): (ids: seq<int>)
    ensures |ids| == |mods| && forall i :: 0 <= i < |mods| ==> ids[i] == mods[i].id
  {
    seq(|mods|, i requires 0 <= i < |mods| => mods[i].id)
  }

  /**
   * One question of the time update: the first stored modification with its
   * id gets the new limit in place; without one, the whole question with the
   * new limit is pushed as a modification.
   */
  function RetimeMod(mods: seq<QuestionPatch>, q: Question, t: int): (r: seq<QuestionPatch>)
    ensures FirstModIndex(mods, q.id).Some? ==>
              var i := FirstModIndex(mods, q.id).value;
              r == mods[i := mods[i].(timeLimit := Some(t))]
    ensures FirstModIndex(mods, q.id).None? ==> r == mods + [FullPatch(q.(timeLimit := t))]
  {
    match FirstModIndex(mods, q.id)
    case Some(i) => mods[i := mods[i].(timeLimit := Some(t))]
    case None => mods + [FullPatch(q.(timeLimit := t))]
  }

  /** The modifications after retiming each of `qs` in turn. */
  function RetimeMods(mods: seq<QuestionPatch>, qs: seq<Question>, t: int): seq<QuestionPatch> {
    if qs == [] then mods
    else RetimeMod(RetimeMods(mods, qs[..|qs| - 1], t), qs[|qs| - 1], t)
  }

  /** `r` keeps the ids of `p` at the positions `p` has. */
  ghost predicate KeepsIds(p: seq<QuestionPatch>, r: seq<QuestionPatch>) {
    |r| >= |p| && forall i :: 0 <= i < |p| ==> r[i].id == p[i].id
  }

  /** Keeping the ids of `p` keeps where the first modification of an id of `p` is. */
  lemma FirstModIndexKept(p: seq<QuestionPatch>, r: seq<QuestionPatch>, id: int)
    requires KeepsIds(p, r) && FirstModIndex(p, id).Some?
    ensures FirstModIndex(r, id) == FirstModIndex(p, id)
  {
    assert r[FirstModIndex(p, id).value].id == id;
  }

  /**
   * One step of the retiming: the ids already there stay, a pushed entry
   * carries an id no earlier entry has, and the first entry with the
   * question's id carries the new limit; the first entry of every other id
   * is not touched.
   */
  lemma RetimeModStep(p: seq<QuestionPatch>, q: Question, t: int)
    ensures var r := RetimeMod(p, q, t);
            && KeepsIds(p, r) && |r| <= |p| + 1
            && (|r| > |p| ==> r[|p|].id == q.id && forall i :: 0 <= i < |p| ==> p[i].id != q.id)
            && FirstModIndex(r, q.id).Some? && r[FirstModIndex(r, q.id).value].timeLimit == Some(t)
            && forall id :: id != q.id && FirstModIndex(p, id).Some? ==>
                 FirstModIndex(r, id) == FirstModIndex(p, id) && r[FirstModIndex(p, id).value] == p[FirstModIndex(p, id).value]
  {
    var r := RetimeMod(p, q, t);
    assert KeepsIds(p, r);
    if FirstModIndex(p, q.id).Some? {
      FirstModIndexKept(p, r, q.id);
    } else {
      assert r[|p|].id == q.id && forall i :: 0 <= i < |p| ==> r[i].id != q.id;
    }
    forall id | id != q.id && FirstModIndex(p, id).Some?
      ensures FirstModIndex(r, id) == FirstModIndex(p, id)
    {
      FirstModIndexKept(p, r, id);
    }
  }

  /**
   * Retiming edits existing modifications in place and pushes one only for
   * a question whose id has none yet: the old modifications keep their ids
   * and positions, every pushed one has an id no earlier entry has, and each
   * retimed question ends with a first modification of its id that carries
   * the new limit.
   */
  lemma {:induction false} RetimeModsShape(mods: seq<QuestionPatch>, qs: seq<Question>, t: int)
    ensures var r := RetimeMods(mods, qs, t);
            && KeepsIds(mods, r)
            && (forall i, j :: 0 <= i < j < |r| && |mods| <= j ==> r[i].id != r[j].id)
            && (forall q :: q in qs ==> FirstModIndex(r, q.id).Some? && r[FirstModIndex(r, q.id).value].timeLimit == Some(t))
            && forall id :: (forall q :: q in qs ==> q.id != id) && FirstModIndex(mods, id).Some? ==>
                 FirstModIndex(r, id) == FirstModIndex(mods, id) && r[FirstModIndex(mods, id).value] == mods[FirstModIndex(mods, id).value]
  {
    if qs != [] {
      var init := qs[..|qs| - 1];
      var q := qs[|qs| - 1];
      RetimeModsShape(mods, init, t);
      var p := RetimeMods(mods, init, t);
      RetimeModStep(p, q, t);
      var r := RetimeMod(p, q, t);
      forall q' | q' in qs
        ensures FirstModIndex(r, q'.id).Some? && r[FirstModIndex(r, q'.id).value].timeLimit == Some(t)
      {
        if q'.id != q.id {
          assert q' in init;
        }
      }
      forall id | (forall q' :: q' in qs ==> q'.id != id) && FirstModIndex(mods, id).Some?
        ensures FirstModIndex(r, id) == FirstModIndex(mods, id) && r[FirstModIndex(mods, id).value] == mods[FirstModIndex(mods, id).value]
      {
        assert q in qs;
        assert forall q' :: q' in init ==> q' in qs;
      }
    }
  }

  /** The questions whose built-in entry gets a time modification. */
  function ToModify(all: seq<Question>, additional: seq<Question>, d: Difficulty): (r: seq<Question>)
    ensures forall q :: q in r ==> q in all && q.difficulty == d && forall aq :: aq in additional ==> aq.id != q.id
    ensures forall q :: q in all && q.difficulty == d && (forall aq :: aq in additional ==> aq.id != q.id) ==> q in r
  {
    if all == [] then []
    else
      var init := ToModify(all[..|all| - 1], additional, d);
      var q := all[|all| - 1];
      assert forall x :: x in all ==> x in all[..|all| - 1] || x == q by {
        assert all == all[..|all| - 1] + [q];
      }
      if q.difficulty == d && forall aq :: aq in additional ==> aq.id != q.id then init + [q] else init
  }

  /**
   * `updateTimeLimits(d, t)`: every additional question of difficulty `d`
   * gets limit `t`; every other question of difficulty `d` in the bank whose
   * id no additional question has gets it through its modification.
   */
  method UpdateTimeLimits(st: LocalStore, d: Difficulty, t: int)
    modifies st`additionalQuestions, st`modifiedQuestions
    ensures st.additionalQuestions == Retimed(old(st.additionalQuestions), d, t)
    ensures st.modifiedQuestions == RetimeMods(old(st.modifiedQuestions),
              ToModify(old(AllQuestions(st.catalog.questions, st.modifiedQuestions, st.additionalQuestions)),
                       old(st.additionalQuestions), d), t)
  {
    var questions := GetAllQuestions(st);
    var additional := st.additionalQuestions;
    st.additionalQuestions := Retimed(additional, d, t);
    RetimeModifications(st, ToModify(questions, additional, d), t);
  }

  /** The loop over the questions to modify, editing the stored modifications. */
  method RetimeModifications(st: LocalStore, toModify: seq<Question>, t: int)
    modifies st`modifiedQuestions
    ensures st.modifiedQuestions == RetimeMods(old(st.modifiedQuestions), toModify, t)
  {
    var mods := st.modifiedQuestions;
    for k := 0 to |toModify|
      invariant mods == RetimeMods(old(st.modifiedQuestions), toModify[..k], t)
    {
      assert toModify[..k + 1][..k] == toModify[..k];
      var q := toModify[k];
      var existing := FirstModIndex(mods, q.id);
      if existing.Some? {
        mods := mods[existing.value := mods[existing.value].(timeLimit := Some(t))];
      } else {
        mods := mods + [FullPatch(q.(timeLimit := t))];
      }
    }
    assert toModify[..|toModify|] == toModify;
    st.modifiedQuestions := mods;
  }

  /** No two questions share an id, as in the built-in catalogue. */
  ghost predicate DistinctIds(qs: seq<Question>) {
    forall i, j :: 0 <= i < j < |qs| ==> qs[i].id != qs[j].id
  }

  /**
   * No two stored modifications share an id: the edit page drops the
   * modification of an id before it pushes the new one, and the time
   * update pushes only for ids without one.
   */
  ghost predicate DistinctModIds(mods: seq<QuestionPatch>) {
    forall i, j :: 0 <= i < j < |mods| ==> mods[i].id != mods[j].id
  }

  /** A built-in question with the stored modification of its id, if there is one. */
  function PatchOf(mods: seq<QuestionPatch>, q: Question): (r: Question)
    ensures FirstModIndex(mods, q.id).None? ==> r == q
    ensures r.id == q.id
  {
    match FirstModIndex(mods, q.id)
    case None => q
    case Some(k) => ApplyPatch(q, mods[k])
  }

  /** Two modification lists with the same ids at the same positions find the same first entry. */
  lemma FirstModIndexSameIds(p: seq<QuestionPatch>, r: seq<QuestionPatch>, id: int)
    requires |p| == |r| && forall i :: 0 <= i < |p| ==> p[i].id == r[i].id
    ensures FirstModIndex(p, id) == FirstModIndex(r, id)
  {
    var a, b := FirstModIndex(p, id), FirstModIndex(r, id);
    if a.Some? && b.Some? {
      assert !(a.value < b.value) && !(b.value < a.value);
    }
  }

  /**
   * With distinct ids on both sides, applying the modifications in order
   * leaves each built-in question patched by the modification of its id.
   */
  lemma {:induction false} PatchedPointwise(defaults: seq<Question>, mods: seq<QuestionPatch>)
    requires DistinctIds(defaults) && DistinctModIds(mods)
    ensures forall j :: 0 <= j < |defaults| ==> Patched(defaults, mods)[j] == PatchOf(mods, defaults[j])
  {
    if mods != [] {
      var init, m := mods[..|mods| - 1], mods[|mods| - 1];
      assert mods == init + [m];
      PatchedPointwise(defaults, init);
      PatchedAppend(defaults, init, m);
      forall j | 0 <= j < |defaults|
        ensures Patched(defaults, mods)[j] == PatchOf(mods, defaults[j])
      {
        var id := defaults[j].id;
        if id == m.id {
          assert FirstIndex(defaults, m.id) == Some(j);
          assert FirstModIndex(init, id).None?;
          assert FirstModIndex(mods, id) == Some(|init|);
        } else {
          if FirstModIndex(init, id).Some? {
            FirstModIndexKept(init, mods, id);
          } else {
            assert FirstModIndex(mods, id).None?;
          }
          if FirstIndex(defaults, m.id).None? {
            assert forall q :: q in defaults ==> q.id != m.id;
          }
        }
      }
    }
  }

  /** `{ ...q, ...{ ...q, time_limit: t } }` is `q` with the new limit. */
  lemma FullPatchOwn(q: Question, t: int)
    ensures ApplyPatch(q, FullPatch(q.(timeLimit := t))) == q.(timeLimit := t)
  {
  }

  /** A modification with a new limit patches to the same question with that limit. */
  lemma ApplyRetimedPatch(q: Question, m: QuestionPatch, t: int)
    ensures ApplyPatch(q, m.(timeLimit := Some(t))) == ApplyPatch(q, m).(timeLimit := t)
  {
  }

  /**
   * Retiming the question at position `i` of the patched catalogue changes
   * that question's limit and no other question, and keeps the
   * modification ids distinct.
   */
  lemma RetimeOne(defaults: seq<Question>, mods: seq<QuestionPatch>, i: nat, t: int)
    requires DistinctIds(defaults) && DistinctModIds(mods) && i < |defaults|
    ensures var q := Patched(defaults, mods)[i];
            var r := RetimeMod(mods, q, t);
            && DistinctModIds(r)
            && Patched(defaults, r) == Patched(defaults, mods)[i := q.(timeLimit := t)]
  {
    var p := Patched(defaults, mods);
    var q := p[i];
    PatchedPointwise(defaults, mods);
    var r := RetimeMod(mods, q, t);
    if FirstModIndex(mods, q.id).Some? {
      RetimeExisting(defaults, mods, i, FirstModIndex(mods, q.id).value, t);
    } else {
      RetimePushed(defaults, mods, i, t);
    }
  }

  /** `RetimeOne` when the question already has a modification, at `k`. */
  lemma RetimeExisting(defaults: seq<Question>, mods: seq<QuestionPatch>, i: nat, k: nat, t: int)
    requires DistinctIds(defaults) && DistinctModIds(mods) && i < |defaults|
    requires FirstModIndex(mods, defaults[i].id) == Some(k)
    ensures var r := mods[k := mods[k].(timeLimit := Some(t))];
            var p := Patched(defaults, mods);
            && DistinctModIds(r)
            && Patched(defaults, r) == p[i := p[i].(timeLimit := t)]
  {
    var r := mods[k := mods[k].(timeLimit := Some(t))];
    var p := Patched(defaults, mods);
    assert DistinctModIds(r);
    PatchedPointwise(defaults, mods);
    PatchedPointwise(defaults, r);
    var p' := Patched(defaults, r);
    forall j | 0 <= j < |defaults|
      ensures p'[j] == p[i := p[i].(timeLimit := t)][j]
    {
      FirstModIndexSameIds(mods, r, defaults[j].id);
      if j == i {
        ApplyRetimedPatch(defaults[i], mods[k], t);
      } else {
        assert defaults[j].id != defaults[i].id;
      }
    }
  }

  /** `RetimeOne` when the question has no modification yet. */
  lemma RetimePushed(defaults: seq<Question>, mods: seq<QuestionPatch>, i: nat, t: int)
    requires DistinctIds(defaults) && DistinctModIds(mods) && i < |defaults|
    requires FirstModIndex(mods, defaults[i].id).None?
    ensures var r := mods + [FullPatch(defaults[i].(timeLimit := t))];
            var p := Patched(defaults, mods);
            && DistinctModIds(r)
            && Patched(defaults, r) == p[i := defaults[i].(timeLimit := t)]
  {
    var q := defaults[i];
    var r := mods + [FullPatch(q.(timeLimit := t))];
    var p := Patched(defaults, mods);
    assert DistinctModIds(r);
    PatchedPointwise(defaults, mods);
    PatchedPointwise(defaults, r);
    var p' := Patched(defaults, r);
    forall j | 0 <= j < |defaults|
      ensures p'[j] == p[i := q.(timeLimit := t)][j]
    {
      var id := defaults[j].id;
      if j == i {
        assert FirstModIndex(r, id) == Some(|mods|);
        FullPatchOwn(q, t);
      } else {
        assert id != q.id;
        if FirstModIndex(mods, id).Some? {
          FirstModIndexKept(mods, r, id);
        } else {
          assert FirstModIndex(r, id).None?;
        }
      }
    }
  }

  /** `{ ...q, time_limit: t }` over a concatenation is the concatenation of the two. */
  lemma RetimedAppend(a: seq<Question>, b: seq<Question>, d: Difficulty, t: int)
    ensures Retimed(a + b, d, t) == Retimed(a, d, t) + Retimed(b, d, t)
  {
  }

  /** The additional questions are never among those retimed through modifications. */
  lemma {:induction false} ToModifySkipsAdditional(p: seq<Question>, a: seq<Question>, additional: seq<Question>, d: Difficulty)
    requires forall q :: q in a ==> q in additional
    ensures ToModify(p + a, additional, d) == ToModify(p, additional, d)
  {
    if a != [] {
      var init := a[..|a| - 1];
      var q := a[|a| - 1];
      assert q in a;
      assert !(forall aq :: aq in additional ==> aq.id != q.id);
      assert forall x :: x in init ==> x in a;
      assert (p + a)[..|p + a| - 1] == p + init;
      assert (p + a)[|p + a| - 1] == a[|a| - 1];
      ToModifySkipsAdditional(p, init, additional, d);
    } else {
      assert p + a == p;
    }
  }

  /** One more question of the prefix: retimed when it has difficulty `d`, as it was otherwise. */
  lemma RetimedStep(p: seq<Question>, n: nat, d: Difficulty, t: int)
    requires 0 < n <= |p|
    ensures p[n - 1].difficulty == d ==>
              (Retimed(p[..n - 1], d, t) + p[n - 1..])[n - 1 := p[n - 1].(timeLimit := t)] == Retimed(p[..n], d, t) + p[n..]
    ensures p[n - 1].difficulty != d ==> Retimed(p[..n - 1], d, t) + p[n - 1..] == Retimed(p[..n], d, t) + p[n..]
  {
    var a := Retimed(p[..n - 1], d, t) + p[n - 1..];
    var b := Retimed(p[..n], d, t) + p[n..];
    assert |a| == |b| == |p|;
    assert forall j :: 0 <= j < n - 1 ==> a[j] == b[j];
    assert forall j :: n <= j < |p| ==> a[j] == b[j];
  }

  /** `ToModify` on a prefix one question longer. */
  lemma ToModifyStep(p: seq<Question>, n: nat, additional: seq<Question>, d: Difficulty)
    requires 0 < n <= |p|
    requires p[n - 1].difficulty == d ==> forall aq :: aq in additional ==> aq.id != p[n - 1].id
    ensures p[n - 1].difficulty == d ==> ToModify(p[..n], additional, d) == ToModify(p[..n - 1], additional, d) + [p[n - 1]]
    ensures p[n - 1].difficulty != d ==> ToModify(p[..n], additional, d) == ToModify(p[..n - 1], additional, d)
  {
    assert p[..n][..n - 1] == p[..n - 1] && p[..n][n - 1] == p[n - 1];
  }

  /**
   * Retiming through modifications, question by question along a prefix of
   * the patched catalogue, retimes exactly the questions of difficulty `d`
   * in that prefix.
   */
  lemma {:induction false} RetimePrefix(defaults: seq<Question>, mods: seq<QuestionPatch>, additional: seq<Question>,
                                        d: Difficulty, t: int, n: nat)
    requires DistinctIds(defaults) && DistinctModIds(mods)
    requires forall q, aq :: q in defaults && aq in additional ==> q.id != aq.id
    requires n <= |defaults|
    ensures var p := Patched(defaults, mods);
            var r := RetimeMods(mods, ToModify(p[..n], additional, d), t);
            && DistinctModIds(r)
            && Patched(defaults, r) == Retimed(p[..n], d, t) + p[n..]
  {
    var p := Patched(defaults, mods);
    if n == 0 {
      assert p[..0] == [] && p[0..] == p;
    } else {
      RetimePrefix(defaults, mods, additional, d, t, n - 1);
      var tm := ToModify(p[..n - 1], additional, d);
      var r0 := RetimeMods(mods, tm, t);
      var p0 := Patched(defaults, r0);
      var q := p[n - 1];
      assert p0 == Retimed(p[..n - 1], d, t) + p[n - 1..];
      assert p0[n - 1] == q;
      assert q.id == defaults[n - 1].id;
      assert defaults[n - 1] in defaults;
      ToModifyStep(p, n, additional, d);
      RetimedStep(p, n, d, t);
      if q.difficulty == d {
        assert RetimeMods(mods, tm + [q], t) == RetimeMod(r0, q, t) by {
          assert (tm + [q])[..|tm|] == tm;
        }
        RetimeOne(defaults, r0, n - 1, t);
      }
    }
  }

  /**
   * The bulk time update read back through `getAllQuestions`: every listed
   * question of difficulty `d` now has limit `t`, and every other one is as
   * it was. It holds when the built-in ids are distinct, the stored
   * modifications carry distinct ids, and no additional question reuses a
   * built-in id.
   */
  lemma UpdateTimeLimitsRetimesBank(defaults: seq<Question>, mods: seq<QuestionPatch>, additional: seq<Question>,
                                    d: Difficulty, t: int)
    requires DistinctIds(defaults) && DistinctModIds(mods)
    requires forall q, aq :: q in defaults && aq in additional ==> q.id != aq.id
    ensures var all := AllQuestions(defaults, mods, additional);
            var newMods := RetimeMods(mods, ToModify(all, additional, d), t);
            AllQuestions(defaults, newMods, Retimed(additional, d, t)) == Retimed(all, d, t)
  {
    var p := Patched(defaults, mods);
    var all := AllQuestions(defaults, mods, additional);
    assert all == p + additional;
    ToModifySkipsAdditional(p, additional, additional, d);
    var tm := ToModify(all, additional, d);
    assert tm == ToModify(p[..|defaults|], additional, d) by {
      assert p[..|defaults|] == p;
    }
    RetimePrefix(defaults, mods, additional, d, t, |defaults|);
    var newMods := RetimeMods(mods, tm, t);
    assert Patched(defaults, newMods) == Retimed(p, d, t) by {
      assert p[..|defaults|] == p && p[|defaults|..] == [];
      assert Retimed(p, d, t) + [] == Retimed(p, d, t);
    }
    RetimedAppend(p, additional, d, t);
  }

  /** Swaps two positions. */
  function Swap<T>(s: seq<T>, i: nat, j: nat): (r: seq<T>)
    requires i < |s| && j < |s|
    ensures |r| == |s|
  {
    s[i := s[j]][j := s[i]]
  }

  lemma SwapPermutes<T>(s: seq<T>, i: nat, j: nat)
    requires i < |s| && j < |s|
    ensures multiset(Swap(s, i, j)) == multiset(s)
  {
  }

  /**
   * The Fisher-Yates pass over the first `n` positions, from position
   * `n - 1` down to 1: position `i` swaps with `draw(i) % (i + 1)`, where
   * `draw(i)` stands for the random number drawn at that step.
   */
  function FisherYates<T>(s: seq<T>, draw: nat -> nat, n: nat): (r: seq<T>)
    requires n <= |s|
    ensures |r| == |s|
    decreases n
  {
    if n <= 1 then s
    else FisherYates(Swap(s, n - 1, draw(n - 1) % n), draw, n - 1)
  }

  /** The shuffle is a permutation. */
  lemma {:induction false} FisherYatesPermutes<T>(s: seq<T>, draw: nat -> nat, n: nat)
    requires n <= |s|
    ensures multiset(FisherYates(s, draw, n)) == multiset(s)
    decreases n
  {
    if n > 1 {
      SwapPermutes(s, n - 1, draw(n - 1) % n);
      FisherYatesPermutes(Swap(s, n - 1, draw(n - 1) % n), draw, n - 1);
    }
  }

  /** `shuffleArray`: shuffles a copy in place; the argument is left as it is. */
  method Shuffle(s: seq<Question>, draw: nat -> nat) returns (r: seq<Question>)
    ensures r == FisherYates(s, draw, |s|)
    ensures multiset(r) == multiset(s)
  {
    FisherYatesPermutes(s, draw, |s|);
    var a := new Question[|s|](i requires 0 <= i < |s| => s[i]);
    assert a[..] == s;
    ShuffleInPlace(a, draw);
    r := a[..];
  }

  /** The swap loop of `shuffleArray`. */
  method ShuffleInPlace(a: array<Question>, draw: nat -> nat)
    modifies a
    ensures a[..] == FisherYates(old(a[..]), draw, a.Length)
  {
    // n is one more than the loop index of the source: positions n - 1 down to 1 are swapped
    var n: nat := a.Length;
    while n > 1
      invariant n <= a.Length
      invariant FisherYates(a[..], draw, n) == FisherYates(old(a[..]), draw, a.Length)
    {
      var i, j := n - 1, draw(n - 1) % n;
      ghost var before := a[..];
      a[i], a[j] := a[j], a[i];
      assert a[..] == Swap(before, i, j);
      n := n - 1;
    }
  }

  /** The end index of `slice(0, n)` on a list of length `len`. */
  function SliceEnd(len: nat, n: int): (e: nat)
    ensures e <= len
    ensures n >= 0 ==> e == if n < len then n else len
    ensures n < 0 ==> e == if len + n > 0 then len + n else 0
  {
    if n >= 0 then (if n < len then n else len)
    else if len + n > 0 then len + n else 0
  }

  /**
   * `getRandomQuestions(totalQuestions = 10)`: the first `totalQuestions`
   * of a shuffle of the whole bank; an absent count means 10.
   */
  method GetRandomQuestions(st: LocalStore, draw: nat -> nat, totalQuestions: Option<int>) returns (qs: seq<Question>)
    ensures var all := AllQuestions(st.catalog.questions, st.modifiedQuestions, st.additionalQuestions);
            && |qs| == SliceEnd(|all|, totalQuestions.GetOr(10))
            && qs == FisherYates(all, draw, |all|)[..|qs|]
            && multiset(qs) <= multiset(all)
  {
    var all := GetAllQuestions(st);
    var shuffled := Shuffle(all, draw);
    var n := SliceEnd(|shuffled|, totalQuestions.GetOr(10));
    qs := shuffled[..n];
    assert shuffled == qs + shuffled[n..];
  }

  /** The bonus questions of a list, in order. */
  function BonusOnly(qs: seq<Question>): (r: seq<Question>)
    ensures forall q :: q in r <==> q in qs && q.isBonus
  {
    if qs == [] then []
    else (if qs[0].isBonus then [qs[0]] else []) + BonusOnly(qs[1..])
  }

  /**
   * `getRandomBonusQuestion` of the question bank: a random bonus question
   * of the whole bank, or none (`undefined`) when it has none.
   */
  function PickBonus(all: seq<Question>, draw: nat): (r: Option<Question>)
    ensures r.Some? ==> r.value in all && r.value.isBonus
    ensures r.None? <==> forall q :: q in all ==> !q.isBonus
  {
    var bonus := BonusOnly(all);
    if bonus == [] then None
    else
      assert bonus[0] in bonus;
      Some(bonus[draw % |bonus|])
  }

  /** Every bonus question of the bank can be drawn. */
  lemma PickBonusReaches(all: seq<Question>, q: Question)
    requires q in all && q.isBonus
    ensures exists draw: nat :: PickBonus(all, draw) == Some(q)
  {
    var bonus := BonusOnly(all);
    assert q in bonus;
    var k :| 0 <= k < |bonus| && bonus[k] == q;
    assert k % |bonus| == k;
    assert PickBonus(all, k) == Some(q);
  }

  method GetRandomBonusQuestion(st: LocalStore, draw: nat) returns (r: Option<Question>)
    ensures r == PickBonus(AllQuestions(st.catalog.questions, st.modifiedQuestions, st.additionalQuestions), draw)
  {
    var all := GetAllQuestions(st);
    r := PickBonus(all, draw);
  }
}
