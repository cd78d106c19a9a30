/**
 * The bonus-question store: the ten built-in bonus questions, each possibly
 * replaced by a stored modification, followed by the stored additional
 * bonus questions; its add, update and delete operations; and the random
 * pick of the bonus question offered at the end of an attempt.
 */
module BonusBank {
  import opened Wrappers
  import opened Types
  import opened Lists
  import opened QuestionLists
  import opened Storage

  /**
   * `getRandomBonusQuestion`: a copy of the built-in at position `draw`
   * (the random index), reduced into range; None for an empty pool, where
   * the source spreads `undefined` into an empty object.
   */
  function RandomBonusQuestion(builtIns: seq<Question>, draw: nat): (r: Option<Question>)
    ensures r.Some? <==> builtIns != []
    ensures r.Some? ==> r.value in builtIns
  {
    if builtIns == [] then None else Some(builtIns[draw % |builtIns|])
  }

  /** Each built-in bonus question is picked by its own position as the draw. */
  lemma RandomBonusReaches(builtIns: seq<Question>, k: nat)
    requires k < |builtIns|
    ensures RandomBonusQuestion(builtIns, k) == Some(builtIns[k])
  {
    assert k % |builtIns| == k;
  }

  /** The id range of the built-in bonus questions. */
  predicate IsBuiltInBonusId(id: int) {
    101 <= id <= 110
  }

  /**
   * `getAllBonusQuestions`: each built-in, flagged as a bonus question, or
   * instead the first stored modification with its id; then the additional
   * bonus questions.
   */
  function AllBonusQuestions(builtIns: seq<Question>, mods: seq<Question>, additional: seq<Question>): (r: seq<Question>)
    ensures |r| == |builtIns| + |additional|
    ensures r[|builtIns|..] == additional
  {
    seq(|builtIns|, i requires 0 <= i < |builtIns| => Find(mods, IdIs(builtIns[i].id)).GetOr(builtIns[i].(isBonus := true)))
      + additional
  }

  /**
   * Without modifications every built-in is listed as it is, with the bonus
   * flag set; a modification of a built-in's id is listed in its place.
   */
  lemma AllBonusListsBuiltIns(builtIns: seq<Question>, mods: seq<Question>, additional: seq<Question>, i: nat)
    requires i < |builtIns|
    ensures WithId(mods, builtIns[i].id) == [] ==> AllBonusQuestions(builtIns, mods, additional)[i] == builtIns[i].(isBonus := true)
    ensures WithId(mods, builtIns[i].id) != [] ==> AllBonusQuestions(builtIns, mods, additional)[i] == WithId(mods, builtIns[i].id)[0]
  {
    var id := builtIns[i].id;
    FindFirstIsFilterHead(mods, IdIs(id));
  }

  /** `find` yields the head of the corresponding `filter`. */
  lemma {:induction false} FindFirstIsFilterHead<T(!new)>(s: seq<T>, p: T -> bool)
    ensures Filter(s, p) == [] <==> Find(s, p).None?
    ensures Filter(s, p) != [] ==> Find(s, p) == Some(Filter(s, p)[0])
  {
    if s != [] {
      FindFirstIsFilterHead(s[1..], p);
      assert s == [s[0]] + s[1..];
      FindAppend([s[0]], s[1..], p);
    }
  }

  /** `addBonusQuestion`: pushes the question, flagged as a bonus question. */
  method AddBonusQuestion(st: LocalStore, q: Question)
    modifies st`additionalBonusQuestions
    ensures st.additionalBonusQuestions == old(st.additionalBonusQuestions) + [q.(isBonus := true)]
  {
    st.additionalBonusQuestions := st.additionalBonusQuestions + [q.(isBonus := true)];
  }

  /** An added bonus question is listed last, and nothing listed before changes. */
  lemma AddBonusListed(builtIns: seq<Question>, mods: seq<Question>, additional: seq<Question>, q: Question)
    ensures AllBonusQuestions(builtIns, mods, additional + [q.(isBonus := true)])
         == AllBonusQuestions(builtIns, mods, additional) + [q.(isBonus := true)]
  {
    var before := AllBonusQuestions(builtIns, mods, additional);
    var after := AllBonusQuestions(builtIns, mods, additional + [q.(isBonus := true)]);
    assert after[..|builtIns|] == before[..|builtIns|];
    assert after == after[..|builtIns|] + after[|builtIns|..];
    assert before == before[..|builtIns|] + before[|builtIns|..];
  }

  /** `additional.map(q => q.id === b.id ? b : q)`. */
  function ReplaceId(qs: seq<Question>, b: Question): (r: seq<Question>)
    ensures |r| == |qs|
    ensures forall i :: 0 <= i < |qs| ==> r[i] == (if qs[i].id == b.id then b else qs[i])
    ensures (forall q :: q in qs ==> q.id != b.id) ==> r == qs
  {
    seq(|qs|, i requires 0 <= i < |qs| => if qs[i].id == b.id then b else qs[i])
  }

  /**
   * `updateBonusQuestion`: for a built-in id the modifications of that id
   * are dropped and the question, flagged as a bonus question, is pushed;
   * for any other id it replaces every additional entry with its id.
   */
  method UpdateBonusQuestion(st: LocalStore, q: Question)
    modifies st`modifiedBonusQuestions, st`additionalBonusQuestions
    ensures var b := q.(isBonus := true);
            if IsBuiltInBonusId(q.id) then
              && st.modifiedBonusQuestions == WithoutId(old(st.modifiedBonusQuestions), q.id) + [b]
              && st.additionalBonusQuestions == old(st.additionalBonusQuestions)
            else
              && st.additionalBonusQuestions == ReplaceId(old(st.additionalBonusQuestions), b)
              && st.modifiedBonusQuestions == old(st.modifiedBonusQuestions)
  {
    var b := q.(isBonus := true);
    if IsBuiltInBonusId(b.id) {
      st.modifiedBonusQuestions := WithoutId(st.modifiedBonusQuestions, b.id) + [b];
    } else {
      st.additionalBonusQuestions := ReplaceId(st.additionalBonusQuestions, b);
    }
  }

  /**
   * After updating a built-in, the list shows the new question in that
   * built-in's place, and every other built-in is listed as before.
   */
  lemma UpdateBuiltInListed(builtIns: seq<Question>, mods: seq<Question>, additional: seq<Question>, q: Question, i: nat)
    requires i < |builtIns| && builtIns[i].id == q.id
    ensures var after := AllBonusQuestions(builtIns, WithoutId(mods, q.id) + [q], additional);
            && after[i] == q
            && forall j :: 0 <= j < |builtIns| && builtIns[j].id != q.id ==>
                 after[j] == AllBonusQuestions(builtIns, mods, additional)[j]
  {
    ReplaceById(mods, q);
    AllBonusListsBuiltIns(builtIns, WithoutId(mods, q.id) + [q], additional, i);
    forall j | 0 <= j < |builtIns| && builtIns[j].id != q.id
      ensures AllBonusQuestions(builtIns, WithoutId(mods, q.id) + [q], additional)[j]
           == AllBonusQuestions(builtIns, mods, additional)[j]
    {
      AllBonusListsBuiltIns(builtIns, WithoutId(mods, q.id) + [q], additional, j);
      AllBonusListsBuiltIns(builtIns, mods, additional, j);
    }
  }

  /**
   * `deleteBonusQuestion`: for a built-in id only the modifications of that
   * id are dropped; for any other id every additional entry with it is.
   */
  method DeleteBonusQuestion(st: LocalStore, id: int)
    modifies st`modifiedBonusQuestions, st`additionalBonusQuestions
    ensures if IsBuiltInBonusId(id) then
              && st.modifiedBonusQuestions == WithoutId(old(st.modifiedBonusQuestions), id)
              && st.additionalBonusQuestions == old(st.additionalBonusQuestions)
            else
              && st.additionalBonusQuestions == WithoutId(old(st.additionalBonusQuestions), id)
              && st.modifiedBonusQuestions == old(st.modifiedBonusQuestions)
  {
    if IsBuiltInBonusId(id) {
      st.modifiedBonusQuestions := WithoutId(st.modifiedBonusQuestions, id);
    } else {
      st.additionalBonusQuestions := WithoutId(st.additionalBonusQuestions, id);
    }
  }

  /** A deleted built-in stays listed, back in its original form. */
  lemma DeleteBuiltInRestores(builtIns: seq<Question>, mods: seq<Question>, additional: seq<Question>, i: nat)
    requires i < |builtIns|
    ensures AllBonusQuestions(builtIns, WithoutId(mods, builtIns[i].id), additional)[i] == builtIns[i].(isBonus := true)
  {
    var id := builtIns[i].id;
    FilterNone(WithoutId(mods, id), IdIs(id));
    AllBonusListsBuiltIns(builtIns, WithoutId(mods, id), additional, i);
  }

  /**
   * Deleting an additional bonus question removes every entry with its id
   * from the list's tail and keeps the other entries in order.
   */
  lemma DeleteAdditionalRemoves(builtIns: seq<Question>, mods: seq<Question>, additional: seq<Question>, id: int)
    ensures var after := AllBonusQuestions(builtIns, mods, WithoutId(additional, id));
            && after[..|builtIns|] == AllBonusQuestions(builtIns, mods, additional)[..|builtIns|]
            && (forall q :: q in after[|builtIns|..] <==> q in additional && q.id != id)
            && forall other :: other != id ==> WithId(after[|builtIns|..], other) == WithId(additional, other)
  {
    forall other | other != id
      ensures WithId(WithoutId(additional, id), other) == WithId(additional, other)
    {
      FilterOfFilter(additional, IdIsNot(id), IdIs(other));
    }
  }
}
