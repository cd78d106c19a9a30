/**
 * The id filters the question stores apply to their stored lists, as named
 * tests handed to the list operations.
 */
module QuestionLists {
  import opened Types
  import opened Lists

  /** `q => q.id === id`. */
  function IdIs(id: int): Question -> bool {
    (q: Question) => q.id == id
  }

  /** `q => q.id !== id`. */
  function IdIsNot(id: int): Question -> bool {
    (q: Question) => q.id != id
  }

  /** `qs.filter(q => q.id !== id)`. */
  function WithoutId(qs: seq<Question>, id: int): (r: seq<Question>)
    ensures forall q :: q in r <==> q in qs && q.id != id
  {
    Filter(qs, IdIsNot(id))
  }

  /** `qs.filter(q => q.id === id)`: the entries with that id. */
  function WithId(qs: seq<Question>, id: int): (r: seq<Question>)
    ensures forall q :: q in r <==> q in qs && q.id == id
  {
    Filter(qs, IdIs(id))
  }

  /**
   * Dropping every entry with an id and pushing `q` with that id leaves `q`
   * as the only entry with the id and the other entries as they were, in
   * order.
   */
  lemma ReplaceById(qs: seq<Question>, q: Question)
    ensures WithId(WithoutId(qs, q.id) + [q], q.id) == [q]
    ensures forall id :: id != q.id ==> WithId(WithoutId(qs, q.id) + [q], id) == WithId(qs, id)
  {
    FilterAppend(WithoutId(qs, q.id), [q], IdIs(q.id));
    FilterNone(WithoutId(qs, q.id), IdIs(q.id));
    forall id | id != q.id
      ensures WithId(WithoutId(qs, q.id) + [q], id) == WithId(qs, id)
    {
      FilterAppend(WithoutId(qs, q.id), [q], IdIs(id));
      FilterOfFilter(qs, IdIsNot(q.id), IdIs(id));
    }
  }
}
