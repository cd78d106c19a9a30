/**
 * The administrator's question page: the form's validation, id allocation
 * for a new question, and the handlers that rewrite the stored additional
 * questions and modifications and reload the listing.
 */
module QuestionAdmin {
  import opened Wrappers
  import opened Types
  import opened Text
  import opened Lists
  import opened Storage
  import opened QuestionBank

  /** Built-in questions have ids up to 30; added ones get larger ids. */
  const LastBuiltInId: int := 30

  /** `q => q.id > 30`. */
  function Added(): Question -> bool {
    (q: Question) => q.id > LastBuiltInId
  }

  /** `q => q.id > 30 && q.id !== id`. */
  function AddedExcept(id: int): Question -> bool {
    (q: Question) => q.id > LastBuiltInId && q.id != id
  }

  /** `q => q.id !== id` on stored modifications. */
  function PatchIdIsNot(id: int): QuestionPatch -> bool {
    (m: QuestionPatch) => m.id != id
  }

  /** `q => q.id === id` on stored modifications. */
  function PatchIdIs(id: int): QuestionPatch -> bool {
    (m: QuestionPatch) => m.id == id
  }

  /** Some option of the draft is blank once trimmed. */
  predicate SomeOptionBlank(options: seq<string>) {
    exists i :: 0 <= i < |options| && Trim(options[i]) == ""
  }

  /**
   * The form's validation: the text, then every option, must be non-blank
   * after trimming.
   */
  function DraftError(draft: Question): (e: Option<string>)
    ensures e == Some("Please enter a question") <==> IsBlank(draft.text)
    ensures e == Some("Please fill in all options") <==>
              !IsBlank(draft.text) && exists i :: 0 <= i < |draft.options| && IsBlank(draft.options[i])
    ensures e.None? <==> !IsBlank(draft.text) && forall i :: 0 <= i < |draft.options| ==> !IsBlank(draft.options[i])
  {
    TrimEmptyIffBlank(draft.text);
    forall i | 0 <= i < |draft.options| ensures Trim(draft.options[i]) == "" <==> IsBlank(draft.options[i]) {
      TrimEmptyIffBlank(draft.options[i]);
    }
    if Trim(draft.text) == "" then Some("Please enter a question")
    else if SomeOptionBlank(draft.options) then Some("Please fill in all options")
    else None
  }

  /** `Math.max(30, ...ids)`. */
  function MaxId(qs: seq<Question>): (m: int)
    ensures m >= LastBuiltInId
    ensures forall i :: 0 <= i < |qs| ==> qs[i].id <= m
    ensures m == LastBuiltInId || exists i :: 0 <= i < |qs| && qs[i].id == m
  {
    if qs == [] then LastBuiltInId
    else
      var rest := MaxId(qs[1..]);
      if qs[0].id > rest then qs[0].id
      else
        assert forall i :: 1 <= i < |qs| ==> qs[i] == qs[1..][i - 1];
        rest
  }

  /** The id of a new question: one more than 30 and than every id listed. */
  function NextId(qs: seq<Question>): (id: int)
    ensures id > LastBuiltInId && forall i :: 0 <= i < |qs| ==> qs[i].id < id
    ensures id == LastBuiltInId + 1 || exists i :: 0 <= i < |qs| && qs[i].id == id - 1
  {
    MaxId(qs) + 1
  }

  /** The draft the form is reset to; its id is the clock reading. */
  function BlankDraft(now: int): Question {
    Question(now, "", ["", "", "", ""], 0, Easy, 30, false, false, None)
  }

  /** `qs.map(q => q.id === id ? u : q)`. */
  function ReplaceWhereId(qs: seq<Question>, id: int, u: Question): seq<Question> {
    seq(|qs|, i requires 0 <= i < |qs| => if qs[i].id == id then u else qs[i])
  }

  /**
   * The listing has the shape `getAllQuestions` gives it when the built-in
   * ids are at most 30 and the stored additional ones above 30.
   */
  predicate Listing(qs: seq<Question>, defaults: seq<Question>, mods: seq<QuestionPatch>, additional: seq<Question>) {
    && qs == AllQuestions(defaults, mods, additional)
    && (forall i :: 0 <= i < |defaults| ==> defaults[i].id <= LastBuiltInId)
    && (forall i :: 0 <= i < |additional| ==> additional[i].id > LastBuiltInId)
  }

  /**
   * Of such a listing, the questions above id 30 are exactly the stored
   * additional questions: re-deriving that list from the listing, as the
   * handlers do, loses and adds nothing.
   */
  lemma AddedOfListing(qs: seq<Question>, defaults: seq<Question>, mods: seq<QuestionPatch>, additional: seq<Question>)
    requires Listing(qs, defaults, mods, additional)
    ensures Filter(qs, Added()) == additional
    ensures forall id :: Filter(qs, AddedExcept(id)) == Filter(additional, (q: Question) => q.id != id)
  {
    var patched := Patched(defaults, mods);
    assert qs == patched + additional;
    FilterAppend(patched, additional, Added());
    FilterNone(patched, Added());
    FilterAll(additional, Added());
    forall id ensures Filter(qs, AddedExcept(id)) == Filter(additional, (q: Question) => q.id != id) {
      FilterAppend(patched, additional, AddedExcept(id));
      FilterNone(patched, AddedExcept(id));
      FilterCongruent(additional, AddedExcept(id), (q: Question) => q.id != id);
    }
  }

  /**
   * A built-in question none of whose modifications carries its id shows
   * as it is built in.
   */
  lemma {:induction false} PatchedUntouched(defaults: seq<Question>, mods: seq<QuestionPatch>, i: nat)
    requires i < |defaults| && forall k :: 0 <= k < |mods| ==> mods[k].id != defaults[i].id
    ensures Patched(defaults, mods)[i] == defaults[i]
  {
    if mods != [] {
      var init := mods[..|mods| - 1];
      PatchedUntouched(defaults, init, i);
      var p := Patched(defaults, init);
      assert p[i].id == defaults[i].id;
    }
  }

  /**
   * A modification storing a whole question shows that question, except
   * that a question without an explanation keeps the one it is spread
   * over (the stored object has no such key).
   */
  lemma WholePatchShows(q: Question, u: Question)
    ensures ApplyPatch(q, FullPatch(u)).(explanation := u.explanation) == u
    ensures u.explanation.Some? ==> ApplyPatch(q, FullPatch(u)) == u
  {
  }

  class QuestionsPage {
    const store: LocalStore
    /** The listing, as last loaded with `getAllQuestions`. */
    var questions: seq<Question>
    var editing: Option<Question>
    /** The form's contents (`newQuestion`). */
    var draft: Question
    var error: string
    var settings: QuizSettings

    constructor (store: LocalStore, now: int)
      ensures this.store == store && editing.None? && error == "" && draft == BlankDraft(now)
      ensures questions == [] && settings == GetQuizSettings(store.quizSettings)
    {
      this.store := store;
      questions, editing, draft, error := [], None, BlankDraft(now), "";
      settings := GetQuizSettings(store.quizSettings);
    }

    /** `loadQuestions`. */
    method Load()
      modifies this`questions
      ensures questions == AllQuestions(store.catalog.questions, store.modifiedQuestions, store.additionalQuestions)
    {
      questions := GetAllQuestions(store);
    }

    /** `handleEditQuestion`: the question is being edited and fills the form. */
    method HandleEditQuestion(q: Question)
      modifies this`editing, this`draft
      ensures editing == Some(q) && draft == q
    {
      editing, draft := Some(q), q;
    }

    /**
     * `handleAddQuestion`: a valid draft is stored as an additional question
     * with a fresh id, the additional list being re-derived from the listing.
     */
    method HandleAddQuestion(now: int)
      modifies store`additionalQuestions, this`questions, this`draft, this`error
      ensures var e := DraftError(old(draft));
              && (e.Some? ==> error == e.value && store.additionalQuestions == old(store.additionalQuestions)
                              && questions == old(questions) && draft == old(draft))
              && (e.None? ==>
                    var added := old(draft).(id := NextId(old(questions)));
                    && store.additionalQuestions == Filter(old(questions), Added()) + [added]
                    && questions == AllQuestions(store.catalog.questions, store.modifiedQuestions, store.additionalQuestions)
                    && draft == BlankDraft(now) && error == "")
    {
      var e := DraftError(draft);
      if e.Some? {
        error := e.value;
        return;
      }
      var added := draft.(id := NextId(questions));
      var updated := questions + [added];
      FilterAppend(questions, [added], Added());
      FilterSingle(added, Added());
      store.additionalQuestions := Filter(updated, Added());
      Load();
      draft, error := BlankDraft(now), "";
    }

    /**
     * `handleUpdateQuestion`: without a question being edited nothing
     * happens; a valid draft, with the edited question's id, replaces the
     * modification of a built-in question, or replaces the additional
     * question in the list re-derived from the listing.
     */
    method HandleUpdateQuestion(now: int)
      modifies store`additionalQuestions, store`modifiedQuestions, this`questions, this`draft, this`error, this`editing
      ensures old(editing).None? ==>
                && store.additionalQuestions == old(store.additionalQuestions) && store.modifiedQuestions == old(store.modifiedQuestions)
                && questions == old(questions) && draft == old(draft) && error == old(error) && editing == old(editing)
      ensures old(editing).Some? && DraftError(old(draft)).Some? ==>
                && store.additionalQuestions == old(store.additionalQuestions) && store.modifiedQuestions == old(store.modifiedQuestions)
                && error == DraftError(old(draft)).value && editing == old(editing) && draft == old(draft) && questions == old(questions)
      ensures old(editing).Some? && DraftError(old(draft)).None? ==>
                var id := old(editing).value.id;
                var updated := old(draft).(id := id);
                && (id <= LastBuiltInId ==>
                      && store.modifiedQuestions == Filter(old(store.modifiedQuestions), PatchIdIsNot(id)) + [FullPatch(updated)]
                      && store.additionalQuestions == old(store.additionalQuestions))
                && (id > LastBuiltInId ==>
                      var before := Filter(old(questions), Added());
                      && |store.additionalQuestions| == |before|
                      && (forall i :: 0 <= i < |before| ==>
                            store.additionalQuestions[i] == if before[i].id == id then updated else before[i])
                      && store.modifiedQuestions == old(store.modifiedQuestions))
                && questions == AllQuestions(store.catalog.questions, store.modifiedQuestions, store.additionalQuestions)
                && editing.None? && draft == BlankDraft(now) && error == ""
    {
      if editing.None? {
        return;
      }
      var e := DraftError(draft);
      if e.Some? {
        error := e.value;
        return;
      }
      var id := editing.value.id;
      var updated := draft.(id := id);
      if id <= LastBuiltInId {
        store.modifiedQuestions := Filter(store.modifiedQuestions, PatchIdIsNot(id)) + [FullPatch(updated)];
      } else {
        store.additionalQuestions := ReplaceWhereId(Filter(questions, Added()), id, updated);
      }
      Load();
      editing, draft, error := None, BlankDraft(now), "";
    }

    /**
     * `handleDeleteQuestion` once confirmed: a built-in question loses its
     * modification; an added one is left out of the list re-derived from
     * the listing.
     */
    method HandleDeleteQuestion(q: Question, confirmed: bool)
      modifies store`additionalQuestions, store`modifiedQuestions, this`questions
      ensures !confirmed ==> store.additionalQuestions == old(store.additionalQuestions)
                             && store.modifiedQuestions == old(store.modifiedQuestions) && questions == old(questions)
      ensures confirmed && q.id <= LastBuiltInId ==>
                store.modifiedQuestions == Filter(old(store.modifiedQuestions), PatchIdIsNot(q.id))
                && store.additionalQuestions == old(store.additionalQuestions)
      ensures confirmed && q.id > LastBuiltInId ==>
                store.additionalQuestions == Filter(old(questions), AddedExcept(q.id))
                && store.modifiedQuestions == old(store.modifiedQuestions)
      ensures confirmed ==> questions == AllQuestions(store.catalog.questions, store.modifiedQuestions, store.additionalQuestions)
    {
      if confirmed {
        if q.id <= LastBuiltInId {
          store.modifiedQuestions := Filter(store.modifiedQuestions, PatchIdIsNot(q.id));
        } else {
          store.additionalQuestions := Filter(questions, AddedExcept(q.id));
        }
        Load();
      }
    }

    /**
     * `handleBulkTimeUpdate`: the settings' limit for the difficulty is
     * applied to every question of it with `updateTimeLimits`.
     */
    method HandleBulkTimeUpdate(d: Difficulty)
      modifies store`additionalQuestions, store`modifiedQuestions, this`questions
      ensures var limit := match d
                           case Easy => settings.easyTimeLimit
                           case Medium => settings.mediumTimeLimit
                           case Difficult => settings.difficultTimeLimit;
              && (limit.Some? ==>
                    && store.additionalQuestions == Retimed(old(store.additionalQuestions), d, limit.value)
                    && store.modifiedQuestions == RetimeMods(old(store.modifiedQuestions),
                         ToModify(old(AllQuestions(store.catalog.questions, store.modifiedQuestions, store.additionalQuestions)),
                                  old(store.additionalQuestions), d), limit.value)
                    && questions == AllQuestions(store.catalog.questions, store.modifiedQuestions, store.additionalQuestions))
              && (limit.None? ==> store.additionalQuestions == old(store.additionalQuestions)
                                  && store.modifiedQuestions == old(store.modifiedQuestions) && questions == old(questions))
    {
      var limit := match d
                   case Easy => settings.easyTimeLimit
                   case Medium => settings.mediumTimeLimit
                   case Difficult => settings.difficultTimeLimit;
      if limit.Some? {
        UpdateTimeLimits(store, d, limit.value);
        Load();
      }
    }
  }

  /**
   * Adding to a loaded listing appends exactly the new question to the
   * stored additional questions, and the listing reloaded from them is
   * again a listing of that store.
   */
  lemma AddAppendsOne(qs: seq<Question>, defaults: seq<Question>, mods: seq<QuestionPatch>, additional: seq<Question>, draft: Question)
    requires Listing(qs, defaults, mods, additional)
    ensures var added := draft.(id := NextId(qs));
            && Filter(qs + [added], Added()) == additional + [added]
            && Listing(AllQuestions(defaults, mods, additional + [added]), defaults, mods, additional + [added])
  {
    var added := draft.(id := NextId(qs));
    AddedOfListing(qs, defaults, mods, additional);
    FilterAppend(qs, [added], Added());
    FilterSingle(added, Added());
    var grown := additional + [added];
    forall i | 0 <= i < |grown| ensures grown[i].id > LastBuiltInId {
      if i < |additional| { assert grown[i] == additional[i]; }
    }
  }

  /** The new question's id is above 30 and differs from every listed id. */
  lemma AddedIdIsFresh(qs: seq<Question>, draft: Question)
    ensures var added := draft.(id := NextId(qs));
            added.id > LastBuiltInId && forall q :: q in qs ==> q.id < added.id
  {
    forall q | q in qs ensures q.id < NextId(qs) {
      var k :| 0 <= k < |qs| && qs[k] == q;
    }
  }

  /**
   * Updating a built-in question leaves exactly one modification with its
   * id, the new one, keeps the other ids' modifications as they were, and
   * the listing then shows the updated question in its place.
   */
  lemma UpdateBuiltInShown(defaults: seq<Question>, mods: seq<QuestionPatch>, additional: seq<Question>, updated: Question)
    requires FirstIndex(defaults, updated.id).Some?
    ensures var after := Filter(mods, PatchIdIsNot(updated.id)) + [FullPatch(updated)];
            && Filter(after, PatchIdIs(updated.id)) == [FullPatch(updated)]
            && (forall id :: id != updated.id ==> Filter(after, PatchIdIs(id)) == Filter(mods, PatchIdIs(id)))
            && var shown := AllQuestions(defaults, after, additional)[FirstIndex(defaults, updated.id).value];
               shown.(explanation := updated.explanation) == updated
               && (updated.explanation.Some? ==> shown == updated)
  {
    var kept := Filter(mods, PatchIdIsNot(updated.id));
    var after := kept + [FullPatch(updated)];
    FilterAppend(kept, [FullPatch(updated)], PatchIdIs(updated.id));
    FilterNone(kept, PatchIdIs(updated.id));
    forall id | id != updated.id
      ensures Filter(after, PatchIdIs(id)) == Filter(mods, PatchIdIs(id))
    {
      FilterAppend(kept, [FullPatch(updated)], PatchIdIs(id));
      FilterOfFilter(mods, PatchIdIsNot(updated.id), PatchIdIs(id));
    }
    PatchedAppend(defaults, kept, FullPatch(updated));
    WholePatchShows(Patched(defaults, kept)[FirstIndex(defaults, updated.id).value], updated);
  }

  /**
   * Updating an added question of a loaded listing rewrites the stored
   * additional questions in place: same length, same order, the entries
   * with the edited id replaced and no other.
   */
  lemma UpdateAddedInPlace(qs: seq<Question>, defaults: seq<Question>, mods: seq<QuestionPatch>, additional: seq<Question>, updated: Question)
    requires Listing(qs, defaults, mods, additional) && updated.id > LastBuiltInId
    ensures var after := ReplaceWhereId(Filter(qs, Added()), updated.id, updated);
            && |after| == |additional|
            && (forall i :: 0 <= i < |additional| && additional[i].id == updated.id ==> after[i] == updated)
            && (forall i :: 0 <= i < |additional| && additional[i].id != updated.id ==> after[i] == additional[i])
            && Listing(AllQuestions(defaults, mods, after), defaults, mods, after)
  {
    AddedOfListing(qs, defaults, mods, additional);
  }

  /**
   * Deleting a built-in question drops every modification of it, so the
   * listing shows it as built in again; deleting an added question of a
   * loaded listing stores the other additional questions in order.
   */
  lemma DeleteRestoresOrRemoves(qs: seq<Question>, defaults: seq<Question>, mods: seq<QuestionPatch>, additional: seq<Question>, i: nat, id: int)
    requires Listing(qs, defaults, mods, additional)
    ensures i < |defaults| ==>
              AllQuestions(defaults, Filter(mods, PatchIdIsNot(defaults[i].id)), additional)[i] == defaults[i]
    ensures Filter(qs, AddedExcept(id)) == Filter(additional, (q: Question) => q.id != id)
    ensures forall q :: q in Filter(qs, AddedExcept(id)) <==> q in additional && q.id != id
  {
    AddedOfListing(qs, defaults, mods, additional);
    if i < |defaults| {
      var kept := Filter(mods, PatchIdIsNot(defaults[i].id));
      assert forall k :: 0 <= k < |kept| ==> kept[k] in kept;
      PatchedUntouched(defaults, kept, i);
    }
  }
}
