/**
 * One attempt on the quiz page: the page's state fields, changed only by
 * the events the page reacts to (start, option selected, time up, the
 * delayed move to the next question, the bonus choice, focus and
 * visibility signals, timer ticks), and the result record `finishQuiz`
 * appends to the stored results.
 */
module QuizPage {
  import opened Wrappers
  import opened Types
  import opened Lists
  import opened Scoring
  import opened QuizTimer
  import opened Storage

  /** The browser signals the page listens to during an attempt. */
  datatype FocusSignal = Hidden | Visible | Blur | Focus

  /** The log entry for an answer `selected` (None on a timeout) to `q`. */
  function AnswerFor(q: Question, selected: Option<int>, isBonus: bool): (a: Answer)
    ensures a.questionId == q.id && a.selectedAnswer == selected && a.isBonus == isBonus
    ensures a.isCorrect <==> selected.Some? && selected.value == q.correctAnswer
  {
    Answer(q.id, selected, selected == Some(q.correctAnswer), isBonus)
  }

  /** `questions.find(q => q.id === id)`. */
  function FindQuestion(questions: seq<Question>, id: int): (r: Option<Question>)
    ensures r.Some? ==> r.value in questions && r.value.id == id
    ensures r.None? ==> forall q :: q in questions ==> q.id != id
  {
    if questions == [] then None
    else if questions[0].id == id then Some(questions[0])
    else FindQuestion(questions[1..], id)
  }

  function Bump(d: DifficultyScores, level: Difficulty): DifficultyScores {
    match level
    case Easy => d.(easy := d.easy + 1)
    case Medium => d.(medium := d.medium + 1)
    case Difficult => d.(difficult := d.difficult + 1)
  }

  function Total(d: DifficultyScores): int {
    d.easy + d.medium + d.difficult
  }

  /** A correct regular answer whose question is found and has difficulty `level`. */
  function CorrectAt(questions: seq<Question>, level: Difficulty): Answer -> bool {
    (a: Answer) => !a.isBonus && a.isCorrect && FindQuestion(questions, a.questionId).Some?
                   && FindQuestion(questions, a.questionId).value.difficulty == level
  }

  /**
   * The difficulty-wise count of correct regular answers: each one adds 1
   * under the difficulty of the first question with its id; an answer whose
   * question is not found adds nothing.
   */
  function DifficultyTally(answers: seq<Answer>, questions: seq<Question>): (d: DifficultyScores)
    ensures Total(d) <= RegularCorrect(answers)
  {
    if answers == [] then DifficultyScores(0, 0, 0)
    else
      var a := answers[|answers| - 1];
      var acc := DifficultyTally(answers[..|answers| - 1], questions);
      if !a.isBonus && a.isCorrect then
        match FindQuestion(questions, a.questionId)
        case Some(q) => Bump(acc, q.difficulty)
        case None => acc
      else acc
  }

  /**
   * Each count of the tally is the number of correct regular answers whose
   * question is found and has that difficulty.
   */
  lemma {:induction false} TallyCounts(answers: seq<Answer>, questions: seq<Question>)
    ensures var d := DifficultyTally(answers, questions);
            && d.easy == |Filter(answers, CorrectAt(questions, Easy))|
            && d.medium == |Filter(answers, CorrectAt(questions, Medium))|
            && d.difficult == |Filter(answers, CorrectAt(questions, Difficult))|
  {
    if answers != [] {
      TallyCounts(answers[..|answers| - 1], questions);
      FilterSnoc(answers, CorrectAt(questions, Easy));
      FilterSnoc(answers, CorrectAt(questions, Medium));
      FilterSnoc(answers, CorrectAt(questions, Difficult));
    }
  }

  /** When every regular answer's question is found, the tally accounts for every correct regular answer. */
  lemma {:induction false} TallyComplete(answers: seq<Answer>, questions: seq<Question>)
    requires forall k :: 0 <= k < |answers| && !answers[k].isBonus ==> FindQuestion(questions, answers[k].questionId).Some?
    ensures Total(DifficultyTally(answers, questions)) == RegularCorrect(answers)
  {
    if answers != [] {
      TallyComplete(answers[..|answers| - 1], questions);
    }
  }

  /** `quizSettings?.title || 'Regular Quiz'`. */
  function QuizTitle(settings: QuizSettings): (t: string)
    ensures t != []
    ensures settings.title.Some? && settings.title.value != [] ==> t == settings.title.value
    ensures !(settings.title.Some? && settings.title.value != []) ==> t == "Regular Quiz"
  {
    if settings.title.Some? && settings.title.value != [] then settings.title.value else "Regular Quiz"
  }

  /** `localStorage.getItem('regNumber') || 'Unknown'`. */
  function StoredRegNumber(stored: Option<string>): (r: string)
    ensures r != []
    ensures stored.Some? && stored.value != [] ==> r == stored.value
    ensures !(stored.Some? && stored.value != []) ==> r == "Unknown"
  {
    if stored.Some? && stored.value != [] then stored.value else "Unknown"
  }

  /**
   * The record `finishQuiz` appends: scores from the final answer log and
   * the penalty count, the difficulty tally, and the attempt's metadata.
   * `now` is the clock in milliseconds and `today` its ISO date.
   */
  function ResultRecord(storedReg: Option<string>, name: string, answers: seq<Answer>, penalties: nat,
                        tookBonus: bool, questions: seq<Question>, title: string, now: int, today: string): (r: QuizResult)
    ensures r.regNumber == StoredRegNumber(storedReg) && r.name == Some(name)
    ensures r.regularScore.Some? && 0 <= r.regularScore.value <= RegularCorrect(answers)
    ensures r.regularScore.value == Max0(RegularCorrect(answers) - 2 * penalties)
    ensures r.bonusScore == Some(BonusPoints(answers))
    ensures r.score >= 0 && r.score == Max0(r.regularScore.value + r.bonusScore.value)
    ensures r.tabSwitchPenalties == Some(penalties) && r.tookBonusQuestion == tookBonus
    ensures r.difficultyScores == Some(DifficultyTally(answers, questions))
    ensures Total(r.difficultyScores.value) <= RegularCorrect(answers)
    ensures r.timestamp == now && r.date == Some(today) && r.quizTitle == Some(title)
  {
    var s := FinalScore(answers, penalties);
    var regular := Max0(RegularCorrect(answers) - 2 * penalties);
    assert s == Score(regular, BonusPoints(answers), Max0(regular + BonusPoints(answers)));
    var tally := DifficultyTally(answers, questions);
    QuizResult(StoredRegNumber(storedReg), Some(name), Some(s.regularScore), Some(s.bonusScore), s.totalScore,
               tookBonus, Some(tally), Some(penalties), now, Some(today), Some(title))
  }

  /** The question the `k`-th log entry answers: the regular questions, then the bonus question. */
  function QuestionAt(questions: seq<Question>, bonus: Question, k: nat): Question {
    if k < |questions| then questions[k] else bonus
  }

  /**
   * An attempt's answer log: entry `k` answers the `k`-th regular question,
   * and one more entry answers the bonus question.
   */
  ghost predicate LogMatches(questions: seq<Question>, bonus: Question, answers: seq<Answer>)
    decreases |answers|
  {
    if answers == [] then true
    else
      var k := |answers| - 1;
      && k <= |questions|
      && LogMatches(questions, bonus, answers[..k])
      && answers[k] == AnswerFor(QuestionAt(questions, bonus, k), answers[k].selectedAnswer, k == |questions|)
  }

  /** Entry `k` of a well-formed log. */
  lemma {:induction false} LogEntry(questions: seq<Question>, bonus: Question, answers: seq<Answer>, k: nat)
    requires LogMatches(questions, bonus, answers) && k < |answers|
    ensures k <= |questions| && |answers| <= |questions| + 1
    ensures answers[k] == AnswerFor(QuestionAt(questions, bonus, k), answers[k].selectedAnswer, k == |questions|)
  {
    var last := |answers| - 1;
    if k < last {
      LogEntry(questions, bonus, answers[..last], k);
    }
  }

  /** Logging the answer to the next question keeps the log well-formed; how the correct count moves. */
  lemma LogAppend(questions: seq<Question>, bonus: Question, answers: seq<Answer>, selected: Option<int>)
    requires LogMatches(questions, bonus, answers) && |answers| <= |questions|
    ensures var a := AnswerFor(QuestionAt(questions, bonus, |answers|), selected, |answers| == |questions|);
            && LogMatches(questions, bonus, answers + [a])
            && RegularCorrect(answers + [a]) == RegularCorrect(answers) + (if !a.isBonus && a.isCorrect then 1 else 0)
  {
    var a := AnswerFor(QuestionAt(questions, bonus, |answers|), selected, |answers| == |questions|);
    assert (answers + [a])[..|answers|] == answers;
    RegularCountsAppend(answers, a);
  }

  /** Before the bonus question is answered, the log holds no bonus answer. */
  lemma {:induction false} NoBonusAnswer(questions: seq<Question>, bonus: Question, answers: seq<Answer>)
    requires LogMatches(questions, bonus, answers) && |answers| <= |questions|
    ensures forall k :: 0 <= k < |answers| ==> !answers[k].isBonus
    ensures FirstBonus(answers).None?
  {
    if answers != [] {
      var last := |answers| - 1;
      NoBonusAnswer(questions, bonus, answers[..last]);
      assert forall k :: 0 <= k < last ==> answers[..last][k] == answers[k];
    }
  }

  /** The bonus points of a log: those of its last entry once the bonus question is answered, else 0. */
  lemma LogBonusPoints(questions: seq<Question>, bonus: Question, answers: seq<Answer>)
    requires LogMatches(questions, bonus, answers)
    ensures BonusPoints(answers) == if |answers| > |questions| then BonusFor(answers[|answers| - 1]) else 0
  {
    if answers != [] && |answers| - 1 == |questions| {
      var init := answers[..|questions|];
      assert answers == init + [answers[|questions|]];
      NoBonusAnswer(questions, bonus, init);
      FirstBonusAppend(init, answers[|questions|]);
    } else if answers != [] {
      NoBonusAnswer(questions, bonus, answers);
    }
  }

  /** The difficulty tally counts every correct regular answer: each answers one of the drawn questions. */
  lemma TallyCountsAll(questions: seq<Question>, bonus: Question, answers: seq<Answer>)
    requires LogMatches(questions, bonus, answers)
    ensures Total(DifficultyTally(answers, questions)) == RegularCorrect(answers)
  {
    forall k | 0 <= k < |answers| && !answers[k].isBonus
      ensures FindQuestion(questions, answers[k].questionId).Some?
    {
      LogEntry(questions, bonus, answers, k);
      assert questions[k] in questions;
    }
    TallyComplete(answers, questions);
  }

  /** A log holds one regular answer per regular question it covers. */
  lemma {:induction false} LogRegularCount(questions: seq<Question>, bonus: Question, answers: seq<Answer>)
    requires LogMatches(questions, bonus, answers)
    ensures RegularCount(answers) == if |answers| > |questions| then |questions| else |answers|
  {
    if answers != [] {
      LogRegularCount(questions, bonus, answers[..|answers| - 1]);
    }
  }

  /**
   * The on-screen regular score lies between the stored regular score for
   * `correct` correct answers and `penalties` penalties, and `correct`.
   */
  ghost predicate ScoreBounds(correct: nat, penalties: nat, regularScore: int) {
    Max0(correct - 2 * penalties) <= regularScore <= correct
  }

  /** A correct regular answer (+1) and a penalty (-2, floored at zero) keep the bounds. */
  lemma ScoreBoundsStep(correct: nat, penalties: nat, regularScore: int)
    requires ScoreBounds(correct, penalties, regularScore)
    ensures ScoreBounds(correct + 1, penalties, regularScore + 1)
    ensures ScoreBounds(correct, penalties + 1, Max0(regularScore - 2))
  {
  }

  /**
   * The answer log and the on-screen scores of an attempt at question
   * `index`: one entry per presented and answered question, in order, and
   * scores that agree with the log.
   */
  ghost predicate Ledger(questions: seq<Question>, bonus: Question, index: nat, answered: bool, showingBonus: bool,
                         answers: seq<Answer>, penalties: nat, regularScore: int, bonusScore: int)
  {
    && |answers| == index + (if answered then 1 else 0) + (if showingBonus then 1 else 0)
    && LogMatches(questions, bonus, answers)
    && ScoreBounds(RegularCorrect(answers), penalties, regularScore)
    && bonusScore == (if showingBonus && answered then BonusFor(answers[|answers| - 1]) else 0)
  }

  /**
   * Answering the open question (`selected` is None on a timeout): the log
   * grows by its entry, a correct regular answer adds 1 to the regular score
   * and the bonus answer sets the bonus score to its points.
   */
  lemma LedgerAnswer(questions: seq<Question>, bonus: Question, index: nat, showingBonus: bool,
                     answers: seq<Answer>, penalties: nat, regularScore: int, bonusScore: int, selected: Option<int>)
    requires Ledger(questions, bonus, index, false, showingBonus, answers, penalties, regularScore, bonusScore)
    requires index < |questions| && (showingBonus ==> index == |questions| - 1)
    ensures var a := AnswerFor(QuestionAt(questions, bonus, |answers|), selected, showingBonus);
            Ledger(questions, bonus, index, true, showingBonus, answers + [a], penalties,
                   regularScore + (if a.isCorrect && !showingBonus then 1 else 0),
                   if showingBonus then BonusFor(a) else bonusScore)
  {
    LogAppend(questions, bonus, answers, selected);
    ScoreBoundsStep(RegularCorrect(answers), penalties, regularScore);
  }

  /** How the page's stage flags may combine, for `n` drawn questions. */
  ghost predicate StageOk(n: nat, started: bool, index: nat, selected: Option<int>, answered: bool,
                          prompt: bool, showingBonus: bool, tookBonus: bool, finished: bool)
  {
    && (started ==> index < n)
    && (!started ==> index == 0 && selected == None && !answered && !prompt && !showingBonus && !finished)
    && !(prompt && showingBonus)
    && (prompt || showingBonus || finished ==> index == n - 1)
    && (prompt || finished ==> answered)
    && tookBonus == showingBonus
    && (!answered ==> selected == None)
  }

  /**
   * The latches local to the focus listeners. They live in the listeners'
   * closure, not in the page state, and start cleared whenever the
   * listeners are installed again.
   */
  class FocusLatches {
    var isHidden: bool
    var wasBlurred: bool

    constructor ()
      ensures !isHidden && !wasBlurred
    {
      isHidden, wasBlurred := false, false;
    }

    method Reset()
      modifies this
      ensures !isHidden && !wasBlurred
    {
      isHidden, wasBlurred := false, false;
    }
  }

  class QuizSession {
    /** The questions drawn for this attempt, and the bonus question. */
    const questions: seq<Question>
    const bonusQuestion: Question
    const studentName: string
    const quizTitle: string
    /** The countdown component shown beside the current question. */
    const timer: Timer
    const latches: FocusLatches
    const store: LocalStore

    var quizStarted: bool
    var currentQuestionIndex: nat
    var selectedAnswer: Option<int>
    var isAnswered: bool
    /** The answer log, appended to once per presented question. */
    var answers: seq<Answer>
    var showBonusPrompt: bool
    var showingBonusQuestion: bool
    var tookBonusQuestion: bool
    var tabSwitchPenalties: nat
    /**
     * The penalty count of the render that handled the latest answer: the
     * move delayed after that answer runs in that render's closure, so its
     * `finishQuiz` reads this count.
     */
    var penaltiesAtAnswer: nat
    /** The score shown on screen while the attempt runs. */
    var regularScore: int
    var bonusScore: int
    /** `finishQuiz` has run and the page has moved to the report. */
    var finished: bool

    /** The page's `currentQuestion`: none while the bonus prompt shows. */
    function CurrentQuestion(): (q: Option<Question>)
      reads this
      ensures q.Some? <==> !showBonusPrompt && (showingBonusQuestion || currentQuestionIndex < |questions|)
    {
      if showBonusPrompt then None
      else if showingBonusQuestion then Some(bonusQuestion)
      else if currentQuestionIndex < |questions| then Some(questions[currentQuestionIndex])
      else None
    }

    /** The current question accepts an answer. */
    predicate Open()
      reads this
    {
      quizStarted && !finished && !isAnswered && CurrentQuestion().Some?
    }

    /** An answer was given and the move to the next step is due. */
    predicate MovePending()
      reads this
    {
      quizStarted && !finished && isAnswered && !showBonusPrompt
    }

    /** The focus listeners are installed: the attempt runs. */
    predicate Listening()
      reads this
    {
      quizStarted && !finished
    }

    ghost predicate Valid()
      reads this, timer
    {
      && Core()
      // the countdown runs exactly while the shown question is unanswered
      && (quizStarted && !finished && !showBonusPrompt ==> timer.running == !isAnswered)
      && (!quizStarted || showBonusPrompt || finished ==> !timer.running)
    }

    /** The invariant apart from whether the countdown is running. */
    ghost predicate Core()
      reads this, timer
    {
      && StageOk(|questions|, quizStarted, currentQuestionIndex, selectedAnswer, isAnswered,
                 showBonusPrompt, showingBonusQuestion, tookBonusQuestion, finished)
      && Ledger(questions, bonusQuestion, currentQuestionIndex, isAnswered, showingBonusQuestion,
                answers, tabSwitchPenalties, regularScore, bonusScore)
      && (!quizStarted ==> tabSwitchPenalties == 0 && regularScore == 0)
      // the countdown beside every shown question
      && (quizStarted && !finished && !showBonusPrompt ==>
            timer.mounted && CurrentQuestion().Some? && timer.timeLimit == CurrentQuestion().value.timeLimit)
      && (!quizStarted || showBonusPrompt || finished ==> !timer.mounted)
    }

    /** The page once its questions, bonus question, student name and settings are loaded. */
    constructor (questions: seq<Question>, bonusQuestion: Question, studentName: string,
                 settings: QuizSettings, store: LocalStore)
      ensures Valid() && fresh(timer) && fresh(latches)
      ensures this.questions == questions && this.bonusQuestion == bonusQuestion && this.store == store
      ensures this.studentName == studentName && quizTitle == QuizTitle(settings)
      ensures !quizStarted && answers == [] && regularScore == 0 && bonusScore == 0 && !finished
    {
      this.questions := questions;
      this.bonusQuestion := bonusQuestion;
      this.studentName := studentName;
      this.quizTitle := QuizTitle(settings);
      this.store := store;
      timer := new Timer();
      latches := new FocusLatches();
      quizStarted, currentQuestionIndex, selectedAnswer, isAnswered, answers := false, 0, None, false, [];
      showBonusPrompt, showingBonusQuestion, tookBonusQuestion := false, false, false;
      tabSwitchPenalties, regularScore, bonusScore, finished := 0, 0, 0, false;
      penaltiesAtAnswer := 0;
    }

    /**
     * The start button (shown once the questions are loaded): the attempt
     * begins, the focus listeners are installed with fresh latches and the
     * countdown for the first question is mounted.
     */
    method Start()
      requires Valid()
      modifies this`quizStarted, timer, latches
      ensures Valid()
      ensures old(!quizStarted && |questions| > 0) ==>
                && quizStarted && !latches.isHidden && !latches.wasBlurred
                && timer.running && timer.timeLeft == questions[0].timeLimit
      ensures !old(!quizStarted && |questions| > 0) ==>
                quizStarted == old(quizStarted) && unchanged(timer) && unchanged(latches)
    {
      if !quizStarted && |questions| > 0 {
        quizStarted := true;
        latches.Reset();
        timer.Mount(questions[0].timeLimit, false);
      }
    }

    /**
     * An option is chosen. Ignored once the question is answered or when no
     * question is shown; otherwise the answer is logged, correct exactly when
     * it is the question's correct option, and the on-screen score moves:
     * +1 for a correct regular answer, 10 or -8 for the bonus question.
     */
    method Select(i: int)
      requires Valid()
      modifies this`selectedAnswer, this`isAnswered, this`answers, this`regularScore, this`bonusScore, this`penaltiesAtAnswer
      modifies timer
      ensures Valid()
      ensures old(Open()) ==>
                var q := old(CurrentQuestion()).value;
                var correct := i == q.correctAnswer;
                && answers == old(answers) + [AnswerFor(q, Some(i), showingBonusQuestion)]
                && isAnswered && selectedAnswer == Some(i)
                && regularScore == old(regularScore) + (if correct && !showingBonusQuestion then 1 else 0)
                && bonusScore == (if showingBonusQuestion then (if correct then 10 else -8) else old(bonusScore))
                && !timer.running && timer.timeLeft == old(timer.timeLeft)
                && penaltiesAtAnswer == old(tabSwitchPenalties)
      ensures !old(Open()) ==>
                && answers == old(answers) && isAnswered == old(isAnswered) && selectedAnswer == old(selectedAnswer)
                && regularScore == old(regularScore) && bonusScore == old(bonusScore) && unchanged(timer)
                && penaltiesAtAnswer == old(penaltiesAtAnswer)
    {
      if quizStarted && !finished {
        if isAnswered {
          return;
        }
        var current := CurrentQuestion();
        if current.None? {
          return;
        }
        LogAnswer(Some(i));
        timer.Render(current.value.timeLimit, true);
      }
    }

    /**
     * What selecting and timing out share: the open question becomes
     * answered with `selected`, the answer is logged, and the on-screen
     * scores take it into account (a timeout is never correct, so it only
     * ever sets the bonus score to -8).
     */
    method LogAnswer(selected: Option<int>)
      requires Core() && Open()
      modifies this`selectedAnswer, this`isAnswered, this`answers, this`regularScore, this`bonusScore, this`penaltiesAtAnswer
      ensures Core()
      ensures var a := AnswerFor(old(CurrentQuestion()).value, selected, showingBonusQuestion);
              && answers == old(answers) + [a]
              && isAnswered && selectedAnswer == selected
              && regularScore == old(regularScore) + (if a.isCorrect && !a.isBonus then 1 else 0)
              && bonusScore == (if a.isBonus then (if a.isCorrect then 10 else -8) else old(bonusScore))
      ensures penaltiesAtAnswer == old(tabSwitchPenalties)
    {
      var q := CurrentQuestion().value;
      var isBonus := showingBonusQuestion;
      assert q == QuestionAt(questions, bonusQuestion, |answers|);
      var a := AnswerFor(q, selected, isBonus);
      LedgerAnswer(questions, bonusQuestion, currentQuestionIndex, isBonus, answers, tabSwitchPenalties,
                   regularScore, bonusScore, selected);
      var regular := if a.isCorrect && !isBonus then regularScore + 1 else regularScore;
      var bonus := if isBonus then BonusFor(a) else bonusScore;
      assert StageOk(|questions|, quizStarted, currentQuestionIndex, selected, true,
                     showBonusPrompt, showingBonusQuestion, tookBonusQuestion, finished);
      selectedAnswer, isAnswered, answers, regularScore, bonusScore := selected, true, answers + [a], regular, bonus;
      penaltiesAtAnswer := tabSwitchPenalties;
    }

    /**
     * The countdown ran out. Unless the question was already answered, it
     * counts as answered with no selection; the timeout is logged as a wrong
     * answer, and on the bonus question the bonus score becomes -8.
     */
    method TimeUp()
      requires Valid()
      modifies this`selectedAnswer, this`isAnswered, this`answers, this`regularScore, this`bonusScore, this`penaltiesAtAnswer
      modifies timer
      ensures Valid()
      ensures old(Open()) ==>
                && answers == old(answers) + [AnswerFor(old(CurrentQuestion()).value, None, showingBonusQuestion)]
                && isAnswered && selectedAnswer == None && regularScore == old(regularScore)
                && bonusScore == (if showingBonusQuestion then -8 else old(bonusScore))
                && !timer.running && timer.timeLeft == old(timer.timeLeft)
                && penaltiesAtAnswer == old(tabSwitchPenalties)
      ensures !old(Open()) ==>
                && answers == old(answers) && isAnswered == old(isAnswered) && selectedAnswer == old(selectedAnswer)
                && regularScore == old(regularScore) && bonusScore == old(bonusScore) && unchanged(timer)
                && penaltiesAtAnswer == old(penaltiesAtAnswer)
    {
      if quizStarted && !finished && !isAnswered {
        TimeOut();
      }
    }

    /**
     * The body of the time-up handler for an open question. (Its check for
     * a missing question cannot fail: an unanswered question is always
     * shown.) The countdown may already have stopped itself.
     */
    method TimeOut()
      requires Core() && Open()
      modifies this`selectedAnswer, this`isAnswered, this`answers, this`regularScore, this`bonusScore, this`penaltiesAtAnswer
      modifies timer
      ensures Valid()
      ensures answers == old(answers) + [AnswerFor(old(CurrentQuestion()).value, None, showingBonusQuestion)]
      ensures isAnswered && selectedAnswer == None && regularScore == old(regularScore)
      ensures bonusScore == (if showingBonusQuestion then -8 else old(bonusScore))
      ensures !timer.running && timer.timeLeft == old(timer.timeLeft)
      ensures penaltiesAtAnswer == old(tabSwitchPenalties)
    {
      var q := CurrentQuestion().value;
      LogAnswer(None);
      timer.Render(q.timeLimit, true);
    }

    /**
     * `finishQuiz`: appends the result record to the stored results. The
     * penalty count is the one of the render whose closure calls it. The
     * on-screen fields stay as they are; the page then leaves for the report.
     */
    method Finish(now: int, today: string, penalties: nat)
      requires Valid() && quizStarted && !finished && isAnswered && currentQuestionIndex == |questions| - 1
      modifies this`finished, timer, store`quizResults
      ensures Valid() && finished && !timer.mounted
      ensures store.quizResults == old(store.quizResults)
                + [ResultRecord(store.regNumber, studentName, answers, penalties,
                                tookBonusQuestion, questions, quizTitle, now, today)]
      ensures |answers| == |questions| + (if tookBonusQuestion then 1 else 0)
      ensures RegularCount(answers) == |questions|
      ensures Total(DifficultyTally(answers, questions)) == RegularCorrect(answers)
    {
      TallyCountsAll(questions, bonusQuestion, answers);
      LogRegularCount(questions, bonusQuestion, answers);
      var result := ResultRecord(store.regNumber, studentName, answers, penalties,
                                 tookBonusQuestion, questions, quizTitle, now, today);
      store.quizResults := store.quizResults + [result];
      finished := true;
      timer.Unmount();
    }

    /**
     * `moveToNextQuestion`, delivered once after each answer: the next
     * regular question if there is one, else the bonus prompt after the
     * last regular question, else (after the bonus question) the finish.
     * It is the closure of the render that handled the answer, so the
     * finish stores the penalty count of that render, not penalties
     * charged during the pause.
     */
    method Advance(now: int, today: string)
      requires Valid()
      modifies this`currentQuestionIndex, this`selectedAnswer, this`isAnswered, this`showBonusPrompt
      modifies this`finished, timer, latches, store`quizResults
      ensures Valid()
      ensures old(MovePending()) && old(currentQuestionIndex) < |questions| - 1 ==>
                && currentQuestionIndex == old(currentQuestionIndex) + 1 && selectedAnswer == None && !isAnswered
                && !showBonusPrompt && !finished && unchanged(latches)
                && timer.running && timer.timeLimit == questions[currentQuestionIndex].timeLimit
                && timer.timeLeft == (if questions[currentQuestionIndex].timeLimit != old(timer.timeLimit)
                                      then questions[currentQuestionIndex].timeLimit else old(timer.timeLeft))
                && store.quizResults == old(store.quizResults)
      ensures old(MovePending()) && old(currentQuestionIndex) == |questions| - 1 && !showingBonusQuestion ==>
                && currentQuestionIndex == old(currentQuestionIndex) && selectedAnswer == old(selectedAnswer)
                && isAnswered && showBonusPrompt && !finished && !latches.isHidden && !latches.wasBlurred
                && !timer.running && store.quizResults == old(store.quizResults)
      ensures old(MovePending()) && showingBonusQuestion ==>
                && currentQuestionIndex == old(currentQuestionIndex) && selectedAnswer == old(selectedAnswer)
                && isAnswered && !showBonusPrompt && finished && unchanged(latches)
                && |answers| == |questions| + 1
                && store.quizResults == old(store.quizResults)
                     + [ResultRecord(store.regNumber, studentName, answers, penaltiesAtAnswer,
                                     true, questions, quizTitle, now, today)]
      ensures !old(MovePending()) ==>
                && currentQuestionIndex == old(currentQuestionIndex) && selectedAnswer == old(selectedAnswer)
                && isAnswered == old(isAnswered) && showBonusPrompt == old(showBonusPrompt)
                && finished == old(finished) && unchanged(latches) && unchanged(timer)
                && store.quizResults == old(store.quizResults)
    {
      if quizStarted && !finished && isAnswered && !showBonusPrompt {
        if currentQuestionIndex < |questions| - 1 {
          NextQuestion();
        } else if !showBonusPrompt && !showingBonusQuestion {
          RaiseBonusPrompt();
        } else {
          Finish(now, today, penaltiesAtAnswer);
        }
      }
    }

    /** The next regular question, with the countdown re-rendered for it. */
    method NextQuestion()
      requires Valid() && MovePending() && currentQuestionIndex < |questions| - 1
      modifies this`currentQuestionIndex, this`selectedAnswer, this`isAnswered, timer
      ensures Valid()
      ensures currentQuestionIndex == old(currentQuestionIndex) + 1 && selectedAnswer == None && !isAnswered
      ensures timer.running && timer.timeLimit == questions[currentQuestionIndex].timeLimit
      ensures timer.timeLeft == (if questions[currentQuestionIndex].timeLimit != old(timer.timeLimit)
                                 then questions[currentQuestionIndex].timeLimit else old(timer.timeLeft))
    {
      currentQuestionIndex, selectedAnswer, isAnswered := currentQuestionIndex + 1, None, false;
      timer.Render(questions[currentQuestionIndex].timeLimit, false);
    }

    /**
     * The bonus prompt replaces the question, so the countdown leaves the
     * page; the focus listeners are installed again, with fresh latches.
     */
    method RaiseBonusPrompt()
      requires Valid() && MovePending() && currentQuestionIndex == |questions| - 1 && !showingBonusQuestion
      modifies this`showBonusPrompt, timer, latches
      ensures Valid() && showBonusPrompt
      ensures !latches.isHidden && !latches.wasBlurred && !timer.running
    {
      showBonusPrompt := true;
      latches.Reset();
      timer.Unmount();
    }

    /**
     * The answer to the bonus prompt. Taking it shows the bonus question
     * with a fresh countdown; declining finishes the attempt at once, with no
     * bonus answer in the log and so a bonus score of 0. Either way the
     * focus listeners are installed again, with fresh latches.
     */
    method ChooseBonus(take: bool, now: int, today: string)
      requires Valid()
      modifies this`tookBonusQuestion, this`showBonusPrompt, this`selectedAnswer, this`isAnswered
      modifies this`showingBonusQuestion, this`finished, timer, latches, store`quizResults
      ensures Valid()
      ensures old(quizStarted && !finished && showBonusPrompt) && take ==>
                && tookBonusQuestion && !showBonusPrompt && selectedAnswer == None && !isAnswered
                && showingBonusQuestion && !finished && !latches.isHidden && !latches.wasBlurred
                && timer.running && timer.timeLeft == bonusQuestion.timeLimit
                && store.quizResults == old(store.quizResults)
      ensures old(quizStarted && !finished && showBonusPrompt) && !take ==>
                && !tookBonusQuestion && !showBonusPrompt && selectedAnswer == old(selectedAnswer) && isAnswered
                && !showingBonusQuestion && finished && !latches.isHidden && !latches.wasBlurred
                && |answers| == |questions| && (forall k :: 0 <= k < |answers| ==> !answers[k].isBonus)
                && store.quizResults == old(store.quizResults)
                     + [ResultRecord(store.regNumber, studentName, answers, tabSwitchPenalties,
                                     false, questions, quizTitle, now, today)]
                && store.quizResults[|store.quizResults| - 1].bonusScore == Some(0)
      ensures !old(quizStarted && !finished && showBonusPrompt) ==>
                && tookBonusQuestion == old(tookBonusQuestion) && showBonusPrompt == old(showBonusPrompt)
                && selectedAnswer == old(selectedAnswer) && isAnswered == old(isAnswered)
                && showingBonusQuestion == old(showingBonusQuestion) && finished == old(finished)
                && unchanged(latches) && unchanged(timer) && store.quizResults == old(store.quizResults)
    {
      if quizStarted && !finished && showBonusPrompt {
        if take {
          TakeBonus();
        } else {
          DeclineBonus(now, today);
        }
      }
    }

    method TakeBonus()
      requires Valid() && quizStarted && !finished && showBonusPrompt
      modifies this`tookBonusQuestion, this`showBonusPrompt, this`selectedAnswer, this`isAnswered
      modifies this`showingBonusQuestion, timer, latches
      ensures Valid()
      ensures tookBonusQuestion && !showBonusPrompt && selectedAnswer == None && !isAnswered && showingBonusQuestion
      ensures !latches.isHidden && !latches.wasBlurred
      ensures timer.running && timer.timeLeft == bonusQuestion.timeLimit
    {
      NoBonusAnswer(questions, bonusQuestion, answers);
      tookBonusQuestion, showBonusPrompt := true, false;
      selectedAnswer, isAnswered, showingBonusQuestion := None, false, true;
      latches.Reset();
      timer.Mount(bonusQuestion.timeLimit, false);
    }

    /**
     * Declining: `finishQuiz` runs within the handler, so it sees the state
     * of the render (the state updates the handler requests apply after it).
     */
    method DeclineBonus(now: int, today: string)
      requires Valid() && quizStarted && !finished && showBonusPrompt
      modifies this`tookBonusQuestion, this`showBonusPrompt, this`finished, timer, latches, store`quizResults
      ensures Valid()
      ensures !tookBonusQuestion && !showBonusPrompt && finished && !latches.isHidden && !latches.wasBlurred
      ensures |answers| == |questions| && (forall k :: 0 <= k < |answers| ==> !answers[k].isBonus)
      ensures store.quizResults == old(store.quizResults)
                + [ResultRecord(store.regNumber, studentName, answers, tabSwitchPenalties,
                                false, questions, quizTitle, now, today)]
      ensures store.quizResults[|store.quizResults| - 1].bonusScore == Some(0)
    {
      NoBonusAnswer(questions, bonusQuestion, answers);
      Finish(now, today, tabSwitchPenalties);
      tookBonusQuestion, showBonusPrompt := false, false;
      latches.Reset();
    }

    /** The signal costs a penalty: the attempt runs, no bonus prompt shows, and its latch is open. */
    predicate Charges(signal: FocusSignal)
      reads this, latches
    {
      && Listening() && !showBonusPrompt
      && ((signal == Hidden && !latches.isHidden) || (signal == Blur && !latches.wasBlurred))
    }

    /**
     * A focus or visibility signal once the attempt has started. Leaving
     * the tab (hidden) and leaving the window (blur) each cost a penalty,
     * each behind its own latch that the return (visible, focus) clears, so
     * one tab switch can cost two. Nothing is charged while the bonus prompt
     * shows. A penalty takes 2 off the on-screen score, floored at zero.
     */
    method Penalty(signal: FocusSignal)
      requires Valid()
      modifies this`tabSwitchPenalties, this`regularScore, latches
      ensures Valid()
      ensures tabSwitchPenalties == old(tabSwitchPenalties) + (if old(Charges(signal)) then 1 else 0)
      ensures regularScore == if old(Charges(signal)) then Max0(old(regularScore) - 2) else old(regularScore)
      ensures latches.isHidden == if !Listening() then old(latches.isHidden)
                                  else if signal == Hidden then old(latches.isHidden) || !showBonusPrompt
                                  else if signal == Visible then false
                                  else old(latches.isHidden)
      ensures latches.wasBlurred == if !Listening() then old(latches.wasBlurred)
                                    else if signal == Blur then old(latches.wasBlurred) || !showBonusPrompt
                                    else if signal == Focus then false
                                    else old(latches.wasBlurred)
    {
      if quizStarted && !finished {
        match signal
        case Hidden =>
          if !showBonusPrompt && !latches.isHidden {
            latches.isHidden := true;
            ApplyPenalty();
          }
        case Visible =>
          latches.isHidden := false;
        case Blur =>
          if !showBonusPrompt && !latches.wasBlurred {
            latches.wasBlurred := true;
            ApplyPenalty();
          }
        case Focus =>
          latches.wasBlurred := false;
      }
    }

    method ApplyPenalty()
      requires Valid() && quizStarted
      modifies this`tabSwitchPenalties, this`regularScore
      ensures Valid()
      ensures tabSwitchPenalties == old(tabSwitchPenalties) + 1
      ensures regularScore == Max0(old(regularScore) - 2)
    {
      ScoreBoundsStep(RegularCorrect(answers), tabSwitchPenalties, regularScore);
      tabSwitchPenalties, regularScore := tabSwitchPenalties + 1, Max0(regularScore - 2);
    }

    /** One tick of the countdown; when it runs out, the page's time-up handler runs. */
    method Tick()
      requires Valid()
      modifies this`selectedAnswer, this`isAnswered, this`answers, this`regularScore, this`bonusScore, this`penaltiesAtAnswer
      modifies timer
      ensures Valid()
      ensures old(timer.running) && old(timer.timeLeft) <= 1 ==>
                && answers == old(answers) + [AnswerFor(old(CurrentQuestion()).value, None, showingBonusQuestion)]
                && isAnswered && selectedAnswer == None && regularScore == old(regularScore)
                && bonusScore == (if showingBonusQuestion then -8 else old(bonusScore))
                && !timer.running && timer.timeLeft == 0 && penaltiesAtAnswer == old(tabSwitchPenalties)
      ensures !(old(timer.running) && old(timer.timeLeft) <= 1) ==>
                && answers == old(answers) && isAnswered == old(isAnswered) && selectedAnswer == old(selectedAnswer)
                && regularScore == old(regularScore) && bonusScore == old(bonusScore)
                && penaltiesAtAnswer == old(penaltiesAtAnswer)
      ensures old(timer.running) && old(timer.timeLeft) > 1 ==> timer.running && timer.timeLeft == old(timer.timeLeft) - 1
      ensures !old(timer.running) ==> unchanged(timer)
    {
      var timeUp := timer.Tick();
      if timeUp {
        TimeOut();
      }
    }

    /**
     * The finish after the bonus answer as evidently intended: it stores
     * every penalty charged so far, those of the pause after the answer
     * included, so the stored regular score never exceeds the one on screen.
     */
    method FinishCountingAll(now: int, today: string)
      requires Valid() && MovePending() && showingBonusQuestion
      modifies this`finished, timer, store`quizResults
      ensures Valid() && finished
      ensures store.quizResults == old(store.quizResults)
                + [ResultRecord(store.regNumber, studentName, answers, tabSwitchPenalties,
                                true, questions, quizTitle, now, today)]
      ensures store.quizResults[|store.quizResults| - 1].tabSwitchPenalties == Some(tabSwitchPenalties)
      ensures store.quizResults[|store.quizResults| - 1].regularScore.value <= regularScore
    {
      OnScreenScores();
      Finish(now, today, tabSwitchPenalties);
    }

    /**
     * The scores shown while the attempt runs, against the ones `finishQuiz`
     * stores from the same log: the on-screen bonus score is the stored one,
     * and the on-screen regular score is never below the stored regular
     * score and never above the number of correct regular answers.
     */
    lemma OnScreenScores()
      requires Valid()
      ensures bonusScore == BonusPoints(answers)
      ensures FinalScore(answers, tabSwitchPenalties).regularScore <= regularScore <= RegularCorrect(answers)
    {
      LogBonusPoints(questions, bonusQuestion, answers);
    }
  }

  /**
   * A tab switch in the pause after the bonus answer: the penalty is
   * charged and the on-screen regular score drops, but the finish that the
   * answer scheduled stores the count from before it. With no earlier
   * penalty and a positive on-screen score, the stored regular score ends
   * above the one on screen.
   */
  method LatePenaltyNotStored(s: QuizSession, i: int, now: int, today: string)
    requires s.Valid() && s.Open() && s.showingBonusQuestion && s.Charges(Hidden)
    modifies s, s.timer, s.latches, s.store`quizResults
    ensures s.tabSwitchPenalties == old(s.tabSwitchPenalties) + 1
    ensures s.regularScore == Max0(old(s.regularScore) - 2)
    ensures s.finished && |s.store.quizResults| == old(|s.store.quizResults|) + 1
    ensures var r := s.store.quizResults[|s.store.quizResults| - 1];
            && r.tabSwitchPenalties == Some(old(s.tabSwitchPenalties))
            && r.regularScore == Some(Max0(RegularCorrect(s.answers) - 2 * old(s.tabSwitchPenalties)))
    ensures old(s.tabSwitchPenalties) == 0 && old(s.regularScore) > 0 ==>
              s.store.quizResults[|s.store.quizResults| - 1].regularScore.value > s.regularScore
  {
    ghost var p0: int, r0: int := s.tabSwitchPenalties, s.regularScore;
    ghost var c: int := RegularCorrect(s.answers);
    AnswerBonusThenSwitch(s, i);
    s.Advance(now, today);
    ghost var rec := ResultRecord(s.store.regNumber, s.studentName, s.answers, p0, true, s.questions, s.quizTitle, now, today);
    assert s.store.quizResults[|s.store.quizResults| - 1] == rec;
    assert rec.regularScore == Some(Max0(c - 2 * p0));
  }

  /** The first two steps of `LatePenaltyNotStored`: the bonus answer, then a charged tab switch. */
  method AnswerBonusThenSwitch(s: QuizSession, i: int)
    requires s.Valid() && s.Open() && s.showingBonusQuestion && s.Charges(Hidden)
    modifies s`selectedAnswer, s`isAnswered, s`answers, s`regularScore, s`bonusScore, s`penaltiesAtAnswer
    modifies s`tabSwitchPenalties, s.timer, s.latches
    ensures s.Valid() && s.MovePending() && s.showingBonusQuestion
    ensures s.penaltiesAtAnswer == old(s.tabSwitchPenalties) && s.tabSwitchPenalties == old(s.tabSwitchPenalties) + 1
    ensures s.regularScore == Max0(old(s.regularScore) - 2)
    ensures RegularCorrect(s.answers) == old(RegularCorrect(s.answers))
    ensures old(s.tabSwitchPenalties) == 0 ==> old(s.regularScore) == RegularCorrect(s.answers)
  {
    ghost var before := s.answers;
    s.OnScreenScores();
    s.Select(i);
    ghost var a := s.answers[|s.answers| - 1];
    assert s.answers == before + [a] && a.isBonus;
    RegularCountsAppend(before, a);
    s.Penalty(Hidden);
  }

  /**
   * A timeout carries over: after the countdown of one question runs out,
   * the next question with the same time limit starts from the leftover 0,
   * so its first tick already times it out.
   */
  method LeftoverTimeout(s: QuizSession, now: int, today: string)
    requires s.Valid() && s.Open() && !s.showingBonusQuestion
    requires s.timer.timeLeft <= 1
    requires s.currentQuestionIndex < |s.questions| - 1
    requires s.questions[s.currentQuestionIndex + 1].timeLimit == s.questions[s.currentQuestionIndex].timeLimit
    modifies s, s.timer, s.latches, s.store`quizResults
    ensures |s.answers| == old(|s.answers|) + 2
    ensures s.answers[|s.answers| - 1].selectedAnswer.None? && s.answers[|s.answers| - 2].selectedAnswer.None?
  {
    s.Tick();
    s.Advance(now, today);
    assert s.timer.running && s.timer.timeLeft == 0;
    s.Tick();
  }
}
