/**
 * The older quiz component: questions in the legacy shape (string ids, the
 * correct answer given as option text), answers kept per question id,
 * free movement back and forth, and a score in which a correct bonus
 * question is worth 2.
 */
module LegacyQuiz {
  import opened Wrappers
  import opened Lists

  /** The legacy question record: string id and the correct option's text. */
  datatype LegacyQuestion = LegacyQuestion(
    id: string,
    text: string,
    answerOptions: seq<string>,
    correctAnswer: string,
    timeLimit: int,
    isStrict: bool,
    isBonus: bool)

  /** One saved answer: the chosen text and whether it was right. */
  datatype SavedAnswer = SavedAnswer(answer: string, isCorrect: bool)

  /** The record handed to `saveResult` on submission. */
  datatype LegacyResult = LegacyResult(
    studentRegNo: string,
    studentName: string,
    score: nat,
    totalQuestions: nat,
    timeTaken: int,
    quizType: string,
    answers: map<string, SavedAnswer>)

  function IdIs(id: string): LegacyQuestion -> bool {
    (q: LegacyQuestion) => q.id == id
  }

  /** The question's answer is its correct answer (a missing answer is `undefined`, never equal). */
  predicate AnsweredCorrectly(q: LegacyQuestion, answers: map<string, string>) {
    q.id in answers && answers[q.id] == q.correctAnswer
  }

  /** What one question adds to the score: 2 for a correct bonus question, 1 for another correct one. */
  function Points(q: LegacyQuestion, answers: map<string, string>): (p: nat)
    ensures p <= (if q.isBonus then 2 else 1)
    ensures p > 0 <==> AnsweredCorrectly(q, answers)
  {
    if AnsweredCorrectly(q, answers) then (if q.isBonus then 2 else 1) else 0
  }

  /** The `reduce` in `submitQuiz`: 0 exactly when no question is answered correctly. */
  function Score(questions: seq<LegacyQuestion>, answers: map<string, string>): (s: nat)
    ensures s == 0 <==> forall i :: 0 <= i < |questions| ==> !AnsweredCorrectly(questions[i], answers)
  {
    if questions == [] then 0
    else
      var rest := Score(questions[1..], answers);
      assert forall i :: 1 <= i < |questions| ==> questions[i] == questions[1..][i - 1];
      Points(questions[0], answers) + rest
  }

  /** The number of bonus questions. */
  function BonusCount(questions: seq<LegacyQuestion>): (n: nat)
    ensures n <= |questions|
  {
    if questions == [] then 0
    else (if questions[0].isBonus then 1 else 0) + BonusCount(questions[1..])
  }

  /**
   * The score lies between 0 and the number of questions plus the number
   * of bonus questions, so never above twice the number of questions.
   */
  lemma {:induction false} ScoreBounds(questions: seq<LegacyQuestion>, answers: map<string, string>)
    ensures 0 <= Score(questions, answers) <= |questions| + BonusCount(questions) <= 2 * |questions|
  {
    if questions != [] {
      ScoreBounds(questions[1..], answers);
    }
  }

  /** Every question answered correctly earns the maximum. */
  lemma {:induction false} AllCorrectScoresMost(questions: seq<LegacyQuestion>, answers: map<string, string>)
    requires forall i :: 0 <= i < |questions| ==> AnsweredCorrectly(questions[i], answers)
    ensures Score(questions, answers) == |questions| + BonusCount(questions)
  {
    if questions != [] {
      assert AnsweredCorrectly(questions[0], answers);
      AllCorrectScoresMost(questions[1..], answers);
    }
  }

  /** With no question answered correctly (in particular with no answers) the score is 0. */
  lemma {:induction false} NoneCorrectScoresZero(questions: seq<LegacyQuestion>, answers: map<string, string>)
    requires forall i :: 0 <= i < |questions| ==> !AnsweredCorrectly(questions[i], answers)
    ensures Score(questions, answers) == 0
  {
    if questions != [] {
      assert !AnsweredCorrectly(questions[0], answers);
      NoneCorrectScoresZero(questions[1..], answers);
    }
  }

  /** Answers recorded under ids of no question do not change the score. */
  lemma {:induction false} ScoreReadsOnlyQuestionIds(questions: seq<LegacyQuestion>, a: map<string, string>, b: map<string, string>)
    requires forall i :: 0 <= i < |questions| ==>
               (questions[i].id in a <==> questions[i].id in b)
               && (questions[i].id in a ==> a[questions[i].id] == b[questions[i].id])
    ensures Score(questions, a) == Score(questions, b)
  {
    if questions != [] {
      assert Points(questions[0], a) == Points(questions[0], b);
      ScoreReadsOnlyQuestionIds(questions[1..], a, b);
    }
  }

  /** The sum of the questions' limits. */
  function TotalLimit(questions: seq<LegacyQuestion>): int {
    if questions == [] then 0 else questions[0].timeLimit + TotalLimit(questions[1..])
  }

  /**
   * The `reduce` computing `time_taken`: each question's limit less the
   * time left on the clock, which is the final `timeLeft` for every
   * question, so the sum of all limits less that reading once per question
   * rather than the time actually spent.
   */
  function TimeTaken(questions: seq<LegacyQuestion>, timeLeft: int): (t: int)
    ensures t == TotalLimit(questions) - |questions| * timeLeft
  {
    if questions == [] then 0
    else
      var rest := TimeTaken(questions[1..], timeLeft);
      assert |questions| * timeLeft == timeLeft + |questions[1..]| * timeLeft;
      questions[0].timeLimit - timeLeft + rest
  }

  /** `is_correct`: the answer equals the correct answer of the first question with that id. */
  function IsCorrect(questions: seq<LegacyQuestion>, id: string, answer: string): (b: bool)
    ensures b <==> exists i :: 0 <= i < |questions| && questions[i].id == id && questions[i].correctAnswer == answer
                              && forall j :: 0 <= j < i ==> questions[j].id != id
  {
    match FindIndex(questions, IdIs(id))
    case None => false
    case Some(i) => questions[i].correctAnswer == answer
  }

  /** The `answers` of the saved record: one entry per recorded answer. */
  function SavedAnswers(questions: seq<LegacyQuestion>, answers: map<string, string>): (r: map<string, SavedAnswer>)
    ensures r.Keys == answers.Keys
    ensures forall id :: id in r ==> r[id].answer == answers[id]
  {
    map id | id in answers :: SavedAnswer(answers[id], IsCorrect(questions, id, answers[id]))
  }

  /** A saved answer is marked correct exactly when its question counts in the score. */
  lemma SavedCorrectMatchesScore(questions: seq<LegacyQuestion>, answers: map<string, string>, i: int)
    requires 0 <= i < |questions|
    requires forall j :: 0 <= j < i ==> questions[j].id != questions[i].id
    ensures var saved := SavedAnswers(questions, answers);
            AnsweredCorrectly(questions[i], answers) <==>
              questions[i].id in saved && saved[questions[i].id].isCorrect
  {
    var id := questions[i].id;
    if id in answers {
      var f := FindIndex(questions, IdIs(id));
      assert f == Some(i);
    }
  }

  class LegacyQuizPage {
    const questions: seq<LegacyQuestion>
    var currentQuestionIndex: int
    var answers: map<string, string>
    var timeLeft: int
    var isComplete: bool
    var showReport: bool
    /** The record last handed to `saveResult`, if the quiz was submitted. */
    var saved: Option<LegacyResult>

    /** The index stays on a question (or at 0 when there are none). */
    predicate Valid()
      reads this
    {
      0 <= currentQuestionIndex && (questions != [] ==> currentQuestionIndex < |questions|)
    }

    /** The initial state, with the effect that starts the clock at the first question's limit. */
    constructor (questions: seq<LegacyQuestion>)
      ensures Valid()
      ensures this.questions == questions && currentQuestionIndex == 0 && answers == map[]
      ensures timeLeft == (if questions != [] then questions[0].timeLimit else 0)
      ensures !isComplete && !showReport && saved.None?
    {
      this.questions := questions;
      currentQuestionIndex := 0;
      answers := map[];
      timeLeft := if questions != [] then questions[0].timeLimit else 0;
      isComplete, showReport := false, false;
      saved := None;
    }

    /** `handleAnswer`: the answer to one question is set, overwriting any earlier one; the others are kept. */
    method HandleAnswer(questionId: string, answer: string)
      modifies this`answers
      ensures questionId in answers && answers[questionId] == answer
      ensures forall id :: id != questionId ==> (id in answers <==> id in old(answers))
      ensures forall id :: id != questionId && id in answers ==> answers[id] == old(answers)[id]
    {
      answers := answers[questionId := answer];
    }

    /** `handleNext`: on to the next question with its time limit, or submission on the last. */
    method HandleNext(studentRegNo: string, studentName: string)
      requires Valid()
      modifies this`currentQuestionIndex, this`timeLeft, this`isComplete, this`showReport, this`saved
      ensures Valid()
      ensures old(currentQuestionIndex) < |questions| - 1 ==>
                currentQuestionIndex == old(currentQuestionIndex) + 1
                && timeLeft == questions[currentQuestionIndex].timeLimit
                && isComplete == old(isComplete) && showReport == old(showReport) && saved == old(saved)
      ensures old(currentQuestionIndex) >= |questions| - 1 ==>
                currentQuestionIndex == old(currentQuestionIndex) && timeLeft == old(timeLeft)
                && isComplete && showReport
                && saved == Some(Submission(questions, answers, timeLeft, studentRegNo, studentName))
    {
      if currentQuestionIndex < |questions| - 1 {
        currentQuestionIndex := currentQuestionIndex + 1;
        timeLeft := questions[currentQuestionIndex].timeLimit;
      } else {
        SubmitQuiz(studentRegNo, studentName);
      }
    }

    /** `submitQuiz`: the record is handed over and the report shown. */
    method SubmitQuiz(studentRegNo: string, studentName: string)
      modifies this`isComplete, this`showReport, this`saved
      ensures isComplete && showReport
      ensures saved == Some(Submission(questions, answers, timeLeft, studentRegNo, studentName))
    {
      saved := Some(Submission(questions, answers, timeLeft, studentRegNo, studentName));
      isComplete, showReport := true, true;
    }

    /** The Previous button: one question back, never below the first. */
    method Previous()
      requires Valid()
      modifies this`currentQuestionIndex
      ensures Valid()
      ensures currentQuestionIndex == if old(currentQuestionIndex) > 0 then old(currentQuestionIndex) - 1 else 0
    {
      currentQuestionIndex := if currentQuestionIndex - 1 > 0 then currentQuestionIndex - 1 else 0;
    }
  }

  /** The record `submitQuiz` builds from the questions, the answers and the clock. */
  function Submission(questions: seq<LegacyQuestion>, answers: map<string, string>, timeLeft: int,
                      studentRegNo: string, studentName: string): (r: LegacyResult)
    ensures r.studentRegNo == studentRegNo && r.studentName == studentName && r.quizType == "general"
    ensures r.score == Score(questions, answers) && r.score <= 2 * r.totalQuestions && r.totalQuestions == |questions|
    ensures r.answers == SavedAnswers(questions, answers) && r.answers.Keys == answers.Keys
    ensures r.timeTaken == TotalLimit(questions) - |questions| * timeLeft
  {
    ScoreBounds(questions, answers);
    LegacyResult(studentRegNo, studentName, Score(questions, answers), |questions|,
                 TimeTaken(questions, timeLeft), "general", SavedAnswers(questions, answers))
  }
}
