/**
 * The records the quiz application passes around and keeps in browser
 * storage, in one canonical shape.
 */
module Types {
  import opened Wrappers

  datatype Difficulty = Easy | Medium | Difficult

  /** A multiple-choice question; `correctAnswer` is an index into `options`. */
  datatype Question = Question(
    id: int,
    text: string,
    options: seq<string>,
    correctAnswer: int,
    difficulty: Difficulty,
    timeLimit: int,
    isStrict: bool,
    isBonus: bool,
    explanation: Option<string>)

  /**
   * A stored modification of a built-in question, merged with
   * `{ ...question, ...patch }`: a None field is a key the stored object
   * does not have, so the question keeps its own value there.
   */
  datatype QuestionPatch = QuestionPatch(
    id: int,
    text: Option<string>,
    options: Option<seq<string>>,
    correctAnswer: Option<int>,
    difficulty: Option<Difficulty>,
    timeLimit: Option<int>,
    isStrict: Option<bool>,
    isBonus: Option<bool>,
    explanation: Option<string>)

  /** The patch that stores a whole question (`{ ...q }` written as a modification). */
  function FullPatch(q: Question): QuestionPatch {
    QuestionPatch(q.id, Some(q.text), Some(q.options), Some(q.correctAnswer), Some(q.difficulty),
                  Some(q.timeLimit), Some(q.isStrict), Some(q.isBonus), q.explanation)
  }

  /** `{ ...q, ...p }`: every field the patch has overrides the question's. */
  function ApplyPatch(q: Question, p: QuestionPatch): (r: Question)
    ensures r.id == p.id
    ensures r.text == p.text.GetOr(q.text) && r.options == p.options.GetOr(q.options)
    ensures r.correctAnswer == p.correctAnswer.GetOr(q.correctAnswer)
    ensures r.difficulty == p.difficulty.GetOr(q.difficulty)
    ensures r.timeLimit == p.timeLimit.GetOr(q.timeLimit)
    ensures r.isStrict == p.isStrict.GetOr(q.isStrict) && r.isBonus == p.isBonus.GetOr(q.isBonus)
    ensures r.explanation == (if p.explanation.Some? then p.explanation else q.explanation)
  {
    Question(p.id, p.text.GetOr(q.text), p.options.GetOr(q.options),
             p.correctAnswer.GetOr(q.correctAnswer), p.difficulty.GetOr(q.difficulty),
             p.timeLimit.GetOr(q.timeLimit), p.isStrict.GetOr(q.isStrict),
             p.isBonus.GetOr(q.isBonus),
             if p.explanation.Some? then p.explanation else q.explanation)
  }

  /** One entry of the attempt's answer log; `selectedAnswer` is None on a timeout. */
  datatype Answer = Answer(questionId: int, selectedAnswer: Option<int>, isCorrect: bool, isBonus: bool)

  datatype Student = Student(regNumber: string, name: string, penalty: Option<int>)

  /** A login bound to a browser (`deviceId`) at time `timestamp` (ms). */
  datatype DeviceSession = DeviceSession(regNumber: string, deviceId: string, timestamp: int)

  datatype DifficultyScores = DifficultyScores(easy: int, medium: int, difficult: int)

  /**
   * A stored quiz result. The fields other writers may leave out are
   * Options; `timestamp` is in milliseconds.
   */
  datatype QuizResult = QuizResult(
    regNumber: string,
    name: Option<string>,
    regularScore: Option<int>,
    bonusScore: Option<int>,
    score: int,
    tookBonusQuestion: bool,
    difficultyScores: Option<DifficultyScores>,
    tabSwitchPenalties: Option<int>,
    timestamp: int,
    date: Option<string>,
    quizTitle: Option<string>)

  /** Stored quiz settings; a JSON object may lack any key. */
  datatype QuizSettings = QuizSettings(
    totalQuestions: Option<int>,
    easyTimeLimit: Option<int>,
    mediumTimeLimit: Option<int>,
    difficultTimeLimit: Option<int>,
    easyCount: Option<int>,
    mediumCount: Option<int>,
    difficultCount: Option<int>,
    title: Option<string>)

  /** The built-in question bank, bonus pool and class roster. */
  datatype Catalog = Catalog(questions: seq<Question>, bonusQuestions: seq<Question>, students: seq<Student>)

  /** The administrator's registration number. */
  const AdminRegNumber: string := "RA2411043010075"
}
