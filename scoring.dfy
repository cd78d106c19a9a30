/**
 * How a finished attempt is scored (the pure part of `finishQuiz` in the
 * quiz page), and the running score the page shows while the attempt is
 * under way.
 */
module Scoring {
  import opened Wrappers
  import opened Types

  function Max0(x: int): (r: int)
    ensures r >= 0 && r >= x && (r == 0 || r == x)
  {
    if x > 0 then x else 0
  }

  /** The number of answers to regular (non-bonus) questions. */
  function RegularCount(answers: seq<Answer>): (n: nat)
    ensures n <= |answers|
  {
    if answers == [] then 0
    else RegularCount(answers[..|answers| - 1]) + (if answers[|answers| - 1].isBonus then 0 else 1)
  }

  /** `answers.filter(a => !a.isBonus && a.isCorrect).length`. */
  function RegularCorrect(answers: seq<Answer>): (n: nat)
    ensures n <= RegularCount(answers)
  {
    if answers == [] then 0
    else
      var last := answers[|answers| - 1];
      RegularCorrect(answers[..|answers| - 1]) + (if !last.isBonus && last.isCorrect then 1 else 0)
  }

  /** `answers.find(a => a.isBonus)`: the first answer to a bonus question. */
  function FirstBonus(answers: seq<Answer>): (r: Option<Answer>)
    ensures r.Some? ==> r.value in answers && r.value.isBonus
    ensures r.None? ==> forall a :: a in answers ==> !a.isBonus
  {
    if answers == [] then None
    else if answers[0].isBonus then Some(answers[0])
    else FirstBonus(answers[1..])
  }

  /** The points a bonus answer earns: 10 when correct, -8 otherwise. */
  function BonusFor(a: Answer): (b: int)
    ensures b == 10 || b == -8
    ensures b > 0 <==> a.isCorrect
  {
    if a.isCorrect then 10 else -8
  }

  /** The bonus points of a log: those of its first bonus answer, 0 when the bonus was not taken. */
  function BonusPoints(answers: seq<Answer>): (b: int)
    ensures FirstBonus(answers).None? ==> b == 0
    ensures FirstBonus(answers).Some? ==> b == (if FirstBonus(answers).value.isCorrect then 10 else -8)
  {
    match FirstBonus(answers)
    case None => 0
    case Some(a) => BonusFor(a)
  }

  /** The scores `finishQuiz` stores. */
  datatype Score = Score(regularScore: int, bonusScore: int, totalScore: int)

  /**
   * Regular score: correct regular answers less two points per tab-switch
   * penalty, floored at zero. Total: regular plus bonus, floored at zero.
   */
  function FinalScore(answers: seq<Answer>, penalties: nat): (s: Score)
    ensures 0 <= s.regularScore <= RegularCorrect(answers) <= RegularCount(answers)
    ensures s.regularScore >= RegularCorrect(answers) - 2 * penalties
    ensures penalties == 0 ==> s.regularScore == RegularCorrect(answers)
    ensures s.bonusScore in {10, -8, 0}
    ensures s.bonusScore == BonusPoints(answers)
    ensures s.totalScore >= 0 && s.totalScore >= s.regularScore + s.bonusScore
    ensures s.totalScore == 0 || s.totalScore == s.regularScore + s.bonusScore
  {
    var regular := Max0(RegularCorrect(answers) - penalties * 2);
    var bonus := BonusPoints(answers);
    Score(regular, bonus, Max0(regular + bonus))
  }

  /** Each further penalty costs at most two regular points and never drives them below zero. */
  lemma PenaltyCostsTwo(answers: seq<Answer>, penalties: nat)
    ensures FinalScore(answers, penalties + 1).regularScore
         == Max0(FinalScore(answers, penalties).regularScore - 2)
  {
  }

  /** Appending an answer to the log: how the regular counts grow. */
  lemma RegularCountsAppend(answers: seq<Answer>, a: Answer)
    ensures RegularCount(answers + [a]) == RegularCount(answers) + (if a.isBonus then 0 else 1)
    ensures RegularCorrect(answers + [a]) == RegularCorrect(answers) + (if !a.isBonus && a.isCorrect then 1 else 0)
  {
    assert (answers + [a])[..|answers|] == answers;
  }

  /** A log that has no bonus answer keeps its first bonus answer when one is appended. */
  lemma {:induction false} FirstBonusAppend(answers: seq<Answer>, a: Answer)
    ensures FirstBonus(answers + [a]) == if FirstBonus(answers).Some? then FirstBonus(answers)
                                         else if a.isBonus then Some(a) else None
  {
    if answers == [] {
      assert answers + [a] == [a];
    } else {
      assert (answers + [a])[1..] == answers[1..] + [a];
      FirstBonusAppend(answers[1..], a);
    }
  }

  /** An event that moves the score shown on screen while the attempt runs. */
  datatype ScoreEvent = CorrectRegular | TabPenalty

  /**
   * The on-screen regular score: +1 per correct regular answer, and each
   * penalty takes two points off, floored at zero at that moment.
   */
  function RunningScore(events: seq<ScoreEvent>): (r: int)
    ensures r >= 0
  {
    if events == [] then 0
    else
      var r := RunningScore(events[..|events| - 1]);
      match events[|events| - 1]
      case CorrectRegular => r + 1
      case TabPenalty => Max0(r - 2)
  }

  function CountCorrect(events: seq<ScoreEvent>): nat {
    if events == [] then 0
    else CountCorrect(events[..|events| - 1]) + (if events[|events| - 1] == CorrectRegular then 1 else 0)
  }

  function CountPenalties(events: seq<ScoreEvent>): nat {
    if events == [] then 0
    else CountPenalties(events[..|events| - 1]) + (if events[|events| - 1] == TabPenalty then 1 else 0)
  }

  /** One more event: how the running score and the counts move. */
  lemma ScoreEventsAppend(events: seq<ScoreEvent>, e: ScoreEvent)
    ensures RunningScore(events + [e]) == if e == CorrectRegular then RunningScore(events) + 1
                                         else Max0(RunningScore(events) - 2)
    ensures CountCorrect(events + [e]) == CountCorrect(events) + (if e == CorrectRegular then 1 else 0)
    ensures CountPenalties(events + [e]) == CountPenalties(events) + (if e == TabPenalty then 1 else 0)
  {
    assert (events + [e])[..|events|] == events;
  }

  /**
   * The running score is never below the stored regular score computed from
   * the same correct answers and penalties, and never above the number of
   * correct answers.
   */
  lemma {:induction false} RunningScoreBounds(events: seq<ScoreEvent>)
    ensures Max0(CountCorrect(events) - 2 * CountPenalties(events)) <= RunningScore(events) <= CountCorrect(events)
  {
    if events != [] {
      RunningScoreBounds(events[..|events| - 1]);
    }
  }

  /**
   * The two can differ: a penalty taken before any point was earned is
   * absorbed by the floor on screen but still counts in the stored score.
   */
  lemma RunningScoreCanExceedFinal()
    ensures var events := [TabPenalty, CorrectRegular, CorrectRegular];
            RunningScore(events) == 2 && Max0(CountCorrect(events) - 2 * CountPenalties(events)) == 0
  {
    var events := [TabPenalty, CorrectRegular, CorrectRegular];
    assert events[..2] == [TabPenalty, CorrectRegular];
    assert events[..2][..1] == [TabPenalty];
    assert [TabPenalty][..0] == [];
  }
}
