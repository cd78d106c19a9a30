/**
 * The leaderboard page: every stored result is normalised into a row with
 * a penalised score, the quiz titles are listed once each, and the rows are
 * filtered by period and quiz and ranked by score.
 */
module Leaderboard {
  import opened Wrappers
  import opened Types
  import opened Text
  import opened Lists
  import opened Ranking

  /** One processed row of the leaderboard. */
  datatype Entry = Entry(
    regNumber: string,
    studentName: string,
    quizTitle: string,
    date: string,
    timestamp: int,
    regularScore: int,
    bonusScore: int,
    tabSwitchPenalties: int,
    penaltyPoints: int,
    rawScore: int,
    score: int)

  /** `value || fallback` on a string that may be missing. */
  function OrElse(value: Option<string>, fallback: string): (s: string)
    ensures s == fallback <==> value.None? || value.value == "" || value.value == fallback
  {
    if value.Some? && value.value != "" then value.value else fallback
  }

  /**
   * The row the page makes of a stored result. Missing numbers count as 0,
   * each tab switch costs 2 points, and the score is clamped at 0. A result
   * without a date is dated by `isoDate` of its timestamp (the clock's
   * `toISOString().split('T')[0]`).
   */
  function Process(r: QuizResult, isoDate: int -> string): (e: Entry)
    ensures e.regNumber == r.regNumber && e.timestamp == r.timestamp
    ensures e.regularScore == r.regularScore.GetOr(0) && e.bonusScore == r.bonusScore.GetOr(0)
    ensures e.tabSwitchPenalties == r.tabSwitchPenalties.GetOr(0)
    ensures e.rawScore == e.regularScore + e.bonusScore && e.penaltyPoints == 2 * e.tabSwitchPenalties
    ensures e.score >= 0 && e.score >= e.rawScore - e.penaltyPoints
    ensures e.score == 0 || e.score == e.rawScore - e.penaltyPoints
    ensures e.studentName == OrElse(r.name, "Unknown Student") && e.quizTitle == OrElse(r.quizTitle, "Regular Quiz")
    ensures e.date == OrElse(r.date, isoDate(r.timestamp))
  {
    var regular := r.regularScore.GetOr(0);
    var bonus := r.bonusScore.GetOr(0);
    var penalties := r.tabSwitchPenalties.GetOr(0);
    var penaltyPoints := penalties * 2;
    var total := if regular + bonus - penaltyPoints > 0 then regular + bonus - penaltyPoints else 0;
    Entry(r.regNumber, OrElse(r.name, "Unknown Student"), OrElse(r.quizTitle, "Regular Quiz"),
          OrElse(r.date, isoDate(r.timestamp)), r.timestamp, regular, bonus, penalties, penaltyPoints,
          regular + bonus, total)
  }

  /**
   * The page subtracts the tab-switch penalties from a regular score the
   * quiz page already reduced by them: a result stored with regular score
   * 5, no bonus and one penalty is shown with 3 points, not 5.
   */
  lemma PenaltyCountedTwice(isoDate: int -> string)
    ensures var r := QuizResult("RA2411043010062", Some("A"), Some(5), Some(0), 5, false, None, Some(1), 0, Some("2025-01-01"), None);
            Process(r, isoDate).score == 3 && r.score == 5
  {
  }

  /** The rows of all stored results, in stored order. */
  function ProcessAll(results: seq<QuizResult>, isoDate: int -> string): (es: seq<Entry>)
    ensures |es| == |results| && forall i :: 0 <= i < |results| ==> es[i] == Process(results[i], isoDate)
  {
    seq(|results|, i requires 0 <= i < |results| => Process(results[i], isoDate))
  }

  /** The position of the first occurrence of `t` in `s`. */
  function FirstPos(s: seq<string>, t: string): (k: nat)
    requires t in s
    ensures k < |s| && s[k] == t && forall m :: 0 <= m < k ==> s[m] != t
  {
    if s[0] == t then 0 else 1 + FirstPos(s[1..], t)
  }

  /** A position holding `t` with no `t` before it is the first position of `t`. */
  lemma FirstPosUnique(s: seq<string>, t: string, k: nat)
    requires k < |s| && s[k] == t && forall m :: 0 <= m < k ==> s[m] != t
    ensures FirstPos(s, t) == k
  {
  }

  /** Every entry of `r` occurs in `s`, and they stand in the order of their first occurrences. */
  predicate InFirstSeenOrder(r: seq<string>, s: seq<string>) {
    && (forall t :: t in r ==> t in s)
    && forall i, j :: 0 <= i < j < |r| ==> FirstPos(s, r[i]) < FirstPos(s, r[j])
  }

  /** Appending to `s` moves no first occurrence of what `s` already holds. */
  lemma FirstSeenGrow(r: seq<string>, s: seq<string>, x: string)
    requires InFirstSeenOrder(r, s)
    ensures InFirstSeenOrder(r, s + [x])
  {
    forall t | t in s ensures FirstPos(s + [x], t) == FirstPos(s, t) {
      FirstPosUnique(s + [x], t, FirstPos(s, t));
    }
    forall i, j | 0 <= i < j < |r| ensures FirstPos(s + [x], r[i]) < FirstPos(s + [x], r[j]) {
      assert r[i] in r && r[j] in r;
    }
  }

  /** `Array.from(new Set(titles))`: each title once, in first-seen order. */
  function UniqueTitles(titles: seq<string>): (r: seq<string>)
    ensures forall t :: t in r <==> t in titles
    ensures forall i, j :: 0 <= i < j < |r| ==> r[i] != r[j]
    ensures InFirstSeenOrder(r, titles)
  {
    if titles == [] then []
    else
      var init := titles[..|titles| - 1];
      var last := titles[|titles| - 1];
      assert titles == init + [last];
      var seen := UniqueTitles(init);
      FirstSeenGrow(seen, init, last);
      if last in seen then seen
      else
        var r := seen + [last];
        FirstPosUnique(titles, last, |init|);
        assert InFirstSeenOrder(r, titles) by {
          forall i, j | 0 <= i < j < |r| ensures FirstPos(titles, r[i]) < FirstPos(titles, r[j]) {
            if j == |seen| {
              assert r[i] in seen;
            }
          }
        }
        r
  }

  /** The period choices of the page. */
  datatype TimeFilter = AllTime | Today | Week | Month

  /** The test a period applies to a row's ISO date (`===` or `>=` on strings). */
  function InPeriod(filter: TimeFilter, dates: ClockDates): Entry -> bool {
    match filter
    case AllTime => (e: Entry) => true
    case Today => (e: Entry) => e.date == dates.today
    case Week => (e: Entry) => LexLe(dates.weekAgo, e.date)
    case Month => (e: Entry) => LexLe(dates.monthAgo, e.date)
  }

  /** `r => r.quizTitle === quizId`. */
  function OfQuiz(quizId: string): Entry -> bool {
    (e: Entry) => e.quizTitle == quizId
  }

  function Score(): Entry -> int {
    (e: Entry) => e.score
  }

  function Timestamp(): Entry -> int {
    (e: Entry) => e.timestamp
  }

  /** The rows of the period, of the quiz unless `quizId` is 'all', before sorting. */
  function Selected(rows: seq<Entry>, filter: TimeFilter, quizId: string, dates: ClockDates): (r: seq<Entry>)
    ensures forall e :: e in r <==> e in rows && InPeriod(filter, dates)(e) && (quizId == "all" || e.quizTitle == quizId)
  {
    var inPeriod := if filter == AllTime then rows else Filter(rows, InPeriod(filter, dates));
    if quizId != "all" then Filter(inPeriod, OfQuiz(quizId)) else inPeriod
  }

  /** The quiz title of every row, in order. */
  function Titles(rows: seq<Entry>): (ts: seq<string>)
    ensures |ts| == |rows| && forall i :: 0 <= i < |rows| ==> ts[i] == rows[i].quizTitle
  {
    seq(|rows|, i requires 0 <= i < |rows| => rows[i].quizTitle)
  }

  /** The score of every row, in order (`filtered.map(r => r.score)`). */
  function Scores(rows: seq<Entry>): (xs: seq<int>)
    ensures |xs| == |rows| && forall i :: 0 <= i < |rows| ==> xs[i] == rows[i].score
  {
    seq(|rows|, i requires 0 <= i < |rows| => rows[i].score)
  }

  /** The highest score of ranked rows is the first row's, and no row scores more. */
  lemma HighestIsFirst(rows: seq<Entry>)
    requires rows != [] && Descending(rows, Score(), Timestamp())
    ensures MaxOf(Scores(rows)) == rows[0].score
    ensures forall e :: e in rows ==> e.score <= rows[0].score
  {
    HeadIsHighest(rows, Score(), Timestamp());
    var xs := Scores(rows);
    assert xs[0] == rows[0].score;
    forall x | x in xs ensures x <= rows[0].score {
      var k :| 0 <= k < |xs| && xs[k] == x;
      assert rows[k] in rows;
    }
  }

  class LeaderboardPage {
    var quizResults: seq<Entry>
    var filteredResults: seq<Entry>
    var timeFilter: TimeFilter
    var totalParticipants: int
    var highestScore: int
    var selectedQuiz: string
    var quizzes: seq<string>
    var loading: bool

    constructor ()
      ensures quizResults == [] && filteredResults == [] && timeFilter == AllTime
      ensures totalParticipants == 0 && highestScore == 0
      ensures selectedQuiz == "all" && quizzes == [] && loading
    {
      quizResults, filteredResults, timeFilter := [], [], AllTime;
      totalParticipants, highestScore := 0, 0;
      selectedQuiz, quizzes, loading := "all", [], true;
    }

    /**
     * The mount effect: the stored results are processed, their titles
     * listed, the first title (or 'all') selected, and every period shown.
     */
    method Mount(stored: seq<QuizResult>, isoDate: int -> string, dates: ClockDates)
      modifies this`quizResults, this`quizzes, this`selectedQuiz, this`loading
      modifies this`filteredResults, this`totalParticipants, this`highestScore
      ensures quizResults == ProcessAll(stored, isoDate)
      ensures quizzes == UniqueTitles(Titles(quizResults))
      ensures selectedQuiz == (if quizzes != [] then quizzes[0] else "all")
      ensures filteredResults == SortDescending(Selected(quizResults, AllTime, selectedQuiz, dates), Score(), Timestamp())
      ensures totalParticipants == |filteredResults| && !loading
      ensures filteredResults == [] ==> highestScore == 0
      ensures filteredResults != [] ==> highestScore == MaxOf(Scores(filteredResults))
    {
      var processed := ProcessAll(stored, isoDate);
      var titles := UniqueTitles(Titles(processed));
      var first := if titles != [] then titles[0] else "all";
      FilterResults(processed, AllTime, first, dates);
      quizResults, quizzes, selectedQuiz := processed, titles, first;
      loading := false;
    }

    /**
     * `filterResults`: the rows of the period and quiz, ranked by score and
     * then by timestamp, with their count and highest score (0 when there
     * are none).
     */
    method FilterResults(rows: seq<Entry>, filter: TimeFilter, quizId: string, dates: ClockDates)
      modifies this`filteredResults, this`totalParticipants, this`highestScore
      ensures filteredResults == SortDescending(Selected(rows, filter, quizId, dates), Score(), Timestamp())
      ensures totalParticipants == |filteredResults|
      ensures filteredResults == [] ==> highestScore == 0
      ensures filteredResults != [] ==> highestScore == MaxOf(Scores(filteredResults))
    {
      var filtered := rows;
      match filter {
        case AllTime =>
        case _ => filtered := Filter(filtered, InPeriod(filter, dates));
      }
      if quizId != "all" {
        filtered := Filter(filtered, OfQuiz(quizId));
      }
      filtered := SortDescending(filtered, Score(), Timestamp());
      filteredResults := filtered;
      totalParticipants := |filtered|;
      if |filtered| > 0 {
        highestScore := MaxOf(Scores(filtered));
      } else {
        highestScore := 0;
      }
    }

    /** `handleTimeFilterChange`. */
    method HandleTimeFilterChange(filter: TimeFilter, dates: ClockDates)
      modifies this`timeFilter, this`filteredResults, this`totalParticipants, this`highestScore
      ensures timeFilter == filter
      ensures filteredResults == SortDescending(Selected(quizResults, filter, selectedQuiz, dates), Score(), Timestamp())
      ensures totalParticipants == |filteredResults|
      ensures filteredResults == [] ==> highestScore == 0
      ensures filteredResults != [] ==> highestScore == MaxOf(Scores(filteredResults))
    {
      timeFilter := filter;
      FilterResults(quizResults, filter, selectedQuiz, dates);
    }

    /** `handleQuizFilter`. */
    method HandleQuizFilter(quizId: string, dates: ClockDates)
      modifies this`selectedQuiz, this`filteredResults, this`totalParticipants, this`highestScore
      ensures selectedQuiz == quizId
      ensures filteredResults == SortDescending(Selected(quizResults, timeFilter, quizId, dates), Score(), Timestamp())
      ensures totalParticipants == |filteredResults|
      ensures filteredResults == [] ==> highestScore == 0
      ensures filteredResults != [] ==> highestScore == MaxOf(Scores(filteredResults))
    {
      selectedQuiz := quizId;
      FilterResults(quizResults, timeFilter, quizId, dates);
    }
  }

  /**
   * The ranking only removes rows: every shown row is a row of the page,
   * at most as many as there are, and with every period and every quiz
   * all the rows are shown, each as often as stored.
   */
  lemma FilteringOnlyRemoves(rows: seq<Entry>, filter: TimeFilter, quizId: string, dates: ClockDates)
    ensures var shown := SortDescending(Selected(rows, filter, quizId, dates), Score(), Timestamp());
            && (forall e :: e in shown ==> e in rows)
            && |shown| <= |rows|
            && (filter == AllTime && quizId == "all" ==> multiset(shown) == multiset(rows))
  {
    var selected := Selected(rows, filter, quizId, dates);
    var shown := SortDescending(selected, Score(), Timestamp());
    forall e | e in shown ensures e in rows {
      assert e in multiset(shown);
    }
    var inPeriod := if filter == AllTime then rows else Filter(rows, InPeriod(filter, dates));
    assert |inPeriod| <= |rows|;
  }

  /**
   * Narrowing the period only removes rows: with dates in one format, the
   * rows of today are among those of the week, and those of the week among
   * those of the month.
   */
  lemma PeriodsNarrow(rows: seq<Entry>, quizId: string, dates: ClockDates)
    requires dates.Ordered()
    ensures forall e :: e in Selected(rows, Today, quizId, dates) ==> e in Selected(rows, Week, quizId, dates)
    ensures forall e :: e in Selected(rows, Week, quizId, dates) ==> e in Selected(rows, Month, quizId, dates)
  {
    forall e | e in rows {
      PeriodsNested(dates, e.date);
    }
  }
}
