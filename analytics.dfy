/**
 * `calculateAnalytics`: counts per period, the highest score, the ten best
 * results and the share of correct answers per difficulty, computed from
 * the stored results and the clock's ISO dates.
 */
module Analytics {
  import opened Wrappers
  import opened Types
  import opened Text
  import opened Lists
  import opened Ranking

  /** The integer part of the analytics (the averages are left out). */
  datatype Report = Report(
    totalAttempts: nat,
    highestScore: int,
    participantsToday: nat,
    participantsThisWeek: nat,
    participantsThisMonth: nat,
    difficultyTotals: DifficultyScores,
    difficultyDistribution: DifficultyScores,
    topPerformers: seq<QuizResult>)

  /** `r => r.date === today`. */
  function DatedOn(day: string): QuizResult -> bool {
    (r: QuizResult) => r.date == Some(day)
  }

  /** `r => r.date >= since`; a result without a date compares false. */
  function DatedSince(since: string): QuizResult -> bool {
    (r: QuizResult) => r.date.Some? && LexLe(since, r.date.value)
  }

  function ResultScore(): QuizResult -> int {
    (r: QuizResult) => r.score
  }

  /** The analytics sort has no tie-break. */
  function NoTieBreak(): QuizResult -> int {
    (r: QuizResult) => 0
  }

  function AddScores(a: DifficultyScores, b: DifficultyScores): DifficultyScores {
    DifficultyScores(a.easy + b.easy, a.medium + b.medium, a.difficult + b.difficult)
  }

  /** What one result adds to the difficulty totals: its scores, or nothing without them. */
  function Contribution(r: QuizResult): DifficultyScores {
    if r.difficultyScores.Some? then r.difficultyScores.value else DifficultyScores(0, 0, 0)
  }

  /** The `reduce` summing the difficulty scores of the results that carry them. */
  function DifficultyTotals(results: seq<QuizResult>): (t: DifficultyScores)
    ensures (forall i :: 0 <= i < |results| ==> results[i].difficultyScores.None?) ==> t == DifficultyScores(0, 0, 0)
    ensures |results| == 1 ==> t == Contribution(results[0])
  {
    if results == [] then DifficultyScores(0, 0, 0)
    else AddScores(Contribution(results[0]), DifficultyTotals(results[1..]))
  }

  /**
   * The totals of two lists of results together are the sums of their
   * totals: with the one-result case, each result adds exactly its own
   * difficulty scores.
   */
  lemma {:induction false} TotalsAppend(a: seq<QuizResult>, b: seq<QuizResult>)
    ensures DifficultyTotals(a + b) == AddScores(DifficultyTotals(a), DifficultyTotals(b))
  {
    if a == [] {
      assert a + b == b;
    } else {
      assert (a + b)[0] == a[0] && (a + b)[1..] == a[1..] + b;
      TotalsAppend(a[1..], b);
    }
  }

  function HasScores(): QuizResult -> bool {
    (r: QuizResult) => r.difficultyScores.Some?
  }

  /** Results without difficulty scores change nothing in the totals. */
  lemma {:induction false} TotalsIgnoreUnscored(results: seq<QuizResult>)
    ensures DifficultyTotals(Filter(results, HasScores())) == DifficultyTotals(results)
  {
    if results != [] {
      TotalsIgnoreUnscored(results[1..]);
      var rest := Filter(results[1..], HasScores());
      var t := DifficultyTotals(results[1..]);
      if HasScores()(results[0]) {
        var f := [results[0]] + rest;
        assert Filter(results, HasScores()) == f;
        assert f[0] == results[0] && f[1..] == rest;
        assert DifficultyTotals(f) == AddScores(Contribution(results[0]), t);
      } else {
        assert Filter(results, HasScores()) == rest;
        assert Contribution(results[0]) == DifficultyScores(0, 0, 0);
        assert DifficultyTotals(results) == AddScores(DifficultyScores(0, 0, 0), t);
      }
    }
  }

  /** `⌊a / b⌋` for a non-zero `b`. */
  function FloorDiv(a: int, b: int): int
    requires b != 0
  {
    if b > 0 then a / b else (-a) / (-b)
  }

  /**
   * `total ? Math.round(part / total * 100) : 0`: `Math.round(x)` is
   * `⌊x + 1/2⌋`, and `x + 1/2` is `(200 part + total) / (2 total)`.
   */
  function Percent(part: int, total: int): (p: int)
    ensures total == 0 ==> p == 0
    ensures total > 0 ==> 2 * total * p <= 200 * part + total < 2 * total * (p + 1)
  {
    if total == 0 then 0
    else
      var a, b := 200 * part + total, 2 * total;
      var q := FloorDiv(a, b);
      assert total > 0 ==> b * q <= a < b * (q + 1) by {
        if total > 0 {
          QuotientBrackets(a, b);
        }
      }
      q
  }

  lemma QuotientBrackets(a: int, b: int)
    requires b > 0
    ensures b * (a / b) <= a < b * (a / b + 1)
  {
    assert a == b * (a / b) + a % b;
    assert b * (a / b + 1) == b * (a / b) + b;
  }

  /** Of non-negative parts of a positive total, each share lies between 0 and 100. */
  lemma PercentWithinRange(part: int, total: int)
    requires 0 <= part <= total && total > 0
    ensures 0 <= Percent(part, total) <= 100
  {
    var a, b := 200 * part + total, 2 * total;
    assert Percent(part, total) == a / b;
    assert a < b * 101;
    QuotientBelow(a, b, 101);
  }

  lemma QuotientBelow(a: int, b: int, k: int)
    requires 0 <= a && b > 0 && a < b * k
    ensures 0 <= a / b < k
  {
    var q := a / b;
    assert a == b * q + a % b;
    if q >= k {
      MultiplyMonotone(b, k, q);
    }
  }

  lemma MultiplyMonotone(b: int, k: int, q: int)
    requires b > 0 && k <= q
    ensures b * k <= b * q
  {
    assert b * q == b * k + b * (q - k);
  }

  /**
   * `difficultyDistribution`: each difficulty's share of all correct
   * answers in whole percent, every share 0 when there are none.
   */
  function Distribution(t: DifficultyScores): (d: DifficultyScores)
    ensures t.easy + t.medium + t.difficult == 0 ==> d == DifficultyScores(0, 0, 0)
  {
    var total := t.easy + t.medium + t.difficult;
    DifficultyScores(Percent(t.easy, total), Percent(t.medium, total), Percent(t.difficult, total))
  }

  /** `Math.max(...scores)`, or 0 when there are no results. */
  function HighestScore(results: seq<QuizResult>): (h: int)
    ensures results == [] ==> h == 0
    ensures results != [] ==> (exists r :: r in results && r.score == h)
                              && forall r :: r in results ==> r.score <= h
  {
    if results == [] then 0
    else
      var scores := seq(|results|, i requires 0 <= i < |results| => results[i].score);
      var highest := MaxOf(scores);
      var k :| 0 <= k < |scores| && scores[k] == highest;
      assert results[k] in results;
      assert forall r :: r in results ==> r.score <= highest by {
        forall r | r in results ensures r.score <= highest {
          var j :| 0 <= j < |results| && results[j] == r;
          assert scores[j] in scores;
        }
      }
      highest
  }

  /** The ten best results (`sort` by score, then `slice(0, 10)`). */
  function TopPerformers(results: seq<QuizResult>): (top: seq<QuizResult>)
    ensures |top| == (if |results| < 10 then |results| else 10)
    ensures multiset(top) <= multiset(results)
    ensures Descending(top, ResultScore(), NoTieBreak())
    ensures forall r :: r in results && r !in top ==> r.score <= top[|top| - 1].score
  {
    var top := Top(results, 10, ResultScore(), NoTieBreak());
    TopLeavesOutLower(results, 10, ResultScore(), NoTieBreak());
    assert forall r :: r in results && r !in top ==> r.score <= top[|top| - 1].score by {
      forall r | r in results && r !in top ensures r.score <= top[|top| - 1].score {
        assert Ahead(top[|top| - 1], r, ResultScore(), NoTieBreak());
      }
    }
    top
  }

  /** `calculateAnalytics` on the results and the clock's dates. */
  function CalculateAnalytics(results: seq<QuizResult>, dates: ClockDates): (a: Report)
    ensures a.totalAttempts == |results|
    ensures results == [] ==> a.highestScore == 0
    ensures results != [] ==> (exists r :: r in results && r.score == a.highestScore)
                              && forall r :: r in results ==> r.score <= a.highestScore
    ensures a.participantsToday == |Filter(results, DatedOn(dates.today))|
    ensures a.participantsThisWeek == |Filter(results, DatedSince(dates.weekAgo))|
    ensures a.participantsThisMonth == |Filter(results, DatedSince(dates.monthAgo))|
    ensures |a.topPerformers| == (if |results| < 10 then |results| else 10)
    ensures multiset(a.topPerformers) <= multiset(results)
    ensures Descending(a.topPerformers, ResultScore(), NoTieBreak())
    ensures forall r :: r in results && r !in a.topPerformers ==> r.score <= a.topPerformers[|a.topPerformers| - 1].score
    ensures a.difficultyTotals == DifficultyTotals(results)
    ensures a.difficultyDistribution == Distribution(a.difficultyTotals)
  {
    var totals := DifficultyTotals(results);
    Report(|results|, HighestScore(results),
           |Filter(results, DatedOn(dates.today))|,
           |Filter(results, DatedSince(dates.weekAgo))|,
           |Filter(results, DatedSince(dates.monthAgo))|,
           totals,
           Distribution(totals),
           TopPerformers(results))
  }

  /**
   * With dates in one format, today's results are among this week's and
   * this week's among this month's, so the counts never decrease from one
   * period to the next.
   */
  lemma ParticipantsNested(results: seq<QuizResult>, dates: ClockDates)
    requires dates.Ordered()
    ensures var a := CalculateAnalytics(results, dates);
            a.participantsToday <= a.participantsThisWeek <= a.participantsThisMonth <= a.totalAttempts
  {
    var a := CalculateAnalytics(results, dates);
    forall r ensures (DatedOn(dates.today)(r) ==> DatedSince(dates.weekAgo)(r))
                 && (DatedSince(dates.weekAgo)(r) ==> DatedSince(dates.monthAgo)(r))
    {
      if r.date.Some? {
        PeriodsNested(dates, r.date.value);
      }
    }
    FilterOfFilter(results, DatedSince(dates.weekAgo), DatedOn(dates.today));
    FilterOfFilter(results, DatedSince(dates.monthAgo), DatedSince(dates.weekAgo));
  }

  /**
   * With non-negative difficulty scores the totals are non-negative and
   * every share of the report's distribution lies between 0 and 100.
   */
  lemma DistributionWithinRange(results: seq<QuizResult>)
    requires forall r :: r in results && r.difficultyScores.Some? ==>
               r.difficultyScores.value.easy >= 0 && r.difficultyScores.value.medium >= 0 && r.difficultyScores.value.difficult >= 0
    ensures var t := DifficultyTotals(results);
            t.easy >= 0 && t.medium >= 0 && t.difficult >= 0
            && var d := Distribution(t);
               0 <= d.easy <= 100 && 0 <= d.medium <= 100 && 0 <= d.difficult <= 100
  {
    var t := DifficultyTotals(results);
    TotalsNonNegative(results);
    var total := t.easy + t.medium + t.difficult;
    if total > 0 {
      PercentWithinRange(t.easy, total);
      PercentWithinRange(t.medium, total);
      PercentWithinRange(t.difficult, total);
    }
  }

  lemma {:induction false} TotalsNonNegative(results: seq<QuizResult>)
    requires forall r :: r in results && r.difficultyScores.Some? ==>
               r.difficultyScores.value.easy >= 0 && r.difficultyScores.value.medium >= 0 && r.difficultyScores.value.difficult >= 0
    ensures var t := DifficultyTotals(results);
            t.easy >= 0 && t.medium >= 0 && t.difficult >= 0
  {
    if results != [] {
      assert results[0] in results;
      assert forall r :: r in results[1..] ==> r in results;
      TotalsNonNegative(results[1..]);
    }
  }
}
