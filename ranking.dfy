/**
 * What the leaderboard and the analytics share: the stable sort on a
 * descending score (with an optional tie-break), the maximum of the
 * scores, and the period a result's ISO date falls in.
 */
module Ranking {
  import opened Text

  /**
   * `a` may stand before `b`: a higher primary key, or the same primary key
   * and a secondary key no lower (the comparator `b.k - a.k` is not positive).
   */
  predicate Ahead<T>(a: T, b: T, primary: T -> int, secondary: T -> int) {
    primary(a) > primary(b) || (primary(a) == primary(b) && secondary(a) >= secondary(b))
  }

  /** Every element may stand before every later one. */
  predicate Descending<T>(s: seq<T>, primary: T -> int, secondary: T -> int) {
    forall i, j :: 0 <= i < j < |s| ==> Ahead(s[i], s[j], primary, secondary)
  }

  /**
   * `x`, which came before every element of `s` in the input, placed in
   * front of the first element it may stand before: ties keep input order.
   */
  function Insert<T>(x: T, s: seq<T>, primary: T -> int, secondary: T -> int): (r: seq<T>)
    ensures |r| == |s| + 1
    ensures multiset(r) == multiset(s) + multiset{x}
  {
    if s == [] then [x]
    else if Ahead(x, s[0], primary, secondary) then
      assert s == [s[0]] + s[1..];
      [x] + s
    else
      assert s == [s[0]] + s[1..];
      [s[0]] + Insert(x, s[1..], primary, secondary)
  }

  /** Inserting into a descending list keeps it descending. */
  lemma {:induction false} InsertDescending<T>(x: T, s: seq<T>, primary: T -> int, secondary: T -> int)
    requires Descending(s, primary, secondary)
    ensures Descending(Insert(x, s, primary, secondary), primary, secondary)
  {
    if s != [] {
      if Ahead(x, s[0], primary, secondary) {
        forall i | 0 < i < |s| ensures Ahead(x, s[i], primary, secondary) {
          assert Ahead(s[0], s[i], primary, secondary);
        }
      } else {
        var rest := Insert(x, s[1..], primary, secondary);
        InsertDescending(x, s[1..], primary, secondary);
        forall y | y in rest ensures Ahead(s[0], y, primary, secondary) {
          assert y in multiset(rest);
          if y != x {
            var k :| 0 <= k < |s[1..]| && s[1..][k] == y;
            assert s[k + 1] == y;
          }
        }
        var r := [s[0]] + rest;
        forall i, j | 0 <= i < j < |r| ensures Ahead(r[i], r[j], primary, secondary) {
          if i == 0 {
            assert r[j] == rest[j - 1] && rest[j - 1] in rest;
          } else {
            assert r[i] == rest[i - 1] && r[j] == rest[j - 1];
          }
        }
      }
    }
  }

  /**
   * `[...s].sort((a, b) => b.k - a.k || b.k2 - a.k2)` with a stable sort:
   * a permutation of `s` in descending order.
   */
  function SortDescending<T>(s: seq<T>, primary: T -> int, secondary: T -> int): (r: seq<T>)
    ensures |r| == |s|
    ensures multiset(r) == multiset(s)
    ensures Descending(r, primary, secondary)
  {
    if s == [] then []
    else
      assert s == [s[0]] + s[1..];
      var rest := SortDescending(s[1..], primary, secondary);
      InsertDescending(s[0], rest, primary, secondary);
      Insert(s[0], rest, primary, secondary)
  }

  /** A list already in descending order is left as it is: the sort only moves what is out of place. */
  lemma {:induction false} SortKeepsDescending<T>(s: seq<T>, primary: T -> int, secondary: T -> int)
    requires Descending(s, primary, secondary)
    ensures SortDescending(s, primary, secondary) == s
  {
    if s != [] {
      SortKeepsDescending(s[1..], primary, secondary);
      if |s| > 1 {
        assert Ahead(s[0], s[1], primary, secondary);
      }
    }
  }

  /** The first element of a descending list has the highest primary key. */
  lemma HeadIsHighest<T>(s: seq<T>, primary: T -> int, secondary: T -> int)
    requires Descending(s, primary, secondary) && s != []
    ensures forall x :: x in s ==> primary(x) <= primary(s[0])
  {
    forall x | x in s ensures primary(x) <= primary(s[0]) {
      var k :| 0 <= k < |s| && s[k] == x;
      if k > 0 { assert Ahead(s[0], s[k], primary, secondary); }
    }
  }

  /** `Math.max(...xs)` of a non-empty list. */
  function MaxOf(xs: seq<int>): (m: int)
    requires xs != []
    ensures m in xs && forall x :: x in xs ==> x <= m
  {
    if |xs| == 1 then xs[0]
    else
      var rest := MaxOf(xs[1..]);
      assert xs == [xs[0]] + xs[1..];
      if xs[0] > rest then xs[0] else rest
  }

  /** The first `n` of the sorted list (`.slice(0, n)`): at most `n` of the input, in descending order. */
  function Top<T>(s: seq<T>, n: nat, primary: T -> int, secondary: T -> int): (r: seq<T>)
    ensures |r| == if n < |s| then n else |s|
    ensures multiset(r) <= multiset(s)
    ensures Descending(r, primary, secondary)
  {
    var sorted := SortDescending(s, primary, secondary);
    var k := if n < |s| then n else |s|;
    assert sorted == sorted[..k] + sorted[k..];
    sorted[..k]
  }

  /** No input left out of the first `n` may stand before the last one taken. */
  lemma TopLeavesOutLower<T>(s: seq<T>, n: nat, primary: T -> int, secondary: T -> int)
    requires n > 0
    ensures var r := Top(s, n, primary, secondary);
            forall x :: x in s && x !in r ==> Ahead(r[|r| - 1], x, primary, secondary)
  {
    var sorted := SortDescending(s, primary, secondary);
    var k := if n < |s| then n else |s|;
    var r := Top(s, n, primary, secondary);
    assert r == sorted[..k];
    forall x | x in s && x !in r ensures Ahead(r[|r| - 1], x, primary, secondary) {
      assert x in multiset(sorted);
      var j :| 0 <= j < |sorted| && sorted[j] == x;
      assert j >= k;
      assert Ahead(sorted[k - 1], sorted[j], primary, secondary);
    }
  }

  /** The clock's ISO dates (`YYYY-MM-DD`): today, seven and thirty days ago. */
  datatype ClockDates = ClockDates(today: string, weekAgo: string, monthAgo: string)
  {
    /** Dates of one format, so that the earlier date compares lower. */
    predicate Ordered() {
      LexLe(monthAgo, weekAgo) && LexLe(weekAgo, today)
    }
  }

  /** A result dated today is dated within the week, and one within the week within the month. */
  lemma PeriodsNested(dates: ClockDates, date: string)
    requires dates.Ordered()
    ensures date == dates.today ==> LexLe(dates.weekAgo, date)
    ensures LexLe(dates.weekAgo, date) ==> LexLe(dates.monthAgo, date)
  {
    if LexLe(dates.weekAgo, date) {
      LexLeTrans(dates.monthAgo, dates.weekAgo, date);
    }
  }
}
