/**
 * The countdown shown next to each question: a `timeLeft` counter, an
 * interval that lowers it once per tick while the question is unanswered,
 * and a colour chosen from the fraction of time left. Ticks are delivered
 * one at a time as method calls; wall-clock timing is not modelled.
 */
module QuizTimer {

  datatype Color = Green | Yellow | Red

  /**
   * The colour for `timeLeft` out of `timeLimit`, from the percentage
   * `timeLeft / timeLimit * 100` in JavaScript numbers: above 50 green,
   * above 25 yellow, otherwise red. A zero limit gives Infinity (green) for
   * a positive `timeLeft` and NaN or -Infinity (red) otherwise.
   */
  function ColorFor(timeLeft: int, timeLimit: int): (c: Color)
    ensures timeLimit > 0 ==> (c == Green <==> 2 * timeLeft > timeLimit)
    ensures timeLimit > 0 ==> (c == Yellow <==> 2 * timeLeft <= timeLimit && 4 * timeLeft > timeLimit)
    ensures timeLimit > 0 ==> (c == Red <==> 4 * timeLeft <= timeLimit)
    ensures timeLimit > 0 && timeLeft == timeLimit ==> c == Green
    ensures timeLeft <= 0 && timeLimit >= 0 ==> c == Red
  {
    if timeLimit == 0 then
      (if timeLeft > 0 then Green else Red)
    else
      var percentage := (timeLeft as real / timeLimit as real) * 100.0;
      PercentageScale(timeLeft, timeLimit);
      if percentage > 50.0 then Green else if percentage > 25.0 then Yellow else Red
  }

  /** `timeLeft / timeLimit * 100` compared with a threshold, in integers. */
  lemma PercentageScale(timeLeft: int, timeLimit: int)
    requires timeLimit != 0
    ensures var p := (timeLeft as real / timeLimit as real) * 100.0;
            timeLimit > 0 ==> (p > 50.0 <==> 2 * timeLeft > timeLimit) && (p > 25.0 <==> 4 * timeLeft > timeLimit)
    ensures var p := (timeLeft as real / timeLimit as real) * 100.0;
            timeLimit < 0 && timeLeft >= 0 ==> p <= 0.0
  {
    if timeLimit > 0 {
      PercentAbove(timeLeft, timeLimit, 0.5);
      PercentAbove(timeLeft, timeLimit, 0.25);
    } else if timeLeft >= 0 {
      var q := timeLeft as real / timeLimit as real;
      assert q * (timeLimit as real) == timeLeft as real;
      ScaleByPositive(0.0, q, -(timeLimit as real));
    }
  }

  /** For a positive limit, the percentage exceeds `100 k` exactly when `timeLeft` exceeds `k` times the limit. */
  lemma PercentAbove(t: int, l: int, k: real)
    requires l > 0
    ensures (t as real / l as real) * 100.0 > k * 100.0 <==> t as real > k * (l as real)
  {
    var q := t as real / l as real;
    assert q * (l as real) == t as real;
    ScaleByPositive(q, k, 100.0);
    ScaleByPositive(q, k, l as real);
  }

  lemma ScaleByPositive(a: real, b: real, c: real)
    requires c > 0.0
    ensures a > b <==> a * c > b * c
  {
    assert a * c - b * c == (a - b) * c;
  }

  class Timer {
    /** The `timeLimit` prop of the last render. */
    var timeLimit: int
    /** The `timeLeft` state. */
    var timeLeft: int
    /** An interval is scheduled, so ticks arrive. */
    var running: bool
    /** The component is on the page. */
    var mounted: bool

    /** Not on the page yet. */
    constructor ()
      ensures !mounted && !running
    {
      timeLimit, timeLeft := 0, 0;
      running, mounted := false, false;
    }

    /**
     * A fresh component: `useState(timeLimit)`, and the interval effect
     * starts an interval unless the question is answered.
     */
    method Mount(limit: int, isAnswered: bool)
      modifies this
      ensures mounted && timeLimit == limit && timeLeft == limit && running == !isAnswered
    {
      mounted := true;
      timeLimit, timeLeft := limit, limit;
      running := !isAnswered;
    }

    /**
     * A re-render of the mounted component. The interval effect re-runs on
     * every render (its `onTimeUp` is a new function each time): it clears
     * the old interval and starts a new one unless answered. `timeLeft` is
     * reset only when the limit changed, so a question with the same limit
     * as the one before continues from the leftover value.
     */
    method Render(limit: int, isAnswered: bool)
      requires mounted
      modifies this
      ensures mounted && timeLimit == limit && running == !isAnswered
      ensures timeLeft == if limit != old(timeLimit) then limit else old(timeLeft)
    {
      if limit != timeLimit {
        timeLeft := limit;
      }
      timeLimit := limit;
      running := !isAnswered;
    }

    /** The component leaves the page; the effect cleanup clears the interval. */
    method Unmount()
      modifies this
      ensures !mounted && !running
      ensures timeLimit == old(timeLimit) && timeLeft == old(timeLeft)
    {
      mounted, running := false, false;
    }

    /**
     * One interval tick. Above 1 it counts down by one; at 1 or below it sets
     * `timeLeft` to 0, clears the interval and reports the time-up, so no
     * further tick follows. Without an interval nothing happens.
     */
    method Tick() returns (timeUp: bool)
      modifies this
      ensures timeLimit == old(timeLimit) && mounted == old(mounted)
      ensures !old(running) ==> !timeUp && unchanged(this)
      ensures old(running) && old(timeLeft) > 1 ==> !timeUp && running && timeLeft == old(timeLeft) - 1
      ensures old(running) && old(timeLeft) <= 1 ==> timeUp && !running && timeLeft == 0
    {
      timeUp := false;
      if running {
        if timeLeft <= 1 {
          running := false;
          timeUp := true;
          timeLeft := 0;
        } else {
          timeLeft := timeLeft - 1;
        }
      }
    }
  }
}
