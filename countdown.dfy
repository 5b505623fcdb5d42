/**
  The countdown shown in the hero banner: the time left until a fixed target
  instant, split into days, hours, minutes and seconds and refreshed on every
  timer tick. Instants are integer milliseconds; the target is an input.
*/
module Countdown {

  const MsPerSecond: nat := 1000
  const MsPerMinute: nat := 60 * MsPerSecond
  const MsPerHour: nat := 60 * MsPerMinute
  const MsPerDay: nat := 24 * MsPerHour

  /** The value the timer displays. */
  datatype TimeLeft = TimeLeft(days: int, hours: int, minutes: int, seconds: int)

  /** What the component holds before the first tick. */
  const Zero: TimeLeft := TimeLeft(0, 0, 0, 0)

  /** No field is negative and every field below the largest is within its clock range. */
  predicate Normalized(t: TimeLeft) {
    && t.days >= 0
    && 0 <= t.hours < 24
    && 0 <= t.minutes < 60
    && 0 <= t.seconds < 60
  }

  /** The whole number of seconds a TimeLeft stands for. */
  function TotalSeconds(t: TimeLeft): int {
    t.days * 86400 + t.hours * 3600 + t.minutes * 60 + t.seconds
  }

  /**
    The object literal built from a positive difference: floor division for the
    days and floor division followed by a remainder for the others. The
    component divides in double-precision floating point, rounding at each
    division. For the magnitudes an end-of-month target produces (at most
    about 2.7 * 10^9 ms) that rounding error is far below the gap between a
    quotient and the next integer, so the floored results equal these integer
    quotients and remainders.
  */
  function Breakdown(difference: nat): (t: TimeLeft)
    ensures Normalized(t)
    ensures TotalSeconds(t) == difference / MsPerSecond
  {
    SecondsChain(difference);
    TimeLeft(difference / MsPerDay,
             (difference / MsPerHour) % 24,
             (difference / MsPerMinute) % 60,
             (difference / MsPerSecond) % 60)
  }

  /** Dividing by a larger unit equals dividing the whole seconds by its size in seconds. */
  lemma UnitsFromSeconds(d: nat)
    ensures d / MsPerMinute == (d / 1000) / 60
    ensures d / MsPerHour == (d / 1000) / 3600
    ensures d / MsPerDay == (d / 1000) / 86400
  {
    var s := d / 1000;
    assert d / 60000 == s / 60;
    assert s / 3600 == (s / 60) / 60;
    assert d / 3600000 == (d / 60000) / 60;
    assert s / 86400 == (s / 3600) / 24;
    assert d / 86400000 == (d / 3600000) / 24;
  }

  /** Whole seconds recomposed from days, hour-of-day, minute-of-hour and second-of-minute. */
  lemma SecondsRecompose(s: nat)
    ensures (s / 86400) * 86400 + ((s / 3600) % 24) * 3600 + ((s / 60) % 60) * 60 + s % 60 == s
  {
  }

  lemma SecondsChain(d: nat)
    ensures var s := d / MsPerSecond;
      && d / MsPerMinute == s / 60
      && d / MsPerHour == s / 3600
      && d / MsPerDay == s / 86400
      && (s / 86400) * 86400 + ((s / 3600) % 24) * 3600 + ((s / 60) % 60) * 60 + s % 60 == s
  {
    UnitsFromSeconds(d);
    SecondsRecompose(d / 1000);
  }

  /** The breakdown is the only normalized value with the same whole number of seconds. */
  lemma BreakdownUnique(difference: nat, t: TimeLeft)
    requires Normalized(t) && TotalSeconds(t) == difference / MsPerSecond
    ensures t == Breakdown(difference)
  {
    var s := difference / MsPerSecond;
    SecondsChain(difference);
    var totalMinutes := t.days * 1440 + t.hours * 60 + t.minutes;
    var totalHours := t.days * 24 + t.hours;
    assert s == totalMinutes * 60 + t.seconds;
    assert s / 60 == totalMinutes && s % 60 == t.seconds;
    assert totalMinutes == totalHours * 60 + t.minutes;
    assert totalMinutes / 60 == totalHours && totalMinutes % 60 == t.minutes;
    assert totalHours / 24 == t.days && totalHours % 24 == t.hours;
    assert s / 3600 == (s / 60) / 60;
    assert s / 86400 == (s / 3600) / 24;
  }

  /** Lexicographic order of the displayed fields. */
  predicate DisplayLeq(a: TimeLeft, b: TimeLeft) {
    || a.days < b.days
    || (a.days == b.days && a.hours < b.hours)
    || (a.days == b.days && a.hours == b.hours && a.minutes < b.minutes)
    || (a.days == b.days && a.hours == b.hours && a.minutes == b.minutes && a.seconds <= b.seconds)
  }

  /** A smaller difference never reads as more time on the display. */
  lemma BreakdownMonotone(d1: nat, d2: nat)
    requires d1 <= d2
    ensures DisplayLeq(Breakdown(d1), Breakdown(d2))
  {
  }

  /** The component state: the target instant fixed on mount, and the value shown. */
  class CountdownTimer {
    const target: int
    var timeLeft: TimeLeft

    ghost predicate Valid()
      reads this
    {
      Normalized(timeLeft)
    }

    constructor (target: int)
      ensures Valid()
      ensures this.target == target && timeLeft == Zero
    {
      this.target := target;
      timeLeft := Zero;
    }

    /**
      One run of the interval callback at instant `now`: the value is replaced
      only when the target is still in the future; otherwise it is kept.
    */
    method Tick(now: int)
      requires Valid()
      modifies this
      ensures Valid()
      ensures target - now > 0 ==> timeLeft == Breakdown(target - now)
      ensures target - now <= 0 ==> timeLeft == old(timeLeft)
    {
      var difference := target - now;
      if difference > 0 {
        timeLeft := Breakdown(difference);
      }
    }
  }
}
