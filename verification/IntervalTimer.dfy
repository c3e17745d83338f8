/**
 The interval timer: an event that fires a fixed number of times in each interval. Each expiry time
 is computed from the start of the current interval by one integer division, so rounding never
 accumulates.
 */
module IntervalTimer {

  /** Integer division that truncates towards zero, for a positive divisor. */
  function TruncatedDiv(x: int, d: nat): int
    requires d > 0
  {
    if x >= 0 then x / d else -((-x) / d)
  }

  /** The time of the k-th expiry: the exact position k * interval / eventsPerInterval, truncated once. */
  function Due(start: int, interval: int, eventsPerInterval: nat, k: nat): int
    requires eventsPerInterval > 0
  {
    start + TruncatedDiv(k * interval, eventsPerInterval)
  }

  lemma DivSplit(q: nat, r: nat, x: nat, d: nat)
    requires d > 0
    ensures ((q * d + r) * x) / d == q * x + (r * x) / d
  {
    var a := r * x;
    assert (q * d + r) * x == (q * x) * d + a by {
      assert (q * d) * x == (q * x) * d;
    }
    DivShift(q * x, a, d);
  }

  lemma DivShift(m: nat, a: nat, d: nat)
    requires d > 0
    ensures (m * d + a) / d == m + a / d
  {
    var c, f := a / d, a % d;
    assert m * d + a == (m + c) * d + f;
    DivUnique(m * d + a, m + c, f, d);
  }

  lemma DivUnique(x: int, q: int, r: int, d: nat)
    requires d > 0 && x == q * d + r && 0 <= r < d
    ensures x / d == q
  {
    var q', r' := x / d, x % d;
    assert q' * d - q * d == r - r';
    if q' > q {
      NextMultiple(q, q', d);
    } else if q' < q {
      NextMultiple(q', q, d);
    }
  }

  lemma NextMultiple(p: int, q: int, d: nat)
    requires p < q
    ensures q * d >= p * d + d
  {
    assert q * d == p * d + d + (q - p - 1) * d;
  }

  /** Whole intervals pass through the truncation unchanged. */
  lemma DueSplits(start: int, interval: int, n: nat, q: nat, r: nat)
    requires n > 0
    ensures Due(start, interval, n, q * n + r) == start + q * interval + TruncatedDiv(r * interval, n)
  {
    var k, x := q * n + r, if interval >= 0 then interval else -interval;
    DivSplit(q, r, x, n);
    Product(k, interval);
    Product(r, interval);
    Product(q, interval);
    TruncatedSplit(k * x, r * x, q * x, n);
  }

  /** A product has the sign of its factor. */
  lemma Product(a: nat, x: int)
    ensures x >= 0 ==> a * x >= 0
    ensures x < 0 ==> a * -x >= 0 && a * x == -(a * -x)
  {
  }

  lemma TruncatedSplit(a: int, b: int, c: int, n: nat)
    requires a >= 0 && b >= 0 && n > 0 && a / n == c + b / n
    ensures TruncatedDiv(a, n) == c + TruncatedDiv(b, n)
    ensures TruncatedDiv(-a, n) == -c + TruncatedDiv(-b, n)
  {
  }

  /** The expiry times do not drift: n more events take exactly one interval. */
  lemma OneIntervalLater(start: int, interval: int, n: nat, k: nat)
    requires n > 0
    ensures Due(start, interval, n, k + n) == Due(start, interval, n, k) + interval
  {
    var q, r := k / n, k % n;
    DueSplits(start, interval, n, q, r);
    DueSplits(start, interval, n, q + 1, r);
    OneMore(q, n);
    OneMore(q, interval);
    assert (q + 1) * n + r == k + n;
  }

  lemma OneMore(q: int, x: int)
    ensures (q + 1) * x == q * x + x
  {
  }

  /** No expiry is early or late by a full tick: the exact position is truncated towards the start. */
  lemma ExactToTheTick(start: int, interval: int, n: nat, k: nat)
    requires n > 0
    ensures var late := k * interval - n * (Due(start, interval, n, k) - start);
            if interval >= 0 then 0 <= late < n else 0 <= -late < n
  {
    var x := k * interval;
    Product(k, interval);
    if interval >= 0 {
      assert x == n * (x / n) + x % n;
    } else {
      assert -x == n * ((-x) / n) + (-x) % n;
    }
  }

  class IntervalTimerEvent {
    var interval: int
    var eventsPerInterval: nat
    var intervalStart: int
    var number: nat
    var expected: int
    /** The time of the last v_enable and the number of expiries scheduled since. */
    ghost var start: int
    ghost var scheduled: nat

    ghost predicate Running()
      reads this
    {
      && eventsPerInterval > 0 && scheduled > 0 && number < eventsPerInterval
      && (exists q: nat :: scheduled == q * eventsPerInterval + number + 1 && intervalStart == start + q * interval)
      && expected == Due(start, interval, eventsPerInterval, scheduled)
    }

    constructor (interval: int, eventsPerInterval: nat)
      ensures this.interval == interval && this.eventsPerInterval == eventsPerInterval
    {
      this.interval, this.eventsPerInterval := interval, eventsPerInterval;
      intervalStart, number, expected := 0, 0, 0;
      start, scheduled := 0, 0;
    }

    /** Enabling schedules the first expiry; a timer without events per interval is never scheduled. */
    method Enable(now: int)
      modifies this`intervalStart, this`number, this`expected, this`start, this`scheduled
      ensures eventsPerInterval > 0 ==> Running() && start == now && scheduled == 1
      ensures eventsPerInterval == 0 ==> expected == old(expected) && scheduled == old(scheduled)
    {
      if eventsPerInterval <= 0 {
        return;
      }
      intervalStart := now;
      number := 0;
      start, scheduled := now, 0;
      Schedule(0);
    }

    method Schedule(ghost q: nat)
      requires eventsPerInterval > 0 && number < eventsPerInterval
      requires scheduled == q * eventsPerInterval + number && intervalStart == start + q * interval
      modifies this`expected, this`scheduled
      ensures Running() && scheduled == old(scheduled) + 1
    {
      var next := number + 1;
      ghost var k := q * eventsPerInterval + next;
      DueSplits(start, interval, eventsPerInterval, q, next);
      assert interval * next == next * interval;
      expected := intervalStart + TruncatedDiv(interval * next, eventsPerInterval);
      scheduled := scheduled + 1;
      assert scheduled == k;
    }

    /** The scheduler callback, when the module's callback leaves the timer enabled. */
    method Expire()
      requires Running()
      modifies this`intervalStart, this`number, this`expected, this`scheduled
      ensures Running() && scheduled == old(scheduled) + 1
    {
      ghost var q: nat :| scheduled == q * eventsPerInterval + number + 1 && intervalStart == start + q * interval;
      number := number + 1;
      if number >= eventsPerInterval {
        number := 0;
        intervalStart := intervalStart + interval;
        assert (q + 1) * eventsPerInterval == q * eventsPerInterval + eventsPerInterval;
        assert (q + 1) * interval == q * interval + interval;
        Schedule(q + 1);
      } else {
        Schedule(q);
      }
    }

    /** The schedule as a whole: the k-th expiry after enabling, for every k. */
    method RunTo(now: int, k: nat)
      requires eventsPerInterval > 0 && k > 0
      modifies this`intervalStart, this`number, this`expected, this`start, this`scheduled
      ensures expected == Due(now, interval, eventsPerInterval, k)
    {
      Enable(now);
      for i := 1 to k
        invariant Running() && start == now && scheduled == i
      {
        Expire();
      }
    }
  }
}
