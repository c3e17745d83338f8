/**
 The hysteresis of threshold throttling: how the throttle state of an input follows its two marks, over
 every run, failing callbacks included.
 */
module Marks {
  import opened Common
  import opened ReadLog
  import opened InputQueue
  import opened InputReads

  ghost predicate InEnqueue<P>(s: Input<P>) {
    exists f :: f in s.frames && f.Enqueuing?
  }

  /** A throttled input holds more than the low mark and nothing in the fast path. */
  ghost predicate AboveLow<P>(d: Discipline, s: Input<P>) {
    s.native ==> d.Threshold? && Size(s) > d.low && s.fast.None?
  }

  /** An unthrottled input holds less than the high mark, except while the report of an arrival is still due. */
  ghost predicate BelowHigh<P>(d: Discipline, s: Input<P>) {
    d.Threshold? && !s.native ==> Size(s) < d.high || InEnqueue(s)
  }

  ghost predicate Hysteresis<P>(d: Discipline, s: Input<P>) {
    AboveLow(d, s) && BelowHigh(d, s)
  }

  ghost predicate WellMarked(d: Discipline) {
    d.Threshold? ==> d.high > d.low
  }

  // Between the marks ------------------------------------------------------------------------

  /** The throttle bits after any step from any state: only the report of an arrival sets the native bit, at the
      high mark, and only the report of a dequeue clears it, at the low mark. */
  lemma BitsAfter<P>(d: Discipline, s: Input<P>, step: Step<P>)
    ensures var t := InputQueue.Apply(d, s, step);
            && t.remote == (if step.DoRemote? && Allowed(s, step) then step.v else s.remote)
            && (s.native && !t.native <==>
                  s.native && step.DoBeginRead? && Allowed(s, step) && d.Threshold? && Size(s) > 0 && Size(t) <= d.low)
            && (!s.native && t.native <==>
                  !s.native && step.DoLeave? && Allowed(s, step) && d.Threshold? && Size(s) >= d.high)
  {
  }

  /** Over every run from any state: a throttled input stays throttled while it holds more than the low mark. */
  lemma {:induction false} StaysThrottled<P>(d: Discipline, s: Input<P>, steps: seq<Step<P>>)
    requires d.Threshold? && s.native
    requires forall n :: 0 <= n <= |steps| ==> Size(Run(d, s, steps[..n])) > d.low
    ensures Run(d, s, steps).native
  {
    if steps != [] {
      var front, m := steps[..|steps| - 1], |steps| - 1;
      assert forall n :: 0 <= n <= m ==> front[..n] == steps[..n];
      StaysThrottled(d, s, front);
      assert steps[..m + 1] == steps;
      BitsAfter(d, Run(d, s, front), steps[m]);
    }
  }

  /** And an unthrottled one stays unthrottled while it holds less than the high mark. */
  lemma {:induction false} StaysOpen<P>(d: Discipline, s: Input<P>, steps: seq<Step<P>>)
    requires d.Threshold? && !s.native
    requires forall n :: 0 <= n <= |steps| ==> Size(Run(d, s, steps[..n])) < d.high
    ensures !Run(d, s, steps).native
  {
    if steps != [] {
      var front, m := steps[..|steps| - 1], |steps| - 1;
      assert forall n :: 0 <= n <= m ==> front[..n] == steps[..n];
      StaysOpen(d, s, front);
      assert steps[..m] == front;
      BitsAfter(d, Run(d, s, front), steps[m]);
    }
  }

  // The low mark -----------------------------------------------------------------------------

  lemma EnterAboveLow<P>(d: Discipline, s: Input<P>, p: P)
    requires AboveLow(d, s)
    ensures AboveLow(d, Enter(s, p))
  {
  }

  lemma EndAboveLow<P>(d: Discipline, s: Input<P>)
    requires WellMarked(d) && FastPathSound(s) && AboveLow(d, s) && s.frames != []
    ensures Top(s).Enqueuing? ==> AboveLow(d, Leave(d, s))
    ensures AboveLow(d, Abort(s))
    ensures Top(s).Reading? ==> AboveLow(d, EndRead(s))
  {
    if Top(s).Enqueuing? {
      LeaveInOrder(d, s);
      assert |Pending(Leave(d, s))| == |Pending(Abort(s))| == Size(s);
    }
  }

  lemma BeginReadAboveLow<P>(d: Discipline, s: Input<P>)
    requires AboveLow(d, s)
    ensures AboveLow(d, BeginRead(d, s))
  {
  }

  lemma StepAboveLow<P>(d: Discipline, s: Input<P>, step: Step<P>)
    requires WellMarked(d) && FastPathSound(s) && AboveLow(d, s)
    ensures AboveLow(d, InputQueue.Apply(d, s, step))
  {
    if Allowed(s, step) {
      match step
      case DoEnter(p) => EnterAboveLow(d, s, p);
      case DoLeave => EndAboveLow(d, s);
      case DoAbort => EndAboveLow(d, s);
      case DoBeginRead => BeginReadAboveLow(d, s);
      case DoEndRead => EndAboveLow(d, s);
      case DoRemote(_) =>
    }
  }

  /** Over every run, failing callbacks included: a throttled input holds more than the low mark. */
  lemma {:induction false} RunAboveLow<P>(d: Discipline, steps: seq<Step<P>>)
    requires WellMarked(d)
    ensures AboveLow(d, Run(d, Empty<P>(), steps))
  {
    if steps != [] {
      var front := steps[..|steps| - 1];
      RunAboveLow<P>(d, front);
      RunSound<P>(d, front);
      StepAboveLow(d, Run(d, Empty<P>(), front), steps[|steps| - 1]);
    }
  }

  /** So a read from the fast path releases nobody, and nothing comes between it and its return. */
  lemma FastReadsAreSafe<P>(d: Discipline, steps: seq<Step<P>>)
    requires WellMarked(d)
    ensures var s := Run(d, Empty<P>(), steps); s.fast.Some? ==> !Opens(d, s)
  {
    RunAboveLow<P>(d, steps);
  }

  // The high mark ----------------------------------------------------------------------------

  /** An enqueue call that ends by an exception now leaves a full input unthrottled, with no other enqueue call
      in progress that would report it. */
  ghost predicate SkipsReport<P>(d: Discipline, s: Input<P>) {
    && s.frames != [] && Top(s).Enqueuing? && !InEnqueue(Popped(s))
    && d.Threshold? && !s.native && Size(s) >= d.high
  }

  lemma EnterBelowHigh<P>(d: Discipline, s: Input<P>, p: P)
    ensures BelowHigh(d, Enter(s, p))
  {
    var t := Enter(s, p);
    assert Top(t) == Enqueuing(p, s.queue == []) && Top(t) in t.frames;
  }

  lemma LeaveBelowHigh<P>(d: Discipline, s: Input<P>)
    requires FastPathSound(s) && s.frames != [] && Top(s).Enqueuing?
    ensures BelowHigh(d, Leave(d, s))
  {
    LeaveInOrder(d, s);
    assert Size(EnqueueUpdate(d, s)) == Size(s) == |Pending(Leave(d, s))|;
  }

  lemma BeginReadBelowHigh<P>(d: Discipline, s: Input<P>)
    requires WellMarked(d) && FastPathSound(s) && BelowHigh(d, s)
    ensures BelowHigh(d, BeginRead(d, s))
  {
    var t := BeginRead(d, s);
    BeginReadInOrder(d, s);
    assert forall f :: f in s.frames ==> f in t.frames;
  }

  lemma PoppedInEnqueue<P>(s: Input<P>)
    requires s.frames != []
    ensures InEnqueue(s) <==> Top(s).Enqueuing? || InEnqueue(Popped(s))
  {
    assert s.frames == Popped(s).frames + [Top(s)];
    assert Top(s) in s.frames;
    assert forall f :: f in s.frames <==> f in Popped(s).frames || f == Top(s);
  }

  lemma EndReadBelowHigh<P>(d: Discipline, s: Input<P>)
    requires BelowHigh(d, s) && s.frames != [] && Top(s).Reading?
    ensures BelowHigh(d, EndRead(s)) && BelowHigh(d, Abort(s))
  {
    PoppedInEnqueue(s);
    assert EndRead(s).frames == Abort(s).frames == Popped(s).frames;
  }

  /** A failing callback, whatever calls are in progress, breaks the hysteresis exactly if it skips a due
      report. */
  lemma AbortSkipsReport<P>(d: Discipline, s: Input<P>)
    requires WellMarked(d) && FastPathSound(s) && Hysteresis(d, s) && s.frames != []
    ensures Hysteresis(d, Abort(s)) <==> !SkipsReport(d, s)
  {
    EndAboveLow(d, s);
    if Top(s).Reading? {
      EndReadBelowHigh(d, s);
    } else {
      LeaveInOrder(d, s);
      assert |Pending(Abort(s))| == Size(s) && Abort(s).frames == Popped(s).frames;
    }
  }

  lemma StepKeepsHysteresis<P>(d: Discipline, s: Input<P>, step: Step<P>)
    requires WellMarked(d) && FastPathSound(s) && Hysteresis(d, s)
    ensures Hysteresis(d, InputQueue.Apply(d, s, step)) <==> !(step.DoAbort? && Allowed(s, step) && SkipsReport(d, s))
  {
    StepAboveLow(d, s, step);
    if Allowed(s, step) {
      match step
      case DoEnter(p) => EnterBelowHigh(d, s, p);
      case DoLeave => LeaveBelowHigh(d, s);
      case DoAbort => AbortSkipsReport(d, s);
      case DoBeginRead => BeginReadBelowHigh(d, s);
      case DoEndRead => EndReadBelowHigh(d, s);
      case DoRemote(_) =>
    }
  }

  /** No step of the run skips a due report. */
  ghost predicate NoSkip<P>(d: Discipline, s: Input<P>, steps: seq<Step<P>>) {
    steps == [] ||
    var front, step := steps[..|steps| - 1], steps[|steps| - 1];
    var before := Run(d, s, front);
    NoSkip(d, s, front) && !(step.DoAbort? && Allowed(before, step) && SkipsReport(d, before))
  }

  /** The marks hold throughout the run. */
  ghost predicate MarksHold<P>(d: Discipline, steps: seq<Step<P>>) {
    forall n :: 0 <= n <= |steps| ==> Hysteresis(d, Run(d, Empty<P>(), steps[..n]))
  }

  /** Over every run, failing callbacks included: the marks hold throughout if and only if no step skips a due
      report. */
  lemma {:induction false} MarksHoldUnlessSkipped<P>(d: Discipline, steps: seq<Step<P>>)
    requires WellMarked(d)
    ensures MarksHold(d, steps) <==> NoSkip(d, Empty<P>(), steps)
  {
    if steps == [] {
      assert Hysteresis(d, Run(d, Empty<P>(), []));
    } else {
      var front, m := steps[..|steps| - 1], |steps| - 1;
      MarksHoldUnlessSkipped<P>(d, front);
      MarksHoldSplit(d, front, steps[m]);
      if MarksHold(d, front) {
        MarksHoldLast(d, front);
        NextMarks(d, front, steps[m]);
      }
      assert front + [steps[m]] == steps;
    }
  }

  lemma {:induction false} MarksHoldSplit<P>(d: Discipline, front: seq<Step<P>>, step: Step<P>)
    ensures MarksHold(d, front + [step]) <==> MarksHold(d, front) && Hysteresis(d, Run(d, Empty<P>(), front + [step]))
  {
    var steps, m := front + [step], |front|;
    assert steps[..m + 1] == steps;
    assert forall n :: 0 <= n <= m ==> front[..n] == steps[..n];
    if MarksHold(d, front) && Hysteresis(d, Run(d, Empty<P>(), steps)) {
      forall n | 0 <= n <= m + 1 ensures Hysteresis(d, Run(d, Empty<P>(), steps[..n])) {
        assert n <= m ==> Hysteresis(d, Run(d, Empty<P>(), front[..n]));
      }
    }
  }

  lemma {:induction false} MarksHoldLast<P>(d: Discipline, steps: seq<Step<P>>)
    requires MarksHold(d, steps)
    ensures Hysteresis(d, Run(d, Empty<P>(), steps))
  {
    assert steps[..|steps|] == steps;
  }

  lemma {:induction false} NextMarks<P>(d: Discipline, front: seq<Step<P>>, step: Step<P>)
    requires WellMarked(d) && Hysteresis(d, Run(d, Empty<P>(), front))
    ensures var s := Run(d, Empty<P>(), front);
            Hysteresis(d, Run(d, Empty<P>(), front + [step]))
            <==> !(step.DoAbort? && Allowed(s, step) && SkipsReport(d, s))
  {
    RunOneMore(d, Empty<P>(), front, step);
    RunSound<P>(d, front);
    StepKeepsHysteresis(d, Run(d, Empty<P>(), front), step);
  }

  /** The callback of the first arrival throws. */
  function FailingArrival<P>(p: P): seq<Step<P>> {
    [] + [DoEnter(p), DoAbort]
  }

  /** What is wrong with a quiet, unthrottled input at its high mark. */
  ghost predicate Overfull<P>(d: Discipline, s: Input<P>) {
    s.frames == [] && !s.native && d.Threshold? && Size(s) >= d.high
  }

  /** A concrete failure with the default marks. */
  lemma SkippedReport<P>(p: P)
    ensures Overfull(Threshold(1, 0), Run(Threshold(1, 0), Empty<P>(), FailingArrival(p)))
  {
    var d, s := Threshold(1, 0), Empty<P>();
    RunTwoMore(d, s, [], DoEnter(p), DoAbort);
    var e := Enter(s, p);
    assert e.frames == [Enqueuing(p, true)] && Abort(e) == Kept(Popped(e), Enqueuing(p, true));
  }

  /** At every quiescent point: the fast path is free; a throttled input holds more than the low mark; if no due
      report was skipped, an unthrottled one holds less than the high mark (with the default marks (1, 0) the
      throttle state is "not empty"); packets were taken out in order exactly if no arrival overwrote one, and
      returned in order exactly if no read began inside another one or was given up. */
  lemma QuiescentPoints<P>(d: Discipline, steps: seq<Step<P>>)
    requires WellMarked(d) && d.Threshold?
    ensures var t := Run(d, Empty<P>(), steps); t.frames == [] ==>
            && t.fast.None? && (t.native ==> Size(t) > d.low)
            && (NoSkip(d, Empty<P>(), steps) ==>
                  (!t.native ==> Size(t) < d.high) && (d == Threshold(1, 0) ==> (t.native <==> Size(t) > 0)))
            && (t.taken + Reverse(t.queue) == t.arrived <==> NoOverwrite(d, Empty<P>(), steps))
            && (t.log.returned == Numbers(|t.taken|) <==> Undisturbed(d, Empty<P>(), steps))
  {
    RunSound<P>(d, steps);
    RunAboveLow<P>(d, steps);
    RunLogged<P>(d, steps);
    ReturnedInOrder<P>(d, steps);
    if NoSkip(d, Empty<P>(), steps) {
      MarksHoldUnlessSkipped<P>(d, steps);
      MarksHoldLast(d, steps);
    }
  }

  /** The throttle state follows the marks whenever no call is in progress and no due report was skipped. */
  ghost predicate FollowsMarks<P(!new)>(high: nat, low: nat) {
    forall steps: seq<Step<P>> :: NoSkip(Threshold(high, low), Empty<P>(), steps) ==>
      var t := Run(Threshold(high, low), Empty<P>(), steps);
      t.frames == [] ==> (t.native ==> Size(t) > low) && (!t.native ==> Size(t) < high)
  }

  /** n packets wait in a quiet connector, and it is throttled exactly if that is the high mark. */
  ghost predicate Filled<P>(s: Input<P>, n: nat, high: nat) {
    s.frames == [] && s.fast.None? && |s.queue| == n && s.native == (n == high)
  }

  lemma OneMoreUnread<P>(d: Discipline, s: Input<P>, p: P, n: nat)
    requires d.Threshold? && Filled(s, n, d.high) && n < d.high
    ensures Filled(InputQueue.Apply(d, InputQueue.Apply(d, s, DoEnter(p)), DoLeave), n + 1, d.high)
  {
    ArrivesUnread(d, s, p);
  }

  ghost predicate FillsTo<P>(d: Discipline, steps: seq<Step<P>>, n: nat) {
    d.Threshold? && NoSkip(d, Empty<P>(), steps) && Filled(Run(d, Empty<P>(), steps), n, d.high)
  }

  /** n packets arrive and none is read. */
  lemma {:induction false} FillUp<P>(d: Discipline, n: nat, p: P) returns (steps: seq<Step<P>>)
    requires d.Threshold? && d.high > 0 && n <= d.high
    ensures FillsTo(d, steps, n)
  {
    steps := [];
    if n > 0 {
      var front := FillUp(d, n - 1, p);
      FillsOneMore(d, front, p, n - 1);
      steps := front + [DoEnter(p), DoLeave];
    }
  }

  lemma {:induction false} FillsOneMore<P>(d: Discipline, front: seq<Step<P>>, p: P, n: nat)
    requires FillsTo(d, front, n) && n < d.high
    ensures FillsTo(d, front + [DoEnter(p), DoLeave], n + 1)
  {
    OneMoreUnread(d, Run(d, Empty<P>(), front), p, n);
    RunTwoMore(d, Empty<P>(), front, DoEnter(p), DoLeave);
    NoSkipNext(d, front, DoEnter(p));
    NoSkipNext(d, front + [DoEnter(p)], DoLeave);
    assert front + [DoEnter(p)] + [DoLeave] == front + [DoEnter(p), DoLeave];
  }

  lemma {:induction false} NoSkipNext<P>(d: Discipline, front: seq<Step<P>>, step: Step<P>)
    requires NoSkip(d, Empty<P>(), front) && step != DoAbort
    ensures NoSkip(d, Empty<P>(), front + [step])
  {
    assert (front + [step])[..|front|] == front;
  }

  /** Two marks work in every run exactly if the high one is above the low one. */
  lemma MarksMustDiffer<P(!new)>(high: nat, low: nat, p: P)
    ensures FollowsMarks<P>(high, low) <==> high > low
  {
    var d := Threshold(high, low);
    if high > low {
      forall steps: seq<Step<P>> | NoSkip(d, Empty<P>(), steps)
        ensures Hysteresis(d, Run(d, Empty<P>(), steps))
      {
        MarksHoldUnlessSkipped<P>(d, steps);
        MarksHoldLast(d, steps);
      }
    } else if high == 0 {
      assert Run(d, Empty<P>(), []).frames == [];
    } else {
      var steps := FillUp(d, high, p);
      assert NoSkip(d, Empty<P>(), steps) && Run(d, Empty<P>(), steps).frames == [];
    }
  }
}
