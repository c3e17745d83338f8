/**
 What the reads of an input connector return, over every run, and which reads are at risk.
 */
module InputReads {
  import opened Common
  import opened ReadLog
  import opened InputQueue

  /** What a step does to the log of the reads. */
  function OpOf<P>(s: Input<P>, step: Step<P>): Option<Op> {
    if !Allowed(s, step) then None
    else
      match step
      case DoBeginRead => if Size(s) > 0 then Some(Begin(s.fast.None?)) else None
      case DoEndRead => Some(Return)
      case DoAbort => if Top(s).Reading? then Some(GiveUp) else None
      case _ => None
  }

  function ReadingFrames<P>(frames: seq<Frame<P>>): nat {
    if frames == [] then 0
    else ReadingFrames(frames[..|frames| - 1]) + (if frames[|frames| - 1].Reading? then 1 else 0)
  }

  /** The log counts what was taken out and knows the reads among the calls in progress. */
  ghost predicate Logged<P>(s: Input<P>) {
    Numbered(s.log) && s.log.taken == |s.taken| && |s.log.inside| == ReadingFrames(s.frames)
  }

  ghost predicate Logs<P>(s: Input<P>, t: Input<P>, op: Option<Op>) {
    && t.log == (if op.Some? then ReadLog.Apply(s.log, op.value) else s.log)
    && (Logged(s) ==> Logged(t))
  }

  lemma EnterLogs<P>(s: Input<P>, p: P)
    ensures Logs(s, Enter(s, p), None)
  {
    assert Enter(s, p).frames[..|s.frames|] == s.frames;
  }

  lemma BegunLogs<P>(s: Input<P>, t: Input<P>, slow: bool, opens: bool)
    requires t.log == ReadLog.Apply(s.log, Begin(slow)) && |t.taken| == |s.taken| + 1
    requires t.frames == s.frames + [Reading(opens)]
    ensures Logs(s, t, Some(Begin(slow)))
  {
    assert t.frames[..|s.frames|] == s.frames;
    if Logged(s) {
      StepNumbered(s.log, Begin(slow));
    }
  }

  lemma BeginReadLogs<P>(d: Discipline, s: Input<P>)
    ensures Logs(s, BeginRead(d, s), if Size(s) > 0 then Some(Begin(s.fast.None?)) else None)
  {
    if Size(s) > 0 {
      BegunLogs(s, BeginRead(d, s), s.fast.None?, Opens(d, s));
    }
  }

  lemma LeaveLogs<P>(d: Discipline, s: Input<P>)
    requires s.frames != [] && Top(s).Enqueuing?
    ensures Logs(s, Leave(d, s), None)
    ensures Logs(s, Abort(s), None)
  {
    var t, u := Leave(d, s), Abort(s);
    assert t.frames == u.frames == s.frames[..|s.frames| - 1];
  }

  lemma EndReadLogs<P>(s: Input<P>)
    requires s.frames != [] && Top(s).Reading?
    ensures Logs(s, EndRead(s), Some(Return))
    ensures Logs(s, Abort(s), Some(GiveUp))
  {
    if Numbered(s.log) {
      StepNumbered(s.log, Return);
      StepNumbered(s.log, GiveUp);
    }
  }

  lemma StepLogged<P>(d: Discipline, s: Input<P>, step: Step<P>)
    ensures Logs(s, InputQueue.Apply(d, s, step), OpOf(s, step))
  {
    if Allowed(s, step) {
      match step
      case DoEnter(p) => EnterLogs(s, p);
      case DoLeave => LeaveLogs(d, s);
      case DoAbort => if Top(s).Reading? { EndReadLogs(s); } else { LeaveLogs(d, s); }
      case DoBeginRead => BeginReadLogs(d, s);
      case DoEndRead => EndReadLogs(s);
      case DoRemote(_) =>
    }
  }

  lemma {:induction false} RunLogged<P>(d: Discipline, steps: seq<Step<P>>)
    ensures Logged(Run(d, Empty<P>(), steps))
  {
    if steps != [] {
      RunLogged<P>(d, steps[..|steps| - 1]);
      StepLogged(d, Run(d, Empty<P>(), steps[..|steps| - 1]), steps[|steps| - 1]);
    }
  }

  /** No read of the run begins inside another one, and none is given up. */
  predicate Undisturbed<P>(d: Discipline, s: Input<P>, steps: seq<Step<P>>) {
    steps == [] ||
    var front := steps[..|steps| - 1];
    var before := Run(d, s, front);
    var op := OpOf(before, steps[|steps| - 1]);
    Undisturbed(d, s, front) && !(op.Some? && Disturbs(before.log, op.value))
  }

  lemma {:induction false} RunStraight<P>(d: Discipline, steps: seq<Step<P>>)
    ensures var l := Run(d, Empty<P>(), steps).log;
            if Undisturbed(d, Empty<P>(), steps) then Straight(l) else Crooked(l)
  {
    if steps != [] {
      var front, step := steps[..|steps| - 1], steps[|steps| - 1];
      var s := Run(d, Empty<P>(), front);
      RunStraight<P>(d, front);
      RunLogged<P>(d, front);
      StepLogged(d, s, step);
      if OpOf(s, step).Some? {
        if Undisturbed(d, Empty<P>(), front) {
          StepStraight(s.log, OpOf(s, step).value);
        } else {
          StepCrooked(s.log, OpOf(s, step).value);
        }
      }
    }
  }

  /** Over every run, once all reads have returned: the k-th read returned the k-th packet taken out, for all
      k, if and only if no read began inside another one and none was given up. */
  lemma ReturnedInOrder<P>(d: Discipline, steps: seq<Step<P>>)
    ensures var t := Run(d, Empty<P>(), steps);
            t.log.inside == [] ==> (t.log.returned == Numbers(|t.taken|) <==> Undisturbed(d, Empty<P>(), steps))
  {
    RunLogged<P>(d, steps);
    RunStraight<P>(d, steps);
    if Run(d, Empty<P>(), steps).log.inside == [] {
      StraightOrCrooked(Run(d, Empty<P>(), steps).log);
    }
  }

  /** The packets the reads returned. */
  function Delivered<P>(s: Input<P>): seq<P>
    requires forall j :: 0 <= j < |s.log.returned| ==> s.log.returned[j] < |s.taken|
  {
    seq(|s.log.returned|, j requires 0 <= j < |s.log.returned| => s.taken[s.log.returned[j]])
  }

  /** Arrival to return: in such a run without an overwriting arrival, what the reads returned followed by what
      waits is what arrived. */
  lemma DeliveredInOrder<P>(d: Discipline, steps: seq<Step<P>>)
    requires Undisturbed(d, Empty<P>(), steps) && NoOverwrite(d, Empty<P>(), steps)
    ensures var t := Run(d, Empty<P>(), steps);
            Logged(t) && (t.log.inside == [] ==> Delivered(t) + Pending(t) == t.arrived)
  {
    var t := Run(d, Empty<P>(), steps);
    RunLogged<P>(d, steps);
    ReturnedInOrder<P>(d, steps);
    RunInOrder<P>(d, steps);
    if t.log.inside == [] {
      assert Delivered(t) == t.taken;
    }
  }

  /** No read from the deque begins inside another one, and no read is given up. */
  predicate NoLoss<P>(d: Discipline, s: Input<P>, steps: seq<Step<P>>) {
    steps == [] ||
    var front := steps[..|steps| - 1];
    var before := Run(d, s, front);
    var op := OpOf(before, steps[|steps| - 1]);
    NoLoss(d, s, front) && !(op.Some? && Loses(before.log, op.value))
  }

  lemma {:induction false} RunWhole<P>(d: Discipline, steps: seq<Step<P>>)
    ensures var l := Run(d, Empty<P>(), steps).log;
            if NoLoss(d, Empty<P>(), steps) then Whole(l) else exists a :: Lost(l, a)
  {
    if steps != [] {
      var front, step := steps[..|steps| - 1], steps[|steps| - 1];
      var s := Run(d, Empty<P>(), front);
      RunWhole<P>(d, front);
      RunLogged<P>(d, front);
      StepLogged(d, s, step);
      var op := OpOf(s, step);
      if op.Some? && !NoLoss(d, Empty<P>(), front) {
        var a :| Lost(s.log, a);
        StepLost(s.log, op.value, a);
      } else if op.Some? && Loses(s.log, op.value) {
        var a := LosingStep(s.log, op.value);
      } else if op.Some? {
        StepWhole(s.log, op.value);
      }
    }
  }

  /** Over every run, once all reads have returned: each packet taken out was returned exactly once, if and only
      if no read from the deque began inside another one and no read was given up. A read from the fast path
      inside another one changes the order at most. */
  lemma ReturnedOnce<P>(d: Discipline, steps: seq<Step<P>>)
    ensures var t := Run(d, Empty<P>(), steps);
            t.log.inside == [] ==>
              (multiset(t.log.returned) == multiset(Numbers(|t.taken|)) <==> NoLoss(d, Empty<P>(), steps))
  {
    var t := Run(d, Empty<P>(), steps);
    RunLogged<P>(d, steps);
    RunWhole<P>(d, steps);
    if t.log.inside == [] {
      if NoLoss(d, Empty<P>(), steps) {
        assert Held(t.log.inside) == [];
      } else {
        var a :| Lost(t.log, a);
        NumbersOnce(|t.taken|);
        assert a in multiset(Numbers(|t.taken|)) && a !in multiset(t.log.returned);
      }
    }
  }

  // ------------------------------------------------------------------------------------------
  // Which reads are at risk

  ghost predicate Leads<P(!new)>(d: Discipline, s: Input<P>, t: Input<P>) {
    exists step :: t == InputQueue.Apply(d, s, step)
  }

  /** One step leads from each state to the next, and the calls in progress at the beginning stay so. */
  ghost predicate During<P(!new)>(d: Discipline, states: seq<Input<P>>) {
    && states != []
    && (forall i :: 0 <= i < |states| ==> |states[i].frames| >= |states[0].frames|)
    && (forall i, j :: 0 <= i < j == i + 1 < |states| ==> Leads(d, states[i], states[j]))
  }

  /** The innermost read in the state b would return another packet than it took, in a state t in which it is
      still in progress. */
  ghost predicate ReturnsAnother<P>(b: Input<P>, t: Input<P>) {
    var inside := b.log.inside;
    && t.frames == b.frames && t.log.inside == inside != []
    && Result(t.log, inside[|inside| - 1]) != inside[|inside| - 1].number
  }

  /** Something that can happen before the read s is about to begin has returned makes it return another packet
      than it took. */
  ghost predicate MayReturnAnother<P(!new)>(d: Discipline, s: Input<P>) {
    exists states ::
      During(d, states) && states[0] == BeginRead(d, s) && ReturnsAnother(states[0], states[|states| - 1])
  }

  lemma {:induction false} ClosedReadStays<P(!new)>(d: Discipline, states: seq<Input<P>>, i: nat)
    requires During(d, states) && i < |states| && states[0].frames != [] && Top(states[0]) == Reading(false)
    ensures states[i] == states[0]
  {
    if i > 0 {
      ClosedReadStays(d, states, i - 1);
      assert Leads(d, states[i - 1], states[i]);
    }
  }

  /** A read from the deque that nothing comes between. */
  lemma ReadAtOnce<P>(d: Discipline, s: Input<P>)
    requires s.fast.None? && s.queue != []
    ensures var b := BeginRead(d, s);
            && b.frames == s.frames + [Reading(Opens(d, s))]
            && var t := EndRead(b);
               t.frames == s.frames && t.log.inside == s.log.inside && t.log.slow == Some(s.log.taken)
  {
    var b := BeginRead(d, s);
    assert b.frames[..|s.frames|] == s.frames;
    assert b.log.inside[..|s.log.inside|] == s.log.inside;
  }

  /** An arrival and a read of the next packet, one step after the other. */
  lemma ArrivalAndRead<P(!new)>(d: Discipline, b: Input<P>, p: P, kept: Input<P>)
    requires b.frames != [] && Top(b) == Reading(true) && b.fast.None? && kept == Leave(d, Enter(b, p))
    ensures kept.fast.None? && kept.queue != [] && kept.frames == b.frames && kept.log == b.log
    ensures During(d, [b, Enter(b, p), kept, BeginRead(d, kept), EndRead(BeginRead(d, kept))])
  {
    ArrivesUnread(d, b, p);
    ReadAtOnce(d, kept);
    var states := [b, Enter(b, p), kept, BeginRead(d, kept), EndRead(BeginRead(d, kept))];
    assert Leads(d, b, states[1]) by { assert states[1] == InputQueue.Apply(d, b, DoEnter(p)); }
    assert Leads(d, states[1], kept) by { assert kept == InputQueue.Apply(d, states[1], DoLeave); }
    assert Leads(d, kept, states[3]) by { assert states[3] == InputQueue.Apply(d, kept, DoBeginRead); }
    assert Leads(d, states[3], states[4]) by { assert states[4] == InputQueue.Apply(d, states[3], DoEndRead); }
  }

  /** Inside a read that released the input another packet arrives, is kept, and the next one is read. */
  lemma ReleasedReadIsOvertaken<P(!new)>(d: Discipline, b: Input<P>, p: P) returns (states: seq<Input<P>>)
    requires b.frames != [] && Top(b) == Reading(true) && b.fast.None? && b.log.inside != []
    requires b.log.taken > 0 && b.log.inside[|b.log.inside| - 1] == Read(b.log.taken - 1, true)
    ensures During(d, states) && states[0] == b && ReturnsAnother(b, states[|states| - 1])
  {
    var kept := Leave(d, Enter(b, p));
    ArrivalAndRead(d, b, p, kept);
    ReadAtOnce(d, kept);
    states := [b, Enter(b, p), kept, BeginRead(d, kept), EndRead(BeginRead(d, kept))];
  }

  /** What a caller can check: a read from the deque may return another packet than it took if and only if it
      releases the input, which is to say that the input is throttled by its discipline alone and the read
      takes it down to the low mark. */
  lemma SlowReadAtRisk<P(!new)>(d: Discipline, s: Input<P>, p: P)
    requires s.fast.None? && s.queue != []
    ensures MayReturnAnother(d, s) <==> Opens(d, s)
  {
    var b := BeginRead(d, s);
    assert Top(b) == Reading(Opens(d, s)) && b.log.inside == s.log.inside + [Read(s.log.taken, true)];
    if Opens(d, s) {
      var states := ReleasedReadIsOvertaken(d, b, p);
    } else if states :| During(d, states) && states[0] == b && ReturnsAnother(b, states[|states| - 1]) {
      ClosedReadStays(d, states, |states| - 1);
    }
  }

  /** No read of the run releases the input. */
  predicate NoneOpens<P>(d: Discipline, s: Input<P>, steps: seq<Step<P>>) {
    steps == [] ||
    var front := steps[..|steps| - 1];
    NoneOpens(d, s, front) && !(steps[|steps| - 1].DoBeginRead? && Opens(d, Run(d, s, front)))
  }

  lemma {:induction false} ClosedReadsRun<P>(d: Discipline, steps: seq<Step<P>>)
    requires NoneOpens(d, Empty<P>(), steps)
    ensures Undisturbed(d, Empty<P>(), steps)
    ensures var t := Run(d, Empty<P>(), steps); t.log.inside != [] ==> t.frames != [] && Top(t) == Reading(false)
  {
    if steps != [] {
      var front, step := steps[..|steps| - 1], steps[|steps| - 1];
      var s := Run(d, Empty<P>(), front);
      ClosedReadsRun<P>(d, front);
      RunStraight<P>(d, front);
      StepLogged(d, s, step);
    }
  }

  /** A caller that never reads where Opens holds gets everything in order, whatever else happens. */
  lemma CarefulReader<P>(d: Discipline, steps: seq<Step<P>>)
    requires NoneOpens(d, Empty<P>(), steps) && NoOverwrite(d, Empty<P>(), steps)
    ensures var t := Run(d, Empty<P>(), steps);
            Logged(t) && (t.log.inside == [] ==> Delivered(t) + Pending(t) == t.arrived)
  {
    ClosedReadsRun<P>(d, steps);
    DeliveredInOrder<P>(d, steps);
  }

  function OverlappingReads(): seq<Step<int>> {
    [] + [DoEnter(1), DoLeave] + [DoEnter(2), DoLeave] + [DoBeginRead, DoBeginRead] + [DoEndRead, DoEndRead]
  }

  /** The failure with the marks (2, 1): two packets arrive and are not read; the first of them is taken out,
      which releases the input, and the callback reads the second; both reads return the second. */
  lemma SlowPacketOverwritten()
    ensures var t := Run(Threshold(2, 1), Empty<int>(), OverlappingReads());
            t.frames == [] && t.arrived == [1, 2] && Logged(t) && Delivered(t) == [2, 2]
  {
    RunOverlappingReads(Threshold(2, 1));
    RunLogged<int>(Threshold(2, 1), OverlappingReads());
  }

  lemma RunOverlappingReads(d: Discipline)
    requires d == Threshold(2, 1)
    ensures Run(d, Empty<int>(), OverlappingReads())
         == Input(None, [], false, false, [], [1, 2], [1, 2], Log(2, Some(1), [], [1, 1]))
  {
    var s := Empty<int>();
    var two := [] + [DoEnter(1), DoLeave];
    var four := two + [DoEnter(2), DoLeave];
    var six := four + [DoBeginRead, DoBeginRead];
    RunTwoMore(d, s, [], DoEnter(1), DoLeave);
    OneArrival(d, s);
    RunTwoMore(d, s, two, DoEnter(2), DoLeave);
    AnotherArrival(d, Run(d, s, two));
    RunTwoMore(d, s, four, DoBeginRead, DoBeginRead);
    TwoReadsBegin(d, Run(d, s, four));
    RunTwoMore(d, s, six, DoEndRead, DoEndRead);
    TwoReadsEnd(d, Run(d, s, six));
  }

  lemma OneArrival(d: Discipline, s: Input<int>)
    requires d == Threshold(2, 1) && s == Empty()
    ensures InputQueue.Apply(d, InputQueue.Apply(d, s, DoEnter(1)), DoLeave)
         == Input(None, [1], false, false, [], [1], [], s.log)
  {
    var e := Input(Some(1), [], false, false, [Enqueuing(1, true)], [1], [], s.log);
    assert Enter(s, 1) == e;
    assert EnqueueUpdate(d, e) == e && Popped(e) == e.(frames := []);
    assert Leave(d, e) == Kept(e.(frames := []), Enqueuing(1, true));
  }

  lemma AnotherArrival(d: Discipline, s: Input<int>)
    requires d == Threshold(2, 1) && s == Input(None, [1], false, false, [], [1], [], Log(0, None, [], []))
    ensures InputQueue.Apply(d, InputQueue.Apply(d, s, DoEnter(2)), DoLeave)
         == Input(None, [2, 1], true, false, [], [1, 2], [], s.log)
  {
    var e := Input(None, [2, 1], false, false, [Enqueuing(2, false)], [1, 2], [], s.log);
    assert Enter(s, 2) == e;
    assert EnqueueUpdate(d, e) == e.(native := true) && Popped(e.(native := true)) == e.(native := true, frames := []);
    assert Leave(d, e) == e.(native := true, frames := []);
  }

  lemma TwoReadsBegin(d: Discipline, s: Input<int>)
    requires d == Threshold(2, 1) && s == Input(None, [2, 1], true, false, [], [1, 2], [], Log(0, None, [], []))
    ensures InputQueue.Apply(d, InputQueue.Apply(d, s, DoBeginRead), DoBeginRead)
         == Input(None, [], false, false, [Reading(true), Reading(false)], [1, 2], [1, 2],
                  Log(2, Some(1), [Read(0, true), Read(1, true)], []))
  {
    var t := Input(None, [2], false, false, [Reading(true)], [1, 2], [1], Log(1, Some(0), [Read(0, true)], []));
    assert BeginRead(d, s) == t;
  }

  lemma TwoReadsEnd(d: Discipline, s: Input<int>)
    requires s == Input(None, [], false, false, [Reading(true), Reading(false)], [1, 2], [1, 2],
                        Log(2, Some(1), [Read(0, true), Read(1, true)], []))
    ensures InputQueue.Apply(d, InputQueue.Apply(d, s, DoEndRead), DoEndRead)
         == s.(frames := [], log := Log(2, Some(1), [], [1, 1]))
  {
    assert EndRead(s) == s.(frames := [Reading(true)], log := Log(2, Some(1), [Read(0, true)], [1]));
  }
}
