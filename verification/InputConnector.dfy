/**
 The input connector of a module whose callback only reads, as an object.

 A read that releases the input drains it before it returns: the callback runs again and reads through
 the same connector.
 */
module InputConnector {
  import opened Common
  import opened ReadLog
  import opened InputQueue

  /** A read that nothing comes between. */
  function ReadOnce<P>(d: Discipline, s: Input<P>): (r: Input<P>)
    ensures SameCalls(s, r) && Size(r) == (if Size(s) > 0 then Size(s) - 1 else 0)
  {
    if Size(s) == 0 then s
    else
      ReadOnceKeeps(d, s);
      EndRead(BeginRead(d, s))
  }

  /** What a callback that only reads leaves alone: the calls in progress and what arrived; it takes packets out
      and never throttles. */
  ghost predicate SameCalls<P>(s: Input<P>, t: Input<P>) {
    && t.frames == s.frames && t.arrived == s.arrived && t.remote == s.remote && t.log.inside == s.log.inside
    && s.taken <= t.taken && Size(t) <= Size(s) && (t.native ==> s.native)
    && t.log.taken - |t.taken| == s.log.taken - |s.taken| && (s.log.slow.Some? ==> t.log.slow.Some?)
  }

  lemma ReadOnceKeeps<P>(d: Discipline, s: Input<P>)
    requires Size(s) > 0
    ensures var b := BeginRead(d, s);
            b.frames != [] && Top(b).Reading? && SameCalls(s, EndRead(b)) && Size(EndRead(b)) == Size(s) - 1
  {
    var b := BeginRead(d, s);
    assert b.frames[..|s.frames|] == s.frames;
    assert b.log.inside[..|s.log.inside|] == s.log.inside;
  }

  function ReadTimes<P>(d: Discipline, s: Input<P>, n: nat): (r: Input<P>)
    ensures SameCalls(s, r) && Size(r) == (if n < Size(s) then Size(s) - n else 0)
  {
    if n == 0 then s else ReadOnce(d, ReadTimes(d, s, n - 1))
  }

  /** v_unthrottleEvent(): the callback is repeated until it stops reading or nothing is left. The i-th callback
      reads demand(i) packets, unless the input is throttled. */
  function Drained<P>(d: Discipline, s: Input<P>, demand: nat -> nat, i: nat): (r: Input<P>)
    ensures SameCalls(s, r)
    decreases Size(s)
  {
    var t := ReadTimes(d, s, if s.native || s.remote then 0 else demand(i));
    if Size(s) == 0 then s else if Size(t) == Size(s) then t else Drained(d, t, demand, i + 1)
  }

  /** The report of a dequeue, with the drain that it sets off if it releases the input. */
  function Reported<P>(d: Discipline, s: Input<P>, demand: nat -> nat): (r: Input<P>)
    ensures SameCalls(s, r)
  {
    var u := DequeueUpdate(d, s);
    if d.Threshold? && s.native && !s.remote && Size(s) <= d.low then Drained(d, u, demand, 0) else u
  }

  /** A whole read, in a module whose callback only reads. */
  function FullRead<P>(d: Discipline, s: Input<P>, demand: nat -> nat): Input<P> {
    if Size(s) == 0 then s
    else
      assert Top(TakenOut(d, s)) == Reading(Opens(d, s));
      EndRead(Reported(d, TakenOut(d, s), demand))
  }

  // ------------------------------------------------------------------------------------------
  // What such a read returns

  /** Reads from the deque leave a newer packet in slowPacket_. */
  lemma {:induction false} ReadTimesNewer<P>(d: Discipline, s: Input<P>, n: nat)
    requires s.fast.None?
    ensures var t := ReadTimes(d, s, n);
            && t.fast.None? && t.log.taken >= s.log.taken
            && if n == 0 || Size(s) == 0 then t == s else t.log.slow.Some? && t.log.slow.value >= s.log.taken
  {
    if n > 0 {
      var t := ReadTimes(d, s, n - 1);
      ReadTimesNewer(d, s, n - 1);
      ReadOnceNewer(d, t);
      assert Size(t) <= Size(s);
    }
  }

  lemma ReadOnceNewer<P>(d: Discipline, s: Input<P>)
    requires s.fast.None?
    ensures var t := ReadOnce(d, s);
            && t.fast.None? && t.log.taken >= s.log.taken
            && if Size(s) == 0 then t == s else t.log.slow == Some(s.log.taken)
  {
  }

  lemma {:induction false} DrainedNewer<P>(d: Discipline, s: Input<P>, demand: nat -> nat, i: nat)
    requires s.fast.None? && !s.native && !s.remote
    ensures var t := Drained(d, s, demand, i);
            && t.log.taken >= s.log.taken
            && if Size(s) == 0 || demand(i) == 0 then t == s
               else t.log.slow.Some? && t.log.slow.value >= s.log.taken
    decreases Size(s)
  {
    ReadTimesNewer(d, s, demand(i));
    var t := ReadTimes(d, s, demand(i));
    if 0 < Size(t) < Size(s) {
      DrainedNewer(d, t, demand, i + 1);
    }
  }

  /** A drain leaves nothing behind if the callback always reads. */
  lemma {:induction false} DrainedEmpties<P>(d: Discipline, s: Input<P>, demand: nat -> nat, i: nat)
    requires !s.native && !s.remote && forall k :: demand(k) > 0
    ensures Size(Drained(d, s, demand, i)) == 0
    decreases Size(s)
  {
    var t := ReadTimes(d, s, demand(i));
    if Size(s) > 0 {
      DrainedEmpties(d, t, demand, i + 1);
    }
  }

  /** A callback that never reads does not come between. */
  lemma IdleFullRead<P>(d: Discipline, s: Input<P>, demand: nat -> nat)
    requires demand(0) == 0
    ensures FullRead(d, s, demand) == ReadOnce(d, s)
  {
  }

  /** Which packet operator() returns: its own, except in one case that its caller can see coming. It reads from
      the deque, the read releases the input, other packets wait, and the callback reads when it is released. */
  lemma ReadReturnsOwn<P>(d: Discipline, s: Input<P>, demand: nat -> nat)
    requires Size(s) > 0
    ensures var t := FullRead(d, s, demand);
            && t.log.returned != []
            && (t.log.returned[|t.log.returned| - 1] == s.log.taken
                <==> !(s.fast.None? && Opens(d, s) && Size(s) > 1 && demand(0) > 0))
  {
    var b := TakenOut(d, s);
    var u := Reported(d, b, demand);
    assert b.log.inside == s.log.inside + [Read(s.log.taken, s.fast.None?)];
    assert u.log.inside[|s.log.inside|] == Read(s.log.taken, s.fast.None?);
    if s.fast.None? && Opens(d, s) {
      DrainedNewer(d, DequeueUpdate(d, b), demand, 0);
    }
  }

  // ------------------------------------------------------------------------------------------
  // Such reads are runs of the connector

  ghost predicate Reaches<P(!new)>(d: Discipline, s: Input<P>, t: Input<P>) {
    exists steps :: t == Run(d, s, steps)
  }

  lemma {:induction false} RunAppend<P>(d: Discipline, s: Input<P>, front: seq<Step<P>>, back: seq<Step<P>>)
    ensures Run(d, s, front + back) == Run(d, Run(d, s, front), back)
  {
    if back == [] {
      assert front + back == front;
    } else {
      var rest, x := back[..|back| - 1], back[|back| - 1];
      RunAppend(d, s, front, rest);
      RunOneMore(d, s, front + rest, x);
      RunOneMore(d, Run(d, s, front), rest, x);
      assert rest + [x] == back && front + rest + [x] == front + back;
    }
  }

  lemma ReachesOn<P(!new)>(d: Discipline, s: Input<P>, t: Input<P>, u: Input<P>)
    requires Reaches(d, s, t) && Reaches(d, t, u)
    ensures Reaches(d, s, u)
  {
    var front :| t == Run(d, s, front);
    var back :| u == Run(d, t, back);
    RunAppend(d, s, front, back);
  }

  lemma ReachesNext<P(!new)>(d: Discipline, s: Input<P>, t: Input<P>, step: Step<P>)
    requires Reaches(d, s, t)
    ensures Reaches(d, s, InputQueue.Apply(d, t, step))
  {
    var front :| t == Run(d, s, front);
    RunOneMore(d, s, front, step);
  }

  lemma ReachesSelf<P(!new)>(d: Discipline, s: Input<P>)
    ensures Reaches(d, s, s)
  {
    assert s == Run(d, s, []);
  }

  /** No read in progress is about to return at once. */
  predicate Free<P>(s: Input<P>) {
    s.frames == [] || Top(s) != Reading(false)
  }

  lemma ReadOnceReached<P(!new)>(d: Discipline, s: Input<P>)
    requires Free(s)
    ensures Reaches(d, s, ReadOnce(d, s))
  {
    ReachesSelf(d, s);
    if Size(s) > 0 {
      ReachesNext(d, s, s, DoBeginRead);
      ReachesNext(d, s, BeginRead(d, s), DoEndRead);
    }
  }

  lemma {:induction false} ReadTimesReached<P(!new)>(d: Discipline, s: Input<P>, n: nat)
    requires Free(s)
    ensures Reaches(d, s, ReadTimes(d, s, n))
  {
    if n == 0 {
      ReachesSelf(d, s);
    } else {
      var t := ReadTimes(d, s, n - 1);
      ReadTimesReached(d, s, n - 1);
      ReadOnceReached(d, t);
      ReachesOn(d, s, t, ReadOnce(d, t));
    }
  }

  lemma {:induction false} DrainedReached<P(!new)>(d: Discipline, s: Input<P>, demand: nat -> nat, i: nat)
    requires Free(s)
    ensures Reaches(d, s, Drained(d, s, demand, i))
    decreases Size(s)
  {
    var n := if s.native || s.remote then 0 else demand(i);
    var t := ReadTimes(d, s, n);
    ReachesSelf(d, s);
    ReadTimesReached(d, s, n);
    if Size(s) > 0 && Size(t) < Size(s) {
      DrainedReached(d, t, demand, i + 1);
      ReachesOn(d, s, t, Drained(d, t, demand, i + 1));
    }
  }

  lemma ReportedReached<P(!new)>(d: Discipline, s: Input<P>, demand: nat -> nat)
    requires Free(s) && Size(s) > 0
    ensures Reaches(d, s, Reported(d, TakenOut(d, s), demand))
  {
    var b := BeginRead(d, s);
    ReachesSelf(d, s);
    ReachesNext(d, s, s, DoBeginRead);
    if Opens(d, s) {
      assert Top(b) == Reading(true);
      DrainedReached(d, b, demand, 0);
      ReachesOn(d, s, b, Drained(d, b, demand, 0));
    }
  }

  /** Whatever the callback reads, the whole read is one of the runs of the connector. */
  lemma FullReadReached<P(!new)>(d: Discipline, s: Input<P>, demand: nat -> nat)
    requires Free(s)
    ensures Reaches(d, s, FullRead(d, s, demand))
  {
    ReachesSelf(d, s);
    if Size(s) > 0 {
      var u := Reported(d, TakenOut(d, s), demand);
      assert u.frames == TakenOut(d, s).frames;
      ReportedReached(d, s, demand);
      ReachesNext(d, s, u, DoEndRead);
    }
  }

  // ------------------------------------------------------------------------------------------
  // The connector as an object

  /** The innermost call is a read, of the given fast packet or of one in slowPacket_. */
  ghost predicate InRead<P>(s: Input<P>, fast: Option<P>) {
    && s.frames != [] && Top(s).Reading? && s.log.inside != []
    && var r := s.log.inside[|s.log.inside| - 1];
       && r.slow == fast.None?
       && if fast.None? then s.log.slow.Some? else r.number < |s.taken| && s.taken[r.number] == fast.value
  }

  lemma StillInRead<P>(s: Input<P>, t: Input<P>, fast: Option<P>)
    requires InRead(s, fast) && SameCalls(s, t)
    ensures InRead(t, fast)
  {
  }

  lemma FullReadClosed<P>(d: Discipline, s: Input<P>, demand: nat -> nat)
    requires !s.native
    ensures FullRead(d, s, demand) == ReadOnce(d, s)
  {
  }

  class GenericPassiveInput<P> {
    const discipline: Discipline
    var fastPacket: Option<P>
    var slowPacket: Option<P>
    var queue: seq<P>
    var nativeThrottled: bool
    var remoteThrottled: bool
    ghost var frames: seq<Frame<P>>
    ghost var arrived: seq<P>
    ghost var taken: seq<P>
    ghost var log: Log

    ghost function Value(): Input<P>
      reads this
    {
      Input(fastPacket, queue, nativeThrottled, remoteThrottled, frames, arrived, taken, log)
    }

    /** slowPacket_ holds the packet the log says it holds. */
    ghost predicate Valid()
      reads this
    {
      && log.taken == |taken|
      && (log.slow.Some? ==> log.slow.value < |taken| && slowPacket == Some(taken[log.slow.value]))
    }

    constructor (discipline: Discipline)
      ensures Valid() && Value() == Empty() && this.discipline == discipline
    {
      this.discipline := discipline;
      fastPacket, slowPacket, queue, nativeThrottled, remoteThrottled := None, None, [], false, false;
      frames, arrived, taken, log := [], [], [], Log(0, None, [], []);
    }

    predicate Throttled()
      reads this
    {
      nativeThrottled || remoteThrottled
    }

    function QueueSize(): (n: nat)
      reads this
      ensures n == Size(Value())
    {
      |queue| + (if fastPacket.Some? then 1 else 0)
    }

    /** operator(), in a module whose i-th callback during a drain reads demand(i) packets. The packet returned is
        the one the log says. */
    method Get(demand: nat -> nat) returns (p: Option<P>)
      requires Valid()
      modifies this
      ensures Valid() && Value() == FullRead(discipline, old(Value()), demand)
      ensures p.Some? <==> old(QueueSize()) > 0
      ensures p.Some? ==> log.returned != [] && log.returned[|log.returned| - 1] < |taken|
                          && p.value == taken[log.returned[|log.returned| - 1]]
      decreases if nativeThrottled then 1 else 0, 1
    {
      if QueueSize() == 0 {
        return None;
      }
      var fast := fastPacket;
      TakeOut();
      ghost var s := Value();
      DequeueEvent(demand);
      StillInRead(s, Value(), fast);
      var q := GiveBack(fast);
      return Some(q);
    }

    /** The return of operator(): the fast packet, or whatever slowPacket_ holds. */
    method GiveBack(fast: Option<P>) returns (p: P)
      requires Valid() && InRead(Value(), fast)
      modifies this`frames, this`log
      ensures Valid() && Value() == EndRead(old(Value()))
      ensures log.returned != [] && log.returned[|log.returned| - 1] < |taken|
      ensures p == taken[log.returned[|log.returned| - 1]]
    {
      p := if fast.Some? then fast.value else slowPacket.value;
      log := ReadLog.Apply(log, Return);
      frames := frames[..|frames| - 1];
    }

    method TakeOut()
      requires Valid() && QueueSize() > 0
      modifies this`fastPacket, this`slowPacket, this`queue, this`frames, this`taken, this`log
      ensures Valid() && Value() == TakenOut(discipline, old(Value())) && InRead(Value(), old(fastPacket))
    {
      frames := frames + [Reading(Opens(discipline, Value()))];
      log := ReadLog.Apply(log, Begin(fastPacket.None?));
      if fastPacket.Some? {
        taken := taken + [fastPacket.value];
        fastPacket := None;
      } else {
        slowPacket := Some(queue[|queue| - 1]);
        taken := taken + [queue[|queue| - 1]];
        queue := queue[..|queue| - 1];
      }
    }

    /** v_dequeueEvent() with ThresholdThrottling::update and PassiveConnector::unthrottle(). */
    method DequeueEvent(demand: nat -> nat)
      requires Valid()
      modifies this
      ensures Valid() && Value() == Reported(discipline, old(Value()), demand)
      decreases if nativeThrottled then 1 else 0, 0
    {
      if discipline.Threshold? && QueueSize() <= discipline.low {
        if nativeThrottled && !remoteThrottled {
          nativeThrottled := false;
          Drain(demand);
        } else {
          nativeThrottled := false;
        }
      }
    }

    /** v_unthrottleEvent(). */
    method Drain(demand: nat -> nat)
      requires Valid()
      modifies this
      ensures Valid() && Value() == Drained(discipline, old(Value()), demand, 0)
      decreases if nativeThrottled then 1 else 0, 3
    {
      ghost var start := Value();
      var n := QueueSize();
      var i := 0;
      while n != 0
        invariant Valid() && n == QueueSize() && SameCalls(start, Value())
        invariant Drained(discipline, start, demand, 0) == Drained(discipline, Value(), demand, i)
        decreases n
      {
        Emit(demand(i));
        var nn := QueueSize();
        if n == nn {
          break;
        }
        n := nn;
        i := i + 1;
      }
    }

    /** emit(): the module's callback, here one that reads n packets, runs unless the input is throttled. */
    method Emit(n: nat)
      requires Valid()
      modifies this
      ensures Valid() && Value() == ReadTimes(discipline, old(Value()), if old(Throttled()) then 0 else n)
      decreases if nativeThrottled then 1 else 0, 2
    {
      if !Throttled() {
        ghost var start := Value();
        for i := 0 to n
          invariant Valid() && Value() == ReadTimes(discipline, start, i)
        {
          FullReadClosed(discipline, Value(), _ => n);
          var _ := Get(_ => n);
        }
      }
    }

    /** enqueue() up to the callback. */
    method Accept(p: P) returns (fast: bool)
      requires Valid()
      modifies this`fastPacket, this`queue, this`frames, this`arrived
      ensures Valid() && Value() == Enter(old(Value()), p) && fast == (old(queue) == [])
    {
      fast := queue == [];
      arrived, frames := arrived + [p], frames + [Enqueuing(p, fast)];
      if fast {
        fastPacket := Some(p);
      } else {
        queue := [p] + queue;
      }
    }

    /** enqueue() after the callback. */
    method Finish(p: P, fast: bool)
      requires Valid() && frames != [] && frames[|frames| - 1] == Enqueuing(p, fast)
      modifies this`fastPacket, this`queue, this`nativeThrottled, this`frames
      ensures Valid() && Value() == Leave(discipline, old(Value()))
    {
      if discipline.Threshold? && QueueSize() >= discipline.high {
        nativeThrottled := true;
      }
      frames := frames[..|frames| - 1];
      if fast && fastPacket.Some? {
        queue := [p] + queue;
        fastPacket := None;
      }
    }

    /** enqueue() with a callback that reads n packets. */
    method Enqueue(p: P, n: nat)
      requires Valid()
      modifies this
      ensures var t := ReadTimes(discipline, Enter(old(Value()), p), if old(Throttled()) then 0 else n);
              Valid() && t.frames != [] && Top(t).Enqueuing? && Value() == Leave(discipline, t)
    {
      var fast := Accept(p);
      assert Top(Value()) == Enqueuing(p, fast);
      Emit(n);
      Finish(p, fast);
    }
  }
}
