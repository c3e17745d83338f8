/**
 The packet queue of an input connector, with its fast path for a packet that is read before the
 call that delivered it returns, and the threshold throttling that watches the queue.

 Callbacks are opaque. Between entering and leaving an enqueue call the module may read, and what the
 read sets off may enqueue again. A read takes a packet out first and returns it last: in between it
 reports the dequeue, and a report that releases the input lets other modules and this one run. A run
 is therefore any nesting of enqueue calls and reads.
 */
module InputQueue {
  import opened Common
  import opened ReadLog

  /** The throttling discipline of a passive input. */
  datatype Discipline = NoThrottling | Threshold(high: nat, low: nat)

  /** A call that has not returned yet: an enqueue call, and whether it took the fast path; or a read, and
      whether its report of the dequeue has released the input, so that others run before it returns. */
  datatype Frame<P> = Enqueuing(packet: P, fast: bool) | Reading(opens: bool)

  /** The connector: fastPacket_, queue_ (newest first) and the two throttle bits; the calls in progress,
      innermost last; the history of what arrived and what was taken out; and the log of the reads, which
      names packets by their number among those taken out. */
  datatype Input<P> = Input(
    fast: Option<P>,
    queue: seq<P>,
    native: bool,
    remote: bool,
    frames: seq<Frame<P>>,
    arrived: seq<P>,
    taken: seq<P>,
    log: Log)

  function Empty<P>(): Input<P> {
    Input(None, [], false, false, [], [], [], Log(0, None, [], []))
  }

  function Size<P>(s: Input<P>): nat {
    |s.queue| + (if s.fast.Some? then 1 else 0)
  }

  function Reverse<P>(xs: seq<P>): (r: seq<P>)
    ensures |r| == |xs|
  {
    if xs == [] then [] else Reverse(xs[1..]) + [xs[0]]
  }

  /** What waits in the connector, oldest first. */
  function Pending<P>(s: Input<P>): (r: seq<P>)
    ensures |r| == Size(s)
  {
    Reverse(s.queue) + (if s.fast.Some? then [s.fast.value] else [])
  }

  // ------------------------------------------------------------------------------------------
  // Operations

  /** ThresholdThrottling::update for an enqueue. */
  function EnqueueUpdate<P>(d: Discipline, s: Input<P>): Input<P> {
    if d.Threshold? && Size(s) >= d.high then s.(native := true) else s
  }

  /** ThresholdThrottling::update for a dequeue. */
  function DequeueUpdate<P>(d: Discipline, s: Input<P>): Input<P> {
    if d.Threshold? && Size(s) <= d.low then s.(native := false) else s
  }

  /** InputConnector::enqueue up to the call of v_enqueueEvent. */
  function Enter<P>(s: Input<P>, p: P): Input<P> {
    var called := s.(frames := s.frames + [Enqueuing(p, s.queue == [])], arrived := s.arrived + [p]);
    if s.queue == [] then called.(fast := Some(p)) else called.(queue := [p] + s.queue)
  }

  function Top<P>(s: Input<P>): Frame<P>
    requires s.frames != []
  {
    s.frames[|s.frames| - 1]
  }

  function Popped<P>(s: Input<P>): Input<P>
    requires s.frames != []
  {
    s.(frames := s.frames[..|s.frames| - 1])
  }

  /** An unread fast packet is put into the deque. */
  function Kept<P>(s: Input<P>, call: Frame<P>): Input<P>
    requires call.Enqueuing?
  {
    if call.fast && s.fast.Some? then s.(queue := [call.packet] + s.queue, fast := None) else s
  }

  /** The rest of v_enqueueEvent and of InputConnector::enqueue after the module's callback returned. */
  function Leave<P>(d: Discipline, s: Input<P>): Input<P>
    requires s.frames != [] && Top(s).Enqueuing?
  {
    Kept(Popped(EnqueueUpdate(d, s)), Top(s))
  }

  /** An exception ends the innermost call. An enqueue call keeps its packet, but the arrival is never reported
      to the throttling discipline; a read returns nothing. */
  function Abort<P>(s: Input<P>): Input<P>
    requires s.frames != []
  {
    if Top(s).Enqueuing? then Kept(Popped(s), Top(s)) else Popped(s).(log := ReadLog.Apply(s.log, GiveUp))
  }

  /** A read that will release the input: the discipline's low mark is reached by taking one packet from an
      input that is throttled natively and not otherwise. */
  predicate Opens<P>(d: Discipline, s: Input<P>) {
    d.Threshold? && s.native && !s.remote && 0 < Size(s) <= d.low + 1
  }

  /** A read takes the packet in the fast path, or else the oldest one of the deque. */
  function TakenOut<P>(d: Discipline, s: Input<P>): (r: Input<P>)
    requires Size(s) > 0
    ensures Size(r) == Size(s) - 1 && r.frames == s.frames + [Reading(Opens(d, s))]
  {
    var called := s.(frames := s.frames + [Reading(Opens(d, s))], log := ReadLog.Apply(s.log, Begin(s.fast.None?)));
    if s.fast.Some? then called.(fast := None, taken := s.taken + [s.fast.value])
    else called.(queue := s.queue[..|s.queue| - 1], taken := s.taken + [s.queue[|s.queue| - 1]])
  }

  /** InputConnector::operator() up to the report of the dequeue; an empty connector yields the null packet at
      once. */
  function BeginRead<P>(d: Discipline, s: Input<P>): (r: Input<P>)
    ensures Size(s) > 0 ==> r.frames == s.frames + [Reading(Opens(d, s))]
  {
    if Size(s) > 0 then DequeueUpdate(d, TakenOut(d, s)) else s
  }

  /** The return of operator(). */
  function EndRead<P>(s: Input<P>): Input<P>
    requires s.frames != [] && Top(s).Reading?
  {
    Popped(s).(log := ReadLog.Apply(s.log, Return))
  }

  datatype Step<P> = DoEnter(p: P) | DoLeave | DoAbort | DoBeginRead | DoEndRead | DoRemote(v: bool)

  /** A read that has released nobody returns at once; otherwise anything may happen, and calls return
      innermost first. */
  predicate Allowed<P>(s: Input<P>, step: Step<P>) {
    var closed := s.frames != [] && Top(s).Reading? && !Top(s).opens;
    match step
    case DoLeave => s.frames != [] && Top(s).Enqueuing?
    case DoEndRead => s.frames != [] && Top(s).Reading?
    case DoAbort => s.frames != [] && !closed
    case _ => !closed
  }

  function Apply<P>(d: Discipline, s: Input<P>, step: Step<P>): Input<P> {
    if !Allowed(s, step) then s
    else
      match step
      case DoEnter(p) => Enter(s, p)
      case DoLeave => Leave(d, s)
      case DoAbort => Abort(s)
      case DoBeginRead => BeginRead(d, s)
      case DoEndRead => EndRead(s)
      case DoRemote(v) => s.(remote := v)
  }

  function Run<P>(d: Discipline, s: Input<P>, steps: seq<Step<P>>): Input<P> {
    if steps == [] then s else Apply(d, Run(d, s, steps[..|steps| - 1]), steps[|steps| - 1])
  }

  // ------------------------------------------------------------------------------------------
  // Arrival and taking out

  /** Packets are taken out in the order of arrival, and none is missing. */
  ghost predicate InOrder<P>(s: Input<P>) {
    s.taken + Pending(s) == s.arrived
  }

  /** A packet in the fast path belongs to the innermost call, and the queue behind it is empty. */
  ghost predicate FastPathSound<P>(s: Input<P>) {
    s.fast.Some? ==> s.queue == [] && s.frames != [] && Top(s) == Enqueuing(s.fast.value, true)
  }

  lemma {:induction false} ReverseDropsLast<P>(xs: seq<P>)
    requires xs != []
    ensures Reverse(xs) == [xs[|xs| - 1]] + Reverse(xs[..|xs| - 1])
  {
    if |xs| > 1 {
      ReverseDropsLast(xs[1..]);
      assert xs[1..][..|xs| - 2] == xs[..|xs| - 1][1..];
    } else {
      assert xs[1..] == [] && xs[..0] == [];
    }
  }

  /** A read takes out the oldest packet and only that. */
  lemma BeginReadInOrder<P>(d: Discipline, s: Input<P>)
    requires FastPathSound(s)
    ensures var t := BeginRead(d, s);
            && FastPathSound(t) && t.fast.None? && t.arrived == s.arrived
            && t.taken + Pending(t) == s.taken + Pending(s)
            && Size(t) == (if Size(s) > 0 then Size(s) - 1 else 0)
            && (Size(s) > 0 ==> t.taken == s.taken + [Pending(s)[0]])
  {
    if s.fast.None? && s.queue != [] {
      ReverseDropsLast(s.queue);
    }
  }

  /** An arrival adds to what waits, unless it overwrites an unread packet in the fast path. */
  lemma EnterInOrder<P>(s: Input<P>, p: P)
    requires FastPathSound(s)
    ensures var t := Enter(s, p);
            && FastPathSound(t) && t.taken == s.taken
            && Pending(t) == (if s.fast.None? then Pending(s) else []) + [p]
  {
    var t := Enter(s, p);
    if s.fast.None? && s.queue != [] {
      assert t.queue[1..] == s.queue;
    } else {
      assert s.queue == [] && Reverse(s.queue) == [];
    }
  }

  lemma KeptInOrder<P>(s: Input<P>, call: Frame<P>)
    requires call.Enqueuing? && (s.fast.Some? ==> s.queue == [] && call == Enqueuing(s.fast.value, true))
    ensures Kept(s, call).fast.None? && Pending(Kept(s, call)) == Pending(s)
  {
    if s.fast.Some? {
      assert Kept(s, call).queue[1..] == [];
    }
  }

  /** The end of an enqueue call, regular or not, frees the fast path and keeps what waits. */
  lemma LeaveInOrder<P>(d: Discipline, s: Input<P>)
    requires FastPathSound(s) && s.frames != [] && Top(s).Enqueuing?
    ensures Leave(d, s).fast.None? && Pending(Leave(d, s)) == Pending(s)
    ensures Abort(s).fast.None? && Pending(Abort(s)) == Pending(s)
  {
    KeptInOrder(Popped(EnqueueUpdate(d, s)), Top(s));
    KeptInOrder(Popped(s), Top(s));
  }

  /** The one step that loses a packet before anybody takes it out: an arrival while an unread packet is in the
      fast path. */
  predicate Overwrites<P>(s: Input<P>, step: Step<P>) {
    Allowed(s, step) && step.DoEnter? && s.fast.Some?
  }

  /** No step of the run overwrites. */
  predicate NoOverwrite<P>(d: Discipline, s: Input<P>, steps: seq<Step<P>>) {
    steps == [] ||
    var front := steps[..|steps| - 1];
    NoOverwrite(d, s, front) && !Overwrites(Run(d, s, front), steps[|steps| - 1])
  }

  /** A step keeps the order unless it overwrites, and what it overwrites is missing from then on. */
  ghost predicate Advances<P>(s: Input<P>, t: Input<P>, overwrites: bool) {
    && FastPathSound(t)
    && (!overwrites && InOrder(s) ==> InOrder(t))
    && |t.arrived| - |t.taken| - Size(t) == |s.arrived| - |s.taken| - Size(s) + (if overwrites then 1 else 0)
  }

  lemma EnterAdvances<P>(s: Input<P>, p: P)
    requires FastPathSound(s)
    ensures Advances(s, Enter(s, p), s.fast.Some?)
  {
    EnterInOrder(s, p);
  }

  lemma EndAdvances<P>(d: Discipline, s: Input<P>)
    requires FastPathSound(s) && s.frames != []
    ensures Top(s).Enqueuing? ==> Advances(s, Leave(d, s), false)
    ensures Advances(s, Abort(s), false)
    ensures Top(s).Reading? ==> Advances(s, EndRead(s), false)
  {
    if Top(s).Enqueuing? {
      LeaveInOrder(d, s);
    }
  }

  lemma BeginReadAdvances<P>(d: Discipline, s: Input<P>)
    requires FastPathSound(s)
    ensures Advances(s, BeginRead(d, s), false)
  {
    BeginReadInOrder(d, s);
  }

  lemma StepInOrder<P>(d: Discipline, s: Input<P>, step: Step<P>)
    requires FastPathSound(s)
    ensures Advances(s, Apply(d, s, step), Overwrites(s, step))
  {
    if Allowed(s, step) {
      match step
      case DoEnter(p) => EnterAdvances(s, p);
      case DoLeave => EndAdvances(d, s);
      case DoAbort => EndAdvances(d, s);
      case DoBeginRead => BeginReadAdvances(d, s);
      case DoEndRead => EndAdvances(d, s);
      case DoRemote(_) =>
    }
  }

  lemma {:induction false} RunSound<P>(d: Discipline, steps: seq<Step<P>>)
    ensures var t := Run(d, Empty<P>(), steps);
            && FastPathSound(t) && |t.arrived| >= |t.taken| + Size(t)
            && (NoOverwrite(d, Empty<P>(), steps) ==> InOrder(t))
            && (!NoOverwrite(d, Empty<P>(), steps) ==> |t.arrived| > |t.taken| + Size(t))
  {
    if steps != [] {
      RunSound<P>(d, steps[..|steps| - 1]);
      StepInOrder(d, Run(d, Empty<P>(), steps[..|steps| - 1]), steps[|steps| - 1]);
    }
  }

  /** Over every run, with any nesting and any number of failing callbacks: what was taken out followed by what
      waits is what arrived, if and only if no arrival met an unread packet in the fast path. */
  lemma RunInOrder<P>(d: Discipline, steps: seq<Step<P>>)
    ensures InOrder(Run(d, Empty<P>(), steps)) <==> NoOverwrite(d, Empty<P>(), steps)
  {
    RunSound<P>(d, steps);
  }

  /** The packet lost by such an arrival is the unread one, for good. */
  lemma ArrivalOverwrites<P>(d: Discipline, s: Input<P>, p: P)
    requires InOrder(s) && FastPathSound(s) && s.fast.Some?
    ensures var t := Leave(d, Enter(s, p));
            && s.arrived == s.taken + [s.fast.value] && t.arrived == s.arrived + [p]
            && t.taken + Pending(t) == s.taken + [p]
  {
    EnterInOrder(s, p);
    LeaveInOrder(d, Enter(s, p));
    assert Pending(s) == [s.fast.value];
  }

  // ------------------------------------------------------------------------------------------
  // Small runs

  lemma {:induction false} RunOneMore<P>(d: Discipline, s: Input<P>, front: seq<Step<P>>, x: Step<P>)
    ensures Run(d, s, front + [x]) == Apply(d, Run(d, s, front), x)
  {
    assert (front + [x])[..|front|] == front;
  }

  lemma {:induction false} RunTwoMore<P>(d: Discipline, s: Input<P>, front: seq<Step<P>>, x: Step<P>, y: Step<P>)
    ensures Run(d, s, front + [x, y]) == Apply(d, Apply(d, Run(d, s, front), x), y)
  {
    assert (front + [x, y])[..|front| + 1] == front + [x];
    assert (front + [x])[..|front|] == front;
  }

  /** An arrival that nobody reads. */
  lemma ArrivesUnread<P>(d: Discipline, s: Input<P>, p: P)
    requires s.fast.None?
    ensures var t := Leave(d, Enter(s, p));
            && Enter(s, p).frames == s.frames + [Enqueuing(p, s.queue == [])]
            && t.frames == s.frames && t.fast.None? && t.queue == [p] + s.queue && t.log == s.log
            && Size(t) == Size(s) + 1 && t.native == (s.native || (d.Threshold? && Size(s) + 1 >= d.high))
  {
    var e := Enter(s, p);
    assert e.frames[..|s.frames|] == s.frames && Size(e) == Size(s) + 1 && e.native == s.native;
    var u := Popped(EnqueueUpdate(d, e));
    assert u.frames == s.frames && u.fast == e.fast && u.queue == e.queue && u.log == s.log;
  }

  /** The second of two packets arrives inside the callback of the first, which has not read. */
  function NestedArrivals(): seq<Step<int>> {
    [] + [DoEnter(1), DoEnter(2)] + [DoLeave, DoLeave]
  }

  /** A concrete failure: of two packets only the second waits in the end, and none was taken out. */
  lemma FastPacketOverwritten()
    ensures var t := Run(NoThrottling, Empty<int>(), NestedArrivals());
            t.frames == [] && t.arrived == [1, 2] && t.taken == [] && t.queue == [2] && t.fast.None?
  {
    var d, s := NoThrottling, Empty<int>();
    RunTwoMore(d, s, [], DoEnter(1), DoEnter(2));
    RunTwoMore(d, s, [] + [DoEnter(1), DoEnter(2)], DoLeave, DoLeave);
    NestedEnter(d, s);
    NestedLeave(d, Run(d, s, [] + [DoEnter(1), DoEnter(2)]));
  }

  lemma NestedEnter(d: Discipline, s: Input<int>)
    requires s == Empty()
    ensures Apply(d, Apply(d, s, DoEnter(1)), DoEnter(2))
         == Input(Some(2), [], false, false, [Enqueuing(1, true), Enqueuing(2, true)], [1, 2], [], s.log)
  {
    assert Enter(s, 1) == Input(Some(1), [], false, false, [Enqueuing(1, true)], [1], [], s.log);
  }

  lemma NestedLeave(d: Discipline, s: Input<int>)
    requires d == NoThrottling && s.fast == Some(2) && s.queue == []
    requires s.frames == [Enqueuing(1, true), Enqueuing(2, true)]
    ensures Apply(d, Apply(d, s, DoLeave), DoLeave) == s.(fast := None, queue := [2], frames := [])
  {
    assert Leave(d, s) == s.(fast := None, queue := [2], frames := [Enqueuing(1, true)]);
  }
}
