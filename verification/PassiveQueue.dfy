/**
 The passive queue module: packets are pushed into its input and pulled from its output. The
 output is throttled while there is nothing to pull, the input while there is too much.

 A request at the output runs while the read it makes may let the upstream module push again, so a
 run is any nesting of arrivals and requests in progress, each of which may end by an exception. The
 route between the two passive connectors of the module forwards no notifications, so that only their
 native throttle bits matter.
 */
module PassiveQueue {
  import opened Common
  import opened ReadLog
  import opened InputQueue
  import opened InputReads
  import opened Marks
  import opened InputConnector

  /** The queue module: its input, the native throttle bit of its output, and the requests in progress. */
  datatype Module<P> = Module(input: Input<P>, outNative: bool, requests: nat)

  /** After construction and v_init: the empty queue throttles its output. */
  function Start<P>(): Module<P> {
    Module(Empty(), true, 0)
  }

  /** An arrival; onInput runs unless the input is throttled. */
  function Arrive<P>(m: Module<P>, p: P): Module<P> {
    Module(Enter(m.input, p), m.outNative && (m.input.native || m.input.remote), m.requests)
  }

  function EndArrive<P>(d: Discipline, m: Module<P>): Module<P>
    requires m.input.frames != [] && Top(m.input).Enqueuing?
  {
    m.(input := Leave(d, m.input))
  }

  /** onOutput up to the report of the dequeue; a throttled output does not run it. If the report releases the
      input, the packets still queued are offered to onInput again, which finds the output open already. */
  function Request<P>(d: Discipline, m: Module<P>): Module<P> {
    if m.outNative then m else Module(BeginRead(d, m.input), false, m.requests + 1)
  }

  /** The end of onOutput. */
  function EndRequest<P>(m: Module<P>): Module<P>
    requires m.requests > 0
  {
    Module(m.input, m.outNative || Size(m.input) == 0, m.requests - 1)
  }

  /** onOutput as a whole, when nothing comes between. */
  function Served<P>(d: Discipline, m: Module<P>): Module<P>
    requires !m.outNative
  {
    EndRequest(Module(ReadOnce(d, m.input), false, m.requests + 1))
  }

  /** An exception ends the innermost call at the input; if that is the read of a request, it ends the request
      too, and the output is not throttled. */
  function Failed<P>(m: Module<P>): Module<P>
    requires m.input.frames != []
  {
    var ended := Top(m.input).Reading? && m.requests > 0;
    Module(Abort(m.input), m.outNative, if ended then m.requests - 1 else m.requests)
  }

  datatype Step<P> =
    | DoArrive(p: P)
    | DoEndArrive
    | DoRequest
    | DoReturn
    | DoEndRequest
    | DoFail
    | DoFailRequest

  /** The step of the input connector in a step of the module. */
  function InputStep<P>(m: Module<P>, step: Step<P>): Option<InputQueue.Step<P>> {
    match step
    case DoArrive(p) => Some(DoEnter(p))
    case DoEndArrive => Some(DoLeave)
    case DoRequest => if m.outNative then None else Some(DoBeginRead)
    case DoReturn => Some(DoEndRead)
    case DoFail => Some(DoAbort)
    case _ => None
  }

  /** Some request is past its read, and nothing returns before it. */
  predicate RequestEnds<P>(m: Module<P>) {
    m.requests > |m.input.log.inside| && Free(m.input)
  }

  function Apply<P>(d: Discipline, m: Module<P>, step: Step<P>): Module<P> {
    var x := InputStep(m, step);
    if x.Some? && !Allowed(m.input, x.value) then m
    else
      match step
      case DoArrive(p) => Arrive(m, p)
      case DoEndArrive => EndArrive(d, m)
      case DoRequest => Request(d, m)
      case DoReturn => m.(input := EndRead(m.input))
      case DoEndRequest => if RequestEnds(m) then EndRequest(m) else m
      case DoFail => Failed(m)
      case DoFailRequest => if RequestEnds(m) then m.(requests := m.requests - 1) else m
  }

  function Run<P>(d: Discipline, m: Module<P>, steps: seq<Step<P>>): Module<P> {
    if steps == [] then m else Apply(d, Run(d, m, steps[..|steps| - 1]), steps[|steps| - 1])
  }

  // ------------------------------------------------------------------------------------------
  // A run of the module is a run of its input

  /** What the input connector goes through in a run of the module. */
  function Script<P>(d: Discipline, m: Module<P>, steps: seq<Step<P>>): seq<InputQueue.Step<P>> {
    if steps == [] then []
    else
      var front := steps[..|steps| - 1];
      var x := InputStep(Run(d, m, front), steps[|steps| - 1]);
      Script(d, m, front) + (if x.Some? then [x.value] else [])
  }

  lemma StepOfInput<P>(d: Discipline, m: Module<P>, step: Step<P>)
    ensures var x := InputStep(m, step);
            Apply(d, m, step).input == if x.Some? then InputQueue.Apply(d, m.input, x.value) else m.input
  {
  }

  lemma {:induction false} RunOfInput<P>(d: Discipline, m: Module<P>, steps: seq<Step<P>>)
    ensures Run(d, m, steps).input == InputQueue.Run(d, m.input, Script(d, m, steps))
  {
    if steps != [] {
      var front, step := steps[..|steps| - 1], steps[|steps| - 1];
      RunOfInput(d, m, front);
      StepOfInput(d, Run(d, m, front), step);
      RunExtended(d, m.input, Script(d, m, front), InputStep(Run(d, m, front), step));
    }
  }

  lemma {:induction false} RunExtended<P>(d: Discipline, s: Input<P>, front: seq<InputQueue.Step<P>>,
                                          x: Option<InputQueue.Step<P>>)
    ensures InputQueue.Run(d, s, front + (if x.Some? then [x.value] else []))
         == if x.Some? then InputQueue.Apply(d, InputQueue.Run(d, s, front), x.value) else InputQueue.Run(d, s, front)
  {
    if x.Some? {
      RunOneMore(d, s, front, x.value);
    } else {
      assert front + [] == front;
    }
  }

  /** onOutput as a whole is a request, the return of its read if there was something to read, and its end. */
  lemma ServedInSteps<P>(d: Discipline, m: Module<P>)
    requires !m.outNative && Free(m.input) && m.requests >= |m.input.log.inside|
    ensures var r := Apply(d, m, DoRequest);
            Served(d, m) == Apply(d, if Size(m.input) > 0 then Apply(d, r, DoReturn) else r, DoEndRequest)
  {
    var r := Module(BeginRead(d, m.input), false, m.requests + 1);
    RequestedModule(d, m);
    if Size(m.input) > 0 {
      ReadOnceKeeps(d, m.input);
      ReturnedModule(d, m, r);
    }
    EndedModule(d, Module(ReadOnce(d, m.input), false, m.requests + 1));
  }

  lemma RequestedModule<P>(d: Discipline, m: Module<P>)
    requires !m.outNative && Free(m.input)
    ensures Apply(d, m, DoRequest) == Module(BeginRead(d, m.input), false, m.requests + 1)
  {
  }

  lemma EndedModule<P>(d: Discipline, m: Module<P>)
    requires RequestEnds(m)
    ensures Apply(d, m, DoEndRequest) == EndRequest(m)
  {
  }

  lemma ReturnedModule<P>(d: Discipline, m: Module<P>, r: Module<P>)
    requires Size(m.input) > 0 && r.input == BeginRead(d, m.input) && r.input.frames != [] && Top(r.input).Reading?
    ensures Apply(d, r, DoReturn) == r.(input := ReadOnce(d, m.input))
  {
  }

  // ------------------------------------------------------------------------------------------
  // Throttling

  /** The output is throttled only on an empty queue, and the input only on a queue that is not empty. */
  ghost predicate Coupled<P>(d: Discipline, m: Module<P>) {
    && FastPathSound(m.input) && AboveLow(d, m.input) && !m.input.remote
    && (m.outNative ==> Size(m.input) == 0)
  }

  /** An empty queue with an open output has a request in progress that will throttle it. */
  ghost predicate Watched<P>(m: Module<P>) {
    !m.outNative && Size(m.input) == 0 ==> m.requests > 0
  }

  /** The step ends, by an exception, the only request that watches an empty queue with an open output. */
  ghost predicate Strands<P>(m: Module<P>, step: Step<P>) {
    && !m.outNative && Size(m.input) == 0 && m.requests == 1
    && ((step.DoFail? && Allowed(m.input, DoAbort) && Top(m.input).Reading?)
        || (step.DoFailRequest? && RequestEnds(m)))
  }

  lemma ArriveCoupled<P>(d: Discipline, m: Module<P>, p: P)
    requires Coupled(d, m)
    ensures Coupled(d, Arrive(m, p)) && Watched(Arrive(m, p))
  {
    EnterInOrder(m.input, p);
    EnterAboveLow(d, m.input, p);
    assert |Pending(Enter(m.input, p))| > 0;
  }

  lemma EndCoupled<P>(d: Discipline, m: Module<P>)
    requires WellMarked(d) && Coupled(d, m) && m.input.frames != []
    ensures Top(m.input).Enqueuing? ==> Coupled(d, EndArrive(d, m)) && Size(Leave(d, m.input)) == Size(m.input)
    ensures Coupled(d, Failed(m)) && Size(Abort(m.input)) == Size(m.input)
    ensures Top(m.input).Reading? ==>
              Coupled(d, m.(input := EndRead(m.input))) && Size(EndRead(m.input)) == Size(m.input)
  {
    EndAdvances(d, m.input);
    EndAboveLow(d, m.input);
    if Top(m.input).Enqueuing? {
      LeaveInOrder(d, m.input);
      assert |Pending(Leave(d, m.input))| == |Pending(Abort(m.input))| == Size(m.input);
    }
  }

  lemma RequestCoupled<P>(d: Discipline, m: Module<P>)
    requires Coupled(d, m)
    ensures Coupled(d, Request(d, m)) && (Watched(m) ==> Watched(Request(d, m)))
  {
    BeginReadInOrder(d, m.input);
    BeginReadAboveLow(d, m.input);
  }

  lemma StepCoupled<P>(d: Discipline, m: Module<P>, step: Step<P>)
    requires WellMarked(d) && Coupled(d, m)
    ensures Coupled(d, Apply(d, m, step))
    ensures Watched(m) ==> (Watched(Apply(d, m, step)) <==> !Strands(m, step))
  {
    var x := InputStep(m, step);
    if x.None? || Allowed(m.input, x.value) {
      match step
      case DoArrive(p) => ArriveCoupled(d, m, p);
      case DoEndArrive => EndCoupled(d, m);
      case DoRequest => RequestCoupled(d, m);
      case DoReturn => EndCoupled(d, m);
      case DoEndRequest =>
      case DoFail => EndCoupled(d, m);
      case DoFailRequest =>
    }
  }

  lemma {:induction false} RunCoupled<P>(d: Discipline, steps: seq<Step<P>>)
    requires WellMarked(d)
    ensures Coupled(d, Run(d, Start<P>(), steps))
  {
    if steps != [] {
      RunCoupled<P>(d, steps[..|steps| - 1]);
      StepCoupled(d, Run(d, Start<P>(), steps[..|steps| - 1]), steps[|steps| - 1]);
    }
  }

  /** What a step means for the requests in progress. */
  function RequestChange<P>(m: Module<P>, step: Step<P>): int {
    match step
    case DoRequest => if !m.outNative && Allowed(m.input, DoBeginRead) then 1 else 0
    case DoEndRequest => if RequestEnds(m) then -1 else 0
    case DoFailRequest => if RequestEnds(m) then -1 else 0
    case DoFail => if Allowed(m.input, DoAbort) && Top(m.input).Reading? && m.requests > 0 then -1 else 0
    case _ => 0
  }

  /** Requests begun minus requests ended, regularly or by an exception, in the history of a run. */
  function RequestsOpen<P>(d: Discipline, steps: seq<Step<P>>): int {
    if steps == [] then 0
    else
      var front := steps[..|steps| - 1];
      RequestsOpen(d, front) + RequestChange(Run(d, Start<P>(), front), steps[|steps| - 1])
  }

  lemma StepRequests<P>(d: Discipline, m: Module<P>, step: Step<P>)
    ensures Apply(d, m, step).requests == m.requests + RequestChange(m, step)
  {
  }

  lemma {:induction false} RequestsCounted<P>(d: Discipline, steps: seq<Step<P>>)
    ensures Run(d, Start<P>(), steps).requests == RequestsOpen(d, steps)
  {
    if steps != [] {
      RequestsCounted(d, steps[..|steps| - 1]);
      StepRequests(d, Run(d, Start<P>(), steps[..|steps| - 1]), steps[|steps| - 1]);
    }
  }

  /** No step of the run strands the queue. */
  ghost predicate NoneStrands<P>(d: Discipline, m: Module<P>, steps: seq<Step<P>>) {
    steps == [] ||
    var front := steps[..|steps| - 1];
    NoneStrands(d, m, front) && !Strands(Run(d, m, front), steps[|steps| - 1])
  }

  /** The queue is watched throughout the run. */
  ghost predicate AlwaysWatched<P>(d: Discipline, steps: seq<Step<P>>) {
    forall n :: 0 <= n <= |steps| ==> Watched(Run(d, Start<P>(), steps[..n]))
  }

  /** In every run, failing callbacks included: an empty queue with an open output is watched throughout, if and
      only if no exception ends the only request that watches it. */
  lemma {:induction false} WatchedUnlessStranded<P>(d: Discipline, steps: seq<Step<P>>)
    requires WellMarked(d)
    ensures AlwaysWatched(d, steps) <==> NoneStrands(d, Start<P>(), steps)
  {
    if steps == [] {
      assert Watched(Run(d, Start<P>(), []));
    } else {
      var front, m := steps[..|steps| - 1], |steps| - 1;
      WatchedUnlessStranded<P>(d, front);
      AlwaysWatchedSplit(d, front, steps[m]);
      if AlwaysWatched(d, front) {
        AlwaysWatchedLast(d, front);
        NextWatched(d, front, steps[m]);
      }
      assert front + [steps[m]] == steps;
    }
  }

  lemma {:induction false} AlwaysWatchedSplit<P>(d: Discipline, front: seq<Step<P>>, step: Step<P>)
    ensures AlwaysWatched(d, front + [step]) <==> AlwaysWatched(d, front) && Watched(Run(d, Start<P>(), front + [step]))
  {
    var steps, m := front + [step], |front|;
    assert steps[..m + 1] == steps;
    assert forall n :: 0 <= n <= m ==> front[..n] == steps[..n];
    if AlwaysWatched(d, front) && Watched(Run(d, Start<P>(), steps)) {
      forall n | 0 <= n <= m + 1 ensures Watched(Run(d, Start<P>(), steps[..n])) {
        assert n <= m ==> Watched(Run(d, Start<P>(), front[..n]));
      }
    }
  }

  lemma {:induction false} AlwaysWatchedLast<P>(d: Discipline, steps: seq<Step<P>>)
    requires AlwaysWatched(d, steps)
    ensures Watched(Run(d, Start<P>(), steps))
  {
    assert steps[..|steps|] == steps;
  }

  lemma {:induction false} NextWatched<P>(d: Discipline, front: seq<Step<P>>, step: Step<P>)
    requires WellMarked(d) && Watched(Run(d, Start<P>(), front))
    ensures Watched(Run(d, Start<P>(), front + [step])) <==> !Strands(Run(d, Start<P>(), front), step)
  {
    assert (front + [step])[..|front|] == front;
    RunCoupled<P>(d, front);
    StepCoupled(d, Run(d, Start<P>(), front), step);
  }

  /** In every run, failing callbacks included: input and output are never throttled together, so throttling
      cannot deadlock the queue, and a throttled output means an empty queue. When no request is in progress and
      no exception has stranded the queue, the output is throttled exactly if the queue is empty. */
  lemma NeverStuck<P>(d: Discipline, steps: seq<Step<P>>)
    requires WellMarked(d)
    ensures var m := Run(d, Start<P>(), steps);
            && !(m.input.native && m.outNative) && (m.outNative ==> Size(m.input) == 0)
            && (m.requests == 0 && NoneStrands(d, Start<P>(), steps) ==> (m.outNative <==> Size(m.input) == 0))
  {
    RunCoupled<P>(d, steps);
    WatchedUnlessStranded<P>(d, steps);
    if NoneStrands(d, Start<P>(), steps) {
      AlwaysWatchedLast(d, steps);
    }
  }

  /** A concrete failure with the default marks: one packet waits, a request takes it, and the release of the
      input throws. The queue is empty, its output is open, and nothing is in progress. */
  lemma StrandedQueue<P>(p: P)
    ensures var m := Run(Threshold(1, 0), Start<P>(), [] + [DoArrive(p), DoEndArrive] + [DoRequest, DoFail]);
            Size(m.input) == 0 && !m.outNative && m.requests == 0 && m.input.frames == []
  {
    var d, m := Threshold(1, 0), Start<P>();
    var two: seq<Step<P>> := [] + [DoArrive(p), DoEndArrive];
    RunTwoMore(d, m, [], DoArrive(p), DoEndArrive);
    RunTwoMore(d, m, two, DoRequest, DoFail);
    PacketKept(d, m, p);
    RequestFails(d, Run(d, m, two), p);
  }

  lemma {:induction false} RunTwoMore<P>(d: Discipline, m: Module<P>, front: seq<Step<P>>, x: Step<P>, y: Step<P>)
    ensures Run(d, m, front + [x, y]) == Apply(d, Apply(d, Run(d, m, front), x), y)
  {
    assert (front + [x, y])[..|front| + 1] == front + [x];
    assert (front + [x])[..|front|] == front;
  }

  /** One packet waits in a throttled input, the output is open, and nothing is in progress. */
  ghost predicate OneWaits<P>(m: Module<P>, p: P) {
    && m.input.fast.None? && m.input.queue == [p] && m.input.native && !m.input.remote && m.input.frames == []
    && m.input.log.inside == [] && !m.outNative && m.requests == 0
  }

  lemma PacketKept<P>(d: Discipline, m: Module<P>, p: P)
    requires d == Threshold(1, 0) && m == Start<P>()
    ensures OneWaits(Apply(d, Apply(d, m, DoArrive(p)), DoEndArrive), p)
  {
    ArrivesUnread(d, m.input, p);
    var a := Apply(d, m, DoArrive(p));
    assert a.input == Enter(m.input, p) && !a.outNative && a.requests == 0 && Top(a.input) == Enqueuing(p, true);
  }

  lemma RequestFails<P>(d: Discipline, m: Module<P>, p: P)
    requires d == Threshold(1, 0) && OneWaits(m, p)
    ensures var t := Apply(d, Apply(d, m, DoRequest), DoFail);
            Size(t.input) == 0 && !t.outNative && t.requests == 0 && t.input.frames == []
  {
    var r := Apply(d, m, DoRequest);
    assert r.input == BeginRead(d, m.input) && r.requests == 1 && r.input.frames == [Reading(true)];
    assert Size(r.input) == 0 && r.input.fast.None?;
  }

  /** In every run: packets are taken out in the order of arrival exactly if no arrival overwrote one, and, when
      no read is in progress, they were sent in that order exactly if no request read inside the read of
      another one and no read was given up. */
  lemma SentInOrder<P>(d: Discipline, steps: seq<Step<P>>)
    ensures var s, script := Run(d, Start<P>(), steps).input, Script(d, Start<P>(), steps);
            && (s.taken + Pending(s) == s.arrived <==> NoOverwrite(d, Empty<P>(), script))
            && (s.log.inside == [] ==>
                  (s.log.returned == Numbers(|s.taken|) <==> Undisturbed(d, Empty<P>(), script)))
  {
    var script := Script(d, Start<P>(), steps);
    RunOfInput(d, Start<P>(), steps);
    RunInOrder<P>(d, script);
    ReturnedInOrder<P>(d, script);
  }

  // ------------------------------------------------------------------------------------------
  // The module as an object

  /** The callback of the input does not read. */
  function Idle(): nat -> nat {
    _ => 0
  }

  lemma IdleReadSends<P>(d: Discipline, s: Input<P>)
    requires Size(s) > 0 && FastPathSound(s) && s.log.taken == |s.taken|
    ensures var t := FullRead(d, s, Idle());
            && t == ReadOnce(d, s) && t.log.returned != []
            && t.log.returned[|t.log.returned| - 1] == |s.taken| < |t.taken| && t.taken[|s.taken|] == Pending(s)[0]
  {
    IdleFullRead(d, s, Idle());
    ReadReturnsOwn(d, s, Idle());
    BeginReadInOrder(d, s);
    assert ReadOnce(d, s).taken == BeginRead(d, s).taken;
  }

  class PassiveQueueModule<P> {
    const input: GenericPassiveInput<P>
    var outputThrottled: bool
    ghost var requests: nat

    ghost function Value(): Module<P>
      reads this, input
    {
      Module(input.Value(), outputThrottled, requests)
    }

    constructor (discipline: Discipline)
      ensures Value() == Start() && fresh(input) && input.Valid() && input.discipline == discipline
    {
      input := new GenericPassiveInput(discipline);
      outputThrottled := false;
      requests := 0;
      new;
      VInit();
    }

    method VInit()
      modifies this`outputThrottled
      ensures outputThrottled == (old(outputThrottled) || input.QueueSize() == 0)
    {
      if input.QueueSize() == 0 {
        outputThrottled := true;
      }
    }

    method OnInput()
      modifies this`outputThrottled
      ensures !outputThrottled
    {
      outputThrottled := false;
    }

    /** The arrival of a packet, with the callback of the input. */
    method Arrival(p: P) returns (fast: bool)
      requires input.Valid()
      modifies this, input
      ensures input.Valid() && Value() == Arrive(old(Value()), p) && fast == (old(input.queue) == [])
    {
      fast := input.Accept(p);
      if !input.Throttled() {
        OnInput();
      }
    }

    /** enqueue() of the input as a whole. */
    method Enqueue(p: P)
      requires input.Valid()
      modifies this, input
      ensures input.Valid()
      ensures var m := Arrive(old(Value()), p);
              m.input.frames != [] && Top(m.input).Enqueuing? && Value() == EndArrive(input.discipline, m)
    {
      var fast := Arrival(p);
      input.Finish(p, fast);
    }

    /** The callback of the output as a whole: it sends the oldest packet. The callback of the input, which a drain
        would run again, does not read. */
    method OnOutput() returns (sent: Option<P>)
      requires !outputThrottled && input.Valid() && FastPathSound(input.Value())
      modifies this, input
      ensures input.Valid() && Value() == Served(input.discipline, old(Value()))
      ensures sent.Some? <==> old(input.QueueSize()) > 0
      ensures sent.Some? ==> sent.value == Pending(old(input.Value()))[0]
    {
      sent := None;
      if input.QueueSize() > 0 {
        IdleReadSends(input.discipline, input.Value());
        sent := input.Get(Idle());
      }
      if input.QueueSize() == 0 {
        outputThrottled := true;
      }
    }
  }
}
