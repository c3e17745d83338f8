/**
 A passive source, an active feeder driven by an idle event, and a passive sink. The two routes of
 the feeder disable its event while either side is throttled; the source throttles its output
 when it runs dry. Everything the source was given reaches the sink, in order.
 */
module Feeder {
  import opened Common
  import opened Network
  import opened Waves
  import opened Exactness
  import opened Connectors

  const SOURCE: nat := 0
  const SINK: nat := 1
  const IDLE: nat := 0

  /** Passive connectors: the source's output and the sink's input. Active connectors: the feeder's input
      and output, each with a route to the idle event. */
  function Wiring(): (net: Topology)
    ensures net.Valid()
  {
    var fromInput, fromOutput := Route(0, ToEvent(IDLE), true), Route(1, ToEvent(IDLE), true);
    Topology([Some(SOURCE), Some(SINK)], [Some(0), Some(1)], [[fromInput], [fromOutput]], [[], []],
             [[fromInput, fromOutput]])
  }

  /** The throttle state of the network, the packets waiting in the source, in the feeder's input and in the
      sink's input, the packets the sink has got, and everything that was ever given to the source. */
  datatype System<P> = System(
    net: State,
    source: seq<P>,
    feeding: seq<P>,
    waiting: seq<P>,
    sink: seq<P>,
    given: seq<P>)

  predicate Wired<P>(f: System<P>) {
    Fits(Wiring(), f.net)
  }

  /** Construction registers, and so enables, the idle event; the initialisation of the source throttles an
      empty source. */
  function Start<P>(source: seq<P>): (f: System<P>)
    ensures Wired(f)
  {
    var enabled := SetEnabled(Wiring(), Fresh(Wiring()), IDLE, true);
    System(if source == [] then Throttle(Wiring(), enabled, SOURCE) else enabled, source, [], [], [], source)
  }

  /** PassiveSource::submit. */
  function Submitted<P>(f: System<P>, p: P): (r: System<P>)
    requires Wired(f)
    ensures Wired(r)
  {
    f.(source := f.source + [p], given := f.given + [p], net := Unthrottle(Wiring(), f.net, SOURCE))
  }

  /** The feeder's input asks its peer for a packet: PassiveSource::request runs unless it is throttled. */
  function Pull<P>(f: System<P>): (r: System<P>)
    requires Wired(f) && (!Throttled(f.net, SOURCE) ==> f.source != [])
    ensures Wired(r)
  {
    if Throttled(f.net, SOURCE) then f
    else
      var left := f.source[1..];
      f.(source := left, feeding := f.feeding + [f.source[0]],
         net := if left == [] then Throttle(Wiring(), f.net, SOURCE) else f.net)
  }

  /** The feeder's output hands a packet to the sink's input, whose callback passes it on to the sink unless
      it is throttled; the default marks (1, 0) report the read and then the arrival. */
  function Push<P>(f: System<P>, p: P): (r: System<P>)
    requires Wired(f)
    ensures Wired(r)
  {
    var arrived := f.(waiting := f.waiting + [p]);
    Reported(if Throttled(f.net, SINK) then arrived else ReadBySink(arrived))
  }

  /** PassiveSink::request takes the oldest packet; the dequeue is reported. */
  function ReadBySink<P>(f: System<P>): (r: System<P>)
    requires Wired(f) && f.waiting != []
    ensures Wired(r)
  {
    var left := f.waiting[1..];
    f.(sink := f.sink + [f.waiting[0]], waiting := left,
       net := if left == [] then Unthrottle(Wiring(), f.net, SINK) else f.net)
  }

  /** The arrival is reported. */
  function Reported<P>(f: System<P>): (r: System<P>)
    requires Wired(f)
    ensures Wired(r)
  {
    if f.waiting != [] then f.(net := Throttle(Wiring(), f.net, SINK)) else f
  }

  /** One idle event: ActiveFeeder::request. A packet is passed on if the pull brought one. */
  function Fire<P>(f: System<P>): (r: System<P>)
    requires Wired(f) && (!Throttled(f.net, SOURCE) ==> f.source != [])
    ensures Wired(r)
  {
    var pulled := if f.feeding == [] then Pull(f) else f;
    if pulled.feeding == [] then pulled
    else Push(pulled.(feeding := pulled.feeding[1..]), pulled.feeding[0])
  }

  /** The source is throttled exactly when it is empty, the idle event is enabled exactly when both sides
      are open, nothing waits on the way, and no packet is lost, duplicated or reordered. */
  ghost predicate Flowing<P>(f: System<P>) {
    && Wired(f) && Coherent(Wiring(), f.net) && EventsFollow(f.net)
    && (f.net.native[SOURCE] <==> f.source == [])
    && f.feeding == [] && f.waiting == []
    && f.sink + f.source == f.given
  }

  /** No route leads into the passive connectors, so only their native bits count. */
  lemma OnlyNativeBits(s: State)
    requires Fits(Wiring(), s) && Coherent(Wiring(), s)
    ensures Throttled(s, SOURCE) == s.native[SOURCE] && Throttled(s, SINK) == s.native[SINK]
  {
    var net := Wiring();
    assert net.RoutesInto(ToPassive(SOURCE)) == [] && net.RoutesInto(ToPassive(SINK)) == [];
    assert !AnyThrottled(net, s, ToPassive(SOURCE)) && !AnyThrottled(net, s, ToPassive(SINK));
    assert !Forwarded(net, s, ToPassive(SOURCE)) && !Forwarded(net, s, ToPassive(SINK));
  }

  /** The idle event runs exactly while there is something to move and somewhere to put it. */
  lemma EnabledMeansOpen<P>(f: System<P>)
    requires Flowing(f)
    ensures f.net.eventEnabled[IDLE] <==> f.source != [] && !f.net.native[SINK]
    ensures !Throttled(f.net, SOURCE) <==> f.source != []
  {
    var net := Wiring();
    OnlyNativeBits(f.net);
    var x := ToEvent(IDLE);
    NotifiedIsThrottled(net, f.net, x);
    var fromInput, fromOutput := Route(0, x, true), Route(1, x, true);
    assert net.RoutesInto(x) == [fromInput, fromOutput];
    assert fromInput in net.RoutesInto(x) && fromOutput in net.RoutesInto(x);
    assert RouteThrottled(net, f.net, fromInput) == Throttled(f.net, SOURCE);
    assert RouteThrottled(net, f.net, fromOutput) == Throttled(f.net, SINK);
    assert Initialised(net, f.net);
    assert AnyThrottled(net, f.net, x) == (Throttled(f.net, SOURCE) || Throttled(f.net, SINK));
    assert Forwarded(net, f.net, x) == f.net.eventThrottled[IDLE];
  }

  lemma StartFlows<P>(source: seq<P>)
    ensures Flowing(Start(source))
  {
    var net := Wiring();
    var enabled := SetEnabled(net, Fresh(net), IDLE, true);
    FreshCoheres(net);
    SetEnabledCoheres(net, Fresh(net), IDLE, true);
    assert EventsFollow(enabled);
    ThrottleCoheres(net, enabled, SOURCE);
    NativeStepsKeepEventsFollowing(net, enabled, SOURCE);
  }

  /** Everything on its way, in the order in which it will arrive. */
  function OnItsWay<P>(f: System<P>): seq<P> {
    f.sink + f.waiting + f.feeding + f.source
  }

  /** An idle event, from any state: nothing on its way is lost, duplicated or reordered. */
  lemma FireConserves<P>(f: System<P>)
    requires Wired(f) && (!Throttled(f.net, SOURCE) ==> f.source != [])
    ensures OnItsWay(Fire(f)) == OnItsWay(f)
  {
    var pulled := if f.feeding == [] then Pull(f) else f;
    PullConserves(f);
    if pulled.feeding != [] {
      PassingOnConserves(pulled);
    }
  }

  lemma PassingOnConserves<P>(f: System<P>)
    requires Wired(f) && f.feeding != []
    ensures OnItsWay(Push(f.(feeding := f.feeding[1..]), f.feeding[0])) == OnItsWay(f)
  {
    PushConserves(f.(feeding := f.feeding[1..]), f.feeding[0]);
    assert f.feeding == [f.feeding[0]] + f.feeding[1..];
  }

  lemma PullConserves<P>(f: System<P>)
    requires Wired(f) && (!Throttled(f.net, SOURCE) ==> f.source != [])
    ensures OnItsWay(Pull(f)) == OnItsWay(f) && Pull(f).sink == f.sink
    ensures Throttled(f.net, SOURCE) <==> Pull(f).source == f.source
  {
    if !Throttled(f.net, SOURCE) {
      assert f.source == [f.source[0]] + f.source[1..];
    }
  }

  lemma PushConserves<P>(f: System<P>, p: P)
    requires Wired(f)
    ensures Push(f, p).sink + Push(f, p).waiting == f.sink + f.waiting + [p]
    ensures Push(f, p).feeding == f.feeding && Push(f, p).source == f.source
    ensures Throttled(f.net, SINK) <==> Push(f, p).sink == f.sink
  {
    var all := f.waiting + [p];
    assert all == [all[0]] + all[1..];
  }

  lemma SubmitFlows<P>(f: System<P>, p: P)
    requires Flowing(f)
    ensures Flowing(Submitted(f, p)) && Submitted(f, p).given == f.given + [p] && Submitted(f, p).sink == f.sink
  {
    UnthrottleCoheres(Wiring(), f.net, SOURCE);
    NativeStepsKeepEventsFollowing(Wiring(), f.net, SOURCE);
  }

  /** The environment throttles or unthrottles the sink; nothing waits in its input. */
  function SinkThrottled<P>(f: System<P>, v: bool): (r: System<P>)
    requires Wired(f)
    ensures Wired(r)
  {
    f.(net := if v then Throttle(Wiring(), f.net, SINK) else Unthrottle(Wiring(), f.net, SINK))
  }

  lemma SinkThrottledFlows<P>(f: System<P>, v: bool)
    requires Flowing(f)
    ensures Flowing(SinkThrottled(f, v)) && SinkThrottled(f, v).net.native[SINK] == v
  {
    ThrottleCoheres(Wiring(), f.net, SINK);
    UnthrottleCoheres(Wiring(), f.net, SINK);
    NativeStepsKeepEventsFollowing(Wiring(), f.net, SINK);
  }

  /** Each idle event moves exactly the next packet, and never asks an empty source. */
  lemma FireFlows<P>(f: System<P>)
    requires Flowing(f) && f.net.eventEnabled[IDLE]
    ensures f.source != []
    ensures var g := Fire(f);
            Flowing(g) && g.source == f.source[1..] && g.sink == f.sink + [f.source[0]] && !g.net.native[SINK]
  {
    EnabledMeansOpen(f);
    var net := Wiring();
    ThrottleCoheres(net, f.net, SOURCE);
    NativeStepsKeepEventsFollowing(net, f.net, SOURCE);
    var pulled := Pull(f);
    OnlyNativeBits(pulled.net);
    UnthrottleCoheres(net, pulled.net, SINK);
    NativeStepsKeepEventsFollowing(net, pulled.net, SINK);
    assert f.sink + f.source == f.sink + [f.source[0]] + f.source[1..];
  }

  datatype Step<P> = DoSubmit(p: P) | DoSinkThrottled(v: bool) | DoFire

  /** One step of a run; the scheduler fires only an enabled event. */
  function Apply<P>(f: System<P>, step: Step<P>): (r: System<P>)
    requires Wired(f)
    ensures Wired(r)
  {
    match step
    case DoSubmit(p) => Submitted(f, p)
    case DoSinkThrottled(v) => SinkThrottled(f, v)
    case DoFire =>
      if f.net.eventEnabled[IDLE] && (Throttled(f.net, SOURCE) || f.source != []) then Fire(f) else f
  }

  function Run<P>(f: System<P>, steps: seq<Step<P>>): (r: System<P>)
    requires Wired(f)
    ensures Wired(r)
  {
    if steps == [] then f else Apply(Run(f, steps[..|steps| - 1]), steps[|steps| - 1])
  }

  /** Over every run: packets are conserved in order, and a request never meets an empty source. */
  lemma {:induction false} RunFlows<P>(source: seq<P>, steps: seq<Step<P>>)
    ensures var f := Run(Start(source), steps);
            Flowing(f) && f.sink + f.source == f.given && (f.net.eventEnabled[IDLE] ==> f.source != [])
  {
    StartFlows(source);
    if steps != [] {
      var before := Run(Start(source), steps[..|steps| - 1]);
      RunFlows(source, steps[..|steps| - 1]);
      match steps[|steps| - 1]
      case DoSubmit(p) => SubmitFlows(before, p);
      case DoSinkThrottled(v) => SinkThrottledFlows(before, v);
      case DoFire => if before.net.eventEnabled[IDLE] { FireFlows(before); }
    }
    EnabledMeansOpen(Run(Start(source), steps));
  }

  /** While there is something to move and somewhere to put it, the scheduler's step moves the next packet; in any
      other flowing state it does nothing. */
  lemma FiringStep<P>(f: System<P>)
    requires Flowing(f)
    ensures var g := Apply(f, DoFire);
            if f.source != [] && !f.net.native[SINK] then
              Flowing(g) && g.source == f.source[1..] && g.sink == f.sink + [f.source[0]] && !g.net.native[SINK]
            else g == f
  {
    EnabledMeansOpen(f);
    if f.net.eventEnabled[IDLE] {
      FireFlows(f);
    }
  }

  // ------------------------------------------------------------------------------------------
  // The modules as objects

  class FeederSystem<P> {
    const ppi: Ppi
    var source: seq<P>
    var feeding: seq<P>
    var waiting: seq<P>
    var sink: seq<P>
    ghost var given: seq<P>

    ghost predicate Valid() {
      ppi.Valid() && ppi.net == Wiring()
    }

    ghost function Value(): (f: System<P>)
      requires Valid()
      reads this, ppi, ppi.passives, ppi.actives, ppi.events
      ensures Wired(f)
    {
      System(ppi.Snapshot(), source, feeding, waiting, sink, given)
    }

    constructor (packets: seq<P>)
      ensures Valid() && fresh(ppi) && fresh(ppi.passives) && fresh(ppi.actives) && fresh(ppi.events)
      ensures Value() == Start(packets)
    {
      ppi := new Ppi(Wiring(), []);
      source, feeding, waiting, sink, given := packets, [], [], [], packets;
      new;
      ppi.SetEnabled(IDLE, true);
      if source == [] {
        ppi.Throttle(SOURCE);
      }
    }

    /** PassiveSource::submit. */
    method Submit(p: P)
      requires Valid()
      modifies this`source, this`given, ppi`calls, ppi.passives, ppi.actives, ppi.events
      ensures Value() == Submitted(old(Value()), p)
    {
      ghost var was := ppi.Snapshot();
      source := source + [p];
      given := given + [p];
      ppi.Unthrottle(SOURCE);
      assert ppi.Snapshot() == Unthrottle(Wiring(), was, SOURCE);
    }

    /** PassiveSource::request; the assertion of the source, that it is not empty, is the precondition. */
    method SourceRequest()
      requires Valid() && source != [] && !Throttled(ppi.Snapshot(), SOURCE)
      modifies this`source, this`feeding, ppi`calls, ppi.passives, ppi.actives, ppi.events
      ensures Value() == Pull(old(Value()))
    {
      feeding := feeding + [source[0]];
      source := source[1..];
      if source == [] {
        ppi.Throttle(SOURCE);
      }
    }

    /** The arrival of a packet at the sink, with PassiveSink::request as callback. */
    method SinkEnqueue(p: P)
      requires Valid()
      modifies this`waiting, this`sink, ppi`calls, ppi.passives, ppi.actives, ppi.events
      ensures Value() == Push(old(Value()), p)
    {
      var throttled := ppi.PassiveThrottled(SINK);
      waiting := waiting + [p];
      if !throttled {
        SinkRequest();
      }
      SinkReport();
    }

    /** PassiveSink::request, with the report of the dequeue. */
    method SinkRequest()
      requires Valid() && waiting != []
      modifies this`waiting, this`sink, ppi`calls, ppi.passives, ppi.actives, ppi.events
      ensures Value() == ReadBySink(old(Value()))
    {
      ghost var was := ppi.Snapshot();
      sink := sink + [waiting[0]];
      waiting := waiting[1..];
      if waiting == [] {
        ppi.Unthrottle(SINK);
        assert ppi.Snapshot() == Unthrottle(Wiring(), was, SINK);
      }
    }

    method SinkReport()
      requires Valid()
      modifies ppi`calls, ppi.passives, ppi.actives, ppi.events
      ensures Value() == Reported(old(Value()))
    {
      if waiting != [] {
        ppi.Throttle(SINK);
      }
    }

    /** ActiveFeeder::request, the callback of the idle event. */
    method Request()
      requires Valid() && Flowing(Value()) && Value().net.eventEnabled[IDLE]
      modifies this`source, this`feeding, this`waiting, this`sink
      modifies ppi`calls, ppi.passives, ppi.actives, ppi.events
      ensures old(Value()).source != [] && Value() == Fire(old(Value()))
      ensures Flowing(Value())
    {
      ghost var f := Value();
      FireFlows(f);
      EnabledMeansOpen(f);
      SourceRequest();
      var p := feeding[0];
      feeding := feeding[1..];
      SinkEnqueue(p);
    }

    /** The scheduler runs the idle event until it is disabled. With an open sink everything is delivered. */
    method Work()
      requires Valid() && Flowing(Value())
      modifies this`source, this`feeding, this`waiting, this`sink
      modifies ppi`calls, ppi.passives, ppi.actives, ppi.events
      ensures Flowing(Value()) && !Value().net.eventEnabled[IDLE]
      ensures !old(Value()).net.native[SINK] ==> source == [] && sink == old(sink) + old(source)
      ensures old(Value()).net.native[SINK] ==> Value() == old(Value())
    {
      ghost var f := Value();
      EnabledMeansOpen(f);
      while ppi.events[IDLE].enabled
        invariant Flowing(Value()) && sink + source == f.sink + f.source
        invariant f.net.native[SINK] ==> Value() == f
        invariant !f.net.native[SINK] ==> !Value().net.native[SINK]
        decreases |source|
      {
        FireFlows(Value());
        Request();
      }
      EnabledMeansOpen(Value());
    }
  }
}
