/**
 The invariant of all runs.

 Coherence is kept by every step on every network. It makes the throttle bits a solution of the
 equation "throttled = natively throttled or behind a throttled route".
 */
module Exactness {
  import opened Common
  import opened Network
  import opened Waves

  // ------------------------------------------------------------------------------------------
  // The invariant of all runs

  /** Connected active connectors remember the state of their peer. */
  ghost predicate PeersAgree(net: Topology, s: State)
    requires net.Valid() && Fits(net, s)
  {
    forall a :: 0 <= a < |s.cached| && net.activePeer[a].Some? ==>
      s.cached[a] == Throttled(s, net.activePeer[a].value)
  }

  /** Forwarded bits cover every notified target and are backed by a throttled route. */
  ghost predicate ForwardingAgrees(net: Topology, s: State)
    requires net.Valid() && Fits(net, s)
  {
    forall x: Target :: net.IsTarget(x) ==>
      (Notified(net, s, x) ==> Forwarded(net, s, x)) && (Forwarded(net, s, x) ==> AnyThrottled(net, s, x))
  }

  ghost predicate ThrottledEventsDisabled(s: State)
    requires |s.eventThrottled| == |s.eventEnabled|
  {
    forall e :: 0 <= e < |s.eventThrottled| && s.eventThrottled[e] ==> !s.eventEnabled[e]
  }

  ghost predicate Coherent(net: Topology, s: State) {
    && net.Valid() && Fits(net, s)
    && PeersAgree(net, s)
    && ForwardingAgrees(net, s)
    && ThrottledEventsDisabled(s)
    && LogAgrees(net, s)
  }

  /** Every unconnected active connector has run its v_init. */
  ghost predicate Initialised(net: Topology, s: State)
    requires net.Valid() && Fits(net, s)
  {
    forall a :: 0 <= a < |s.cached| && net.activePeer[a].None? ==> s.cached[a]
  }

  /** Notified and throttled routes coincide where the remembered state is up to date. */
  lemma NotifiedIsThrottled(net: Topology, s: State, x: Target)
    requires net.Valid() && Fits(net, s) && PeersAgree(net, s) && net.IsTarget(x)
    ensures Notified(net, s, x) ==> AnyThrottled(net, s, x)
    ensures Initialised(net, s) && AnyThrottled(net, s, x) ==> Notified(net, s, x)
  {
  }

  // ------------------------------------------------------------------------------------------
  // Throttle waves keep coherence

  /** A throttle wave that starts at a newly throttled passive connector, or at an unconnected
      active connector, ends in a coherent state. */
  lemma ThrottleWaveCoheres(net: Topology, s: State, marked: State, t: State)
    requires Coherent(net, s) && ThrottleWave(net, marked, t)
    requires marked == s.(native := marked.native) && Below(s.native, marked.native)
    requires forall p :: 0 <= p < |s.native| && !Throttled(s, p) && Throttled(marked, p) && net.passivePeer[p].Some? ==>
               t.cached[net.passivePeer[p].value]
    ensures Coherent(net, t)
  {
    assert LogAgrees(net, marked);
    ThrottleWavePeersAgree(net, s, marked, t);
    forall x: Target | net.IsTarget(x)
      ensures Notified(net, t, x) ==> Forwarded(net, t, x)
      ensures Forwarded(net, t, x) ==> AnyThrottled(net, t, x)
    {
      ThrottleWaveForwarding(net, s, marked, t, x);
    }
  }

  lemma ThrottleWavePeersAgree(net: Topology, s: State, marked: State, t: State)
    requires Coherent(net, s) && ThrottleWave(net, marked, t)
    requires marked == s.(native := marked.native) && Below(s.native, marked.native)
    requires forall p :: 0 <= p < |s.native| && !Throttled(s, p) && Throttled(marked, p) && net.passivePeer[p].Some? ==>
               t.cached[net.passivePeer[p].value]
    ensures PeersAgree(net, t)
  {
  }

  lemma ThrottleWaveForwarding(net: Topology, s: State, marked: State, t: State, x: Target)
    requires Coherent(net, s) && ThrottleWave(net, marked, t) && PeersAgree(net, t) && net.IsTarget(x)
    requires marked == s.(native := marked.native)
    ensures Notified(net, t, x) ==> Forwarded(net, t, x)
    ensures Forwarded(net, t, x) ==> AnyThrottled(net, t, x)
  {
  }

  // ------------------------------------------------------------------------------------------
  // Unthrottle waves keep coherence

  lemma UnthrottleWaveCoheres(net: Topology, s: State, cleared: State, t: State, p: nat)
    requires Coherent(net, s) && UnthrottleWave(net, cleared, t) && PeersTold(net, cleared)
    requires p < |s.native| && cleared == s.(native := s.native[p := false]) && !s.remote[p]
    requires net.passivePeer[p].Some? ==> !t.cached[net.passivePeer[p].value]
    ensures Coherent(net, t)
  {
    assert LogAgrees(net, cleared);
    UnthrottleWaveKeepsPeersTold(net, cleared, t);
    UnthrottleWavePeersAgree(net, s, cleared, t, p);
    forall x: Target | net.IsTarget(x)
      ensures Notified(net, t, x) ==> Forwarded(net, t, x)
      ensures Forwarded(net, t, x) ==> AnyThrottled(net, t, x)
    {
      UnthrottleWaveForwarding(net, s, cleared, t, x);
    }
  }

  lemma UnthrottleWavePeersAgree(net: Topology, s: State, cleared: State, t: State, p: nat)
    requires Coherent(net, s) && UnthrottleWave(net, cleared, t) && PeersTold(net, t)
    requires p < |s.native| && cleared == s.(native := s.native[p := false])
    requires net.passivePeer[p].Some? ==> !t.cached[net.passivePeer[p].value]
    ensures PeersAgree(net, t)
  {
  }

  lemma UnthrottleWaveForwarding(net: Topology, s: State, cleared: State, t: State, x: Target)
    requires Coherent(net, s) && UnthrottleWave(net, cleared, t) && PeersAgree(net, t)
    requires cleared == s.(native := cleared.native) && net.IsTarget(x)
    ensures Notified(net, t, x) ==> Forwarded(net, t, x)
    ensures Forwarded(net, t, x) ==> AnyThrottled(net, t, x)
  {
    if Notified(net, t, x) {
      NotifiedStaysForwarded(net, s, cleared, t, x);
    }
    if Forwarded(net, t, x) {
      assert Forwarded(net, s, x);
      ForwardedIsBacked(net, s, cleared, t, x);
    }
  }

  lemma NotifiedStaysForwarded(net: Topology, s: State, cleared: State, t: State, x: Target)
    requires net.Valid() && Fits(net, s) && Fits(net, cleared) && Fits(net, t) && net.IsTarget(x)
    requires ForwardingAgrees(net, s) && cleared == s.(native := cleared.native)
    requires OnlyClears(net, cleared, t) && ClearsJustified(net, cleared, t) && PeersAgree(net, t)
    requires Notified(net, t, x)
    ensures Forwarded(net, t, x)
  {
  }

  lemma ForwardedIsBacked(net: Topology, s: State, cleared: State, t: State, x: Target)
    requires net.Valid() && Fits(net, s) && Fits(net, t) && net.IsTarget(x)
    requires cleared == s.(native := cleared.native) && Fits(net, cleared) && ClearsSpread(net, cleared, t)
    requires PeersAgree(net, s) && PeersAgree(net, t) && AnyThrottled(net, s, x)
    requires Forwarded(net, t, x)
    ensures AnyThrottled(net, t, x)
  {
    var r :| r in net.RoutesInto(x) && RouteThrottled(net, s, r);
    assert net.Registered(r) && r.target == x;
    if !RouteThrottled(net, t, r) {
      assert cleared.cached[r.source] && !t.cached[r.source];
    }
  }

  // ------------------------------------------------------------------------------------------
  // Every step keeps coherence

  lemma ThrottleCoheres(net: Topology, s: State, p: nat)
    requires Coherent(net, s) && p < |net.passivePeer|
    ensures Coherent(net, Throttle(net, s, p))
    ensures Initialised(net, s) ==> Initialised(net, Throttle(net, s, p))
    ensures Throttle(net, s, p).native == s.native[p := true]
  {
    var marked := s.(native := s.native[p := true]);
    var t := Throttle(net, s, p);
    if !Throttled(s, p) && net.passivePeer[p].Some? {
      ActiveThrottleWave(net, marked, net.passivePeer[p].value);
    }
    assert ThrottleWave(net, marked, t);
    ThrottleWaveCoheres(net, s, marked, t);
  }

  lemma UnthrottleCoheres(net: Topology, s: State, p: nat)
    requires Coherent(net, s) && p < |net.passivePeer|
    ensures Coherent(net, Unthrottle(net, s, p))
    ensures Initialised(net, s) ==> Initialised(net, Unthrottle(net, s, p))
    ensures Unthrottle(net, s, p).native == s.native[p := false]
  {
    var cleared := s.(native := s.native[p := false]);
    var t := Unthrottle(net, s, p);
    if s.remote[p] || !s.native[p] {
      SameBitsCohere(net, s, cleared);
    } else {
      assert PeersTold(net, cleared);
      if net.passivePeer[p].Some? {
        ActiveUnthrottleWave(net, cleared, net.passivePeer[p].value);
      }
      assert UnthrottleWave(net, cleared, t);
      UnthrottleWaveCoheres(net, s, cleared, t, p);
    }
  }

  /** Changing a native bit under a set forwarded bit is invisible to the rest of the network. */
  lemma SameBitsCohere(net: Topology, s: State, t: State)
    requires Coherent(net, s) && Fits(net, t) && t == s.(native := t.native)
    requires forall p :: 0 <= p < |s.native| ==> Throttled(t, p) == Throttled(s, p)
    ensures Coherent(net, t)
  {
  }

  lemma InitActiveCoheres(net: Topology, s: State, a: nat)
    requires Coherent(net, s) && a < |net.activePeer|
    ensures Coherent(net, InitActive(net, s, a))
    ensures InitActive(net, s, a).native == s.native
    ensures Below(s.cached, InitActive(net, s, a).cached)
    ensures net.activePeer[a].None? ==> InitActive(net, s, a).cached[a]
  {
    if net.activePeer[a].None? {
      ActiveThrottleWave(net, s, a);
      ThrottleWaveCoheres(net, s, s, InitActive(net, s, a));
    }
  }

  /** In a coherent network the initialisation of a passive connector finds nothing to do. */
  lemma InitPassiveChangesNothing(net: Topology, s: State, p: nat)
    requires Coherent(net, s) && p < |net.passivePeer|
    ensures InitPassive(net, s, p) == s
  {
    var checked := if AnyThrottled(net, s, ToPassive(p)) then s else s.(remote := s.remote[p := false]);
    assert Forwarded(net, s, ToPassive(p)) ==> AnyThrottled(net, s, ToPassive(p));
    assert checked.remote == s.remote;
    assert checked == s;
    if net.passivePeer[p].Some? {
      assert net.activePeer[net.passivePeer[p].value] == Some(p);
      assert s.cached[net.passivePeer[p].value] == Throttled(s, p);
      assert EmitThrottle(net, s, p) == ActiveNotifyThrottle(net, s, net.passivePeer[p].value);
      assert EmitUnthrottle(net, s, p) == ActiveNotifyUnthrottle(net, s, net.passivePeer[p].value);
    }
  }

  lemma SetEnabledCoheres(net: Topology, s: State, e: nat, v: bool)
    requires Coherent(net, s) && e < |net.eventRoutes|
    ensures Coherent(net, SetEnabled(net, s, e, v))
  {
    var t := SetEnabled(net, s, e, v);
    if t != s {
      EventFlipLogged(net, s, t, e, v);
      forall x: Target | net.IsTarget(x)
        ensures Notified(net, t, x) ==> Forwarded(net, t, x)
        ensures Forwarded(net, t, x) ==> AnyThrottled(net, t, x)
      {
        assert Notified(net, t, x) == Notified(net, s, x);
        if Forwarded(net, s, x) {
          var r :| r in net.RoutesInto(x) && RouteThrottled(net, s, r);
          assert RouteThrottled(net, t, r);
        }
      }
    }
  }

  lemma StepCoheres(net: Topology, s: State, step: Step)
    requires Coherent(net, s)
    ensures Coherent(net, Apply(net, s, step))
    ensures Initialised(net, s) ==> Initialised(net, Apply(net, s, step))
  {
    match step
    case DoThrottle(p) => if p < |net.passivePeer| { ThrottleCoheres(net, s, p); }
    case DoUnthrottle(p) => if p < |net.passivePeer| { UnthrottleCoheres(net, s, p); }
    case DoInitPassive(p) => if p < |net.passivePeer| { InitPassiveChangesNothing(net, s, p); }
    case DoInitActive(a) => if a < |net.activePeer| { InitActiveCoheres(net, s, a); }
    case DoEnable(e, v) => if e < |net.eventRoutes| { SetEnabledCoheres(net, s, e, v); }
  }

  lemma FreshCoheres(net: Topology)
    requires net.Valid()
    ensures Coherent(net, Fresh(net))
  {
  }

  /** Over every run: coherence holds, and once the unconnected connectors are initialised they stay so. */
  lemma {:induction false} RunCoheres(net: Topology, s: State, script: seq<Step>)
    requires Coherent(net, s)
    ensures Coherent(net, Run(net, s, script))
    ensures Initialised(net, s) ==> Initialised(net, Run(net, s, script))
  {
    if script != [] {
      RunCoheres(net, s, script[..|script| - 1]);
      StepCoheres(net, Run(net, s, script[..|script| - 1]), script[|script| - 1]);
    }
  }

  /** An unconnected connector, once notified, is never released. */
  lemma StepKeepsUnconnected(net: Topology, s: State, step: Step, a: nat)
    requires Coherent(net, s) && a < |net.activePeer| && net.activePeer[a].None?
    ensures s.cached[a] || step == DoInitActive(a) ==> Apply(net, s, step).cached[a]
  {
    match step
    case DoThrottle(p) =>
    case DoUnthrottle(p) =>
      if p < |net.passivePeer| && s.native[p] && !s.remote[p] && net.passivePeer[p].Some? {
        var cleared := s.(native := s.native[p := false]);
        assert PeersTold(net, cleared);
        ActiveUnthrottleWave(net, cleared, net.passivePeer[p].value);
        assert ActiveThrottled(net, Apply(net, s, step), a);
      }
    case DoInitPassive(p) => if p < |net.passivePeer| { InitPassiveChangesNothing(net, s, p); }
    case DoInitActive(b) => if b < |net.activePeer| { InitActiveCoheres(net, s, b); }
    case DoEnable(e, v) =>
  }

  /** Any run from construction that initialises every unconnected active connector, in any order
      and mixed with anything else, ends in a coherent and initialised network. */
  lemma {:induction false} RunInitialises(net: Topology, script: seq<Step>)
    requires net.Valid()
    requires forall a :: 0 <= a < |net.activePeer| && net.activePeer[a].None? ==> DoInitActive(a) in script
    ensures Coherent(net, Run(net, Fresh(net), script)) && Initialised(net, Run(net, Fresh(net), script))
  {
    FreshCoheres(net);
    RunCoheres(net, Fresh(net), script);
    forall a | 0 <= a < |net.activePeer| && net.activePeer[a].None?
      ensures Run(net, Fresh(net), script).cached[a]
    {
      RunInitialisesOne(net, script, a);
    }
  }

  lemma {:induction false} RunInitialisesOne(net: Topology, script: seq<Step>, a: nat)
    requires net.Valid() && a < |net.activePeer| && net.activePeer[a].None? && DoInitActive(a) in script
    ensures Run(net, Fresh(net), script).cached[a]
  {
    var before := script[..|script| - 1];
    assert script == before + [script[|script| - 1]];
    FreshCoheres(net);
    RunCoheres(net, Fresh(net), before);
    if DoInitActive(a) in before {
      RunInitialisesOne(net, before, a);
    }
    StepKeepsUnconnected(net, Run(net, Fresh(net), before), script[|script| - 1], a);
  }

  // ------------------------------------------------------------------------------------------
  // Callbacks and events over whole waves and runs

  /** On any network and from any state: throttling a connector only sets bits, and calls the module
      behind each active connector once if its bit flips and not at all otherwise. */
  lemma ThrottleCallsOnce(net: Topology, s: State, p: nat)
    requires net.Valid() && Fits(net, s) && p < |net.passivePeer|
    ensures var t := Throttle(net, s, p);
            && Below(s.remote, t.remote) && Below(s.cached, t.cached) && Below(t.eventEnabled, s.eventEnabled)
            && forall a :: 0 <= a < |s.cached| ==>
                 CallCount(t.calls, Active(a))
                 == CallCount(s.calls, Active(a)) + (if t.cached[a] && !s.cached[a] then 1 else 0)
  {
    var marked := s.(native := s.native[p := true]);
    if !Throttled(s, p) && net.passivePeer[p].Some? {
      ActiveThrottleWave(net, marked, net.passivePeer[p].value);
    }
    assert ThrottleWave(net, marked, Throttle(net, s, p));
  }

  /** The same for unthrottling, where it also re-enables an event only if no route into it is throttled. */
  lemma UnthrottleCallsOnce(net: Topology, s: State, p: nat)
    requires net.Valid() && Fits(net, s) && p < |net.passivePeer|
    ensures var t := Unthrottle(net, s, p);
            && Below(t.remote, s.remote) && Below(t.cached, s.cached) && Below(s.eventEnabled, t.eventEnabled)
            && (forall a :: 0 <= a < |s.cached| ==>
                  CallCount(t.calls, Active(a))
                  == CallCount(s.calls, Active(a)) + (if s.cached[a] && !t.cached[a] then 1 else 0))
            && (forall e :: 0 <= e < |s.eventEnabled| && t.eventEnabled[e] && !s.eventEnabled[e] ==>
                  !AnyThrottled(net, t, ToEvent(e)))
  {
    var cleared := s.(native := s.native[p := false]);
    if s.native[p] && !s.remote[p] && net.passivePeer[p].Some? {
      ActiveReleases(net, cleared, net.passivePeer[p].value);
    }
    assert Release(net, cleared, Unthrottle(net, s, p));
  }

  /** In every run from construction: a throttled event is disabled, and the calls of v_enable and
      v_disable, like those of the throttle callbacks, strictly alternate. */
  lemma EventsOverRuns(net: Topology, script: seq<Step>)
    requires net.Valid()
    ensures var s := Run(net, Fresh(net), script);
            && (forall e :: 0 <= e < |s.eventEnabled| ==> !(s.eventThrottled[e] && s.eventEnabled[e]))
            && (forall e :: 0 <= e < |s.eventEnabled| ==> Replay(s.calls, Event(e)) == Some(s.eventEnabled[e]))
            && (forall a :: 0 <= a < |s.cached| ==> Replay(s.calls, Active(a)) == Some(s.cached[a]))
  {
    FreshCoheres(net);
    RunCoheres(net, Fresh(net), script);
  }

  /** Events that are enabled exactly while they are not throttled: nobody has disabled them otherwise. */
  ghost predicate EventsFollow(s: State)
    requires |s.eventThrottled| == |s.eventEnabled|
  {
    forall e :: 0 <= e < |s.eventThrottled| ==> s.eventEnabled[e] == !s.eventThrottled[e]
  }

  lemma NativeStepsKeepEventsFollowing(net: Topology, s: State, p: nat)
    requires Coherent(net, s) && p < |net.passivePeer| && EventsFollow(s)
    ensures EventsFollow(Throttle(net, s, p)) && EventsFollow(Unthrottle(net, s, p))
  {
    ThrottleFollows(net, s, p);
    UnthrottleFollows(net, s, p);
  }

  lemma ThrottleFollows(net: Topology, s: State, p: nat)
    requires Coherent(net, s) && p < |net.passivePeer| && EventsFollow(s)
    ensures EventsFollow(Throttle(net, s, p))
  {
    var marked := s.(native := s.native[p := true]);
    if !Throttled(s, p) && net.passivePeer[p].Some? {
      ActiveThrottleWave(net, marked, net.passivePeer[p].value);
    }
    assert ThrottleWave(net, marked, Throttle(net, s, p));
  }

  lemma UnthrottleFollows(net: Topology, s: State, p: nat)
    requires Coherent(net, s) && p < |net.passivePeer| && EventsFollow(s)
    ensures EventsFollow(Unthrottle(net, s, p))
  {
    var cleared := s.(native := s.native[p := false]);
    if s.native[p] && !s.remote[p] {
      assert PeersTold(net, cleared);
      if net.passivePeer[p].Some? {
        ActiveUnthrottleWave(net, cleared, net.passivePeer[p].value);
      }
      assert UnthrottleWave(net, cleared, Unthrottle(net, s, p));
    }
  }

  // ------------------------------------------------------------------------------------------
  // What decides whether an event is enabled

  /** enabled(bool) by hand: an unthrottled event does what it is told, a throttled one can only be disabled, each
      change is one call, and nothing else changes. */
  lemma SetEnabledObeys(net: Topology, s: State, e: nat, v: bool)
    requires net.Valid() && Fits(net, s) && e < |net.eventRoutes|
    ensures var t := SetEnabled(net, s, e, v);
            && t.eventEnabled[e] == (if s.eventThrottled[e] && v then s.eventEnabled[e] else v)
            && (forall i :: 0 <= i < |s.eventEnabled| && i != e ==> t.eventEnabled[i] == s.eventEnabled[i])
            && t.calls == s.calls + (if t.eventEnabled[e] != s.eventEnabled[e] then [Call(Event(e), v)] else [])
            && t == s.(eventEnabled := t.eventEnabled, calls := t.calls)
  {
    var t := SetEnabled(net, s, e, v);
    assert t.calls == s.calls + (if t.eventEnabled[e] != s.eventEnabled[e] then [Call(Event(e), v)] else []);
  }

  /** Between two states the event was enabled by its release, disabled by its throttling, and left alone
      otherwise. */
  ghost predicate EnabledByThrottling(s: State, t: State, e: nat)
    requires e < |s.eventThrottled| == |s.eventEnabled| == |t.eventThrottled| == |t.eventEnabled|
  {
    t.eventEnabled[e] == if s.eventThrottled[e] == t.eventThrottled[e] then s.eventEnabled[e] else !t.eventThrottled[e]
  }

  lemma CoherentSettled(net: Topology, s: State)
    requires Coherent(net, s)
    ensures AllSettled(net, s)
  {
    forall a, r | 0 <= a < |s.cached| && s.cached[a] && r in net.notifyRoutes[a] ensures Settled(net, s, r) {
      if r.autoThrottling && r.target.ToEvent? {
        assert net.Registered(r);
        assert Notified(net, s, r.target);
      }
    }
  }

  lemma ThrottleWaveEvents(net: Topology, s: State, marked: State, t: State, e: nat)
    requires Coherent(net, s) && ThrottleWave(net, marked, t) && Coherent(net, t) && e < |net.eventRoutes|
    requires marked == s.(native := marked.native)
    ensures EnabledByThrottling(s, t, e)
  {
  }

  lemma WakingEvents(net: Topology, s: State, cleared: State, t: State, e: nat)
    requires Coherent(net, s) && Wakes(net, cleared, t) && Coherent(net, t) && e < |net.eventRoutes|
    requires cleared == s.(native := cleared.native)
    ensures EnabledByThrottling(s, t, e)
  {
  }

  lemma UnthrottleEvents(net: Topology, s: State, p: nat, e: nat)
    requires Coherent(net, s) && p < |net.passivePeer| && e < |net.eventRoutes|
    ensures EnabledByThrottling(s, Unthrottle(net, s, p), e)
  {
    var cleared := s.(native := s.native[p := false]);
    UnthrottleCoheres(net, s, p);
    if s.native[p] && !s.remote[p] && net.passivePeer[p].Some? {
      CoherentSettled(net, s);
      StaySettled(net, cleared, cleared);
      ActiveWakes(net, cleared, net.passivePeer[p].value);
      WakingEvents(net, s, cleared, Unthrottle(net, s, p), e);
    }
  }

  lemma ThrottleEvents(net: Topology, s: State, p: nat, e: nat)
    requires Coherent(net, s) && p < |net.passivePeer| && e < |net.eventRoutes|
    ensures EnabledByThrottling(s, Throttle(net, s, p), e)
  {
    var marked := s.(native := s.native[p := true]);
    ThrottleCoheres(net, s, p);
    if !Throttled(s, p) && net.passivePeer[p].Some? {
      ActiveThrottleWave(net, marked, net.passivePeer[p].value);
      ThrottleWaveEvents(net, s, marked, Throttle(net, s, p), e);
    }
  }

  lemma InitActiveEvents(net: Topology, s: State, a: nat, e: nat)
    requires Coherent(net, s) && a < |net.activePeer| && e < |net.eventRoutes|
    ensures EnabledByThrottling(s, InitActive(net, s, a), e)
  {
    InitActiveCoheres(net, s, a);
    if net.activePeer[a].None? {
      ActiveThrottleWave(net, s, a);
      ThrottleWaveEvents(net, s, s, InitActive(net, s, a), e);
    }
  }

  /** The step is an enabled(bool) for the event that is not refused. */
  predicate Tells(s: State, step: Step, e: nat)
    requires e < |s.eventThrottled|
  {
    step.DoEnable? && step.e == e && !(s.eventThrottled[e] && step.v)
  }

  lemma StepEvents(net: Topology, s: State, step: Step, e: nat)
    requires Coherent(net, s) && e < |net.eventRoutes|
    ensures Tells(s, step, e) ==> Apply(net, s, step).eventEnabled[e] == step.v
    ensures !Tells(s, step, e) ==> EnabledByThrottling(s, Apply(net, s, step), e)
  {
    match step
    case DoThrottle(p) => if p < |net.passivePeer| { ThrottleEvents(net, s, p, e); }
    case DoUnthrottle(p) => if p < |net.passivePeer| { UnthrottleEvents(net, s, p, e); }
    case DoInitPassive(p) => if p < |net.passivePeer| { InitPassiveChangesNothing(net, s, p); }
    case DoInitActive(a) => if a < |net.activePeer| { InitActiveEvents(net, s, a, e); }
    case DoEnable(i, v) => if i < |net.eventRoutes| { SetEnabledObeys(net, s, i, v); }
  }

  /** What was last said about an event in a run: by an enabled(bool) that was not refused, by its throttling
      (disable) or by its release (enable). */
  function LastSaid(net: Topology, script: seq<Step>, e: nat): bool
    requires net.Valid() && e < |net.eventRoutes|
  {
    if script == [] then false
    else
      var front, step := script[..|script| - 1], script[|script| - 1];
      var s, t := Run(net, Fresh(net), front), Run(net, Fresh(net), script);
      if Tells(s, step, e) then step.v
      else if s.eventThrottled[e] != t.eventThrottled[e] then !t.eventThrottled[e]
      else LastSaid(net, front, e)
  }

  /** Over every run: an event is enabled exactly if that is what was said last. */
  lemma {:induction false} EventsDoWhatWasSaid(net: Topology, script: seq<Step>, e: nat)
    requires net.Valid() && e < |net.eventRoutes|
    ensures Run(net, Fresh(net), script).eventEnabled[e] == LastSaid(net, script, e)
  {
    if script != [] {
      var front := script[..|script| - 1];
      EventsDoWhatWasSaid(net, front, e);
      FreshCoheres(net);
      RunCoheres(net, Fresh(net), front);
      StepEvents(net, Run(net, Fresh(net), front), script[|script| - 1], e);
    }
  }

  /** Initialising a passive connector, from any state: its peer knows its state afterwards, and a connector that
      is not natively throttled and has no throttled route is free. */
  lemma InitPassiveTells(net: Topology, s: State, p: nat)
    requires net.Valid() && Fits(net, s) && p < |net.passivePeer|
    ensures var t := InitPassive(net, s, p);
            && t.native == s.native
            && (net.passivePeer[p].Some? ==> t.cached[net.passivePeer[p].value] == Throttled(t, p))
            && (!s.native[p] && !AnyThrottled(net, s, ToPassive(p)) ==> !Throttled(t, p))
            && (Throttled(t, p) ==> Throttled(s, p))
  {
    var checked := if AnyThrottled(net, s, ToPassive(p)) then s else s.(remote := s.remote[p := false]);
    if net.passivePeer[p].Some? {
      var a := net.passivePeer[p].value;
      if Throttled(checked, p) {
        ActiveThrottleWave(net, checked, a);
      } else {
        ActiveReleases(net, checked, a);
        ActiveCleared(net, checked, a);
      }
    }
  }

  lemma ActiveCleared(net: Topology, s: State, a: nat)
    requires net.Valid() && Fits(net, s) && a < |net.activePeer|
    ensures !ActiveNotifyUnthrottle(net, s, a).cached[a]
  {
    if s.cached[a] {
      var cleared := s.(cached := s.cached[a := false], calls := s.calls + [Call(Active(a), false)]);
      assert Below(ForwardUnthrottle(net, cleared, net.notifyRoutes[a]).cached, cleared.cached);
    }
  }
}
