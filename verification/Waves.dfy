/**
 What one wave of notifications does to a network.

 A wave is described by comparing the state before with the state after. The description is
 closed under composition, so it holds of a whole recursive wave as soon as it holds of its
 single assignments, whatever the order in which routes are visited and however the wave comes
 back to connectors it has already passed.
 */
module Waves {
  import opened Common
  import opened Network

  // ------------------------------------------------------------------------------------------
  // The callback log

  /** Replays the calls made to one callee: the level they leave it at, or None if two equal calls
      were made in a row. */
  function Replay(calls: seq<Call>, c: Callee): Option<bool> {
    if calls == [] then
      Some(false)
    else
      var last := calls[|calls| - 1];
      match Replay(calls[..|calls| - 1], c)
      case None => None
      case Some(level) => if last.callee != c then Some(level) else if last.on == level then None else Some(last.on)
  }

  /** The number of calls made to a callee. */
  function CallCount(calls: seq<Call>, c: Callee): nat {
    if calls == [] then 0
    else CallCount(calls[..|calls| - 1], c) + (if calls[|calls| - 1].callee == c then 1 else 0)
  }

  lemma OneMoreCall(calls: seq<Call>, call: Call, c: Callee)
    ensures CallCount(calls + [call], c) == CallCount(calls, c) + (if call.callee == c then 1 else 0)
    ensures call.callee != c ==> Replay(calls + [call], c) == Replay(calls, c)
    ensures call.callee == c && Replay(calls, c) == Some(!call.on) ==> Replay(calls + [call], c) == Some(call.on)
  {
  }

  /** The log alternates for every callee and ends at the recorded state. */
  ghost predicate LogAgrees(net: Topology, s: State)
    requires Fits(net, s)
  {
    && (forall a {:trigger Replay(s.calls, Active(a))} :: 0 <= a < |s.cached| ==>
         Replay(s.calls, Active(a)) == Some(s.cached[a]))
    && (forall e {:trigger Replay(s.calls, Event(e))} :: 0 <= e < |s.eventEnabled| ==>
         Replay(s.calls, Event(e)) == Some(s.eventEnabled[e]))
  }

  /** Between two states each active connector and each event got one call if its bit changed, else none. */
  ghost predicate CalledOncePerFlip(net: Topology, s: State, t: State)
    requires Fits(net, s) && Fits(net, t)
  {
    && (LogAgrees(net, s) ==> LogAgrees(net, t))
    && (forall a {:trigger CallCount(t.calls, Active(a))} :: 0 <= a < |t.cached| ==>
         CallCount(t.calls, Active(a)) == CallCount(s.calls, Active(a)) + (if s.cached[a] != t.cached[a] then 1 else 0))
    && (forall e {:trigger CallCount(t.calls, Event(e))} :: 0 <= e < |t.eventEnabled| ==>
         CallCount(t.calls, Event(e))
         == CallCount(s.calls, Event(e)) + (if s.eventEnabled[e] != t.eventEnabled[e] then 1 else 0))
  }

  lemma ActiveFlipLogged(net: Topology, s: State, t: State, a: nat, on: bool)
    requires Fits(net, s) && a < |s.cached| && s.cached[a] == !on
    requires t == s.(cached := s.cached[a := on], calls := s.calls + [Call(Active(a), on)])
    ensures CalledOncePerFlip(net, s, t)
  {
    forall c: Callee { OneMoreCall(s.calls, Call(Active(a), on), c); }
  }

  lemma EventFlipLogged(net: Topology, s: State, t: State, e: nat, on: bool)
    requires Fits(net, s) && e < |s.eventEnabled| && s.eventEnabled[e] == !on
    requires t == s.(eventEnabled := s.eventEnabled[e := on], calls := s.calls + [Call(Event(e), on)])
    ensures CalledOncePerFlip(net, s, t)
  {
    forall c: Callee { OneMoreCall(s.calls, Call(Event(e), on), c); }
  }

  // ------------------------------------------------------------------------------------------
  // Throttle waves

  /** Bits are only set, never cleared, and events are only disabled. */
  ghost predicate OnlySets(net: Topology, s: State, t: State)
    requires Fits(net, s) && Fits(net, t)
  {
    && t.native == s.native
    && Below(s.remote, t.remote)
    && Below(s.cached, t.cached)
    && Below(s.eventThrottled, t.eventThrottled)
    && Below(t.eventEnabled, s.eventEnabled)
  }

  /** Every connector the wave reached has passed the notification on. */
  ghost predicate SetsSpread(net: Topology, s: State, t: State)
    requires net.Valid() && Fits(net, s) && Fits(net, t)
  {
    && (forall a, r :: 0 <= a < |s.cached| && !s.cached[a] && t.cached[a]
                       && r in net.notifyRoutes[a] && r.autoThrottling ==>
         Forwarded(net, t, r.target))
    && (forall p :: 0 <= p < |s.native| && !Throttled(s, p) && Throttled(t, p) && net.passivePeer[p].Some? ==>
          t.cached[net.passivePeer[p].value])
    && (forall e :: 0 <= e < |t.eventThrottled| && !s.eventThrottled[e] && t.eventThrottled[e] ==> !t.eventEnabled[e])
  }

  /** Some automatic route into the target starts at a connector that has seen a throttle notification. */
  ghost predicate Notified(net: Topology, t: State, x: Target)
    requires net.Valid() && Fits(net, t) && net.IsTarget(x)
  {
    exists r :: r in net.RoutesInto(x) && r.autoThrottling && t.cached[r.source]
  }

  /** Every bit the wave has set has a reason that still stands. */
  ghost predicate SetsJustified(net: Topology, s: State, t: State)
    requires net.Valid() && Fits(net, s) && Fits(net, t)
  {
    && (forall x: Target :: net.IsTarget(x) && !Forwarded(net, s, x) && Forwarded(net, t, x) ==> Notified(net, t, x))
    && (forall a :: 0 <= a < |s.cached| && !s.cached[a] && t.cached[a] ==> ActiveThrottled(net, t, a))
    && (forall e :: 0 <= e < |s.eventEnabled| && s.eventEnabled[e] && !t.eventEnabled[e] ==> t.eventThrottled[e])
  }

  ghost predicate ThrottleWave(net: Topology, s: State, t: State) {
    && net.Valid() && Fits(net, s) && Fits(net, t)
    && OnlySets(net, s, t)
    && SetsSpread(net, s, t)
    && SetsJustified(net, s, t)
    && CalledOncePerFlip(net, s, t)
  }

  lemma ForwardedStays(net: Topology, s: State, t: State, x: Target)
    requires net.Valid() && Fits(net, s) && Fits(net, t) && OnlySets(net, s, t) && net.IsTarget(x)
    ensures Forwarded(net, s, x) ==> Forwarded(net, t, x)
    ensures Notified(net, s, x) ==> Notified(net, t, x)
  {
  }

  lemma SpreadComposes(net: Topology, s: State, t: State, u: State)
    requires ThrottleWave(net, s, t) && ThrottleWave(net, t, u)
    ensures SetsSpread(net, s, u)
  {
    forall a, r | 0 <= a < |s.cached| && !s.cached[a] && u.cached[a] && r in net.notifyRoutes[a] && r.autoThrottling
      ensures Forwarded(net, u, r.target)
    {
      ForwardedStays(net, t, u, r.target);
    }
  }

  lemma JustifiedComposes(net: Topology, s: State, t: State, u: State)
    requires ThrottleWave(net, s, t) && ThrottleWave(net, t, u)
    ensures SetsJustified(net, s, u)
  {
    forall x: Target | net.IsTarget(x) && !Forwarded(net, s, x) && Forwarded(net, u, x)
      ensures Notified(net, u, x)
    {
      ForwardedStays(net, t, u, x);
    }
  }

  lemma ThrottleWavesCompose(net: Topology, s: State, t: State, u: State)
    requires ThrottleWave(net, s, t) && ThrottleWave(net, t, u)
    ensures ThrottleWave(net, s, u)
  {
    SpreadComposes(net, s, t, u);
    JustifiedComposes(net, s, t, u);
    assert CalledOncePerFlip(net, s, u);
  }

  lemma {:induction false} ActiveThrottleWave(net: Topology, s: State, a: nat)
    requires net.Valid() && Fits(net, s) && a < |net.activePeer|
    requires ActiveThrottled(net, s, a)
    ensures ThrottleWave(net, s, ActiveNotifyThrottle(net, s, a))
    ensures ActiveNotifyThrottle(net, s, a).cached[a]
    decreases Indices(s.cached, false), 0
  {
    if !s.cached[a] {
      var marked := s.(cached := s.cached[a := true], calls := s.calls + [Call(Active(a), true)]);
      assert a in Indices(s.cached, false) && a !in Indices(marked.cached, false);
      assert Indices(marked.cached, false) < Indices(s.cached, false);
      ForwardThrottleWave(net, marked, net.notifyRoutes[a]);
      var t := ForwardThrottle(net, marked, net.notifyRoutes[a]);
      ActiveFlipLogged(net, s, marked, a, true);
      assert CalledOncePerFlip(net, s, t);
      assert forall x: Target :: net.IsTarget(x) ==> Forwarded(net, marked, x) == Forwarded(net, s, x);
      assert ActiveThrottled(net, t, a);
    }
  }

  lemma {:induction false} ForwardThrottleWave(net: Topology, s: State, routes: seq<Route>)
    requires net.Valid() && Fits(net, s)
    requires forall r :: r in routes ==> net.Registered(r) && s.cached[r.source]
    ensures ThrottleWave(net, s, ForwardThrottle(net, s, routes))
    ensures forall r :: r in routes && r.autoThrottling ==> Forwarded(net, ForwardThrottle(net, s, routes), r.target)
    decreases Indices(s.cached, false), |routes| + 1
  {
    if routes != [] {
      assert net.Registered(routes[0]);
      var next := if routes[0].autoThrottling then TargetNotifyThrottle(net, s, routes[0].target) else s;
      if routes[0].autoThrottling {
        TargetThrottleWave(net, s, routes[0]);
      }
      assert Indices(next.cached, false) <= Indices(s.cached, false);
      ForwardThrottleWave(net, next, routes[1..]);
      var t := ForwardThrottle(net, next, routes[1..]);
      ThrottleWavesCompose(net, s, next, t);
      forall r | r in routes && r.autoThrottling ensures Forwarded(net, t, r.target) {
        if r == routes[0] {
          ForwardedStays(net, next, t, r.target);
        } else {
          assert r in routes[1..];
        }
      }
    }
  }

  lemma {:induction false} TargetThrottleWave(net: Topology, s: State, r: Route)
    requires net.Valid() && Fits(net, s) && net.Registered(r) && r.autoThrottling && s.cached[r.source]
    ensures ThrottleWave(net, s, TargetNotifyThrottle(net, s, r.target))
    ensures Forwarded(net, TargetNotifyThrottle(net, s, r.target), r.target)
    decreases Indices(s.cached, false), 1
  {
    match r.target
    case ToPassive(p) =>
      var marked := s.(remote := s.remote[p := true]);
      var t := if Throttled(s, p) then marked else EmitThrottle(net, marked, p);
      if !Throttled(s, p) && net.passivePeer[p].Some? {
        ActiveThrottleWave(net, marked, net.passivePeer[p].value);
      }
      PassiveSetStartsWave(net, s, r, t);
    case ToEvent(e) =>
      EventThrottleWave(net, s, r);
  }

  /** Setting a forwarded bit and, if it was news, completing the wave behind it, is a wave. */
  lemma PassiveSetStartsWave(net: Topology, s: State, r: Route, t: State)
    requires net.Valid() && Fits(net, s) && net.Registered(r) && r.autoThrottling && s.cached[r.source]
    requires r.target.ToPassive? && ThrottleWave(net, s.(remote := s.remote[r.target.p := true]), t)
    requires Throttled(s, r.target.p) || net.passivePeer[r.target.p].None?
             || t.cached[net.passivePeer[r.target.p].value]
    ensures ThrottleWave(net, s, t)
  {
  }

  lemma EventThrottleWave(net: Topology, s: State, r: Route)
    requires net.Valid() && Fits(net, s) && net.Registered(r) && r.autoThrottling && s.cached[r.source]
    requires r.target.ToEvent?
    ensures ThrottleWave(net, s, TargetNotifyThrottle(net, s, r.target))
  {
    var e := r.target.e;
    var marked := s.(eventThrottled := s.eventThrottled[e := true]);
    var t := SetEnabled(net, marked, e, false);
    if s.eventEnabled[e] {
      EventFlipLogged(net, marked, t, e, false);
    }
    assert LogAgrees(net, s) ==> LogAgrees(net, marked);
    assert CalledOncePerFlip(net, s, t);
    assert Notified(net, t, r.target);
    assert forall x: Target :: net.IsTarget(x) && x != r.target ==> Forwarded(net, t, x) == Forwarded(net, s, x);
    assert SetsSpread(net, s, t);
  }

  // ------------------------------------------------------------------------------------------
  // Unthrottle waves

  /** A throttled connector has told its peer. Unthrottle waves rely on it and keep it. */
  ghost predicate PeersTold(net: Topology, s: State)
    requires net.Valid() && Fits(net, s)
  {
    forall p :: 0 <= p < |s.native| && Throttled(s, p) && net.passivePeer[p].Some? ==>
      s.cached[net.passivePeer[p].value]
  }

  /** Bits are only cleared, never set, and events are only enabled. */
  ghost predicate OnlyClears(net: Topology, s: State, t: State)
    requires Fits(net, s) && Fits(net, t)
  {
    && t.native == s.native
    && Below(t.remote, s.remote)
    && Below(t.cached, s.cached)
    && Below(t.eventThrottled, s.eventThrottled)
    && Below(s.eventEnabled, t.eventEnabled)
  }

  /** Every target behind a connector the wave reached has looked at its routes again. */
  ghost predicate ClearsSpread(net: Topology, s: State, t: State)
    requires net.Valid() && Fits(net, s) && Fits(net, t)
  {
    && (forall a, r :: 0 <= a < |s.cached| && s.cached[a] && !t.cached[a]
                       && r in net.notifyRoutes[a] && r.autoThrottling ==>
         AnyThrottled(net, t, r.target) || !Forwarded(net, t, r.target))
    && (forall p :: 0 <= p < |s.native| && Throttled(s, p) && !Throttled(t, p) && net.passivePeer[p].Some? ==>
          !t.cached[net.passivePeer[p].value])
    && (forall e :: 0 <= e < |s.eventThrottled| && s.eventThrottled[e] && !t.eventThrottled[e] ==> t.eventEnabled[e])
  }

  /** A bit is cleared, and an event enabled, only where no route is throttled any more. */
  ghost predicate ClearsJustified(net: Topology, s: State, t: State)
    requires net.Valid() && Fits(net, s) && Fits(net, t)
  {
    && (forall x: Target :: net.IsTarget(x) && Forwarded(net, s, x) && !Forwarded(net, t, x) ==>
          !AnyThrottled(net, t, x))
    && (forall a :: 0 <= a < |s.cached| && s.cached[a] && !t.cached[a] ==> !ActiveThrottled(net, t, a))
    && (forall e :: 0 <= e < |s.eventEnabled| && !s.eventEnabled[e] && t.eventEnabled[e] ==>
          !AnyThrottled(net, t, ToEvent(e)) && !t.eventThrottled[e])
  }

  ghost predicate UnthrottleWave(net: Topology, s: State, t: State) {
    && net.Valid() && Fits(net, s) && Fits(net, t)
    && OnlyClears(net, s, t)
    && ClearsSpread(net, s, t)
    && ClearsJustified(net, s, t)
    && CalledOncePerFlip(net, s, t)
  }

  /** While bits are only cleared, a connector or target that is not throttled stays so. */
  lemma QuietStaysQuiet(net: Topology, s: State, t: State)
    requires net.Valid() && Fits(net, s) && Fits(net, t) && OnlyClears(net, s, t)
    ensures forall a :: 0 <= a < |s.cached| && ActiveThrottled(net, t, a) ==> ActiveThrottled(net, s, a)
    ensures forall x: Target :: net.IsTarget(x) && AnyThrottled(net, t, x) ==> AnyThrottled(net, s, x)
  {
  }

  lemma UnthrottleWaveKeepsPeersTold(net: Topology, s: State, t: State)
    requires UnthrottleWave(net, s, t) && PeersTold(net, s)
    ensures PeersTold(net, t)
  {
  }

  /** The heart of composition: a target that kept its bit because of a route that a later part of
      the wave releases is looked at again by that later part. */
  lemma SecondLook(net: Topology, t: State, u: State, x: Target)
    requires net.Valid() && Fits(net, t) && Fits(net, u) && ClearsSpread(net, t, u) && PeersTold(net, t)
    requires net.IsTarget(x) && AnyThrottled(net, t, x)
    ensures AnyThrottled(net, u, x) || !Forwarded(net, u, x)
  {
  }

  lemma ClearsSpreadComposes(net: Topology, s: State, t: State, u: State)
    requires UnthrottleWave(net, s, t) && UnthrottleWave(net, t, u) && PeersTold(net, t)
    ensures ClearsSpread(net, s, u)
  {
    forall a, r | 0 <= a < |s.cached| && s.cached[a] && !u.cached[a] && r in net.notifyRoutes[a] && r.autoThrottling
      ensures AnyThrottled(net, u, r.target) || !Forwarded(net, u, r.target)
    {
      if !t.cached[a] && AnyThrottled(net, t, r.target) {
        SecondLook(net, t, u, r.target);
      }
    }
  }

  lemma ClearsJustifiedComposes(net: Topology, s: State, t: State, u: State)
    requires UnthrottleWave(net, s, t) && UnthrottleWave(net, t, u)
    ensures ClearsJustified(net, s, u)
  {
    QuietStaysQuiet(net, t, u);
  }

  lemma UnthrottleWavesCompose(net: Topology, s: State, t: State, u: State)
    requires UnthrottleWave(net, s, t) && UnthrottleWave(net, t, u) && PeersTold(net, t)
    ensures UnthrottleWave(net, s, u)
  {
    ClearsSpreadComposes(net, s, t, u);
    ClearsJustifiedComposes(net, s, t, u);
    assert CalledOncePerFlip(net, s, u);
  }

  lemma {:induction false} ActiveUnthrottleWave(net: Topology, s: State, a: nat)
    requires net.Valid() && Fits(net, s) && a < |net.activePeer| && PeersTold(net, s)
    requires !ActiveThrottled(net, s, a)
    ensures UnthrottleWave(net, s, ActiveNotifyUnthrottle(net, s, a))
    ensures !ActiveNotifyUnthrottle(net, s, a).cached[a]
    decreases Indices(s.cached, true), 0
  {
    if s.cached[a] {
      var cleared := s.(cached := s.cached[a := false], calls := s.calls + [Call(Active(a), false)]);
      assert a in Indices(s.cached, true) && a !in Indices(cleared.cached, true);
      assert Indices(cleared.cached, true) < Indices(s.cached, true);
      assert PeersTold(net, cleared) by {
        assert forall p :: 0 <= p < |s.native| && net.passivePeer[p] == Some(a) ==> !Throttled(cleared, p);
      }
      ForwardUnthrottleWave(net, cleared, net.notifyRoutes[a]);
      var t := ForwardUnthrottle(net, cleared, net.notifyRoutes[a]);
      ActiveFlipLogged(net, s, cleared, a, false);
      assert CalledOncePerFlip(net, s, t);
      assert forall x: Target :: net.IsTarget(x) ==> Forwarded(net, cleared, x) == Forwarded(net, s, x);
      QuietStaysQuiet(net, cleared, t);
    }
  }

  lemma LookedAtStays(net: Topology, t: State, u: State, x: Target)
    requires UnthrottleWave(net, t, u) && PeersTold(net, t) && net.IsTarget(x)
    requires AnyThrottled(net, t, x) || !Forwarded(net, t, x)
    ensures AnyThrottled(net, u, x) || !Forwarded(net, u, x)
  {
  }

  lemma {:induction false} ForwardUnthrottleWave(net: Topology, s: State, routes: seq<Route>)
    requires net.Valid() && Fits(net, s) && PeersTold(net, s)
    requires forall r :: r in routes ==> net.Registered(r)
    ensures UnthrottleWave(net, s, ForwardUnthrottle(net, s, routes))
    ensures var t := ForwardUnthrottle(net, s, routes);
            forall r :: r in routes && r.autoThrottling ==>
              AnyThrottled(net, t, r.target) || !Forwarded(net, t, r.target)
    decreases Indices(s.cached, true), |routes| + 1
  {
    if routes != [] {
      assert net.Registered(routes[0]);
      var next := if routes[0].autoThrottling then TargetNotifyUnthrottle(net, s, routes[0].target) else s;
      if routes[0].autoThrottling {
        TargetUnthrottleWave(net, s, routes[0].target);
      }
      assert Indices(next.cached, true) <= Indices(s.cached, true);
      UnthrottleWaveKeepsPeersTold(net, s, next);
      ForwardUnthrottleWave(net, next, routes[1..]);
      var t := ForwardUnthrottle(net, next, routes[1..]);
      UnthrottleWavesCompose(net, s, next, t);
      forall r | r in routes && r.autoThrottling
        ensures AnyThrottled(net, t, r.target) || !Forwarded(net, t, r.target)
      {
        if r != routes[0] {
          assert r in routes[1..];
        } else {
          LookedAtStays(net, next, t, r.target);
        }
      }
    }
  }

  lemma {:induction false} TargetUnthrottleWave(net: Topology, s: State, x: Target)
    requires net.Valid() && Fits(net, s) && net.IsTarget(x) && PeersTold(net, s)
    ensures UnthrottleWave(net, s, TargetNotifyUnthrottle(net, s, x))
    ensures var t := TargetNotifyUnthrottle(net, s, x); AnyThrottled(net, t, x) || !Forwarded(net, t, x)
    decreases Indices(s.cached, true), 1
  {
    if !AnyThrottled(net, s, x) {
      match x
      case ToPassive(p) =>
        var cleared := s.(remote := s.remote[p := false]);
        var t := if s.native[p] then cleared else EmitUnthrottle(net, cleared, p);
        if !s.native[p] && net.passivePeer[p].Some? {
          ActiveUnthrottleWave(net, cleared, net.passivePeer[p].value);
        }
        PassiveClearStartsWave(net, s, p, t);
      case ToEvent(e) =>
        EventUnthrottleWave(net, s, e);
    }
  }

  /** Clearing a forwarded bit and, if the connector is free now, completing the wave behind it, is a wave. */
  lemma PassiveClearStartsWave(net: Topology, s: State, p: nat, t: State)
    requires net.Valid() && Fits(net, s) && p < |net.passivePeer| && !AnyThrottled(net, s, ToPassive(p))
    requires UnthrottleWave(net, s.(remote := s.remote[p := false]), t)
    requires s.native[p] || net.passivePeer[p].None? || !t.cached[net.passivePeer[p].value]
    ensures UnthrottleWave(net, s, t)
    ensures !Forwarded(net, t, ToPassive(p))
  {
    var cleared := s.(remote := s.remote[p := false]);
    assert OnlyClears(net, s, t);
    QuietStaysQuiet(net, s, t);
    assert ClearsSpread(net, s, t);
    forall x: Target | net.IsTarget(x) && Forwarded(net, s, x) && !Forwarded(net, t, x)
      ensures !AnyThrottled(net, t, x)
    {
      assert x != ToPassive(p) ==> Forwarded(net, cleared, x);
    }
    assert ClearsJustified(net, s, t);
    assert LogAgrees(net, s) ==> LogAgrees(net, cleared);
  }

  lemma EventUnthrottleWave(net: Topology, s: State, e: nat)
    requires net.Valid() && Fits(net, s) && e < |net.eventRoutes| && !AnyThrottled(net, s, ToEvent(e))
    ensures UnthrottleWave(net, s, TargetNotifyUnthrottle(net, s, ToEvent(e)))
    ensures !Forwarded(net, TargetNotifyUnthrottle(net, s, ToEvent(e)), ToEvent(e))
  {
    var cleared := s.(eventThrottled := s.eventThrottled[e := false]);
    var t := SetEnabled(net, cleared, e, true);
    if !s.eventEnabled[e] {
      EventFlipLogged(net, cleared, t, e, true);
    }
    assert LogAgrees(net, s) ==> LogAgrees(net, cleared);
    assert CalledOncePerFlip(net, s, t);
    assert OnlyClears(net, s, t);
    QuietStaysQuiet(net, s, t);
    assert forall x: Target :: net.IsTarget(x) && x != ToEvent(e) ==> Forwarded(net, t, x) == Forwarded(net, s, x);
  }

  // ------------------------------------------------------------------------------------------
  // Unthrottling from any state

  /** The part of an unthrottle wave that does not rely on connectors having told their peers. */
  ghost predicate Release(net: Topology, s: State, t: State) {
    && net.Valid() && Fits(net, s) && Fits(net, t)
    && OnlyClears(net, s, t)
    && CalledOncePerFlip(net, s, t)
    && (forall e :: 0 <= e < |s.eventEnabled| && !s.eventEnabled[e] && t.eventEnabled[e] ==>
          !AnyThrottled(net, t, ToEvent(e)))
  }

  lemma ReleasesCompose(net: Topology, s: State, t: State, u: State)
    requires Release(net, s, t) && Release(net, t, u)
    ensures Release(net, s, u)
  {
    QuietStaysQuiet(net, t, u);
  }

  lemma {:induction false} ActiveReleases(net: Topology, s: State, a: nat)
    requires net.Valid() && Fits(net, s) && a < |net.activePeer|
    ensures Release(net, s, ActiveNotifyUnthrottle(net, s, a))
    decreases Indices(s.cached, true), 0
  {
    if s.cached[a] {
      var cleared := s.(cached := s.cached[a := false], calls := s.calls + [Call(Active(a), false)]);
      assert Indices(cleared.cached, true) < Indices(s.cached, true) by {
        assert a in Indices(s.cached, true) && a !in Indices(cleared.cached, true);
      }
      ActiveFlipLogged(net, s, cleared, a, false);
      ForwardReleases(net, cleared, net.notifyRoutes[a]);
      ReleasesCompose(net, s, cleared, ForwardUnthrottle(net, cleared, net.notifyRoutes[a]));
    }
  }

  lemma {:induction false} ForwardReleases(net: Topology, s: State, routes: seq<Route>)
    requires net.Valid() && Fits(net, s) && forall r :: r in routes ==> net.Registered(r)
    ensures Release(net, s, ForwardUnthrottle(net, s, routes))
    decreases Indices(s.cached, true), |routes| + 1
  {
    if routes != [] {
      assert net.Registered(routes[0]);
      var next := if routes[0].autoThrottling then TargetNotifyUnthrottle(net, s, routes[0].target) else s;
      if routes[0].autoThrottling {
        TargetReleases(net, s, routes[0].target);
      }
      assert Indices(next.cached, true) <= Indices(s.cached, true);
      ForwardReleases(net, next, routes[1..]);
      ReleasesCompose(net, s, next, ForwardUnthrottle(net, next, routes[1..]));
    }
  }

  lemma {:induction false} TargetReleases(net: Topology, s: State, x: Target)
    requires net.Valid() && Fits(net, s) && net.IsTarget(x)
    ensures Release(net, s, TargetNotifyUnthrottle(net, s, x))
    decreases Indices(s.cached, true), 1
  {
    if !AnyThrottled(net, s, x) {
      match x
      case ToPassive(p) =>
        var cleared := s.(remote := s.remote[p := false]);
        if !s.native[p] && net.passivePeer[p].Some? {
          ActiveReleases(net, cleared, net.passivePeer[p].value);
          ReleasesCompose(net, s, cleared, ActiveNotifyUnthrottle(net, cleared, net.passivePeer[p].value));
        }
      case ToEvent(e) =>
        EventUnthrottleWave(net, s, e);
    }
  }

  // ------------------------------------------------------------------------------------------
  // What wakes an event

  /** Bits are only cleared, an event that is released is enabled, and only released events are enabled. */
  ghost predicate Wakes(net: Topology, s: State, t: State) {
    && net.Valid() && Fits(net, s) && Fits(net, t)
    && OnlyClears(net, s, t)
    && (forall e :: 0 <= e < |s.eventEnabled| && s.eventThrottled[e] && !t.eventThrottled[e] ==> t.eventEnabled[e])
    && (forall e :: 0 <= e < |s.eventEnabled| && !s.eventEnabled[e] && t.eventEnabled[e] ==> s.eventThrottled[e])
  }

  /** An event behind the route is throttled, or was already woken. */
  predicate Settled(net: Topology, s: State, r: Route)
    requires Fits(net, s)
  {
    r.autoThrottling && r.target.ToEvent? && r.target.e < |net.eventRoutes| ==>
      s.eventThrottled[r.target.e] || s.eventEnabled[r.target.e]
  }

  /** The events behind notified connectors are settled. */
  ghost predicate AllSettled(net: Topology, s: State)
    requires net.Valid() && Fits(net, s)
  {
    forall a, r :: 0 <= a < |s.cached| && s.cached[a] && r in net.notifyRoutes[a] ==> Settled(net, s, r)
  }

  lemma WakesCompose(net: Topology, s: State, t: State, u: State)
    requires Wakes(net, s, t) && Wakes(net, t, u)
    ensures Wakes(net, s, u)
  {
  }

  lemma WakingSettles(net: Topology, s: State, t: State, r: Route)
    requires Wakes(net, s, t) && Settled(net, s, r)
    ensures Settled(net, t, r)
  {
  }

  lemma StaySettled(net: Topology, s: State, t: State)
    requires Wakes(net, s, t) && AllSettled(net, s)
    ensures AllSettled(net, t)
  {
    forall a, r | 0 <= a < |t.cached| && t.cached[a] && r in net.notifyRoutes[a] ensures Settled(net, t, r) {
      WakingSettles(net, s, t, r);
    }
  }

  lemma {:induction false} ActiveWakes(net: Topology, s: State, a: nat)
    requires net.Valid() && Fits(net, s) && a < |net.activePeer| && AllSettled(net, s)
    ensures Wakes(net, s, ActiveNotifyUnthrottle(net, s, a))
    decreases Indices(s.cached, true), 0
  {
    if s.cached[a] {
      var cleared := s.(cached := s.cached[a := false], calls := s.calls + [Call(Active(a), false)]);
      assert Indices(cleared.cached, true) < Indices(s.cached, true) by {
        assert a in Indices(s.cached, true) && a !in Indices(cleared.cached, true);
      }
      StaySettled(net, s, cleared);
      forall r | r in net.notifyRoutes[a] ensures net.Registered(r) && Settled(net, cleared, r) {
        WakingSettles(net, s, cleared, r);
      }
      ForwardWakes(net, cleared, net.notifyRoutes[a]);
      WakesCompose(net, s, cleared, ForwardUnthrottle(net, cleared, net.notifyRoutes[a]));
    }
  }

  lemma {:induction false} ForwardWakes(net: Topology, s: State, routes: seq<Route>)
    requires net.Valid() && Fits(net, s) && AllSettled(net, s)
    requires forall r :: r in routes ==> net.Registered(r) && Settled(net, s, r)
    ensures Wakes(net, s, ForwardUnthrottle(net, s, routes))
    decreases Indices(s.cached, true), |routes| + 1
  {
    if routes != [] {
      var r := routes[0];
      assert net.Registered(r) && Settled(net, s, r);
      var next := if r.autoThrottling then TargetNotifyUnthrottle(net, s, r.target) else s;
      if r.autoThrottling {
        TargetWakes(net, s, r);
      }
      assert Indices(next.cached, true) <= Indices(s.cached, true);
      StaySettled(net, s, next);
      forall x | x in routes[1..] ensures Settled(net, next, x) {
        WakingSettles(net, s, next, x);
      }
      ForwardWakes(net, next, routes[1..]);
      WakesCompose(net, s, next, ForwardUnthrottle(net, next, routes[1..]));
    }
  }

  lemma {:induction false} TargetWakes(net: Topology, s: State, r: Route)
    requires net.Valid() && Fits(net, s) && AllSettled(net, s)
    requires net.Registered(r) && r.autoThrottling && Settled(net, s, r)
    ensures Wakes(net, s, TargetNotifyUnthrottle(net, s, r.target))
    decreases Indices(s.cached, true), 1
  {
    if !AnyThrottled(net, s, r.target) {
      match r.target
      case ToPassive(p) =>
        var cleared := s.(remote := s.remote[p := false]);
        if !s.native[p] && net.passivePeer[p].Some? {
          StaySettled(net, s, cleared);
          ActiveWakes(net, cleared, net.passivePeer[p].value);
          WakesCompose(net, s, cleared, ActiveNotifyUnthrottle(net, cleared, net.passivePeer[p].value));
        }
      case ToEvent(e) =>
    }
  }
}
