/**
 The throttling protocol of the packet processing infrastructure.

 Passive connectors carry a native and a forwarded throttle bit, active connectors remember the
 last notification they acted on, and forwarding routes carry notifications from an active
 connector to passive connectors and events of the same module. Nothing is ever recomputed
 globally: a change travels as a recursive chain of notifications. The functions below are those
 notifications on a value that holds the whole network state.
 */
module Network {
  import opened Common

  /** What a forwarding route notifies. */
  datatype Target = ToPassive(p: nat) | ToEvent(e: nat)

  /** A forwarding route from an active connector to a notification target. */
  datatype Route = Route(source: nat, target: Target, autoThrottling: bool)

  /** The wiring of a network: peers of the connectors and the routes registered with each of them. */
  datatype Topology = Topology(
    activePeer: seq<Option<nat>>,
    passivePeer: seq<Option<nat>>,
    notifyRoutes: seq<seq<Route>>,
    passiveRoutes: seq<seq<Route>>,
    eventRoutes: seq<seq<Route>>)
  {
    predicate IsTarget(t: Target) {
      match t
      case ToPassive(p) => p < |passiveRoutes|
      case ToEvent(e) => e < |eventRoutes|
    }

    function RoutesInto(t: Target): seq<Route>
      requires IsTarget(t)
    {
      match t
      case ToPassive(p) => passiveRoutes[p]
      case ToEvent(e) => eventRoutes[e]
    }

    /** Every route in the list starts at a connector of the network and is registered at both ends. */
    ghost predicate Registered(r: Route) {
      r.source < |notifyRoutes| && IsTarget(r.target) && r in notifyRoutes[r.source] && r in RoutesInto(r.target)
    }

    ghost predicate PeersMatch() {
      && (forall a :: 0 <= a < |activePeer| && activePeer[a].Some? ==>
           activePeer[a].value < |passivePeer| && passivePeer[activePeer[a].value] == Some(a))
      && (forall p :: 0 <= p < |passivePeer| && passivePeer[p].Some? ==>
           passivePeer[p].value < |activePeer| && activePeer[passivePeer[p].value] == Some(p))
    }

    ghost predicate Valid() {
      && |notifyRoutes| == |activePeer|
      && |passiveRoutes| == |passivePeer|
      && PeersMatch()
      && (forall a, r :: 0 <= a < |notifyRoutes| && r in notifyRoutes[a] ==> r.source == a && Registered(r))
      && (forall t: Target, r :: IsTarget(t) && r in RoutesInto(t) ==> r.target == t && Registered(r))
    }
  }

  /** Who received a callback: the module behind an active connector, or an event implementation. */
  datatype Callee = Active(a: nat) | Event(e: nat)

  /** A call of throttleCallback_/unthrottleCallback_ (on = throttle) or of v_enable/v_disable (on = enable). */
  datatype Call = Call(callee: Callee, on: bool)

  datatype State = State(
    native: seq<bool>,
    remote: seq<bool>,
    cached: seq<bool>,
    eventThrottled: seq<bool>,
    eventEnabled: seq<bool>,
    calls: seq<Call>)

  predicate Fits(net: Topology, s: State) {
    && |s.native| == |s.remote| == |net.passivePeer|
    && |s.cached| == |net.activePeer|
    && |s.eventThrottled| == |s.eventEnabled| == |net.eventRoutes|
  }

  predicate Throttled(s: State, p: nat)
    requires p < |s.native| == |s.remote|
  {
    s.native[p] || s.remote[p]
  }

  /** ActiveConnector::throttled(): the live state of the peer, not the remembered notification. */
  predicate ActiveThrottled(net: Topology, s: State, a: nat)
    requires net.Valid() && Fits(net, s) && a < |net.activePeer|
  {
    net.activePeer[a].None? || Throttled(s, net.activePeer[a].value)
  }

  predicate RouteThrottled(net: Topology, s: State, r: Route)
    requires net.Valid() && Fits(net, s) && r.source < |net.activePeer|
  {
    r.autoThrottling && ActiveThrottled(net, s, r.source)
  }

  /** The search every notification target makes over its registered routes. */
  predicate AnyThrottled(net: Topology, s: State, t: Target)
    requires net.Valid() && Fits(net, s) && net.IsTarget(t)
  {
    exists r :: r in net.RoutesInto(t) && RouteThrottled(net, s, r)
  }

  /** The forwarded throttle bit of a notification target. */
  predicate Forwarded(net: Topology, s: State, t: Target)
    requires net.Valid() && Fits(net, s) && net.IsTarget(t)
  {
    match t
    case ToPassive(p) => s.remote[p]
    case ToEvent(e) => s.eventThrottled[e]
  }

  function Indices(bits: seq<bool>, value: bool): set<int> {
    set i | 0 <= i < |bits| && bits[i] == value
  }

  ghost predicate Below(x: seq<bool>, y: seq<bool>) {
    |x| == |y| && forall i :: 0 <= i < |x| && x[i] ==> y[i]
  }

  // ------------------------------------------------------------------------------------------
  // Throttle notifications

  function ActiveNotifyThrottle(net: Topology, s: State, a: nat): (r: State)
    requires net.Valid() && Fits(net, s) && a < |net.activePeer|
    ensures Fits(net, r) && Below(s.cached, r.cached)
    decreases Indices(s.cached, false), 0
  {
    if s.cached[a] then
      s
    else
      var marked := s.(cached := s.cached[a := true], calls := s.calls + [Call(Active(a), true)]);
      assert Indices(marked.cached, false) < Indices(s.cached, false) by {
        assert a in Indices(s.cached, false) && a !in Indices(marked.cached, false);
      }
      ForwardThrottle(net, marked, net.notifyRoutes[a])
  }

  function ForwardThrottle(net: Topology, s: State, routes: seq<Route>): (r: State)
    requires net.Valid() && Fits(net, s) && forall x :: x in routes ==> net.Registered(x)
    ensures Fits(net, r) && Below(s.cached, r.cached)
    decreases Indices(s.cached, false), |routes| + 1
  {
    if routes == [] then
      s
    else
      assert net.Registered(routes[0]);
      var next := if routes[0].autoThrottling then TargetNotifyThrottle(net, s, routes[0].target) else s;
      assert Indices(next.cached, false) <= Indices(s.cached, false);
      ForwardThrottle(net, next, routes[1..])
  }

  function TargetNotifyThrottle(net: Topology, s: State, t: Target): (r: State)
    requires net.Valid() && Fits(net, s) && net.IsTarget(t)
    ensures Fits(net, r) && Below(s.cached, r.cached)
    decreases Indices(s.cached, false), 1
  {
    match t
    case ToPassive(p) =>
      var marked := s.(remote := s.remote[p := true]);
      if Throttled(s, p) then marked else EmitThrottle(net, marked, p)
    case ToEvent(e) =>
      SetEnabled(net, s.(eventThrottled := s.eventThrottled[e := true]), e, false)
  }

  function EmitThrottle(net: Topology, s: State, p: nat): (r: State)
    requires net.Valid() && Fits(net, s) && p < |net.passivePeer|
    ensures Fits(net, r) && Below(s.cached, r.cached)
    decreases Indices(s.cached, false), 1, 0
  {
    if net.passivePeer[p].Some? then ActiveNotifyThrottle(net, s, net.passivePeer[p].value) else s
  }

  /** EventDescriptor::enabled(bool). */
  function SetEnabled(net: Topology, s: State, e: nat, v: bool): (r: State)
    requires net.Valid() && Fits(net, s) && e < |net.eventRoutes|
    ensures Fits(net, r)
  {
    if s.eventThrottled[e] && v then
      s
    else if v == s.eventEnabled[e] then
      s
    else
      s.(eventEnabled := s.eventEnabled[e := v], calls := s.calls + [Call(Event(e), v)])
  }

  // ------------------------------------------------------------------------------------------
  // Unthrottle notifications

  function ActiveNotifyUnthrottle(net: Topology, s: State, a: nat): (r: State)
    requires net.Valid() && Fits(net, s) && a < |net.activePeer|
    ensures Fits(net, r) && Below(r.cached, s.cached)
    decreases Indices(s.cached, true), 0
  {
    if !s.cached[a] then
      s
    else
      var cleared := s.(cached := s.cached[a := false], calls := s.calls + [Call(Active(a), false)]);
      assert Indices(cleared.cached, true) < Indices(s.cached, true) by {
        assert a in Indices(s.cached, true) && a !in Indices(cleared.cached, true);
      }
      ForwardUnthrottle(net, cleared, net.notifyRoutes[a])
  }

  function ForwardUnthrottle(net: Topology, s: State, routes: seq<Route>): (r: State)
    requires net.Valid() && Fits(net, s) && forall x :: x in routes ==> net.Registered(x)
    ensures Fits(net, r) && Below(r.cached, s.cached)
    decreases Indices(s.cached, true), |routes| + 1
  {
    if routes == [] then
      s
    else
      assert net.Registered(routes[0]);
      var next := if routes[0].autoThrottling then TargetNotifyUnthrottle(net, s, routes[0].target) else s;
      assert Indices(next.cached, true) <= Indices(s.cached, true);
      ForwardUnthrottle(net, next, routes[1..])
  }

  function TargetNotifyUnthrottle(net: Topology, s: State, t: Target): (r: State)
    requires net.Valid() && Fits(net, s) && net.IsTarget(t)
    ensures Fits(net, r) && Below(r.cached, s.cached)
    decreases Indices(s.cached, true), 1
  {
    if AnyThrottled(net, s, t) then
      s
    else
      match t
      case ToPassive(p) =>
        var cleared := s.(remote := s.remote[p := false]);
        if s.native[p] then cleared else EmitUnthrottle(net, cleared, p)
      case ToEvent(e) =>
        SetEnabled(net, s.(eventThrottled := s.eventThrottled[e := false]), e, true)
  }

  function EmitUnthrottle(net: Topology, s: State, p: nat): (r: State)
    requires net.Valid() && Fits(net, s) && p < |net.passivePeer|
    ensures Fits(net, r) && Below(r.cached, s.cached)
    decreases Indices(s.cached, true), 1, 0
  {
    if net.passivePeer[p].Some? then ActiveNotifyUnthrottle(net, s, net.passivePeer[p].value) else s
  }

  // ------------------------------------------------------------------------------------------
  // Steps and runs

  function Throttle(net: Topology, s: State, p: nat): (r: State)
    requires net.Valid() && Fits(net, s) && p < |net.passivePeer|
    ensures Fits(net, r)
  {
    var marked := s.(native := s.native[p := true]);
    if Throttled(s, p) then marked else EmitThrottle(net, marked, p)
  }

  function Unthrottle(net: Topology, s: State, p: nat): (r: State)
    requires net.Valid() && Fits(net, s) && p < |net.passivePeer|
    ensures Fits(net, r)
  {
    var cleared := s.(native := s.native[p := false]);
    if Throttled(s, p) && !s.remote[p] then EmitUnthrottle(net, cleared, p) else cleared
  }

  /** PassiveConnector::v_init(). */
  function InitPassive(net: Topology, s: State, p: nat): (r: State)
    requires net.Valid() && Fits(net, s) && p < |net.passivePeer|
    ensures Fits(net, r)
  {
    var checked := if AnyThrottled(net, s, ToPassive(p)) then s else s.(remote := s.remote[p := false]);
    if Throttled(checked, p) then EmitThrottle(net, checked, p) else EmitUnthrottle(net, checked, p)
  }

  /** ActiveConnector::v_init(). */
  function InitActive(net: Topology, s: State, a: nat): (r: State)
    requires net.Valid() && Fits(net, s) && a < |net.activePeer|
    ensures Fits(net, r)
  {
    if net.activePeer[a].None? then ActiveNotifyThrottle(net, s, a) else s
  }

  /** What modules and the framework may do to the network from outside; bad indices name nothing. */
  datatype Step =
    | DoThrottle(p: nat)
    | DoUnthrottle(p: nat)
    | DoInitPassive(p: nat)
    | DoInitActive(a: nat)
    | DoEnable(e: nat, v: bool)

  function Apply(net: Topology, s: State, step: Step): (r: State)
    requires net.Valid() && Fits(net, s)
    ensures Fits(net, r)
  {
    match step
    case DoThrottle(p) => if p < |net.passivePeer| then Throttle(net, s, p) else s
    case DoUnthrottle(p) => if p < |net.passivePeer| then Unthrottle(net, s, p) else s
    case DoInitPassive(p) => if p < |net.passivePeer| then InitPassive(net, s, p) else s
    case DoInitActive(a) => if a < |net.activePeer| then InitActive(net, s, a) else s
    case DoEnable(e, v) => if e < |net.eventRoutes| then SetEnabled(net, s, e, v) else s
  }

  function Run(net: Topology, s: State, script: seq<Step>): (r: State)
    requires net.Valid() && Fits(net, s)
    ensures Fits(net, r)
  {
    if script == [] then s else Apply(net, Run(net, s, script[..|script| - 1]), script[|script| - 1])
  }

  /** The state right after construction: nothing throttled, nothing enabled, nothing called. */
  function Fresh(net: Topology): (r: State)
    requires net.Valid()
    ensures Fits(net, r)
  {
    State(AllFalse(|net.passivePeer|), AllFalse(|net.passivePeer|), AllFalse(|net.activePeer|),
          AllFalse(|net.eventRoutes|), AllFalse(|net.eventRoutes|), [])
  }

  function AllFalse(n: nat): (r: seq<bool>)
    ensures |r| == n && forall i :: 0 <= i < n ==> !r[i]
  {
    seq(n, _ => false)
  }
}
