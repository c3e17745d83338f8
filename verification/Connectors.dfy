/**
 The connectors as objects. Notifications are methods that change the bits of the objects in
 place and call each other recursively; each one is proved to do to the object graph what the
 corresponding function of module Network does to its snapshot.
 */
module Connectors {
  import opened Common
  import opened Network

  class PassiveConnector {
    var nativeThrottled: bool
    var remoteThrottled: bool

    constructor ()
      ensures !nativeThrottled && !remoteThrottled
    {
      nativeThrottled, remoteThrottled := false, false;
    }

    predicate Throttled()
      reads this
    {
      nativeThrottled || remoteThrottled
    }
  }

  class ActiveConnector {
    var throttled: bool

    constructor ()
      ensures !throttled
    {
      throttled := false;
    }
  }

  class EventDescriptor {
    var throttled: bool
    var enabled: bool

    constructor ()
      ensures !throttled && !enabled
    {
      throttled, enabled := false, false;
    }
  }

  /** A wired set of connectors and events together with the module manager's initialisation queue. */
  class Ppi {
    const net: Topology
    const passives: seq<PassiveConnector>
    const actives: seq<ActiveConnector>
    const events: seq<EventDescriptor>
    var initQueue: seq<Step>
    ghost var calls: seq<Call>

    ghost predicate Valid() {
      && net.Valid()
      && |passives| == |net.passivePeer| && Distinct(passives)
      && |actives| == |net.activePeer| && Distinct(actives)
      && |events| == |net.eventRoutes| && Distinct(events)
    }

    ghost function Snapshot(): (s: State)
      requires Valid()
      reads this, passives, actives, events
      ensures Fits(net, s)
    {
      State(seq(|passives|, i requires 0 <= i < |passives| reads passives => passives[i].nativeThrottled),
            seq(|passives|, i requires 0 <= i < |passives| reads passives => passives[i].remoteThrottled),
            seq(|actives|, i requires 0 <= i < |actives| reads actives => actives[i].throttled),
            seq(|events|, i requires 0 <= i < |events| reads events => events[i].throttled),
            seq(|events|, i requires 0 <= i < |events| reads events => events[i].enabled),
            calls)
    }

    method PassiveThrottled(p: nat) returns (b: bool)
      requires Valid() && p < |passives|
      ensures b == Throttled(Snapshot(), p)
    {
      b := passives[p].Throttled();
    }

    method ActiveConnectorThrottled(a: nat) returns (b: bool)
      requires Valid() && a < |actives|
      ensures b == ActiveThrottled(net, Snapshot(), a)
    {
      match net.activePeer[a]
      case None => b := true;
      case Some(p) => b := passives[p].Throttled();
    }

    /** The search over the registered routes of a notification target. */
    method FindThrottledRoute(t: Target) returns (found: bool)
      requires Valid() && net.IsTarget(t)
      ensures found == AnyThrottled(net, Snapshot(), t)
    {
      var routes := net.RoutesInto(t);
      for i := 0 to |routes|
        invariant forall r :: r in routes[..i] ==> !RouteThrottled(net, Snapshot(), r)
      {
        assert routes[i] in routes;
        if routes[i].autoThrottling {
          var b := ActiveConnectorThrottled(routes[i].source);
          if b {
            assert RouteThrottled(net, Snapshot(), routes[i]);
            return true;
          }
        }
        assert routes[..i + 1] == routes[..i] + [routes[i]];
      }
      assert routes[..|routes|] == routes;
      return false;
    }

    method ActiveNotifyThrottle(a: nat)
      requires Valid() && a < |actives|
      modifies this`calls, passives`remoteThrottled, actives, events
      ensures Snapshot() == Network.ActiveNotifyThrottle(net, old(Snapshot()), a)
      decreases Indices(Snapshot().cached, false), 0
    {
      ghost var s := Snapshot();
      if !actives[a].throttled {
        actives[a].throttled := true;
        calls := calls + [Call(Active(a), true)];
        ghost var marked := s.(cached := s.cached[a := true], calls := s.calls + [Call(Active(a), true)]);
        assert Snapshot() == marked;
        assert a in Indices(s.cached, false) && a !in Indices(marked.cached, false);
        ForwardThrottle(net.notifyRoutes[a]);
      }
    }

    method ForwardThrottle(routes: seq<Route>)
      requires Valid() && forall r :: r in routes ==> net.Registered(r)
      modifies this`calls, passives`remoteThrottled, actives, events
      ensures Snapshot() == Network.ForwardThrottle(net, old(Snapshot()), routes)
      decreases Indices(Snapshot().cached, false), |routes| + 1
    {
      ghost var s := Snapshot();
      for i := 0 to |routes|
        invariant Below(s.cached, Snapshot().cached)
        invariant Network.ForwardThrottle(net, s, routes) == Network.ForwardThrottle(net, Snapshot(), routes[i..])
      {
        assert net.Registered(routes[i]);
        assert Indices(Snapshot().cached, false) <= Indices(s.cached, false);
        assert routes[i..][0] == routes[i] && routes[i..][1..] == routes[i + 1..];
        if routes[i].autoThrottling {
          TargetNotifyThrottle(routes[i].target);
        }
      }
    }

    method TargetNotifyThrottle(t: Target)
      requires Valid() && net.IsTarget(t)
      modifies this`calls, passives`remoteThrottled, actives, events
      ensures Snapshot() == Network.TargetNotifyThrottle(net, old(Snapshot()), t)
      decreases Indices(Snapshot().cached, false), 1
    {
      ghost var s := Snapshot();
      match t
      case ToPassive(p) =>
        var was := passives[p].Throttled();
        passives[p].remoteThrottled := true;
        assert Snapshot() == s.(remote := s.remote[p := true]);
        if !was {
          EmitThrottle(p);
        }
      case ToEvent(e) =>
        events[e].throttled := true;
        assert Snapshot() == s.(eventThrottled := s.eventThrottled[e := true]);
        SetEnabled(e, false);
    }

    method EmitThrottle(p: nat)
      requires Valid() && p < |passives|
      modifies this`calls, passives`remoteThrottled, actives, events
      ensures Snapshot() == Network.EmitThrottle(net, old(Snapshot()), p)
      decreases Indices(Snapshot().cached, false), 1, 0
    {
      if net.passivePeer[p].Some? {
        ActiveNotifyThrottle(net.passivePeer[p].value);
      }
    }

    method SetEnabled(e: nat, v: bool)
      requires Valid() && e < |events|
      modifies this`calls, events
      ensures Snapshot() == Network.SetEnabled(net, old(Snapshot()), e, v)
    {
      ghost var s := Snapshot();
      if events[e].throttled && v {
        return;
      }
      if v != events[e].enabled {
        calls := calls + [Call(Event(e), v)];
      }
      events[e].enabled := v;
      assert Snapshot().eventEnabled == s.eventEnabled[e := v];
      assert Snapshot() == s.(eventEnabled := s.eventEnabled[e := v], calls := calls);
    }

    method ActiveNotifyUnthrottle(a: nat)
      requires Valid() && a < |actives|
      modifies this`calls, passives`remoteThrottled, actives, events
      ensures Snapshot() == Network.ActiveNotifyUnthrottle(net, old(Snapshot()), a)
      decreases Indices(Snapshot().cached, true), 0
    {
      ghost var s := Snapshot();
      if actives[a].throttled {
        actives[a].throttled := false;
        calls := calls + [Call(Active(a), false)];
        ghost var cleared := s.(cached := s.cached[a := false], calls := s.calls + [Call(Active(a), false)]);
        assert Snapshot() == cleared;
        assert a in Indices(s.cached, true) && a !in Indices(cleared.cached, true);
        ForwardUnthrottle(net.notifyRoutes[a]);
      }
    }

    method ForwardUnthrottle(routes: seq<Route>)
      requires Valid() && forall r :: r in routes ==> net.Registered(r)
      modifies this`calls, passives`remoteThrottled, actives, events
      ensures Snapshot() == Network.ForwardUnthrottle(net, old(Snapshot()), routes)
      decreases Indices(Snapshot().cached, true), |routes| + 1
    {
      ghost var s := Snapshot();
      for i := 0 to |routes|
        invariant Below(Snapshot().cached, s.cached)
        invariant Network.ForwardUnthrottle(net, s, routes) == Network.ForwardUnthrottle(net, Snapshot(), routes[i..])
      {
        assert net.Registered(routes[i]);
        assert Indices(Snapshot().cached, true) <= Indices(s.cached, true);
        assert routes[i..][0] == routes[i] && routes[i..][1..] == routes[i + 1..];
        if routes[i].autoThrottling {
          TargetNotifyUnthrottle(routes[i].target);
        }
      }
    }

    method TargetNotifyUnthrottle(t: Target)
      requires Valid() && net.IsTarget(t)
      modifies this`calls, passives`remoteThrottled, actives, events
      ensures Snapshot() == Network.TargetNotifyUnthrottle(net, old(Snapshot()), t)
      decreases Indices(Snapshot().cached, true), 1
    {
      ghost var s := Snapshot();
      var found := FindThrottledRoute(t);
      if !found {
        match t
        case ToPassive(p) =>
          passives[p].remoteThrottled := false;
          assert Snapshot() == s.(remote := s.remote[p := false]);
          if !passives[p].nativeThrottled {
            EmitUnthrottle(p);
          }
        case ToEvent(e) =>
          events[e].throttled := false;
          assert Snapshot() == s.(eventThrottled := s.eventThrottled[e := false]);
          SetEnabled(e, true);
      }
    }

    method EmitUnthrottle(p: nat)
      requires Valid() && p < |passives|
      modifies this`calls, passives`remoteThrottled, actives, events
      ensures Snapshot() == Network.EmitUnthrottle(net, old(Snapshot()), p)
      decreases Indices(Snapshot().cached, true), 1, 0
    {
      if net.passivePeer[p].Some? {
        ActiveNotifyUnthrottle(net.passivePeer[p].value);
      }
    }

    method Throttle(p: nat)
      requires Valid() && p < |passives|
      modifies this`calls, passives, actives, events
      ensures Snapshot() == Network.Throttle(net, old(Snapshot()), p)
    {
      ghost var s := Snapshot();
      var was := passives[p].Throttled();
      passives[p].nativeThrottled := true;
      assert Snapshot() == s.(native := s.native[p := true]);
      if !was {
        EmitThrottle(p);
      }
    }

    method Unthrottle(p: nat)
      requires Valid() && p < |passives|
      modifies this`calls, passives, actives, events
      ensures Snapshot() == Network.Unthrottle(net, old(Snapshot()), p)
    {
      ghost var s := Snapshot();
      var emit := passives[p].Throttled() && !passives[p].remoteThrottled;
      passives[p].nativeThrottled := false;
      assert Snapshot() == s.(native := s.native[p := false]);
      if emit {
        EmitUnthrottle(p);
      }
    }

    method InitPassive(p: nat)
      requires Valid() && p < |passives|
      modifies this`calls, passives`remoteThrottled, actives, events
      ensures Snapshot() == Network.InitPassive(net, old(Snapshot()), p)
    {
      ghost var s := Snapshot();
      var found := FindThrottledRoute(ToPassive(p));
      if !found {
        passives[p].remoteThrottled := false;
        assert Snapshot() == s.(remote := s.remote[p := false]);
      }
      if passives[p].Throttled() {
        EmitThrottle(p);
      } else {
        EmitUnthrottle(p);
      }
    }

    method InitActive(a: nat)
      requires Valid() && a < |actives|
      modifies this`calls, passives`remoteThrottled, actives, events
      ensures Snapshot() == Network.InitActive(net, old(Snapshot()), a)
    {
      if net.activePeer[a].None? {
        ActiveNotifyThrottle(a);
      }
    }

    /** One entry of the initialisation queue, or any other step taken from outside. */
    method Perform(step: Step)
      requires Valid()
      modifies this`calls, passives, actives, events
      ensures Snapshot() == Apply(net, old(Snapshot()), step)
    {
      match step
      case DoThrottle(p) => if p < |passives| { Throttle(p); }
      case DoUnthrottle(p) => if p < |passives| { Unthrottle(p); }
      case DoInitPassive(p) => if p < |passives| { InitPassive(p); }
      case DoInitActive(a) => if a < |actives| { InitActive(a); }
      case DoEnable(e, v) => if e < |events| { SetEnabled(e, v); }
    }

    /** Initialises the module or connector at the front of the queue. */
    method InitNext(ghost start: State, ghost queue: seq<Step>, ghost i: nat)
      requires Valid() && i < |queue| && initQueue == queue[i..]
      requires Fits(net, start) && Snapshot() == Run(net, start, queue[..i])
      modifies this, passives, actives, events
      ensures initQueue == queue[i + 1..] && Snapshot() == Run(net, start, queue[..i + 1])
    {
      assert queue[..i + 1][..i] == queue[..i];
      Perform(initQueue[0]);
      initQueue := initQueue[1..];
    }

    /** ModuleManager::init(): works off the initialisation queue front to back. */
    method Init()
      requires Valid()
      modifies this, passives, actives, events
      ensures initQueue == []
      ensures Snapshot() == Run(net, old(Snapshot()), old(initQueue))
    {
      ghost var start, queue, i := Snapshot(), initQueue, 0;
      while initQueue != []
        invariant 0 <= i <= |queue| && initQueue == queue[i..]
        invariant Snapshot() == Run(net, start, queue[..i])
        decreases |initQueue|
      {
        assert initQueue[0] == queue[i];
        InitNext(start, queue, i);
        i := i + 1;
      }
      assert queue[..i] == queue;
    }

    constructor (net: Topology, queue: seq<Step>)
      requires net.Valid()
      ensures Valid() && this.net == net && initQueue == queue
      ensures fresh(passives) && fresh(actives) && fresh(events)
      ensures Snapshot() == Fresh(net)
    {
      var ps := NewPassives(|net.passivePeer|);
      var acs := NewActives(|net.activePeer|);
      var es := NewEvents(|net.eventRoutes|);
      this.net, passives, actives, events := net, ps, acs, es;
      initQueue := queue;
      calls := [];
      new;
      assert Snapshot() == Fresh(net);
    }
  }

  method NewPassives(n: nat) returns (ps: seq<PassiveConnector>)
    ensures |ps| == n && Distinct(ps) && fresh(ps)
    ensures forall k :: 0 <= k < n ==> !ps[k].nativeThrottled && !ps[k].remoteThrottled
  {
    ps := [];
    for i := 0 to n
      invariant |ps| == i && Distinct(ps) && fresh(ps)
      invariant forall k :: 0 <= k < i ==> !ps[k].nativeThrottled && !ps[k].remoteThrottled
    {
      var p := new PassiveConnector();
      ps := ps + [p];
    }
  }

  method NewActives(n: nat) returns (acs: seq<ActiveConnector>)
    ensures |acs| == n && Distinct(acs) && fresh(acs)
    ensures forall k :: 0 <= k < n ==> !acs[k].throttled
  {
    acs := [];
    for i := 0 to n
      invariant |acs| == i && Distinct(acs) && fresh(acs)
      invariant forall k :: 0 <= k < i ==> !acs[k].throttled
    {
      var a := new ActiveConnector();
      acs := acs + [a];
    }
  }

  method NewEvents(n: nat) returns (es: seq<EventDescriptor>)
    ensures |es| == n && Distinct(es) && fresh(es)
    ensures forall k :: 0 <= k < n ==> !es[k].throttled && !es[k].enabled
  {
    es := [];
    for i := 0 to n
      invariant |es| == i && Distinct(es) && fresh(es)
      invariant forall k :: 0 <= k < i ==> !es[k].throttled && !es[k].enabled
    {
      var e := new EventDescriptor();
      es := es + [e];
    }
  }
}
