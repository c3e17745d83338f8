/**
 The declarative meaning of throttling: a passive connector is throttled when a source of
 throttling is reachable from it against the direction of the notifications.

 Reachability is the least solution of the equation that coherence states. The incremental protocol
 agrees with it in every run exactly on the networks without a live cycle.
 */
module Reachability {
  import opened Common
  import opened Network
  import opened Waves
  import opened Exactness

  /** Throttling of p is forwarded to q: p's peer has an automatic route to q. */
  ghost predicate Feeds(net: Topology, p: nat, q: nat)
    requires net.Valid()
  {
    && p < |net.passivePeer| && q < |net.passivePeer|
    && net.passivePeer[p].Some?
    && exists r :: r in net.notifyRoutes[net.passivePeer[p].value] && r.autoThrottling && r.target == ToPassive(q)
  }

  /** An automatic route leads from an unconnected active connector to q. */
  ghost predicate Cut(net: Topology, q: nat)
    requires net.Valid() && q < |net.passivePeer|
  {
    exists r :: r in net.RoutesInto(ToPassive(q)) && r.autoThrottling && net.activePeer[r.source].None?
  }

  ghost predicate IsPath(net: Topology, path: seq<nat>)
    requires net.Valid()
  {
    && path != []
    && (forall i :: 0 <= i < |path| ==> path[i] < |net.passivePeer|)
    && (forall i :: 0 < i < |path| ==> Feeds(net, path[i - 1], path[i]))
  }

  /** A path from a source of throttling to q. */
  ghost predicate Explains(net: Topology, native: seq<bool>, path: seq<nat>, q: nat)
    requires net.Valid() && |native| == |net.passivePeer|
  {
    IsPath(net, path) && path[|path| - 1] == q && (native[path[0]] || Cut(net, path[0]))
  }

  ghost predicate Reachable(net: Topology, native: seq<bool>, q: nat)
    requires net.Valid() && |native| == |net.passivePeer|
  {
    exists path :: Explains(net, native, path, q)
  }

  /** The protocol state is exactly the declarative one, and every active connector knows its state. */
  ghost predicate Exact(net: Topology, s: State)
    requires net.Valid() && Fits(net, s)
  {
    && (forall p :: 0 <= p < |s.native| ==> (Throttled(s, p) <==> Reachable(net, s.native, p)))
    && (forall a :: 0 <= a < |s.cached| ==> s.cached[a] == ActiveThrottled(net, s, a))
    && (forall e :: 0 <= e < |s.eventThrottled| ==> s.eventThrottled[e] == AnyThrottled(net, s, ToEvent(e)))
  }

  // ------------------------------------------------------------------------------------------
  // Reachability implies throttling, on every network

  lemma {:induction false} ExplainedIsThrottled(net: Topology, s: State, path: seq<nat>, q: nat)
    requires Coherent(net, s) && Initialised(net, s) && Explains(net, s.native, path, q)
    ensures Throttled(s, q)
  {
    if |path| == 1 {
      if Cut(net, q) {
        var r :| r in net.RoutesInto(ToPassive(q)) && r.autoThrottling && net.activePeer[r.source].None?;
        assert s.cached[r.source];
        assert Notified(net, s, ToPassive(q));
        assert Forwarded(net, s, ToPassive(q));
      }
    } else {
      var p := path[|path| - 2];
      ExplainedIsThrottled(net, s, path[..|path| - 1], p);
      FeedsForwards(net, s, p, q);
    }
  }

  lemma FeedsForwards(net: Topology, s: State, p: nat, q: nat)
    requires Coherent(net, s) && Feeds(net, p, q) && Throttled(s, p)
    ensures s.remote[q]
  {
  }

  lemma ReachableIsThrottled(net: Topology, s: State, q: nat)
    requires Coherent(net, s) && Initialised(net, s) && q < |net.passivePeer|
    ensures Reachable(net, s.native, q) ==> Throttled(s, q)
  {
    if Reachable(net, s.native, q) {
      var path :| Explains(net, s.native, path, q);
      ExplainedIsThrottled(net, s, path, q);
    }
  }

  // ------------------------------------------------------------------------------------------
  // Live cycles

  /** Throttling that was natively set once can feed itself: a closed path that is not cut off for good. */
  ghost predicate IsLiveCycle(net: Topology, cycle: seq<nat>)
    requires net.Valid()
  {
    && |cycle| >= 2 && IsPath(net, cycle) && cycle[0] == cycle[|cycle| - 1]
    && !Reachable(net, AllFalse(|net.passivePeer|), cycle[0])
  }

  ghost predicate HasLiveCycle(net: Topology)
    requires net.Valid()
  {
    exists cycle :: IsLiveCycle(net, cycle)
  }

  /** A throttled connector without an explanation has a feeder of the same kind. */
  lemma UnexplainedHasFeeder(net: Topology, s: State, q: nat) returns (p: nat)
    requires Coherent(net, s) && Initialised(net, s) && q < |net.passivePeer|
    requires Throttled(s, q) && !Reachable(net, s.native, q)
    ensures Feeds(net, p, q) && Throttled(s, p) && !Reachable(net, s.native, p)
  {
    if s.native[q] || Cut(net, q) {
      assert Explains(net, s.native, [q], q);
      assert false;
    }
    assert Forwarded(net, s, ToPassive(q));
    var r :| r in net.RoutesInto(ToPassive(q)) && RouteThrottled(net, s, r);
    assert net.activePeer[r.source].Some?;
    p := net.activePeer[r.source].value;
    assert net.passivePeer[p] == Some(r.source) && r in net.notifyRoutes[r.source];
    assert Feeds(net, p, q);
    if Reachable(net, s.native, p) {
      var path :| Explains(net, s.native, path, p);
      assert Explains(net, s.native, path + [q], q);
    }
  }

  lemma {:induction false} UnexplainedChain(net: Topology, s: State, q: nat, n: nat) returns (chain: seq<nat>)
    requires Coherent(net, s) && Initialised(net, s) && q < |net.passivePeer|
    requires Throttled(s, q) && !Reachable(net, s.native, q)
    ensures |chain| == n + 1 && IsPath(net, chain)
    ensures forall i :: 0 <= i < |chain| ==> !Reachable(net, s.native, chain[i])
    ensures chain[n] == q
    decreases n
  {
    if n == 0 {
      chain := [q];
    } else {
      var p := UnexplainedHasFeeder(net, s, q);
      var front := UnexplainedChain(net, s, p, n - 1);
      chain := front + [q];
    }
  }

  /** A sequence longer than its range repeats an element. */
  lemma {:induction false} Pigeonhole(xs: seq<nat>, n: nat) returns (i: nat, j: nat)
    requires |xs| > n && forall k :: 0 <= k < |xs| ==> xs[k] < n
    ensures i < j < |xs| && xs[i] == xs[j]
    decreases n
  {
    var last := xs[|xs| - 1];
    if k :| 0 <= k < |xs| - 1 && xs[k] == last {
      i, j := k, |xs| - 1;
    } else {
      var ys := seq(|xs| - 1, k requires 0 <= k < |xs| - 1 => if xs[k] > last then xs[k] - 1 else xs[k]);
      i, j := Pigeonhole(ys, n - 1);
    }
  }

  /** Native throttling only adds explanations. */
  lemma FewerNativesReachLess(net: Topology, native: seq<bool>, q: nat)
    requires net.Valid() && |native| == |net.passivePeer| && Reachable(net, AllFalse(|native|), q)
    ensures Reachable(net, native, q)
  {
    var path :| Explains(net, AllFalse(|native|), path, q);
    assert Explains(net, native, path, q);
  }

  lemma UnexplainedMakesLiveCycle(net: Topology, s: State, q: nat)
    requires Coherent(net, s) && Initialised(net, s) && q < |net.passivePeer|
    requires Throttled(s, q) && !Reachable(net, s.native, q)
    ensures HasLiveCycle(net)
  {
    var chain := UnexplainedChain(net, s, q, |net.passivePeer|);
    var i, j := Pigeonhole(chain, |net.passivePeer|);
    var cycle := chain[i..j + 1];
    if Reachable(net, AllFalse(|net.passivePeer|), cycle[0]) {
      FewerNativesReachLess(net, s.native, cycle[0]);
    }
    assert IsLiveCycle(net, cycle);
  }

  /** Without a live cycle the protocol state is exactly the declarative one. */
  lemma CoherentIsExact(net: Topology, s: State)
    requires Coherent(net, s) && Initialised(net, s) && !HasLiveCycle(net)
    ensures Exact(net, s)
  {
    forall p | 0 <= p < |s.native|
      ensures Throttled(s, p) <==> Reachable(net, s.native, p)
    {
      ReachableIsThrottled(net, s, p);
      if Throttled(s, p) && !Reachable(net, s.native, p) {
        UnexplainedMakesLiveCycle(net, s, p);
      }
    }
    EventsAndActivesExact(net, s);
  }

  lemma EventsAndActivesExact(net: Topology, s: State)
    requires Coherent(net, s) && Initialised(net, s)
    ensures forall a :: 0 <= a < |s.cached| ==> s.cached[a] == ActiveThrottled(net, s, a)
    ensures forall e :: 0 <= e < |s.eventThrottled| ==> s.eventThrottled[e] == AnyThrottled(net, s, ToEvent(e))
  {
  }

  // ------------------------------------------------------------------------------------------
  // Live cycles latch

  /** The initialisation of all active connectors. */
  function InitScript(n: nat): (script: seq<Step>)
    ensures |script| == n && forall a :: 0 <= a < n ==> script[a] == DoInitActive(a)
  {
    seq(n, (a: nat) => DoInitActive(a))
  }

  lemma {:induction false} InitKeepsNative(net: Topology, n: nat)
    requires net.Valid()
    ensures Run(net, Fresh(net), InitScript(n)).native == Fresh(net).native
  {
    FreshCoheres(net);
    if n > 0 {
      assert InitScript(n)[..n - 1] == InitScript(n - 1);
      InitKeepsNative(net, n - 1);
      RunCoheres(net, Fresh(net), InitScript(n - 1));
      if n - 1 < |net.activePeer| {
        InitActiveCoheres(net, Run(net, Fresh(net), InitScript(n - 1)), n - 1);
      }
    }
  }

  /** On a live cycle, throttling a connector and taking it back does not lead back to the declarative state. */
  lemma CycleLatches(net: Topology, s: State, cycle: seq<nat>)
    requires Coherent(net, s) && Initialised(net, s) && IsLiveCycle(net, cycle)
    requires s.native == AllFalse(|net.passivePeer|)
    ensures !Exact(net, Unthrottle(net, Throttle(net, s, cycle[0]), cycle[0]))
  {
    var p := cycle[0];
    var on := Throttle(net, s, p);
    ThrottleCoheres(net, s, p);
    assert on.native[p];
    var feeder := cycle[|cycle| - 2];
    var path := cycle[..|cycle| - 1];
    assert Explains(net, on.native, path, feeder);
    ExplainedIsThrottled(net, on, path, feeder);
    assert Feeds(net, feeder, p);
    FeedsForwards(net, on, feeder, p);
    var off := Unthrottle(net, on, p);
    assert off.remote[p];
    assert off.native == AllFalse(|net.passivePeer|);
  }

  /** A set of connectors with forwarded throttling, each of which is fed by one of them. */
  ghost predicate Locked(net: Topology, s: State, lock: set<nat>) {
    && net.Valid() && Fits(net, s)
    && (forall p :: p in lock ==> p < |net.passivePeer| && s.remote[p])
    && (forall p {:trigger FedFrom(net, lock, p)} :: p in lock ==> FedFrom(net, lock, p))
  }

  ghost predicate FedFrom(net: Topology, lock: set<nat>, p: nat)
    requires net.Valid()
  {
    exists q :: q in lock && Feeds(net, q, p)
  }

  /** Whoever looks at the routes into a locked connector finds a throttled one. */
  lemma LockedIsThrottled(net: Topology, s: State, lock: set<nat>, p: nat)
    requires Locked(net, s, lock) && p in lock
    ensures AnyThrottled(net, s, ToPassive(p))
  {
    assert FedFrom(net, lock, p);
    var q :| q in lock && Feeds(net, q, p);
    var r :| r in net.notifyRoutes[net.passivePeer[q].value] && r.autoThrottling && r.target == ToPassive(p);
    assert net.Registered(r) && Throttled(s, q);
    assert r in net.RoutesInto(ToPassive(p)) && RouteThrottled(net, s, r);
  }

  lemma {:induction false} ActiveUnthrottleLocked(net: Topology, s: State, lock: set<nat>, a: nat)
    requires Locked(net, s, lock) && a < |net.activePeer|
    ensures Locked(net, ActiveNotifyUnthrottle(net, s, a), lock)
    decreases Indices(s.cached, true), 0
  {
    if s.cached[a] {
      var cleared := s.(cached := s.cached[a := false], calls := s.calls + [Call(Active(a), false)]);
      assert Indices(cleared.cached, true) < Indices(s.cached, true) by {
        assert a in Indices(s.cached, true) && a !in Indices(cleared.cached, true);
      }
      ForwardUnthrottleLocked(net, cleared, lock, net.notifyRoutes[a]);
    }
  }

  lemma {:induction false} ForwardUnthrottleLocked(net: Topology, s: State, lock: set<nat>, routes: seq<Route>)
    requires Locked(net, s, lock) && forall r :: r in routes ==> net.Registered(r)
    ensures Locked(net, ForwardUnthrottle(net, s, routes), lock)
    decreases Indices(s.cached, true), |routes| + 1
  {
    if routes != [] {
      assert net.Registered(routes[0]);
      var next := if routes[0].autoThrottling then TargetNotifyUnthrottle(net, s, routes[0].target) else s;
      if routes[0].autoThrottling {
        TargetUnthrottleLocked(net, s, lock, routes[0].target);
      }
      assert Indices(next.cached, true) <= Indices(s.cached, true);
      ForwardUnthrottleLocked(net, next, lock, routes[1..]);
    }
  }

  lemma {:induction false} TargetUnthrottleLocked(net: Topology, s: State, lock: set<nat>, x: Target)
    requires Locked(net, s, lock) && net.IsTarget(x)
    ensures Locked(net, TargetNotifyUnthrottle(net, s, x), lock)
    decreases Indices(s.cached, true), 1
  {
    if !AnyThrottled(net, s, x) {
      match x
      case ToPassive(p) =>
        if p in lock {
          LockedIsThrottled(net, s, lock, p);
        }
        var cleared := s.(remote := s.remote[p := false]);
        if !s.native[p] && net.passivePeer[p].Some? {
          ActiveUnthrottleLocked(net, cleared, lock, net.passivePeer[p].value);
        }
      case ToEvent(_) =>
    }
  }

  /** Throttling only sets forwarded bits. */
  lemma ActiveThrottleLocked(net: Topology, s: State, lock: set<nat>, a: nat)
    requires Locked(net, s, lock) && a < |net.activePeer| && ActiveThrottled(net, s, a)
    ensures Locked(net, ActiveNotifyThrottle(net, s, a), lock)
  {
    ActiveThrottleWave(net, s, a);
  }

  lemma NativeStepLocked(net: Topology, s: State, lock: set<nat>, p: nat)
    requires Locked(net, s, lock) && p < |net.passivePeer|
    ensures Locked(net, Throttle(net, s, p), lock) && Locked(net, Unthrottle(net, s, p), lock)
  {
    ThrottleCallsOnce(net, s, p);
    var cleared := s.(native := s.native[p := false]);
    if net.passivePeer[p].Some? {
      ActiveUnthrottleLocked(net, cleared, lock, net.passivePeer[p].value);
    }
  }

  lemma InitPassiveLocked(net: Topology, s: State, lock: set<nat>, p: nat)
    requires Locked(net, s, lock) && p < |net.passivePeer|
    ensures Locked(net, InitPassive(net, s, p), lock)
  {
    var checked := if AnyThrottled(net, s, ToPassive(p)) then s else s.(remote := s.remote[p := false]);
    if p in lock {
      LockedIsThrottled(net, s, lock, p);
    }
    assert Locked(net, checked, lock);
    if net.passivePeer[p].Some? {
      var a := net.passivePeer[p].value;
      if Throttled(checked, p) {
        ActiveThrottleLocked(net, checked, lock, a);
      } else {
        ActiveUnthrottleLocked(net, checked, lock, a);
      }
    }
  }

  /** No step opens the lock, on any network and from any state. */
  lemma StepLocked(net: Topology, s: State, lock: set<nat>, step: Step)
    requires Locked(net, s, lock)
    ensures Locked(net, Apply(net, s, step), lock)
  {
    match step
    case DoThrottle(p) => if p < |net.passivePeer| { NativeStepLocked(net, s, lock, p); }
    case DoUnthrottle(p) => if p < |net.passivePeer| { NativeStepLocked(net, s, lock, p); }
    case DoInitPassive(p) => if p < |net.passivePeer| { InitPassiveLocked(net, s, lock, p); }
    case DoInitActive(a) =>
      if a < |net.activePeer| && net.activePeer[a].None? {
        ActiveThrottleLocked(net, s, lock, a);
      }
    case DoEnable(_, _) =>
  }

  lemma {:induction false} RunLocked(net: Topology, s: State, lock: set<nat>, script: seq<Step>)
    requires Locked(net, s, lock)
    ensures Locked(net, Run(net, s, script), lock)
  {
    if script != [] {
      RunLocked(net, s, lock, script[..|script| - 1]);
      StepLocked(net, Run(net, s, script[..|script| - 1]), lock, script[|script| - 1]);
    }
  }

  /** Throttling one connector of a cycle locks the cycle. */
  lemma CycleLocks(net: Topology, s: State, cycle: seq<nat>)
    requires Coherent(net, s) && Initialised(net, s) && IsPath(net, cycle)
    requires |cycle| >= 2 && cycle[0] == cycle[|cycle| - 1] && s.native[cycle[0]]
    ensures Locked(net, s, set p | p in cycle)
  {
    var lock := set p | p in cycle;
    forall p | p in lock ensures s.remote[p] && FedFrom(net, lock, p) {
      var i :| 0 < i < |cycle| && cycle[i] == p by {
        var j :| 0 <= j < |cycle| && cycle[j] == p;
        assert cycle[if j == 0 then |cycle| - 1 else j] == p;
      }
      assert Explains(net, s.native, cycle[..i], cycle[i - 1]);
      ExplainedIsThrottled(net, s, cycle[..i], cycle[i - 1]);
      assert Feeds(net, cycle[i - 1], p) && cycle[i - 1] in lock;
      FeedsForwards(net, s, cycle[i - 1], p);
    }
  }

  /** On a cycle, throttling a connector and taking it back leaves the whole cycle throttled for good. */
  lemma LatchedForGood(net: Topology, s: State, cycle: seq<nat>, script: seq<Step>, i: nat)
    requires Coherent(net, s) && Initialised(net, s) && IsPath(net, cycle) && i < |cycle|
    requires |cycle| >= 2 && cycle[0] == cycle[|cycle| - 1]
    ensures var off := Unthrottle(net, Throttle(net, s, cycle[0]), cycle[0]);
            Throttled(Run(net, off, script), cycle[i])
  {
    var lock := set p | p in cycle;
    var on := Throttle(net, s, cycle[0]);
    ThrottleCoheres(net, s, cycle[0]);
    CycleLocks(net, on, cycle);
    NativeStepLocked(net, on, lock, cycle[0]);
    RunLocked(net, Unthrottle(net, on, cycle[0]), lock, script);
    assert cycle[i] in lock;
  }

  /** A module whose active connector has an automatic route to its own peer. */
  function SelfLoop(): Topology {
    var r := Route(0, ToPassive(0), true);
    Topology([Some(0)], [Some(0)], [[r]], [[r]], [])
  }

  lemma SelfLoopIsLive()
    ensures SelfLoop().Valid() && HasLiveCycle(SelfLoop())
  {
    var net := SelfLoop();
    var r := Route(0, ToPassive(0), true);
    assert net.notifyRoutes[0] == [r] && net.RoutesInto(ToPassive(0)) == [r];
    assert net.Registered(r);
    assert Feeds(net, 0, 0);
    assert !Cut(net, 0);
    assert IsLiveCycle(net, [0, 0]);
  }

  ghost predicate ExactInEveryRun(net: Topology)
    requires net.Valid()
  {
    forall script: seq<Step> :: Exact(net, Run(net, Run(net, Fresh(net), InitScript(|net.activePeer|)), script))
  }

  /** The protocol agrees with reachability in every run exactly on the networks without live cycles. */
  lemma ExactUnlessLiveCycle(net: Topology)
    requires net.Valid()
    ensures ExactInEveryRun(net) <==> !HasLiveCycle(net)
  {
    var script := InitScript(|net.activePeer|);
    assert forall a :: 0 <= a < |net.activePeer| ==> script[a] in script;
    RunInitialises(net, script);
    var ready := Run(net, Fresh(net), script);
    if !HasLiveCycle(net) {
      forall more: seq<Step>
        ensures Exact(net, Run(net, ready, more))
      {
        RunCoheres(net, ready, more);
        CoherentIsExact(net, Run(net, ready, more));
      }
    } else {
      var cycle :| IsLiveCycle(net, cycle);
      InitKeepsNative(net, |net.activePeer|);
      CycleLatches(net, ready, cycle);
      var more := [DoThrottle(cycle[0]), DoUnthrottle(cycle[0])];
      assert more[..1] == [DoThrottle(cycle[0])] && more[..1][..0] == [];
      assert Run(net, ready, more[..1]) == Throttle(net, ready, cycle[0]);
      assert Run(net, ready, more) == Unthrottle(net, Throttle(net, ready, cycle[0]), cycle[0]);
    }
  }

  /** A numbering of the passive connectors that grows along every forwarding rules out cycles. */
  lemma {:induction false} RankedHasNoCycle(net: Topology, rank: nat -> int)
    requires net.Valid()
    requires forall p, q :: Feeds(net, p, q) ==> rank(p) < rank(q)
    ensures !HasLiveCycle(net)
  {
    forall cycle | IsLiveCycle(net, cycle) ensures false {
      RanksGrow(net, rank, cycle);
    }
  }

  lemma {:induction false} RanksGrow(net: Topology, rank: nat -> int, path: seq<nat>)
    requires net.Valid() && IsPath(net, path) && |path| >= 2
    requires forall p, q :: Feeds(net, p, q) ==> rank(p) < rank(q)
    ensures rank(path[0]) < rank(path[|path| - 1])
  {
    assert Feeds(net, path[|path| - 2], path[|path| - 1]);
    if |path| > 2 {
      RanksGrow(net, rank, path[..|path| - 1]);
    }
  }
}
