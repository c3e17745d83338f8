/**
 The priority join module: several active inputs, one passive output. A request at the output is
 served from the first input that is not throttled, and the output is throttled while all inputs
 are. The inputs are ordered by the priorities given when they are connected.
 */
module PriorityJoin {
  import opened Common

  /** Per input: whether it is connected, the live throttle state of its peer, and the last notification
      it acted on; and the native throttle bit of the output. */
  datatype Join = Join(connected: seq<bool>, peer: seq<bool>, cached: seq<bool>, native: bool)

  predicate Fits(j: Join) {
    |j.connected| == |j.peer| == |j.cached|
  }

  /** ActiveConnector::throttled() of input i. */
  predicate InputThrottled(j: Join, i: nat)
    requires Fits(j) && i < |j.peer|
  {
    !j.connected[i] || j.peer[i]
  }

  predicate AllThrottled(j: Join)
    requires Fits(j)
  {
    forall i :: 0 <= i < |j.peer| ==> InputThrottled(j, i)
  }

  function NotifyThrottle(j: Join, i: nat): (r: Join)
    requires Fits(j) && i < |j.peer|
    ensures Fits(r)
  {
    if j.cached[i] then j
    else j.(cached := j.cached[i := true], native := j.native || AllThrottled(j))
  }

  function NotifyUnthrottle(j: Join, i: nat): (r: Join)
    requires Fits(j) && i < |j.peer|
    ensures Fits(r)
  {
    if !j.cached[i] then j
    else j.(cached := j.cached[i := false], native := false)
  }

  /** The peer of an input changes state and says so, or an unconnected input is initialised. */
  datatype Step = PeerBecomes(i: nat, throttled: bool) | InitInput(i: nat)

  function Apply(j: Join, step: Step): (r: Join)
    requires Fits(j)
    ensures Fits(r) && r.connected == j.connected
  {
    if step.i >= |j.peer| then j
    else
      match step
      case PeerBecomes(i, t) =>
        if !j.connected[i] then j
        else if t then NotifyThrottle(j.(peer := j.peer[i := true]), i)
        else NotifyUnthrottle(j.(peer := j.peer[i := false]), i)
      case InitInput(i) => if j.connected[i] then j else NotifyThrottle(j, i)
  }

  function Run(j: Join, steps: seq<Step>): (r: Join)
    requires Fits(j)
    ensures Fits(r) && r.connected == j.connected
  {
    if steps == [] then j else Apply(Run(j, steps[..|steps| - 1]), steps[|steps| - 1])
  }

  function Start(connected: seq<bool>): (r: Join)
    ensures Fits(r) && r.connected == connected
  {
    Join(connected, seq(|connected|, _ => false), seq(|connected|, _ => false), false)
  }

  ghost predicate SomeNotified(j: Join) {
    exists i :: 0 <= i < |j.cached| && j.cached[i]
  }

  ghost predicate Coherent(j: Join) {
    && Fits(j)
    && (forall i :: 0 <= i < |j.peer| && j.connected[i] ==> j.cached[i] == j.peer[i])
    && (j.native <==> AllThrottled(j) && SomeNotified(j))
  }

  ghost predicate Initialised(j: Join)
    requires Fits(j)
  {
    forall i :: 0 <= i < |j.peer| && !j.connected[i] ==> j.cached[i]
  }

  /** AllThrottled depends on the wiring and the peers alone. */
  lemma SameThrottling(j: Join, t: Join)
    requires Fits(j) && Fits(t) && t.connected == j.connected && t.peer == j.peer
    ensures AllThrottled(t) == AllThrottled(j)
  {
    assert forall i :: 0 <= i < |j.peer| ==> InputThrottled(t, i) == InputThrottled(j, i);
  }

  lemma ThrottleCoherent(j: Join, i: nat)
    requires Coherent(j) && i < |j.peer| && j.connected[i]
    ensures Coherent(NotifyThrottle(j.(peer := j.peer[i := true]), i))
  {
    var up := j.(peer := j.peer[i := true]);
    var t := NotifyThrottle(up, i);
    SameThrottling(up, t);
    if j.cached[i] {
      assert up == j;
    } else {
      assert !InputThrottled(j, i);
      assert t.cached[i];
    }
  }

  lemma UnthrottleCoherent(j: Join, i: nat)
    requires Coherent(j) && i < |j.peer| && j.connected[i]
    ensures Coherent(NotifyUnthrottle(j.(peer := j.peer[i := false]), i))
  {
    var down := j.(peer := j.peer[i := false]);
    if j.cached[i] {
      assert !InputThrottled(NotifyUnthrottle(down, i), i);
    } else {
      assert down == j;
    }
  }

  lemma InitCoherent(j: Join, i: nat)
    requires Coherent(j) && i < |j.peer| && !j.connected[i]
    ensures Coherent(NotifyThrottle(j, i))
  {
    var t := NotifyThrottle(j, i);
    SameThrottling(j, t);
    assert t.cached[i];
  }

  lemma StepCoherent(j: Join, step: Step)
    requires Coherent(j)
    ensures Coherent(Apply(j, step))
  {
    if step.i < |j.peer| {
      match step
      case PeerBecomes(i, t) =>
        if j.connected[i] {
          ThrottleCoherent(j, i);
          UnthrottleCoherent(j, i);
        }
      case InitInput(i) => if !j.connected[i] { InitCoherent(j, i); }
    }
  }

  lemma {:induction false} RunCoherent(connected: seq<bool>, steps: seq<Step>)
    ensures Coherent(Run(Start(connected), steps))
  {
    if steps != [] {
      RunCoherent(connected, steps[..|steps| - 1]);
      StepCoherent(Run(Start(connected), steps[..|steps| - 1]), steps[|steps| - 1]);
    } else if |connected| > 0 {
      assert !SomeNotified(Start(connected));
    }
  }

  /** What the last change said about the peer of an input. */
  function LastSaid(steps: seq<Step>, i: nat): bool {
    if steps == [] then false
    else
      var last := steps[|steps| - 1];
      if last.PeerBecomes? && last.i == i then last.throttled else LastSaid(steps[..|steps| - 1], i)
  }

  /** Every input is unconnected, or its peer was throttled by its last change. */
  ghost predicate AllSaidThrottled(connected: seq<bool>, steps: seq<Step>) {
    forall i :: 0 <= i < |connected| ==> !connected[i] || LastSaid(steps, i)
  }

  lemma {:induction false} PeersAsSaid(connected: seq<bool>, steps: seq<Step>, i: nat)
    requires i < |connected| && connected[i]
    ensures Run(Start(connected), steps).peer[i] == LastSaid(steps, i)
  {
    if steps != [] {
      PeersAsSaid(connected, steps[..|steps| - 1], i);
    }
  }

  lemma AllAsSaid(connected: seq<bool>, steps: seq<Step>)
    ensures AllThrottled(Run(Start(connected), steps)) <==> AllSaidThrottled(connected, steps)
  {
    var j := Run(Start(connected), steps);
    forall i | 0 <= i < |connected| ensures InputThrottled(j, i) <==> !connected[i] || LastSaid(steps, i) {
      if connected[i] {
        PeersAsSaid(connected, steps, i);
      }
    }
  }

  /** Every unconnected input was initialised in the run. */
  ghost predicate AllInitialised(connected: seq<bool>, steps: seq<Step>) {
    forall i :: 0 <= i < |connected| && !connected[i] ==> InitInput(i) in steps
  }

  lemma {:induction false} RunInitialisesOne(connected: seq<bool>, steps: seq<Step>, i: nat)
    requires i < |connected| && !connected[i] && InitInput(i) in steps
    ensures Run(Start(connected), steps).cached[i]
  {
    var front := steps[..|steps| - 1];
    if steps[|steps| - 1] != InitInput(i) {
      assert InitInput(i) in front;
      RunInitialisesOne(connected, front, i);
    }
  }

  lemma RunInitialises(connected: seq<bool>, steps: seq<Step>)
    requires AllInitialised(connected, steps)
    ensures Initialised(Run(Start(connected), steps))
  {
    forall i | 0 <= i < |connected| && !connected[i] ensures Run(Start(connected), steps).cached[i] {
      RunInitialisesOne(connected, steps, i);
    }
  }

  ghost predicate OutputFollowsInputs(connected: seq<bool>) {
    forall steps: seq<Step> :: AllInitialised(connected, steps) ==>
      (Run(Start(connected), steps).native <==> AllSaidThrottled(connected, steps))
  }

  /** In every run in which the unconnected inputs are initialised, the output is natively throttled exactly if every
      input is unconnected or has a throttled peer: this holds if and only if the join has an input at all. */
  lemma OutputThrottledWithAllInputs(connected: seq<bool>)
    ensures OutputFollowsInputs(connected) <==> connected != []
  {
    if connected != [] {
      forall steps: seq<Step> | AllInitialised(connected, steps)
        ensures Run(Start(connected), steps).native <==> AllSaidThrottled(connected, steps)
      {
        var j := Run(Start(connected), steps);
        RunCoherent(connected, steps);
        RunInitialises(connected, steps);
        AllAsSaid(connected, steps);
        if AllThrottled(j) {
          assert InputThrottled(j, 0) && j.cached[0];
        }
      }
    } else {
      var none: seq<Step> := [];
      assert AllInitialised(connected, none) && AllSaidThrottled(connected, none);
      assert !Run(Start(connected), none).native;
    }
  }

  /** While the output is open some input can serve a request. */
  lemma OpenHasInput(j: Join)
    requires Coherent(j) && Initialised(j) && |j.peer| > 0
    ensures !j.native ==> !AllThrottled(j)
  {
    if AllThrottled(j) {
      assert InputThrottled(j, 0) && j.cached[0];
    }
  }

  // ------------------------------------------------------------------------------------------
  // The notifications as they change the module

  class JoinModule {
    const connected: seq<bool>
    var peer: seq<bool>
    var cached: seq<bool>
    var outputThrottled: bool

    ghost function Value(): Join
      reads this
    {
      Join(connected, peer, cached, outputThrottled)
    }

    constructor (connected: seq<bool>)
      ensures Value() == Start(connected)
    {
      this.connected := connected;
      peer, cached := seq(|connected|, _ => false), seq(|connected|, _ => false);
      outputThrottled := false;
    }

    /** The search for the first input that is not throttled; the number of inputs if there is none. */
    method FindUnthrottled() returns (i: nat)
      requires Fits(Value())
      ensures i <= |peer| && (i < |peer| ==> connected[i] && !peer[i])
      ensures forall k :: 0 <= k < i ==> !connected[k] || peer[k]
      ensures i == |peer| <==> AllThrottled(Value())
    {
      i := 0;
      while i < |peer| && (!connected[i] || peer[i])
        invariant i <= |peer| && forall k :: 0 <= k < i ==> !connected[k] || peer[k]
      {
        i := i + 1;
      }
      assert i < |peer| ==> !InputThrottled(Value(), i);
    }

    /** request(): served by the lowest-index input that is not throttled, and by none if all are; in a
        coherent, initialised module with inputs and an open output there always is one. */
    method Request() returns (served: Option<nat>)
      requires Fits(Value())
      ensures served.None? <==> AllThrottled(Value())
      ensures served.Some? ==> served.value < |peer| && connected[served.value] && !peer[served.value]
      ensures served.Some? ==> forall k :: 0 <= k < served.value ==> !connected[k] || peer[k]
      ensures Coherent(Value()) && Initialised(Value()) && |peer| > 0 && !outputThrottled ==> served.Some?
    {
      if Coherent(Value()) && Initialised(Value()) && |peer| > 0 {
        OpenHasInput(Value());
      }
      var i := FindUnthrottled();
      served := if i < |peer| then Some(i) else None;
    }

    method OnThrottle()
      requires Fits(Value())
      modifies this`outputThrottled
      ensures outputThrottled == (old(outputThrottled) || AllThrottled(old(Value())))
    {
      var i := FindUnthrottled();
      if i == |peer| {
        outputThrottled := true;
      }
    }

    method OnUnthrottle()
      modifies this`outputThrottled
      ensures !outputThrottled
    {
      outputThrottled := false;
    }

    /** The peer of a connected input changes state and notifies the input, which calls the module back. */
    method PeerChanges(i: nat, throttled: bool)
      requires Fits(Value()) && i < |peer| && connected[i]
      modifies this
      ensures Value() == Apply(old(Value()), PeerBecomes(i, throttled))
    {
      peer := peer[i := throttled];
      if throttled && !cached[i] {
        cached := cached[i := true];
        ghost var marked := Value();
        OnThrottle();
        SameThrottling(old(Value()).(peer := peer), marked);
      } else if !throttled && cached[i] {
        cached := cached[i := false];
        OnUnthrottle();
      }
    }
  }

  // ------------------------------------------------------------------------------------------
  // Priorities

  /** The index a priority asks for: negative ones count from the end, and both ends clamp. */
  function ClampedIndex(priority: int, size: nat): (i: nat)
    requires size > 0
    ensures i < size
  {
    var p := if priority >= 0 then priority else if size + priority < 0 then 0 else size + priority;
    if p >= size - 1 then size - 1 else p
  }

  function Placed<C>(others: seq<C>, conn: C, priority: int): (r: seq<C>)
    ensures |r| == |others| + 1 && r[ClampedIndex(priority, |r|)] == conn
  {
    var i := ClampedIndex(priority, |others| + 1);
    others[..i] + [conn] + others[i..]
  }

  /** Where a priority puts a connector: counted from the front, or from the back if it is negative, and at the
      ends if it is out of range. */
  lemma PlacedWhere<C>(others: seq<C>, conn: C, priority: int)
    ensures var n, r := |others| + 1, Placed(others, conn, priority);
            && (priority >= n - 1 ==> r == others + [conn])
            && (0 <= priority < n - 1 ==> r == others[..priority] + [conn] + others[priority..])
            && (-n <= priority < 0 ==> r == others[..n + priority] + [conn] + others[n + priority..])
            && (priority < -n ==> r == [conn] + others)
  {
  }

  /** connectorSetup: the new connector was just pushed to the back and moves to its place. */
  method ConnectorSetup<C>(connectors: seq<C>, priority: int) returns (r: seq<C>)
    requires connectors != []
    ensures r == Placed(connectors[..|connectors| - 1], connectors[|connectors| - 1], priority)
  {
    r := connectors;
    var p := priority;
    if p < 0 {
      p := |r| + p;
      if p < 0 {
        p := 0;
      }
    }
    if p >= |r| - 1 {
      return;
    }
    var conn := r[|r| - 1];
    r := r[..|r| - 1];
    r := r[..p] + [conn] + r[p..];
  }

  /** A list of connectors after a history of setups; the connector set up last sits at its clamped priority. */
  function SetUp<C>(start: seq<C>, added: seq<(C, int)>): (r: seq<C>)
    ensures |r| == |start| + |added|
    ensures added != [] ==> r[ClampedIndex(added[|added| - 1].1, |r|)] == added[|added| - 1].0
  {
    if added == [] then start
    else
      var last := added[|added| - 1];
      Placed(SetUp(start, added[..|added| - 1]), last.0, last.1)
  }

  /** xs appears in ys in the same order: position f[k] holds xs[k]. */
  ghost predicate Embeds<C>(xs: seq<C>, ys: seq<C>, f: seq<nat>) {
    && |f| == |xs|
    && (forall k :: 0 <= k < |f| ==> f[k] < |ys| && ys[f[k]] == xs[k])
    && (forall k, l :: 0 <= k < l < |f| ==> f[k] < f[l])
  }

  /** Placing one more connector shifts the positions behind it and keeps their order. */
  lemma PlacedEmbeds<C>(xs: seq<C>, others: seq<C>, g: seq<nat>, conn: C, priority: int) returns (f: seq<nat>)
    requires Embeds(xs, others, g)
    ensures Embeds(xs, Placed(others, conn, priority), f)
  {
    var i := ClampedIndex(priority, |others| + 1);
    f := seq(|g|, k requires 0 <= k < |g| => if g[k] < i then g[k] else g[k] + 1);
    forall k | 0 <= k < |f|
      ensures f[k] < |others| + 1 && Placed(others, conn, priority)[f[k]] == xs[k]
    {
      assert others[g[k]] == xs[k];
    }
  }

  /** After any sequence of setups the earlier connectors keep their relative order. */
  lemma {:induction false} SetupsKeepOrder<C>(start: seq<C>, added: seq<(C, int)>) returns (f: seq<nat>)
    ensures Embeds(start, SetUp(start, added), f)
  {
    if added == [] {
      f := seq(|start|, k => k);
    } else {
      var last := added[|added| - 1];
      var before := SetUp(start, added[..|added| - 1]);
      var g := SetupsKeepOrder(start, added[..|added| - 1]);
      f := PlacedEmbeds(start, before, g, last.0, last.1);
      assert SetUp(start, added) == Placed(before, last.0, last.1);
    }
  }
}
