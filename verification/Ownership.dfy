/**
 Two-level reference counting of packets. Handles count references to interpreters; the packet
 implementation counts the interpreters that have handles, plus the guards that are active.
 Interpreters leave the chain while handles to them live on, and the implementation destroys
 itself when its count would drop to zero.
 */
module Ownership {
  import opened Common

  /** The interpreters that exist, with their handle counts; those of them outside the preallocated
      slots; the chain; the count of the implementation; its active guards; whether it is gone. */
  datatype State = State(
    refs: map<nat, nat>,
    heap: set<nat>,
    linked: seq<nat>,
    count: nat,
    guards: nat,
    freed: bool)

  /** A new implementation, created under a guard. */
  const CREATED := State(map[], {}, [], 1, 1, false)

  function Held(s: State): set<nat> {
    set i | i in s.refs && s.refs[i] > 0
  }

  function Destroyed(s: State, i: nat): State {
    s.(refs := s.refs - {i}, heap := s.heap - {i})
  }

  /** releaseImpl: an interpreter without handles is destroyed. */
  function ReleasedFromChain(s: State, i: nat): State {
    if i in s.refs && s.refs[i] == 0 then Destroyed(s, i) else s
  }

  /** One interpreter leaves the chain. */
  function UnlinkedAt(s: State, k: nat): State
    requires k < |s.linked|
  {
    ReleasedFromChain(s.(linked := s.linked[..k] + s.linked[k + 1..]), s.linked[k])
  }

  /** eraseInterpreters: n interpreters are unlinked from position k on, front to back. */
  function Erased(s: State, k: nat, n: nat): (r: State)
    requires k + n <= |s.linked|
    ensures r.count == s.count && r.guards == s.guards && r.freed == s.freed
    decreases n
  {
    if n == 0 then s
    else Erased(UnlinkedAt(s, k), k, n - 1)
  }

  /** destroySelf: unlinks from the front until no interpreter is left outside the preallocated slots. */
  function SelfDestroyed(s: State): State
    decreases |s.linked|
  {
    if s.linked == [] then s
    else
      var next := ReleasedFromChain(s.(linked := s.linked[1..]), s.linked[0]);
      if next.heap == {} then next else SelfDestroyed(next)
  }

  /** Deleting the implementation: interpreters in preallocated slots go with its memory, so afterwards
      only interpreters outside of it that were missed exist. */
  function Deleted(s: State): State {
    var last := if s.heap == {} then s else SelfDestroyed(s);
    State(map i | i in last.refs && i in last.heap :: last.refs[i], last.heap, [], 0, last.guards, true)
  }

  /** PacketImpl::release. */
  function ImplReleased(s: State): State
    requires s.count >= 1
  {
    if s.count == 1 then Deleted(s) else s.(count := s.count - 1)
  }

  datatype Step =
    | AddRef(i: nat)
    | Release(i: nat)
    | Append(i: nat, heap: bool)
    | Truncate(k: nat)
    | TruncateBackwards(k: nat)
    | EnterGuard
    | LeaveGuard

  /** What the source demands of its callers: no dead objects, and interpreters enter a chain once. */
  predicate Enabled(s: State, step: Step) {
    !s.freed && s.count >= 1 &&
    match step
    case AddRef(i) => i in s.refs
    case Release(i) => i in s.refs && s.refs[i] > 0
    case Append(i, _) => i !in s.refs
    case Truncate(k) => k < |s.linked|
    case TruncateBackwards(k) => k < |s.linked|
    case EnterGuard => true
    case LeaveGuard => s.guards > 0
  }

  function AddRefTo(s: State, i: nat): State
    requires i in s.refs
  {
    s.(refs := s.refs[i := s.refs[i] + 1], count := s.count + (if s.refs[i] == 0 then 1 else 0))
  }

  function ReleaseOf(s: State, i: nat): State
    requires i in s.refs && s.refs[i] > 0 && s.count >= 1
  {
    var dropped := s.(refs := s.refs[i := s.refs[i] - 1]);
    if dropped.refs[i] > 0 then dropped
    else ImplReleased(if i in s.linked then dropped else ReleasedFromChain(dropped, i))
  }

  /** truncateInterpreters and truncateInterpretersBackwards, each under a guard of its own. */
  function ErasedGuarded(s: State, k: nat, n: nat): State
    requires k + n <= |s.linked|
  {
    ImplReleased(Erased(s.(count := s.count + 1), k, n))
  }

  function Apply(s: State, step: Step): State {
    if !Enabled(s, step) then s
    else
      match step
      case AddRef(i) => AddRefTo(s, i)
      case Release(i) => ReleaseOf(s, i)
      case Append(i, heap) =>
        s.(refs := s.refs[i := 0], heap := if heap then s.heap + {i} else s.heap, linked := s.linked + [i])
      case Truncate(k) => ErasedGuarded(s, k, |s.linked| - k)
      case TruncateBackwards(k) => ErasedGuarded(s, 0, k + 1)
      case EnterGuard => s.(count := s.count + 1, guards := s.guards + 1)
      case LeaveGuard => ImplReleased(s.(guards := s.guards - 1))
  }

  function Run(s: State, steps: seq<Step>): State {
    if steps == [] then s else Apply(Run(s, steps[..|steps| - 1]), steps[|steps| - 1])
  }

  // ------------------------------------------------------------------------------------------
  // The ownership invariant

  /** The chain and the off-slot interpreters exist, and nothing that is unlinked and handle-free survives. */
  ghost predicate Clean(s: State) {
    && Distinct(s.linked)
    && (forall i :: i in s.linked ==> i in s.refs)
    && s.heap <= s.refs.Keys
    && (forall i :: i in s.refs ==> i in s.linked || s.refs[i] > 0)
  }

  /** The count is the number of interpreters with a handle plus the active guards. */
  ghost predicate Counted(s: State) {
    s.count == |Held(s)| + s.guards
  }

  /** While anything refers to the implementation it lives; once nothing does it is gone, without a leak. */
  ghost predicate Owned(s: State) {
    if s.freed then s.refs == map[] && s.guards == 0 && s.linked == [] && s.count == 0
    else Clean(s) && Counted(s) && s.count >= 1
  }

  /** Taking one element out of a duplicate-free sequence. */
  lemma TakenOut(xs: seq<nat>, k: nat)
    requires Distinct(xs) && k < |xs|
    ensures var ys := xs[..k] + xs[k + 1..];
            Distinct(ys) && xs[k] !in ys && forall i :: i in xs <==> i in ys || i == xs[k]
  {
    var ys := xs[..k] + xs[k + 1..];
    assert forall j :: 0 <= j < |ys| ==> ys[j] == if j < k then xs[j] else xs[j + 1];
    forall i | i in xs ensures i in ys || i == xs[k] {
      var j :| 0 <= j < |xs| && xs[j] == i;
      assert j < k ==> ys[j] == i;
      assert j > k ==> ys[j - 1] == i;
    }
  }

  lemma UnlinkedStaysClean(s: State, k: nat)
    requires Clean(s) && k < |s.linked|
    ensures Clean(UnlinkedAt(s, k)) && Held(UnlinkedAt(s, k)) == Held(s)
    ensures |UnlinkedAt(s, k).linked| == |s.linked| - 1
  {
    TakenOut(s.linked, k);
  }

  lemma {:induction false} ErasedNextStaysClean(s: State, next: State, k: nat, n: nat)
    requires 0 < n && k + n <= |s.linked| && next == UnlinkedAt(s, k) && Clean(next)
    requires |next.linked| == |s.linked| - 1
    ensures Clean(Erased(s, k, n)) && Held(Erased(s, k, n)) == Held(next)
    decreases n, 0
  {
    ErasedStaysClean(next, k, n - 1);
    assert Erased(s, k, n) == Erased(next, k, n - 1);
  }

  lemma {:induction false} ErasedStaysClean(s: State, k: nat, n: nat)
    requires Clean(s) && k + n <= |s.linked|
    ensures Clean(Erased(s, k, n)) && Held(Erased(s, k, n)) == Held(s)
    decreases n, 1
  {
    if n > 0 {
      UnlinkedStaysClean(s, k);
      ErasedNextStaysClean(s, UnlinkedAt(s, k), k, n);
    }
  }

  /** Erasing front to back cuts the range out of the chain. */
  lemma {:induction false} ErasedLinked(s: State, k: nat, n: nat)
    requires k + n <= |s.linked|
    ensures Erased(s, k, n).linked == s.linked[..k] + s.linked[k + n..]
    decreases n
  {
    if n > 0 {
      var next := UnlinkedAt(s, k);
      ErasedLinked(next, k, n - 1);
      OneCutOut(s.linked, next.linked, k, n);
    }
  }

  lemma OneCutOut(xs: seq<nat>, ys: seq<nat>, k: nat, n: nat)
    requires 0 < n && k + n <= |xs| && ys == xs[..k] + xs[k + 1..]
    ensures ys[..k] == xs[..k] && ys[k + n - 1..] == xs[k + n..]
  {
  }

  /** Without handles, deleting the implementation destroys every interpreter outside its slots. */
  lemma {:induction false} DestroySelfReachesAll(s: State)
    requires Clean(s) && Held(s) == {}
    ensures SelfDestroyed(s).heap == {} && SelfDestroyed(s).guards == s.guards
    decreases |s.linked|
  {
    if s.linked == [] {
      assert s.refs.Keys == {};
    } else {
      var next := ReleasedFromChain(s.(linked := s.linked[1..]), s.linked[0]);
      assert s.linked[..0] + s.linked[1..] == s.linked[1..];
      UnlinkedStaysClean(s, 0);
      if next.heap != {} {
        DestroySelfReachesAll(next);
      }
    }
  }

  lemma DeletedOwned(s: State)
    requires Clean(s) && Held(s) == {} && s.guards == 0
    ensures Owned(Deleted(s))
  {
    if s.heap != {} {
      DestroySelfReachesAll(s);
    }
  }

  /** Dropping one reference to an implementation whose count still includes it. */
  lemma ImplReleasedOwned(s: State)
    requires Clean(s) && !s.freed && s.count == |Held(s)| + s.guards + 1
    ensures Owned(ImplReleased(s))
    ensures ImplReleased(s).freed <==> Held(s) == {} && s.guards == 0
  {
    if s.count == 1 {
      DeletedOwned(s);
    }
  }

  lemma AddRefOwned(s: State, i: nat)
    requires Owned(s) && !s.freed && i in s.refs
    ensures Owned(AddRefTo(s, i)) && Held(AddRefTo(s, i)) == Held(s) + {i}
  {
    var t := AddRefTo(s, i);
    assert Held(t) == Held(s) + {i};
    if s.refs[i] == 0 {
      assert i !in Held(s);
    } else {
      assert Held(t) == Held(s);
    }
  }

  lemma ReleaseOwned(s: State, i: nat)
    requires Owned(s) && !s.freed && i in s.refs && s.refs[i] > 0
    ensures Owned(ReleaseOf(s, i))
    ensures ReleaseOf(s, i).freed <==> s.count == 1 && s.refs[i] == 1
  {
    var dropped := s.(refs := s.refs[i := s.refs[i] - 1]);
    if s.refs[i] > 1 {
      assert Held(dropped) == Held(s);
    } else {
      var t := if i in s.linked then dropped else ReleasedFromChain(dropped, i);
      assert Held(t) == Held(s) - {i};
      assert |Held(s) - {i}| == |Held(s)| - 1;
      ImplReleasedOwned(t);
      assert ImplReleased(t) == ReleaseOf(s, i);
    }
  }

  lemma ErasedGuardedOwned(s: State, k: nat, n: nat)
    requires Owned(s) && !s.freed && k + n <= |s.linked|
    ensures Owned(ErasedGuarded(s, k, n)) && !ErasedGuarded(s, k, n).freed
    ensures ErasedGuarded(s, k, n).linked == s.linked[..k] + s.linked[k + n..]
  {
    var up := s.(count := s.count + 1);
    var t := Erased(up, k, n);
    ErasedLinked(up, k, n);
    ErasedCounted(s, up, k, n);
    RecountedOwned(t, s.count);
    GuardPaysBack(s, k, n);
  }

  lemma GuardPaysBack(s: State, k: nat, n: nat)
    requires s.count >= 1 && k + n <= |s.linked|
    ensures ErasedGuarded(s, k, n) == Erased(s.(count := s.count + 1), k, n).(count := s.count)
  {
  }

  lemma RecountedOwned(s: State, count: nat)
    requires Clean(s) && !s.freed && count == |Held(s)| + s.guards >= 1
    ensures Owned(s.(count := count))
  {
    assert Held(s.(count := count)) == Held(s);
  }

  lemma ErasedCounted(s: State, up: State, k: nat, n: nat)
    requires Owned(s) && !s.freed && k + n <= |s.linked| && up == s.(count := s.count + 1)
    ensures var t := Erased(up, k, n);
            Clean(t) && !t.freed && t.count == |Held(t)| + t.guards + 1 && t.count == s.count + 1
  {
    assert Held(up) == Held(s);
    ErasedStaysClean(up, k, n);
  }

  lemma AppendOwned(s: State, i: nat, heap: bool)
    requires Owned(s) && !s.freed && i !in s.refs
    ensures Owned(Apply(s, Append(i, heap)))
  {
    var t := Apply(s, Append(i, heap));
    assert Held(t) == Held(s);
    assert i !in s.linked;
  }

  /** Every step keeps the ownership invariant, and frees the implementation exactly with the last reference. */
  lemma StepOwned(s: State, step: Step)
    requires Owned(s)
    ensures Owned(Apply(s, step))
    ensures !s.freed ==> (Apply(s, step).freed <==>
              Enabled(s, step) && s.count == 1 && (step.LeaveGuard? || (step.Release? && s.refs[step.i] == 1)))
  {
    if Enabled(s, step) {
      match step
      case AddRef(i) => AddRefOwned(s, i);
      case Release(i) => ReleaseOwned(s, i);
      case Append(i, heap) => AppendOwned(s, i, heap);
      case Truncate(k) => ErasedGuardedOwned(s, k, |s.linked| - k);
      case TruncateBackwards(k) => ErasedGuardedOwned(s, 0, k + 1);
      case EnterGuard => assert Held(Apply(s, step)) == Held(s);
      case LeaveGuard =>
        var left := s.(guards := s.guards - 1);
        assert Held(left) == Held(s);
        ImplReleasedOwned(left);
    }
  }

  /** Over every run from creation. */
  lemma {:induction false} RunOwned(steps: seq<Step>)
    ensures Owned(Run(CREATED, steps))
  {
    if steps != [] {
      RunOwned(steps[..|steps| - 1]);
      StepOwned(Run(CREATED, steps[..|steps| - 1]), steps[|steps| - 1]);
    } else {
      assert Held(CREATED) == {};
    }
  }

  // ------------------------------------------------------------------------------------------
  // The counts against the history

  /** The handles of an interpreter. */
  function HandlesOf(s: State, i: nat): nat {
    if i in s.refs then s.refs[i] else 0
  }

  lemma {:induction false} ErasedHandles(s: State, k: nat, n: nat, i: nat)
    requires k + n <= |s.linked|
    ensures HandlesOf(Erased(s, k, n), i) == HandlesOf(s, i)
    decreases n
  {
    if n > 0 {
      ErasedHandles(UnlinkedAt(s, k), k, n - 1, i);
    }
  }

  /** Once nothing refers to the implementation, there are no handles. */
  lemma NoHandles(s: State, i: nat)
    requires Held(s) == {}
    ensures HandlesOf(s, i) == 0
  {
    assert i !in Held(s);
  }

  lemma ReleaseHandles(s: State, i: nat, j: nat)
    requires Owned(s) && !s.freed && i in s.refs && s.refs[i] > 0
    ensures HandlesOf(ReleaseOf(s, i), j) == HandlesOf(s, j) - (if j == i then 1 else 0)
    ensures ReleaseOf(s, i).guards == s.guards
  {
    var dropped := s.(refs := s.refs[i := s.refs[i] - 1]);
    ReleaseOwned(s, i);
    if ReleaseOf(s, i).freed {
      assert i in Held(s) && |Held(s)| == 1;
      OnlyOne(Held(s), i);
      assert Held(s) == {i} && s.guards == 0;
      assert j != i ==> j !in Held(s);
    }
  }

  lemma OnlyOne(xs: set<nat>, x: nat)
    requires x in xs && |xs| == 1
    ensures xs == {x}
  {
    assert |xs - {x}| == 0;
  }

  lemma LeaveGuardHandles(s: State, j: nat)
    requires Owned(s) && !s.freed && s.guards > 0
    ensures var t := Apply(s, LeaveGuard); HandlesOf(t, j) == HandlesOf(s, j) && t.guards == s.guards - 1
  {
    StepOwned(s, LeaveGuard);
    if s.count == 1 {
      assert Held(s) == {};
      NoHandles(s, j);
    }
  }

  lemma GuardedHandles(s: State, k: nat, n: nat, j: nat)
    requires Owned(s) && !s.freed && k + n <= |s.linked|
    ensures var t := ErasedGuarded(s, k, n); HandlesOf(t, j) == HandlesOf(s, j) && t.guards == s.guards
  {
    ErasedHandles(s.(count := s.count + 1), k, n, j);
  }

  /** What a step means for the handles of an interpreter and for the guards. */
  function HandleChange(step: Step, i: nat): int {
    if step == AddRef(i) then 1 else if step == Release(i) then -1 else 0
  }

  function GuardChange(step: Step): int {
    if step.EnterGuard? then 1 else if step.LeaveGuard? then -1 else 0
  }

  lemma StepCounts(s: State, step: Step, i: nat)
    requires Owned(s) && Enabled(s, step)
    ensures HandlesOf(Apply(s, step), i) == HandlesOf(s, i) + HandleChange(step, i)
    ensures Apply(s, step).guards == s.guards + GuardChange(step)
  {
    match step
    case AddRef(j) =>
    case Release(j) => ReleaseHandles(s, j, i);
    case Append(_, _) =>
    case Truncate(k) => GuardedHandles(s, k, |s.linked| - k, i);
    case TruncateBackwards(k) => GuardedHandles(s, 0, k + 1, i);
    case EnterGuard =>
    case LeaveGuard => LeaveGuardHandles(s, i);
  }

  /** Handles and guards as the history of a run has them: those taken minus those given back. */
  function HandlesTaken(steps: seq<Step>, i: nat): int {
    if steps == [] then 0
    else
      var front, step := steps[..|steps| - 1], steps[|steps| - 1];
      HandlesTaken(front, i) + (if Enabled(Run(CREATED, front), step) then HandleChange(step, i) else 0)
  }

  function GuardsTaken(steps: seq<Step>): int {
    if steps == [] then 1
    else
      var front, step := steps[..|steps| - 1], steps[|steps| - 1];
      GuardsTaken(front) + (if Enabled(Run(CREATED, front), step) then GuardChange(step) else 0)
  }

  /** Over every run from creation: the counts are those of the history. */
  lemma {:induction false} RunCounts(steps: seq<Step>, i: nat)
    ensures var s := Run(CREATED, steps); HandlesOf(s, i) == HandlesTaken(steps, i) && s.guards == GuardsTaken(steps)
  {
    if steps != [] {
      var front, step := steps[..|steps| - 1], steps[|steps| - 1];
      RunCounts(front, i);
      RunOwned(front);
      if Enabled(Run(CREATED, front), step) {
        StepCounts(Run(CREATED, front), step, i);
      }
    }
  }

  /** An implementation is gone exactly when it has no guards and no handles. */
  lemma OwnedFreed(s: State)
    requires Owned(s)
    ensures s.freed <==> s.guards == 0 && forall i: nat :: HandlesOf(s, i) == 0
  {
    if !s.freed && s.guards == 0 {
      var i :| i in Held(s);
      assert HandlesOf(s, i) > 0;
    }
  }

  /** Over every run from creation: the implementation is gone exactly when every handle and every guard that was
      taken has been given back. */
  lemma FreedWhenUsedUp(steps: seq<Step>)
    ensures Run(CREATED, steps).freed <==> GuardsTaken(steps) == 0 && forall i: nat :: HandlesTaken(steps, i) == 0
  {
    RunOwned(steps);
    OwnedFreed(Run(CREATED, steps));
    RunCounts(steps, 0);
    SameHandles(Run(CREATED, steps), steps);
  }

  lemma SameHandles(s: State, steps: seq<Step>)
    requires s == Run(CREATED, steps)
    ensures (forall i: nat :: HandlesOf(s, i) == 0) <==> (forall i: nat :: HandlesTaken(steps, i) == 0)
  {
    if forall i: nat :: HandlesOf(s, i) == 0 {
      forall i: nat ensures HandlesTaken(steps, i) == 0 {
        RunCounts(steps, i);
        assert HandlesOf(s, i) == 0;
      }
    } else {
      var i: nat :| HandlesOf(s, i) != 0;
      RunCounts(steps, i);
      assert HandlesTaken(steps, i) != 0;
    }
  }

  /** What guards are for: under one, the release of the last handle does not free the implementation. */
  lemma GuardKeepsAlive(s: State, i: nat)
    requires Owned(s) && !s.freed && i in s.refs && s.refs[i] > 0
    ensures !Apply(Apply(s, EnterGuard), Release(i)).freed
  {
    StepOwned(s, EnterGuard);
    StepOwned(Apply(s, EnterGuard), Release(i));
  }

  // ------------------------------------------------------------------------------------------
  // The chain against the history

  /** The chain after a step that leaves the implementation alive. */
  lemma StepChain(s: State, step: Step)
    requires Owned(s) && Enabled(s, step) && !Apply(s, step).freed
    ensures Apply(s, step).linked
         == match step
            case Append(i, _) => s.linked + [i]
            case Truncate(k) => s.linked[..k]
            case TruncateBackwards(k) => s.linked[k + 1..]
            case _ => s.linked
  {
    match step
    case Truncate(k) => ErasedGuardedOwned(s, k, |s.linked| - k);
    case TruncateBackwards(k) => ErasedGuardedOwned(s, 0, k + 1);
    case Release(i) => ReleaseOwned(s, i);
    case _ =>
  }

  lemma {:induction false} ErasedHeap(s: State, k: nat, n: nat)
    requires k + n <= |s.linked| && s.heap <= s.refs.Keys
    ensures var t := Erased(s, k, n); t.refs.Keys <= s.refs.Keys && t.heap == s.heap * t.refs.Keys
    decreases n
  {
    if n > 0 {
      ErasedHeap(UnlinkedAt(s, k), k, n - 1);
    }
  }

  /** An interpreter outside the slots stays one as long as it exists. */
  ghost predicate KeepsHeap(s: State, t: State) {
    t.heap == s.heap * t.refs.Keys
  }

  lemma GuardedHeap(s: State, k: nat, n: nat)
    requires Owned(s) && !s.freed && k + n <= |s.linked|
    ensures KeepsHeap(s, ErasedGuarded(s, k, n))
  {
    ErasedHeap(s.(count := s.count + 1), k, n);
  }

  lemma ReleaseHeap(s: State, i: nat)
    requires Owned(s) && !s.freed && i in s.refs && s.refs[i] > 0 && !ReleaseOf(s, i).freed
    ensures KeepsHeap(s, ReleaseOf(s, i))
  {
    var dropped := s.(refs := s.refs[i := s.refs[i] - 1]);
    assert dropped.refs.Keys == s.refs.Keys;
    ReleaseOwned(s, i);
  }

  /** While the implementation lives, interpreters outside the slots stay outside, and only an append makes one. */
  lemma StepHeap(s: State, step: Step)
    requires Owned(s) && Enabled(s, step) && !Apply(s, step).freed
    ensures !step.Append? ==> KeepsHeap(s, Apply(s, step))
    ensures step.Append? ==> Apply(s, step).heap == s.heap + (if step.heap then {step.i} else {})
  {
    match step
    case AddRef(i) => assert Apply(s, step).refs.Keys == s.refs.Keys;
    case Truncate(k) => GuardedHeap(s, k, |s.linked| - k);
    case TruncateBackwards(k) => GuardedHeap(s, 0, k + 1);
    case Release(i) => ReleaseHeap(s, i);
    case _ =>
  }

  // ------------------------------------------------------------------------------------------
  // Clearing the chain

  /** clearInterpreters, which replaceAs uses: the chain is emptied without releasing its members. */
  function ChainCleared(s: State): State {
    s.(linked := [])
  }

  /** It keeps the count right in any case, but leaves handle-free interpreters behind exactly if some
      member of the chain has no handle. */
  lemma ClearingChain(s: State)
    requires Owned(s) && !s.freed
    ensures Counted(ChainCleared(s))
    ensures Owned(ChainCleared(s)) <==> forall i :: i in s.linked ==> s.refs[i] > 0
  {
    assert Held(ChainCleared(s)) == Held(s);
    if Clean(ChainCleared(s)) {
      forall i | i in s.linked ensures s.refs[i] > 0 {
        assert i in ChainCleared(s).refs;
      }
    }
  }

  /** replaceAs: under a guard the chain is cleared and an interpreter is appended, whose handle is returned. */
  function ReplacedAs(s: State, k: nat, heap: bool): State {
    var cleared := ChainCleared(Apply(s, EnterGuard));
    Apply(Apply(Apply(cleared, Append(k, heap)), AddRef(k)), LeaveGuard)
  }

  /** An interpreter outside the slots that nobody refers to any more. */
  ghost predicate Leaked(s: State, i: nat) {
    i in s.refs && s.refs[i] == 0 && i in s.heap && i !in s.linked
  }

  lemma {:induction false} ErasedLeaked(s: State, k: nat, n: nat, i: nat)
    requires Leaked(s, i) && k + n <= |s.linked|
    ensures Leaked(Erased(s, k, n), i)
    decreases n
  {
    if n > 0 {
      var next := UnlinkedAt(s, k);
      assert forall x :: x in next.linked ==> x in s.linked;
      ErasedLeaked(next, k, n - 1, i);
    }
  }

  lemma {:induction false} SelfDestroyedLeaked(s: State, i: nat)
    requires Leaked(s, i)
    ensures Leaked(SelfDestroyed(s), i)
    decreases |s.linked|
  {
    if s.linked != [] {
      var next := ReleasedFromChain(s.(linked := s.linked[1..]), s.linked[0]);
      SelfDestroyedLeaked(next, i);
    }
  }

  lemma ImplReleasedLeaked(s: State, i: nat)
    requires Leaked(s, i) && s.count >= 1
    ensures Leaked(ImplReleased(s), i)
  {
    SelfDestroyedLeaked(s, i);
  }

  /** Nothing can refer to it, and nothing else destroys it. */
  lemma StepLeaked(s: State, step: Step, i: nat)
    requires Leaked(s, i) && step != AddRef(i)
    ensures Leaked(Apply(s, step), i)
  {
    if Enabled(s, step) {
      match step
      case AddRef(j) =>
      case Release(j) =>
        var dropped := s.(refs := s.refs[j := s.refs[j] - 1]);
        ImplReleasedLeaked(if j in s.linked then dropped else ReleasedFromChain(dropped, j), i);
      case Append(_, _) =>
      case Truncate(k) => GuardedLeaked(s, k, |s.linked| - k, i);
      case TruncateBackwards(k) => GuardedLeaked(s, 0, k + 1, i);
      case EnterGuard =>
      case LeaveGuard => ImplReleasedLeaked(s.(guards := s.guards - 1), i);
    }
  }

  lemma GuardedLeaked(s: State, k: nat, n: nat, i: nat)
    requires Leaked(s, i) && k + n <= |s.linked|
    ensures Leaked(ErasedGuarded(s, k, n), i)
  {
    var guarded := s.(count := s.count + 1);
    ErasedLeaked(guarded, k, n, i);
    ImplReleasedLeaked(Erased(guarded, k, n), i);
  }

  /** Over every run: an interpreter to which nothing refers any more stays in memory, also after the
      implementation is gone. */
  lemma {:induction false} RunLeaked(s: State, steps: seq<Step>, i: nat)
    requires Leaked(s, i) && AddRef(i) !in steps
    ensures Leaked(Run(s, steps), i)
  {
    if steps != [] {
      RunLeaked(s, steps[..|steps| - 1], i);
      StepLeaked(Run(s, steps[..|steps| - 1]), steps[|steps| - 1], i);
    }
  }

  /** replaceAs on a packet with a handle-free interpreter outside the slots leaks that interpreter, whatever
      happens afterwards. */
  lemma ReplacingLeaks(s: State, k: nat, heap: bool, steps: seq<Step>, i: nat)
    requires Owned(s) && !s.freed && k !in s.refs && AddRef(i) !in steps
    requires i in s.linked && s.refs[i] == 0 && i in s.heap
    ensures Leaked(Run(ReplacedAs(s, k, heap), steps), i)
  {
    var cleared := ChainCleared(Apply(s, EnterGuard));
    StepLeaked(Apply(cleared, Append(k, heap)), AddRef(k), i);
    StepLeaked(Apply(Apply(cleared, Append(k, heap)), AddRef(k)), LeaveGuard, i);
    RunLeaked(ReplacedAs(s, k, heap), steps, i);
  }

  /** The number of preallocated slots. */
  const SLOTS: nat := 8

  /** n interpreters are parsed one after the other, into the slots and then outside of them. */
  function Parsing(n: nat): seq<Step> {
    if n == 0 then [] else Parsing(n - 1) + [Append(n - 1, n - 1 >= SLOTS)]
  }

  /** Interpreters 0 to n - 1 are linked, without handles, and those behind the slots are outside of them. */
  ghost predicate IsParsed(s: State, n: nat) {
    && !s.freed && s.count == 1 && s.guards == 1 && |s.linked| == n
    && (forall i :: i in s.refs <==> 0 <= i < n) && (forall i :: 0 <= i < n ==> s.refs[i] == 0)
    && (forall i :: 0 <= i < n ==> s.linked[i] == i) && (forall i :: i in s.heap <==> SLOTS <= i < n)
  }

  lemma ParsedNext(s: State, n: nat)
    requires IsParsed(s, n)
    ensures IsParsed(Apply(s, Append(n, n >= SLOTS)), n + 1)
  {
  }

  lemma {:induction false} Parsed(n: nat)
    ensures IsParsed(Run(CREATED, Parsing(n)), n)
  {
    if n > 0 {
      Parsed(n - 1);
      ParsedNext(Run(CREATED, Parsing(n - 1)), n - 1);
      ParsingLength(n - 1);
      assert Parsing(n)[..n - 1] == Parsing(n - 1);
    }
  }

  lemma {:induction false} ParsingLength(n: nat)
    ensures |Parsing(n)| == n
  {
    if n > 0 {
      ParsingLength(n - 1);
    }
  }

  /** The packet of these interpreters, kept by a handle of the first one alone. */
  function HeldByFirst(n: nat): State {
    Apply(Apply(Run(CREATED, Parsing(n)), AddRef(0)), LeaveGuard)
  }

  /** A concrete failure: a packet with more interpreters than slots is replaced through the handle of its first
      interpreter, and both handles are released. The packet is gone, and interpreter 8 is not. */
  lemma ClearingLeaks(n: nat)
    requires n > SLOTS
    ensures var t := Run(ReplacedAs(HeldByFirst(n), n, false), [Release(0), Release(n)]);
            t.freed && SLOTS in t.refs
  {
    var s := HeldByFirst(n);
    Parsed(n);
    RunOwned(Parsing(n));
    StepOwned(Run(CREATED, Parsing(n)), AddRef(0));
    StepOwned(Apply(Run(CREATED, Parsing(n)), AddRef(0)), LeaveGuard);
    assert s.linked[SLOTS] == SLOTS;
    ReplacingLeaks(s, n, false, [Release(0), Release(n)], SLOTS);
    ReplacedIsFreed(s, 0, n);
  }

  lemma ReplacedIsFreed(s: State, i: nat, k: nat)
    requires !s.freed && s.count == 1 && s.guards == 0 && k !in s.refs && i in s.refs && s.refs[i] == 1
    ensures Run(ReplacedAs(s, k, false), [Release(i), Release(k)]).freed
  {
    var r := ReplacedAs(s, k, false);
    assert r.linked == [k] && r.refs[i] == 1 && r.refs[k] == 1 && r.count == 2 && !r.freed;
    var steps := [Release(i), Release(k)];
    assert steps[..1] == [Release(i)] && steps[..1][..0] == [];
    assert Run(r, steps[..1]) == Apply(r, Release(i));
  }

  // ------------------------------------------------------------------------------------------
  // The counts as they are updated in place

  class CountedImpl {
    var refs: map<nat, nat>
    var heap: set<nat>
    var linked: seq<nat>
    var refcount: nat
    var freed: bool
    ghost var guards: nat

    ghost function Value(): State
      reads this
    {
      State(refs, heap, linked, refcount, guards, freed)
    }

    constructor ()
      ensures Value() == CREATED
    {
      refs, heap, linked, refcount, freed := map[], {}, [], 1, false;
      guards := 1;
    }

    method Destroy(i: nat)
      modifies this`refs, this`heap
      ensures Value() == Destroyed(old(Value()), i)
    {
      refs, heap := refs - {i}, heap - {i};
    }

    method ReleaseFromChain(i: nat)
      modifies this`refs, this`heap
      ensures Value() == ReleasedFromChain(old(Value()), i)
    {
      if i in refs && refs[i] == 0 {
        Destroy(i);
      }
    }

    /** The interpreters between positions k and e leave the chain one after the other. */
    method EraseInterpreters(k: nat, e: nat)
      requires k <= e <= |linked|
      modifies this`refs, this`heap, this`linked
      ensures Value() == Erased(old(Value()), k, e - k)
    {
      ghost var start := Value();
      var left := e - k;
      while left != 0
        invariant 0 <= left <= e - k && k + left <= |linked|
        invariant Erased(Value(), k, left) == Erased(start, k, e - k)
      {
        var i := linked[k];
        linked := linked[..k] + linked[k + 1..];
        ReleaseFromChain(i);
        left := left - 1;
      }
    }

    method DestroySelf()
      modifies this`refs, this`heap, this`linked
      ensures Value() == SelfDestroyed(old(Value()))
    {
      ghost var start := Value();
      while linked != []
        invariant SelfDestroyed(Value()) == SelfDestroyed(start)
        decreases |linked|
      {
        var i := linked[0];
        linked := linked[1..];
        ReleaseFromChain(i);
        if heap == {} {
          return;
        }
      }
    }

    method ImplRelease()
      requires refcount >= 1
      modifies this
      ensures Value() == ImplReleased(old(Value()))
    {
      if refcount == 1 {
        if heap != {} {
          DestroySelf();
        }
        refs := map i | i in refs && i in heap :: refs[i];
        linked, refcount, freed := [], 0, true;
      } else {
        refcount := refcount - 1;
      }
    }

    method AddRef(i: nat)
      requires i in refs
      modifies this
      ensures Value() == AddRefTo(old(Value()), i)
    {
      if refs[i] == 0 {
        refcount := refcount + 1;
      }
      refs := refs[i := refs[i] + 1];
    }

    method Release(i: nat)
      requires i in refs && refs[i] > 0 && refcount >= 1
      modifies this
      ensures Value() == ReleaseOf(old(Value()), i)
    {
      refs := refs[i := refs[i] - 1];
      if refs[i] == 0 {
        if i !in linked {
          ReleaseFromChain(i);
        }
        ImplRelease();
      }
    }

    method TruncateInterpreters(k: nat)
      requires k < |linked|
      modifies this
      ensures Value() == ErasedGuarded(old(Value()), k, |old(linked)| - k)
    {
      refcount := refcount + 1;
      EraseInterpreters(k, |linked|);
      ImplRelease();
    }
  }
}
