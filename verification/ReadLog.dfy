/**
 What the reads of an input connector return.

 A read takes a packet out first and returns it last. A read from the deque keeps its packet in a
 member of the connector in between, where a read from the deque that begins before the first one
 has returned puts its own.
 */
module ReadLog {
  import opened Common

  /** A read in progress: the number of the packet it took out, and whether that came from the deque. */
  datatype Read = Read(number: nat, slow: bool)

  /** How many packets were taken out; the number of the one in slowPacket_; the reads in progress, innermost
      last; and the numbers of the packets that reads have returned. */
  datatype Log = Log(taken: nat, slow: Option<nat>, inside: seq<Read>, returned: seq<nat>)

  datatype Op = Begin(slow: bool) | Return | GiveUp

  /** The number of the packet a read returns: a read from the deque returns what slowPacket_ holds by now. */
  function Result(l: Log, r: Read): nat {
    if r.slow && l.slow.Some? then l.slow.value else r.number
  }

  /** A read takes a packet out, the innermost read returns, or an exception ends it; without a read in progress
      there is nothing to end. */
  function Apply(l: Log, op: Op): Log {
    var n := |l.inside| - 1;
    match op
    case Begin(slow) =>
      Log(l.taken + 1, if slow then Some(l.taken) else l.slow, l.inside + [Read(l.taken, slow)], l.returned)
    case Return =>
      if n < 0 then l else l.(inside := l.inside[..n], returned := l.returned + [Result(l, l.inside[n])])
    case GiveUp =>
      if n < 0 then l else l.(inside := l.inside[..n])
  }

  /** The first n numbers. */
  function Numbers(n: nat): (r: seq<nat>)
    ensures |r| == n && forall i :: 0 <= i < n ==> r[i] == i
  {
    if n == 0 then [] else Numbers(n - 1) + [n - 1]
  }

  /** Numbers name packets that were taken out, in order; slowPacket_ is at least as new as any read from the
      deque. */
  ghost predicate Numbered(l: Log) {
    && (forall j :: 0 <= j < |l.returned| ==> l.returned[j] < l.taken)
    && |l.returned| + |l.inside| <= l.taken
    && (forall i :: 0 <= i < |l.inside| ==> l.inside[i].number < l.taken)
    && (forall i, j :: 0 <= i < j < |l.inside| ==> l.inside[i].number < l.inside[j].number)
    && (l.slow.Some? ==> l.slow.value < l.taken)
    && (forall i :: 0 <= i < |l.inside| && l.inside[i].slow ==> l.slow.Some? && l.inside[i].number <= l.slow.value)
  }

  lemma StepNumbered(l: Log, op: Op)
    requires Numbered(l)
    ensures Numbered(Apply(l, op))
  {
  }

  // ------------------------------------------------------------------------------------------
  // Order

  /** What makes reads return out of order: a read begins inside another one, or is given up. */
  predicate Disturbs(l: Log, op: Op) {
    !op.Return? && l.inside != []
  }

  /** Every read so far returned the packet it took, in order, and at most one is in progress. */
  ghost predicate Straight(l: Log) {
    && |l.inside| <= 1 && |l.inside| <= l.taken
    && l.returned == Numbers(l.taken - |l.inside|)
    && (l.inside != [] ==> Result(l, l.inside[0]) == l.taken - 1)
  }

  /** Something was given up, or returned at the wrong place, or will be next. */
  ghost predicate Crooked(l: Log) {
    || |l.returned| + |l.inside| < l.taken
    || (exists j :: 0 <= j < |l.returned| && l.returned[j] != j)
    || (|l.inside| >= 2 && forall j :: 1 <= j < |l.inside| ==> l.inside[j].number > |l.returned|)
  }

  lemma StepStraight(l: Log, op: Op)
    requires Straight(l)
    ensures if Disturbs(l, op) then Crooked(Apply(l, op)) else Straight(Apply(l, op))
  {
  }

  lemma StepCrooked(l: Log, op: Op)
    requires Numbered(l) && Crooked(l)
    ensures Crooked(Apply(l, op))
  {
    var m := Apply(l, op);
    if j :| 0 <= j < |l.returned| && l.returned[j] != j {
      assert m.returned[j] != j;
    } else if op.Return? && |l.inside| >= 2 && |l.returned| + |l.inside| == l.taken {
      assert m.returned[|l.returned|] != |l.returned|;
    }
  }

  /** Once all reads have returned, the two are the two sides of "in order". */
  lemma StraightOrCrooked(l: Log)
    requires l.inside == []
    ensures Straight(l) <==> l.returned == Numbers(l.taken)
    ensures Crooked(l) ==> l.returned != Numbers(l.taken)
  {
  }

  // ------------------------------------------------------------------------------------------
  // Loss

  predicate SlowInside(l: Log) {
    exists i :: 0 <= i < |l.inside| && l.inside[i].slow
  }

  /** What keeps a packet that was taken out from ever being returned: a read from the deque begins inside
      another one and overwrites slowPacket_, or a read is given up. */
  predicate Loses(l: Log, op: Op) {
    (op == Begin(true) && SlowInside(l)) || (op.GiveUp? && l.inside != [])
  }

  function Held(rs: seq<Read>): (r: seq<nat>)
    ensures |r| == |rs| && forall i :: 0 <= i < |rs| ==> r[i] == rs[i].number
  {
    seq(|rs|, i requires 0 <= i < |rs| => rs[i].number)
  }

  /** What was taken out is returned or in the hands of a read in progress, each packet once. */
  ghost predicate Whole(l: Log) {
    Accounted(l.returned, Held(l.inside), l.taken) && SlowIsOwn(l)
  }

  ghost predicate Accounted(returned: seq<nat>, held: seq<nat>, n: nat) {
    multiset(returned) + multiset(held) == multiset(Numbers(n))
  }

  ghost predicate SlowIsOwn(l: Log) {
    forall i :: 0 <= i < |l.inside| && l.inside[i].slow ==> l.slow == Some(l.inside[i].number)
  }

  /** Packet a was taken out, was not returned, and no read in progress will return it. */
  ghost predicate Lost(l: Log, a: nat) {
    && a < l.taken && a !in l.returned
    && forall i :: 0 <= i < |l.inside| ==> Result(l, l.inside[i]) != a
  }

  lemma {:induction false} NumbersOnce(n: nat)
    ensures forall a :: multiset(Numbers(n))[a] == if 0 <= a < n then 1 else 0
  {
    if n > 0 {
      NumbersOnce(n - 1);
    }
  }

  lemma StepWhole(l: Log, op: Op)
    requires Whole(l) && !Loses(l, op)
    ensures Whole(Apply(l, op))
  {
    if op.Begin? {
      WholeBegin(l, op.slow);
    } else if l.inside != [] {
      WholeReturn(l);
    }
  }

  lemma WholeBegin(l: Log, slow: bool)
    requires Whole(l) && !Loses(l, Begin(slow))
    ensures Whole(Apply(l, Begin(slow)))
  {
    assert Held(Apply(l, Begin(slow)).inside) == Held(l.inside) + [l.taken];
    OneMoreHeld(l.returned, Held(l.inside), l.taken);
  }

  lemma OneMoreHeld(returned: seq<nat>, held: seq<nat>, n: nat)
    requires Accounted(returned, held, n)
    ensures Accounted(returned, held + [n], n + 1)
  {
    assert Numbers(n + 1) == Numbers(n) + [n];
  }

  lemma WholeReturn(l: Log)
    requires Whole(l) && l.inside != []
    ensures Whole(Apply(l, Return))
  {
    var m, n := Apply(l, Return), |l.inside| - 1;
    assert Held(l.inside) == Held(m.inside) + [l.inside[n].number];
    OneReturned(l.returned, Held(m.inside), l.inside[n].number, l.taken);
  }

  lemma OneReturned(returned: seq<nat>, held: seq<nat>, x: nat, n: nat)
    requires Accounted(returned, held + [x], n)
    ensures Accounted(returned + [x], held, n)
  {
  }

  /** The packet of a read in progress has not been returned. */
  lemma HeldNotReturned(l: Log, i: nat)
    requires Whole(l) && i < |l.inside|
    ensures l.inside[i].number !in l.returned && l.inside[i].number < l.taken
  {
    var a := l.inside[i].number;
    NumbersOnce(l.taken);
    assert Held(l.inside)[i] == a;
    assert a in multiset(Held(l.inside));
    assert a in multiset(Numbers(l.taken));
  }

  /** The packet that is lost is the one of the read that is overwritten or given up. */
  lemma LosingStep(l: Log, op: Op) returns (a: nat)
    requires Numbered(l) && Whole(l) && Loses(l, op)
    ensures Lost(Apply(l, op), a)
  {
    if op.GiveUp? {
      a := l.inside[|l.inside| - 1].number;
      HeldNotReturned(l, |l.inside| - 1);
    } else {
      var i :| 0 <= i < |l.inside| && l.inside[i].slow;
      a := l.inside[i].number;
      HeldNotReturned(l, i);
    }
  }

  lemma StepLost(l: Log, op: Op, a: nat)
    requires Lost(l, a)
    ensures Lost(Apply(l, op), a)
  {
  }
}
