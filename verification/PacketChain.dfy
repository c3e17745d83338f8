/**
 A packet as a value: one byte sequence and a chain of nested ranges into it, one range for each
 header interpreter. An edit through one interpreter moves the ranges of all of them.
 */
module PacketChain {
  import opened Storage

  /** The half-open index range of one interpreter. */
  datatype Range = Range(begin: int, end: int) {
    function Grown(n: int): Range { Range(begin, end + n) }
    function Shifted(n: int): Range { Range(begin + n, end + n) }
    predicate In(outer: Range) { outer.begin <= begin <= end <= outer.end }
  }

  datatype Packet = Packet(data: seq<Byte>, chain: seq<Range>)

  /** Every range lies in the buffer and in the range of the interpreter before it. */
  ghost predicate Nested(p: Packet) {
    && (forall i :: 0 <= i < |p.chain| ==> p.chain[i].In(Range(0, |p.data|)))
    && (forall i :: 0 < i < |p.chain| ==> p.chain[i].In(p.chain[i - 1]))
  }

  /** The bytes an interpreter sees. */
  function Sees(p: Packet, i: nat): (bytes: seq<Byte>)
    requires i < |p.chain| && p.chain[i].In(Range(0, |p.data|))
  {
    p.data[p.chain[i].begin..p.chain[i].end]
  }

  /** Nesting is transitive along the chain. */
  lemma {:induction false} LaterInEarlier(p: Packet, i: nat, j: nat)
    requires Nested(p) && i <= j < |p.chain|
    ensures p.chain[j].In(p.chain[i])
    decreases j - i
  {
    if i < j {
      LaterInEarlier(p, i, j - 1);
    }
  }

  // ------------------------------------------------------------------------------------------
  // Edits through one interpreter

  /** The three-case index patch: enclosing ranges and the edited one grow, and all later ones move or
      stay together, depending on where the next one begins. */
  function UpdateIterators(chain: seq<Range>, k: nat, pos: int, n: int): (r: seq<Range>)
    requires k < |chain|
    ensures |r| == |chain|
  {
    seq(|chain|, i requires 0 <= i < |chain| =>
      if i <= k then chain[i].Grown(n)
      else if pos <= chain[k + 1].begin then chain[i].Shifted(n)
      else chain[i])
  }

  function InsertAt(p: Packet, k: nat, pos: int, bytes: seq<Byte>): Packet
    requires k < |p.chain| && 0 <= pos <= |p.data|
  {
    Packet(p.data[..pos] + bytes + p.data[pos..], UpdateIterators(p.chain, k, pos, |bytes|))
  }

  function EraseAt(p: Packet, k: nat, first: int, last: int): Packet
    requires k < |p.chain| && 0 <= first <= last <= |p.data|
  {
    Packet(p.data[..first] + p.data[last..], UpdateIterators(p.chain, k, first, first - last))
  }

  /** The edited bytes belong to interpreter k but not to the next one. */
  predicate EditsOwnBytes(p: Packet, k: nat, first: int, last: int) {
    && k < |p.chain|
    && Range(first, last).In(p.chain[k])
    && (k + 1 < |p.chain| ==> last <= p.chain[k + 1].begin || p.chain[k + 1].end <= first)
  }

  /** Cutting a window out of a sequence in which something outside the window was replaced. */
  lemma WindowOutside(s: seq<Byte>, first: nat, last: nat, ins: seq<Byte>, b: nat, e: nat)
    requires first <= last <= |s| && b <= e <= |s| && (last <= b || e <= first)
    ensures var t := s[..first] + ins + s[last..]; var d := |ins| - (last - first);
            (last <= b ==> t[b + d..e + d] == s[b..e]) && (e <= first ==> t[b..e] == s[b..e])
  {
    var t := s[..first] + ins + s[last..];
    var d := |ins| - (last - first);
    if last <= b {
      var w := t[b + d..e + d];
      assert forall i :: 0 <= i < |w| ==> w[i] == t[b + d + i] == s[b + i];
    }
    if e <= first {
      var w := t[b..e];
      assert forall i :: 0 <= i < |w| ==> w[i] == t[b + i] == s[b + i];
    }
  }

  /** Cutting a window out of a sequence in which something inside the window was replaced. */
  lemma WindowAround(s: seq<Byte>, first: nat, last: nat, ins: seq<Byte>, b: nat, e: nat)
    requires b <= first <= last <= e <= |s|
    ensures var t := s[..first] + ins + s[last..]; var d := |ins| - (last - first);
            t[b..e + d] == s[b..e][..first - b] + ins + s[b..e][last - b..]
  {
    var t := s[..first] + ins + s[last..];
    var d := |ins| - (last - first);
    var w, u := t[b..e + d], s[b..e][..first - b] + ins + s[b..e][last - b..];
    forall i | 0 <= i < |w| ensures w[i] == u[i] {
      assert w[i] == t[b + i];
      if i >= first - b + |ins| {
        assert t[b + i] == s[b + i - d];
      }
    }
  }

  /** Cutting a window out of what was put into a sequence. */
  lemma WindowInside(s: seq<Byte>, first: nat, last: nat, ins: seq<Byte>, b: nat, e: nat)
    requires first <= last <= |s| && b <= e <= |ins|
    ensures (s[..first] + ins + s[last..])[first + b..first + e] == ins[b..e]
  {
  }

  /** The ranges are nested, and interpreters behind k see what they saw. */
  ghost predicate LaterKept(p: Packet, q: Packet, k: nat) {
    && Nested(p) && Nested(q) && |q.chain| == |p.chain|
    && (forall i :: k < i < |p.chain| ==> Sees(q, i) == Sees(p, i))
  }

  /** What a correct edit means: the ranges stay nested, interpreters up to k see the edit at its place,
      and all later ones see the bytes they saw. */
  ghost predicate EditSeen(p: Packet, q: Packet, k: nat, first: int, last: int, ins: seq<Byte>) {
    && LaterKept(p, q, k) && EditsOwnBytes(p, k, first, last)
    && (forall i :: 0 <= i <= k ==>
          0 <= first - p.chain[i].begin <= last - p.chain[i].begin <= |Sees(p, i)| &&
          Sees(q, i) == Sees(p, i)[..first - p.chain[i].begin] + ins + Sees(p, i)[last - p.chain[i].begin..])
  }

  /** q is p with bytes replaced and the chain patched. */
  ghost predicate Replaced(p: Packet, q: Packet, k: nat, first: int, last: int, ins: seq<Byte>) {
    && Nested(p) && EditsOwnBytes(p, k, first, last)
    && q.data == p.data[..first] + ins + p.data[last..]
    && q.chain == UpdateIterators(p.chain, k, first, |ins| - (last - first))
  }

  /** The patch takes the next interpreter to lie on the side of the edit where it does. */
  ghost predicate Patched(p: Packet, q: Packet, k: nat, first: int, last: int, ins: seq<Byte>) {
    && Replaced(p, q, k, first, last, ins)
    && (k + 1 < |p.chain| ==> (first <= p.chain[k + 1].begin <==> last <= p.chain[k + 1].begin))
  }

  lemma PatchedNested(p: Packet, q: Packet, k: nat, first: int, last: int, ins: seq<Byte>)
    requires Patched(p, q, k, first, last, ins)
    ensures Nested(q)
  {
    forall i | 0 <= i < |q.chain|
      ensures q.chain[i].In(Range(0, |q.data|))
      ensures i > 0 ==> q.chain[i].In(q.chain[i - 1])
    {
      if i <= k {
        LaterInEarlier(p, i, k);
      } else {
        LaterInEarlier(p, k, i);
        LaterInEarlier(p, k + 1, i);
      }
    }
  }

  lemma PatchedEnclosing(p: Packet, q: Packet, k: nat, first: int, last: int, ins: seq<Byte>, i: nat)
    requires Replaced(p, q, k, first, last, ins) && Nested(q) && i <= k
    ensures 0 <= first - p.chain[i].begin <= last - p.chain[i].begin <= |Sees(p, i)|
    ensures Sees(q, i) == Sees(p, i)[..first - p.chain[i].begin] + ins + Sees(p, i)[last - p.chain[i].begin..]
  {
    LaterInEarlier(p, i, k);
    WindowAround(p.data, first, last, ins, p.chain[i].begin, p.chain[i].end);
  }

  lemma PatchedLater(p: Packet, q: Packet, k: nat, first: int, last: int, ins: seq<Byte>, i: nat)
    requires Patched(p, q, k, first, last, ins) && Nested(q) && k < i < |p.chain|
    ensures Sees(q, i) == Sees(p, i)
  {
    LaterInEarlier(p, k + 1, i);
    WindowOutside(p.data, first, last, ins, p.chain[i].begin, p.chain[i].end);
  }

  /** What remains to be shown of an edit are its effects on nesting and on later interpreters. */
  lemma ReplacedEditSeen(p: Packet, q: Packet, k: nat, first: int, last: int, ins: seq<Byte>)
    requires Replaced(p, q, k, first, last, ins) && LaterKept(p, q, k)
    ensures EditSeen(p, q, k, first, last, ins)
  {
    forall i | 0 <= i <= k
      ensures 0 <= first - p.chain[i].begin <= last - p.chain[i].begin <= |Sees(p, i)|
      ensures Sees(q, i) == Sees(p, i)[..first - p.chain[i].begin] + ins + Sees(p, i)[last - p.chain[i].begin..]
    {
      PatchedEnclosing(p, q, k, first, last, ins, i);
    }
  }

  lemma PatchedKept(p: Packet, q: Packet, k: nat, first: int, last: int, ins: seq<Byte>)
    requires Patched(p, q, k, first, last, ins)
    ensures LaterKept(p, q, k)
  {
    PatchedNested(p, q, k, first, last, ins);
    forall i | k < i < |p.chain|
      ensures Sees(q, i) == Sees(p, i)
    {
      PatchedLater(p, q, k, first, last, ins, i);
    }
  }

  /** Every insert into an interpreter's own bytes is seen correctly by the whole chain. */
  lemma InsertSeen(p: Packet, k: nat, pos: int, bytes: seq<Byte>)
    requires Nested(p) && EditsOwnBytes(p, k, pos, pos)
    ensures EditSeen(p, InsertAt(p, k, pos, bytes), k, pos, pos, bytes)
    ensures LaterKept(p, InsertAt(p, k, pos, bytes), k)
  {
    PatchedKept(p, InsertAt(p, k, pos, bytes), k, pos, pos, bytes);
    ReplacedEditSeen(p, InsertAt(p, k, pos, bytes), k, pos, pos, bytes);
  }

  /** Right in front of the next interpreter, and right behind it, are own bytes. */
  lemma InsertAroundNext(p: Packet, k: nat, bytes: seq<Byte>)
    requires Nested(p) && k + 1 < |p.chain|
    ensures var pos := p.chain[k + 1].begin; EditSeen(p, InsertAt(p, k, pos, bytes), k, pos, pos, bytes)
    ensures var pos := p.chain[k + 1].end; EditSeen(p, InsertAt(p, k, pos, bytes), k, pos, pos, bytes)
  {
    InsertSeen(p, k, p.chain[k + 1].begin, bytes);
    InsertSeen(p, k, p.chain[k + 1].end, bytes);
  }

  /** Where the later ranges belong after an erase: they move down if they lie behind the erased bytes. */
  ghost predicate LaterPlaced(p: Packet, q: Packet, k: nat, first: int, last: int) {
    && |q.chain| == |p.chain|
    && forall i :: k < i < |p.chain| ==>
         q.chain[i] == if last <= p.chain[k + 1].begin then p.chain[i].Shifted(first - last) else p.chain[i]
  }

  /** The guard that goes wrong: the next interpreter is an empty range right where the erased bytes begin. */
  predicate ErasesFromEmptyNext(p: Packet, k: nat, first: int, last: int) {
    first < last && k + 1 < |p.chain| && p.chain[k + 1].begin == first
  }

  /** An erase of an interpreter's own bytes leaves the later ranges in place exactly if the erased bytes
      do not start at the next interpreter's range. */
  lemma ErasePlacesLater(p: Packet, k: nat, first: int, last: int)
    requires Nested(p) && EditsOwnBytes(p, k, first, last)
    ensures LaterPlaced(p, EraseAt(p, k, first, last), k, first, last) <==> !ErasesFromEmptyNext(p, k, first, last)
  {
    if ErasesFromEmptyNext(p, k, first, last) {
      assert EraseAt(p, k, first, last).chain[k + 1] == p.chain[k + 1].Shifted(first - last);
    }
  }

  /** The misplaced ranges leave the range of interpreter k. */
  predicate EraseBreaks(p: Packet, k: nat, first: int, last: int) {
    ErasesFromEmptyNext(p, k, first, last) && first - (last - first) < p.chain[k].begin
  }

  /** An erase of an interpreter's own bytes keeps the ranges nested, and what later interpreters see, if and only
      if it does not start at an empty next range so close to the begin of the interpreter that this range
      moves out of it. */
  lemma EraseKeeps(p: Packet, k: nat, first: int, last: int)
    requires Nested(p) && EditsOwnBytes(p, k, first, last)
    ensures Nested(EraseAt(p, k, first, last)) <==> !EraseBreaks(p, k, first, last)
    ensures LaterKept(p, EraseAt(p, k, first, last), k) <==> !EraseBreaks(p, k, first, last)
  {
    var q := EraseAt(p, k, first, last);
    if !ErasesFromEmptyNext(p, k, first, last) {
      PatchedKept(p, q, k, first, last, []);
    } else if EraseBreaks(p, k, first, last) {
      assert !q.chain[k + 1].In(q.chain[k]);
    } else {
      MisplacedKept(p, k, first, last);
    }
  }

  /** In the same cases it is also seen at its place by the interpreters up to this one. */
  lemma EraseSeen(p: Packet, k: nat, first: int, last: int)
    requires Nested(p) && EditsOwnBytes(p, k, first, last)
    ensures EditSeen(p, EraseAt(p, k, first, last), k, first, last, []) <==> !EraseBreaks(p, k, first, last)
  {
    EraseKeeps(p, k, first, last);
    if !EraseBreaks(p, k, first, last) {
      ReplacedEditSeen(p, EraseAt(p, k, first, last), k, first, last, []);
    }
  }

  /** Misplaced ranges are empty, so that they see what they saw as long as they are nested. */
  lemma MisplacedKept(p: Packet, k: nat, first: int, last: int)
    requires Nested(p) && EditsOwnBytes(p, k, first, last)
    requires ErasesFromEmptyNext(p, k, first, last) && !EraseBreaks(p, k, first, last)
    ensures LaterKept(p, EraseAt(p, k, first, last), k)
  {
    var q := EraseAt(p, k, first, last);
    forall i | 0 <= i < |q.chain|
      ensures q.chain[i].In(Range(0, |q.data|))
      ensures i > 0 ==> q.chain[i].In(q.chain[i - 1])
      ensures i > k ==> p.chain[i] == Range(first, first)
    {
      if i <= k {
        LaterInEarlier(p, i, k);
      } else {
        LaterInEarlier(p, k + 1, i);
      }
    }
  }

  /** A concrete failure: the payload of a packet is empty, and the trailer behind it is erased. */
  lemma EraseBehindEmptyPayload()
    ensures var p := Packet([1, 2, 3], [Range(0, 3), Range(0, 0)]);
            Nested(p) && EditsOwnBytes(p, 0, 0, 3) && !Nested(EraseAt(p, 0, 0, 3))
  {
    var p := Packet([1, 2, 3], [Range(0, 3), Range(0, 0)]);
    assert EraseAt(p, 0, 0, 3).chain[1] == Range(-3, -3);
  }

  /** Dropping the interpreters behind k. */
  function Truncated(p: Packet, k: nat): Packet
    requires k < |p.chain|
  {
    p.(chain := p.chain[..k + 1])
  }

  /** PacketImpl::clear: the interpreter keeps its place but no bytes, and nothing comes after it. */
  function Cleared(p: Packet, k: nat): Packet
    requires k < |p.chain| && p.chain[k].In(Range(0, |p.data|))
  {
    EraseAt(Truncated(p, k), k, p.chain[k].begin, p.chain[k].end)
  }

  lemma ClearedSeen(p: Packet, k: nat)
    requires Nested(p) && k < |p.chain|
    ensures EditSeen(Truncated(p, k), Cleared(p, k), k, p.chain[k].begin, p.chain[k].end, [])
    ensures Sees(Cleared(p, k), k) == []
  {
    EraseSeen(Truncated(p, k), k, p.chain[k].begin, p.chain[k].end);
  }

  // ------------------------------------------------------------------------------------------
  // Whole chains

  /** A chain moved to another place in another buffer. */
  function Moved(chain: seq<Range>, n: int): (r: seq<Range>)
    ensures |r| == |chain|
  {
    seq(|chain|, i requires 0 <= i < |chain| => chain[i].Shifted(n))
  }

  function GrownChain(chain: seq<Range>, n: int): (r: seq<Range>)
    ensures |r| == |chain|
  {
    seq(|chain|, i requires 0 <= i < |chain| => chain[i].Grown(n))
  }

  /** Replacing the range r inside interpreter k, and everything behind k, by interpreter m of q and
      everything behind m. */
  function Appended(p: Packet, k: nat, r: Range, q: Packet, m: nat): Packet
    requires k < |p.chain| && r.In(Range(0, |p.data|)) && m < |q.chain| && q.chain[m].In(Range(0, |q.data|))
  {
    var body := Sees(q, m);
    Packet(p.data[..r.begin] + body + p.data[r.end..],
           GrownChain(p.chain[..k + 1], |body| - (r.end - r.begin)) + Moved(q.chain[m..], r.begin - q.chain[m].begin))
  }

  /** The appended packet is a splice: the chain is nested, the interpreters up to k see the body in
      place of r, and the copied interpreters see what the originals see. */
  lemma AppendedSeen(p: Packet, k: nat, r: Range, q: Packet, m: nat)
    requires Nested(p) && Nested(q) && k < |p.chain| && m < |q.chain| && r.In(p.chain[k])
    ensures Nested(Appended(p, k, r, q, m))
    ensures forall i :: 0 <= i <= k ==>
              0 <= r.begin - p.chain[i].begin <= r.end - p.chain[i].begin <= |Sees(p, i)| &&
              Sees(Appended(p, k, r, q, m), i)
              == Sees(p, i)[..r.begin - p.chain[i].begin] + Sees(q, m) + Sees(p, i)[r.end - p.chain[i].begin..]
    ensures forall j :: m <= j < |q.chain| ==> Sees(Appended(p, k, r, q, m), k + 1 + j - m) == Sees(q, j)
  {
    AppendedEnclosing(p, k, r, q, m);
    AppendedNested(p, k, r, q, m);
    AppendedCopies(p, k, r, q, m);
  }

  lemma AppendedNested(p: Packet, k: nat, r: Range, q: Packet, m: nat)
    requires Nested(p) && Nested(q) && k < |p.chain| && m < |q.chain| && r.In(p.chain[k])
    ensures Nested(Appended(p, k, r, q, m))
  {
    var t := Appended(p, k, r, q, m);
    forall i | 0 <= i < |t.chain|
      ensures t.chain[i].In(Range(0, |t.data|))
      ensures i > 0 ==> t.chain[i].In(t.chain[i - 1])
    {
      if i <= k {
        LaterInEarlier(p, i, k);
      } else {
        var j := i - (k + 1) + m;
        LaterInEarlier(q, m, j);
        assert t.chain[i] == q.chain[j].Shifted(r.begin - q.chain[m].begin);
        if i > k + 1 {
          assert t.chain[i - 1] == q.chain[j - 1].Shifted(r.begin - q.chain[m].begin);
        }
      }
    }
  }

  lemma AppendedEnclosing(p: Packet, k: nat, r: Range, q: Packet, m: nat)
    requires Nested(p) && Nested(q) && k < |p.chain| && m < |q.chain| && r.In(p.chain[k])
    ensures var t := Appended(p, k, r, q, m);
            forall i :: 0 <= i <= k ==>
              t.chain[i].In(Range(0, |t.data|)) &&
              0 <= r.begin - p.chain[i].begin <= r.end - p.chain[i].begin <= |Sees(p, i)| &&
              Sees(t, i)
              == Sees(p, i)[..r.begin - p.chain[i].begin] + Sees(q, m) + Sees(p, i)[r.end - p.chain[i].begin..]
  {
    forall i | 0 <= i <= k
      ensures var t := Appended(p, k, r, q, m);
              t.chain[i].In(Range(0, |t.data|)) &&
              0 <= r.begin - p.chain[i].begin <= r.end - p.chain[i].begin <= |Sees(p, i)| &&
              Sees(t, i)
              == Sees(p, i)[..r.begin - p.chain[i].begin] + Sees(q, m) + Sees(p, i)[r.end - p.chain[i].begin..]
    {
      LaterInEarlier(p, i, k);
      WindowAround(p.data, r.begin, r.end, Sees(q, m), p.chain[i].begin, p.chain[i].end);
    }
  }

  lemma AppendedCopies(p: Packet, k: nat, r: Range, q: Packet, m: nat)
    requires Nested(p) && Nested(q) && k < |p.chain| && m < |q.chain| && r.In(p.chain[k])
    requires Nested(Appended(p, k, r, q, m))
    ensures forall j :: m <= j < |q.chain| ==> Sees(Appended(p, k, r, q, m), k + 1 + j - m) == Sees(q, j)
  {
    var t := Appended(p, k, r, q, m);
    forall j | m <= j < |q.chain|
      ensures Sees(t, k + 1 + j - m) == Sees(q, j)
    {
      LaterInEarlier(q, m, j);
      var c, base := q.chain[j], q.chain[m].begin;
      assert t.chain[k + 1 + j - m] == Moved(q.chain[m..], r.begin - base)[j - m] == c.Shifted(r.begin - base);
      WindowInside(p.data, r.begin, r.end, Sees(q, m), c.begin - base, c.end - base);
      assert Sees(q, m)[c.begin - base..c.end - base] == Sees(q, j);
    }
  }

  /** The part of a packet from interpreter k on, as a packet of its own. */
  function Cloned(p: Packet, k: nat): Packet
    requires k < |p.chain| && p.chain[k].In(Range(0, |p.data|))
  {
    Packet(Sees(p, k), Moved(p.chain[k..], -p.chain[k].begin))
  }

  lemma ClonedSeen(p: Packet, k: nat)
    requires Nested(p) && k < |p.chain|
    ensures Nested(Cloned(p, k)) && Cloned(p, k).chain[0] == Range(0, |Sees(p, k)|)
    ensures forall i :: 0 <= i < |p.chain| - k ==> Sees(Cloned(p, k), i) == Sees(p, i + k)
  {
    var c := Cloned(p, k);
    var base := p.chain[k].begin;
    assert forall i :: 0 <= i < |c.chain| ==> c.chain[i] == p.chain[i + k].Shifted(-base);
    forall i | 0 <= i < |c.chain|
      ensures c.chain[i].In(Range(0, |c.data|))
      ensures Sees(c, i) == Sees(p, i + k)
    {
      LaterInEarlier(p, k, i + k);
      var w := Sees(c, i);
      assert forall x :: 0 <= x < |w| ==> w[x] == c.data[c.chain[i].begin + x] == p.data[p.chain[i + k].begin + x];
    }
  }

  lemma CutInThree(s: seq<Byte>, b: nat, e: nat)
    requires b <= e <= |s|
    ensures s[..b] + s[b..e] + s[e..] == s
  {
  }

  /** Cloning and appending are inverse: a clone put back where it was taken gives the packet again. */
  lemma AppendClonedBack(p: Packet, k: nat)
    requires Nested(p) && 0 < k < |p.chain|
    ensures Appended(p, k - 1, p.chain[k], Cloned(p, k), 0) == p
  {
    var c := Cloned(p, k);
    ClonedSeen(p, k);
    var t := Appended(p, k - 1, p.chain[k], c, 0);
    assert Sees(c, 0) == Sees(p, k);
    CutInThree(p.data, p.chain[k].begin, p.chain[k].end);
    assert forall i :: 0 <= i < k ==> t.chain[i] == p.chain[i].Grown(0) == p.chain[i];
    assert forall i :: k <= i < |p.chain| ==> t.chain[i] == c.chain[i - k].Shifted(p.chain[k].begin) == p.chain[i];
  }

  // ------------------------------------------------------------------------------------------
  // Resizing a parsed field

  /** PacketParserBase::resize: a field of oldSize bytes at position at becomes newSize bytes long. */
  function FieldResized(p: Packet, k: nat, at: int, oldSize: nat, newSize: nat): Packet
    requires k < |p.chain| && 0 <= at && at + oldSize <= |p.data|
  {
    if oldSize > newSize then EraseAt(p, k, at + newSize, at + oldSize)
    else if oldSize < newSize then InsertAt(p, k, at + oldSize, seq(newSize - oldSize, _ => 0))
    else p
  }

  /** The bytes that go or come with a resize are the interpreter's own. */
  predicate ResizesOwnBytes(p: Packet, k: nat, at: int, oldSize: nat, newSize: nat) {
    EditsOwnBytes(p, k, if oldSize > newSize then at + newSize else at + oldSize, at + oldSize)
  }

  /** A sequence whose bytes [at, at + oldSize) become newSize bytes: cut off, or filled up with zeros. */
  function ResizedBytes(data: seq<Byte>, at: nat, oldSize: nat, newSize: nat): seq<Byte>
    requires at + oldSize <= |data|
  {
    data[..at]
    + (if oldSize > newSize then data[at..at + newSize] else data[at..at + oldSize] + seq(newSize - oldSize, _ => 0))
    + data[at + oldSize..]
  }

  lemma FieldResizedBytes(p: Packet, k: nat, at: nat, oldSize: nat, newSize: nat)
    requires k < |p.chain| && at + oldSize <= |p.data|
    ensures FieldResized(p, k, at, oldSize, newSize).data == ResizedBytes(p.data, at, oldSize, newSize)
  {
    var kept := if oldSize > newSize then newSize else oldSize;
    assert p.data[..at + kept] == p.data[..at] + p.data[at..at + kept];
    if oldSize == newSize {
      assert p.data == p.data[..at + oldSize] + p.data[at + oldSize..];
    }
  }

  /** What a resize means: the field keeps its common bytes and grows by zeros, the bytes around it stay, the owning
      interpreter keeps its begin (so the parser keeps its place in it), the chain stays nested, and later
      interpreters see what they saw. */
  ghost predicate ResizeSeen(p: Packet, q: Packet, k: nat, at: nat, oldSize: nat, newSize: nat)
    requires k < |p.chain| && at + oldSize <= |p.data|
  {
    && LaterKept(p, q, k)
    && q.chain[k].begin == p.chain[k].begin
    && q.data == ResizedBytes(p.data, at, oldSize, newSize)
  }

  /** This holds if and only if the resize does not shrink the field by an erase that goes wrong. */
  lemma FieldResizedSeen(p: Packet, k: nat, at: nat, oldSize: nat, newSize: nat)
    requires Nested(p) && k < |p.chain| && p.chain[k].begin <= at && at + oldSize <= p.chain[k].end
    requires ResizesOwnBytes(p, k, at, oldSize, newSize)
    ensures ResizeSeen(p, FieldResized(p, k, at, oldSize, newSize), k, at, oldSize, newSize)
       <==> !(oldSize > newSize && EraseBreaks(p, k, at + newSize, at + oldSize))
  {
    FieldResizedBytes(p, k, at, oldSize, newSize);
    if oldSize > newSize {
      ShrunkSeen(p, k, at, oldSize, newSize);
    } else if oldSize < newSize {
      GrownSeen(p, k, at, oldSize, newSize, seq(newSize - oldSize, _ => 0));
    }
  }

  lemma ShrunkSeen(p: Packet, k: nat, at: nat, oldSize: nat, newSize: nat)
    requires Nested(p) && oldSize > newSize && EditsOwnBytes(p, k, at + newSize, at + oldSize)
    requires EraseAt(p, k, at + newSize, at + oldSize).data == ResizedBytes(p.data, at, oldSize, newSize)
    ensures ResizeSeen(p, EraseAt(p, k, at + newSize, at + oldSize), k, at, oldSize, newSize)
       <==> !EraseBreaks(p, k, at + newSize, at + oldSize)
  {
    EraseKeeps(p, k, at + newSize, at + oldSize);
  }

  lemma GrownSeen(p: Packet, k: nat, at: nat, oldSize: nat, newSize: nat, zeros: seq<Byte>)
    requires Nested(p) && EditsOwnBytes(p, k, at + oldSize, at + oldSize)
    requires InsertAt(p, k, at + oldSize, zeros).data == ResizedBytes(p.data, at, oldSize, newSize)
    ensures ResizeSeen(p, InsertAt(p, k, at + oldSize, zeros), k, at, oldSize, newSize)
  {
    InsertSeen(p, k, at + oldSize, zeros);
  }

  /** PacketData::resize. */
  function Resized(p: Packet, k: nat, n: nat, v: Byte): Packet
    requires k < |p.chain| && p.chain[k].In(Range(0, |p.data|))
  {
    var r := p.chain[k];
    if n < r.end - r.begin then EraseAt(p, k, r.begin + n, r.end)
    else if n > r.end - r.begin then InsertAt(p, k, r.end, seq(n - (r.end - r.begin), _ => v))
    else p
  }

  /** The bytes after a resize, of any interpreter: its first n bytes, or all of them and then v, and everything
      around them. */
  lemma ResizedData(p: Packet, k: nat, n: nat, v: Byte)
    requires Nested(p) && k < |p.chain|
    ensures var r := p.chain[k]; var m := r.end - r.begin;
            Resized(p, k, n, v).data
            == p.data[..r.begin]
               + (if n <= m then p.data[r.begin..r.begin + n] else p.data[r.begin..r.end] + seq(n - m, _ => v))
               + p.data[r.end..]
  {
    var r := p.chain[k];
    if n <= r.end - r.begin {
      CutInThree(p.data[..r.end], r.begin, r.begin + n);
      assert p.data[..r.begin + n] == p.data[..r.begin] + p.data[r.begin..r.begin + n];
      assert n == r.end - r.begin ==> p.data[..r.end] + p.data[r.end..] == p.data;
    } else {
      assert p.data[..r.end] == p.data[..r.begin] + p.data[r.begin..r.end];
    }
  }

  /** Growing keeps the chain nested and what later interpreters see. Shrinking does so exactly if the erase does
      not break the nesting, as long as it takes no bytes of the next interpreter. */
  lemma ResizedSeen(p: Packet, k: nat, n: nat, v: Byte)
    requires Nested(p) && k < |p.chain|
    ensures var r, q := p.chain[k], Resized(p, k, n, v);
            && q.chain[k] == Range(r.begin, r.begin + n)
            && (n >= r.end - r.begin ==> LaterKept(p, q, k))
            && (n < r.end - r.begin && EditsOwnBytes(p, k, r.begin + n, r.end) ==>
                  (LaterKept(p, q, k) <==> !EraseBreaks(p, k, r.begin + n, r.end)))
  {
    var r := p.chain[k];
    if n < r.end - r.begin {
      if EditsOwnBytes(p, k, r.begin + n, r.end) {
        EraseKeeps(p, k, r.begin + n, r.end);
      }
    } else if n > r.end - r.begin {
      InsertSeen(p, k, r.end, seq(n - (r.end - r.begin), _ => v));
    }
  }

  /** An enclosing interpreter sees the resize in its place. */
  lemma ResizedEnclosing(p: Packet, k: nat, n: nat, v: Byte, i: nat)
    requires Nested(p) && i <= k < |p.chain|
    ensures var r, o, q := p.chain[k], p.chain[i], Resized(p, k, n, v);
            && q.chain[i] == Range(o.begin, o.end + n - (r.end - r.begin))
            && 0 <= o.begin <= r.begin <= r.end <= o.end <= |p.data|
            && |q.data| == |p.data| + n - (r.end - r.begin)
            && q.data[o.begin..r.begin] == p.data[o.begin..r.begin]
            && q.data[r.begin + n..o.end + n - (r.end - r.begin)] == p.data[r.end..o.end]
  {
    LaterInEarlier(p, i, k);
  }

  /** Adding an interpreter for the range r and resizing it makes room for a body of n bytes. */
  lemma ResizedLast(p: Packet, r: Range, n: nat, v: Byte)
    requires r.In(Range(0, |p.data|))
    ensures var q := Resized(p.(chain := p.chain + [r]), |p.chain|, n, v);
            && |q.data| == |p.data| + n - (r.end - r.begin)
            && q.data[..r.begin] == p.data[..r.begin] && q.data[r.begin + n..] == p.data[r.end..]
            && q.chain == GrownChain(p.chain, n - (r.end - r.begin)) + [Range(r.begin, r.begin + n)]
  {
    var q := Resized(p.(chain := p.chain + [r]), |p.chain|, n, v);
    assert q.data[..r.begin] == p.data[..r.begin];
    assert q.data[r.begin + n..] == p.data[r.end..];
    assert forall i :: 0 <= i < |p.chain| ==> q.chain[i] == p.chain[i].Grown(n - (r.end - r.begin));
  }

  /** Replacing the range r by a body and adding an interpreter for the body and the rest of the chain the
      body comes from, where the body began at base. */
  function Spliced(p: Packet, r: Range, body: seq<Byte>, rest: seq<Range>, base: int): Packet
    requires r.In(Range(0, |p.data|))
  {
    Packet(p.data[..r.begin] + body + p.data[r.end..],
           GrownChain(p.chain, |body| - (r.end - r.begin)) + [Range(r.begin, r.begin + |body|)]
           + Moved(rest, r.begin - base))
  }

  /** The steps of an append, put together. */
  lemma AppendedInSteps(p: Packet, k: nat, r: Range, q: Packet, m: nat, t: Packet, body: seq<Byte>, rest: seq<Range>)
    requires k < |p.chain| && r.In(Range(0, |p.data|)) && m < |q.chain| && q.chain[m].In(Range(0, |q.data|))
    requires t == Truncated(p, k) && body == Sees(q, m) && rest == q.chain[m + 1..]
    ensures Spliced(t, r, body, rest, q.chain[m].begin) == Appended(p, k, r, q, m)
  {
    var n := r.begin - q.chain[m].begin;
    assert Moved(q.chain[m..], n) == [q.chain[m].Shifted(n)] + Moved(q.chain[m + 1..], n);
  }
}
