/**
 The byte container of a packet: a window [b, e) in a memory block with head and tail room.
 Inserting shifts the shorter side into free room or moves everything to a new block. All of these
 are proved to be the same sequence operation on the visible bytes.
 */
module Storage {
  type Byte = x: int | 0 <= x < 256

  const CHUNK_SIZE: nat := 2048
  const HEAD_ROOM: nat := 128
  const TAIL_ROOM: nat := 128

  /** The request plus head and tail room, rounded up to the next multiple of the chunk size: setting
      all bits below the chunk size and adding one. */
  function AllocationSize(sz: nat): (r: nat)
    ensures r == r / CHUNK_SIZE * CHUNK_SIZE
    ensures sz + HEAD_ROOM + TAIL_ROOM < r <= sz + HEAD_ROOM + TAIL_ROOM + CHUNK_SIZE
  {
    ((sz + HEAD_ROOM + TAIL_ROOM) / CHUNK_SIZE * CHUNK_SIZE + (CHUNK_SIZE - 1)) + 1
  }

  /** A block in which n bytes from src on were put to dst, given byte by byte. */
  lemma Placed(m: seq<Byte>, m': seq<Byte>, dst: nat, src: seq<Byte>)
    requires dst + |src| <= |m| == |m'|
    requires forall k :: 0 <= k < |m| ==> m'[k] == if dst <= k < dst + |src| then src[k - dst] else m[k]
    ensures m' == m[..dst] + src + m[dst + |src|..]
  {
    var t := m[..dst] + src + m[dst + |src|..];
    forall k | 0 <= k < |m| ensures m'[k] == t[k] {
    }
  }

  /** memmove: source and destination may overlap. */
  method MemMove(a: array<Byte>, dst: nat, src: nat, n: nat)
    requires dst + n <= a.Length && src + n <= a.Length
    modifies a
    ensures a[..] == old(a[..])[..dst] + old(a[..])[src..src + n] + old(a[..])[dst + n..]
  {
    if dst <= src {
      MoveDown(a, dst, src, n);
    } else {
      MoveUp(a, dst, src, n);
    }
    Placed(old(a[..]), a[..], dst, old(a[..])[src..src + n]);
  }

  method MoveDown(a: array<Byte>, dst: nat, src: nat, n: nat)
    requires dst <= src && src + n <= a.Length
    modifies a
    ensures forall k :: 0 <= k < a.Length ==> a[k] == if dst <= k < dst + n then old(a[src + k - dst]) else old(a[k])
  {
    for i := 0 to n
      invariant forall k :: 0 <= k < a.Length ==>
        a[k] == if dst <= k < dst + i then old(a[src + k - dst]) else old(a[k])
    {
      a[dst + i] := a[src + i];
    }
  }

  method MoveUp(a: array<Byte>, dst: nat, src: nat, n: nat)
    requires src <= dst && dst + n <= a.Length
    modifies a
    ensures forall k :: 0 <= k < a.Length ==> a[k] == if dst <= k < dst + n then old(a[src + k - dst]) else old(a[k])
  {
    for i := n downto 0
      invariant forall k :: 0 <= k < a.Length ==>
        a[k] == if dst + i <= k < dst + n then old(a[src + k - dst]) else old(a[k])
    {
      a[dst + i] := a[src + i];
    }
  }

  /** memcpy between different blocks. */
  method MemCopy(to: array<Byte>, dst: nat, from: array<Byte>, src: nat, n: nat)
    requires to != from && dst + n <= to.Length && src + n <= from.Length
    modifies to
    ensures to[..] == old(to[..])[..dst] + from[..][src..src + n] + old(to[..])[dst + n..]
  {
    for i := 0 to n
      invariant forall k :: 0 <= k < to.Length ==>
        to[k] == if dst <= k < dst + i then from[src + k - dst] else old(to[k])
    {
      to[dst + i] := from[src + i];
    }
    Placed(old(to[..]), to[..], dst, from[..][src..src + n]);
  }

  method MemSet(a: array<Byte>, dst: nat, n: nat, v: Byte)
    requires dst + n <= a.Length
    modifies a
    ensures a[..] == old(a[..])[..dst] + seq(n, _ => v) + old(a[..])[dst + n..]
  {
    for i := 0 to n
      invariant forall k :: 0 <= k < a.Length ==> a[k] == if dst <= k < dst + i then v else old(a[k])
    {
      a[dst + i] := v;
    }
    Placed(old(a[..]), a[..], dst, seq(n, _ => v));
  }

  /** A gap of n unspecified bytes opens at index i; the bytes before and after it are kept. */
  ghost predicate Opened(before: seq<Byte>, after: seq<Byte>, i: int, n: nat) {
    && 0 <= i <= |before| && |after| == |before| + n
    && after[..i] == before[..i] && after[i + n..] == before[i..]
  }

  /** The bytes that come out of moving the front of a window down by n. */
  lemma ShiftedFront(m: seq<Byte>, m': seq<Byte>, b: nat, pos: nat, e: nat, n: nat)
    requires n <= b <= pos <= e <= |m|
    requires m' == m[..b - n] + m[b..pos] + m[pos - n..]
    ensures Opened(m[b..e], m'[b - n..e], pos - b, n)
  {
    var w, old', i := m'[b - n..e], m[b..e], pos - b;
    forall k | 0 <= k < i ensures w[..i][k] == old'[..i][k] {
      assert w[k] == m'[b - n + k] == m[b + k];
    }
    forall k | 0 <= k < e - pos ensures w[i + n..][k] == old'[i..][k] {
      assert w[i + n + k] == m'[pos + k] == m[pos + k];
    }
  }

  /** The bytes that come out of moving the back of a window up by n. */
  lemma ShiftedBack(m: seq<Byte>, m': seq<Byte>, b: nat, pos: nat, e: nat, n: nat)
    requires b <= pos <= e <= e + n <= |m|
    requires m' == m[..pos + n] + m[pos..e] + m[e + n..]
    ensures Opened(m[b..e], m'[b..e + n], pos - b, n)
  {
    var w, old', i := m'[b..e + n], m[b..e], pos - b;
    forall k | 0 <= k < i ensures w[..i][k] == old'[..i][k] {
      assert w[k] == m'[b + k] == m[b + k];
    }
    forall k | 0 <= k < e - pos ensures w[i + n..][k] == old'[i..][k] {
      assert w[i + n + k] == m'[pos + n + k] == m[pos + k];
    }
  }

  /** The bytes that come out of copying a window around a gap into a new block. */
  lemma CopiedAround(m: seq<Byte>, fresh0: seq<Byte>, fresh1: seq<Byte>, fresh2: seq<Byte>,
                     b: nat, i: nat, e: nat, n: nat)
    requires b <= e <= |m| && i <= e - b && HEAD_ROOM + (e - b) + n <= |fresh0|
    requires fresh1 == fresh0[..HEAD_ROOM] + m[b..b + i] + fresh0[HEAD_ROOM + i..]
    requires fresh2 == fresh1[..HEAD_ROOM + i + n] + m[b + i..e] + fresh1[HEAD_ROOM + (e - b) + n..]
    ensures Opened(m[b..e], fresh2[HEAD_ROOM..HEAD_ROOM + (e - b) + n], i, n)
  {
    var window := fresh2[HEAD_ROOM..HEAD_ROOM + (e - b) + n];
    forall k | 0 <= k < i ensures window[..i][k] == m[b..e][..i][k] {
      assert window[k] == fresh2[HEAD_ROOM + k] == fresh1[HEAD_ROOM + k] == m[b + k];
    }
    forall k | 0 <= k < e - b - i ensures window[i + n..][k] == m[b..e][i..][k] {
      assert window[i + n + k] == fresh2[HEAD_ROOM + i + n + k] == m[b + i + k];
    }
  }

  /** The bytes that come out of filling the gap of a window. */
  lemma FilledGap(m: seq<Byte>, m': seq<Byte>, b: nat, e: nat, gap: nat, fill: seq<Byte>)
    requires b <= gap <= gap + |fill| <= e <= |m|
    requires m' == m[..gap] + fill + m[gap + |fill|..]
    ensures m'[b..e] == m[b..e][..gap - b] + fill + m[b..e][gap - b + |fill|..]
  {
    var w, t := m'[b..e], m[b..e][..gap - b] + fill + m[b..e][gap - b + |fill|..];
    forall k | 0 <= k < |w| ensures w[k] == t[k] {
      assert w[k] == m'[b + k];
    }
  }

  /** The bytes that come out of moving the end of a window down over the bytes from first to last. */
  lemma ClosedGap(m: seq<Byte>, m': seq<Byte>, b: nat, first: nat, last: nat, e: nat)
    requires b <= first <= last <= e <= |m|
    requires m' == m[..first] + m[last..e] + m[first + (e - last)..]
    ensures m'[b..e - (last - first)] == m[b..e][..first - b] + m[b..e][last - b..]
  {
    var w, t := m'[b..e - (last - first)], m[b..e][..first - b] + m[b..e][last - b..];
    forall k | 0 <= k < |w| ensures w[k] == t[k] {
      if k < first - b {
        assert w[k] == m'[b + k] == m[b + k];
      } else {
        assert w[k] == m'[b + k] == m[b + k + (last - first)];
      }
    }
  }

  lemma WindowInWindow(m: seq<Byte>, b: nat, e: nat, first: nat, last: nat)
    requires b <= first <= last <= e <= |m|
    ensures m[first..last] == m[b..e][first - b..last - b]
  {
    var w := m[b..e][first - b..last - b];
    assert forall i :: 0 <= i < |w| ==> w[i] == m[b..e][first - b + i] == m[first + i];
  }

  /** std::copy into a block. */
  method MemWrite(a: array<Byte>, dst: nat, bytes: seq<Byte>)
    requires dst + |bytes| <= a.Length
    modifies a
    ensures a[..] == old(a[..])[..dst] + bytes + old(a[..])[dst + |bytes|..]
  {
    for i := 0 to |bytes|
      invariant forall k :: 0 <= k < a.Length ==> a[k] == if dst <= k < dst + i then bytes[k - dst] else old(a[k])
    {
      a[dst + i] := bytes[i];
    }
    Placed(old(a[..]), a[..], dst, bytes);
  }

  class PacketVector {
    var size: nat
    var data: array<Byte>
    var b: nat
    var e: nat
    var owner: bool
    /** The blocks this container holds from the pool, with their length in chunks. */
    ghost var held: map<array<Byte>, nat>

    /** The window lies in the block, and exactly an owned block is held from the pool. */
    ghost predicate Valid()
      reads this
    {
      && b <= e <= size <= data.Length
      && held.Keys == (if owner then {data} else {})
      && (owner ==> size == data.Length && size == held[data] * CHUNK_SIZE)
    }

    ghost function Contents(): (s: seq<Byte>)
      requires Valid()
      reads this, data
      ensures |s| == e - b
    {
      data[..][b..e]
    }

    /** n more bytes fit in front or behind. */
    ghost predicate HasRoom(n: nat)
      reads this
    {
      n <= b || e + n <= size
    }

    /** Both rooms are free again. */
    ghost predicate Roomy()
      reads this
    {
      b == HEAD_ROOM && size >= e + TAIL_ROOM
    }

    constructor Filled(n: nat, v: Byte)
      ensures Valid() && owner && fresh(data) && Contents() == seq(n, _ => v)
    {
      var requestSize := AllocationSize(n);
      size := requestSize;
      data := new Byte[requestSize](_ => v);
      b, e, owner := HEAD_ROOM, HEAD_ROOM + n, true;
      new;
      held := map[data := requestSize / CHUNK_SIZE];
    }

    constructor FromBytes(bytes: seq<Byte>)
      ensures Valid() && owner && fresh(data) && Contents() == bytes
    {
      var requestSize := AllocationSize(|bytes|);
      size := requestSize;
      data := new Byte[requestSize](i => if HEAD_ROOM <= i < HEAD_ROOM + |bytes| then bytes[i - HEAD_ROOM] else 0);
      b, e, owner := HEAD_ROOM, HEAD_ROOM + |bytes|, true;
      new;
      held := map[data := requestSize / CHUNK_SIZE];
    }

    /** A window into memory that belongs to the caller. */
    constructor External(memory: array<Byte>, n: nat, chunkSize: nat, offset: nat)
      requires offset + n <= (if chunkSize != 0 then chunkSize else n + offset) <= memory.Length
      ensures Valid() && !owner && data == memory && Contents() == memory[..][offset..offset + n]
    {
      size := if chunkSize != 0 then chunkSize else n + offset;
      data, b, e, owner := memory, offset, offset + n, false;
      held := map[];
    }

    method OrderedMalloc(chunks: nat) returns (block: array<Byte>)
      modifies this`held
      ensures fresh(block) && block.Length == chunks * CHUNK_SIZE && held == old(held)[block := chunks]
    {
      block := new Byte[chunks * CHUNK_SIZE](_ => 0);
      held := held[block := chunks];
    }

    /** A block may be returned only if it came from the pool, and with the length it was taken with. */
    method OrderedFree(block: array<Byte>, chunks: nat)
      requires block in held && held[block] == chunks
      modifies this`held
      ensures held == old(held) - {block}
    {
      held := held - {block};
    }

    method ShiftFront(pos: nat, n: nat) returns (gap: nat)
      requires Valid() && b <= pos <= e && n <= b
      modifies this`b, data
      ensures Valid()
      ensures gap - b == pos - old(b) && Opened(old(Contents()), Contents(), gap - b, n)
    {
      ghost var m := data[..];
      MemMove(data, b - n, b, pos - b);
      ShiftedFront(m, data[..], b, pos, e, n);
      b := b - n;
      gap := pos - n;
    }

    method ShiftBack(pos: nat, n: nat) returns (gap: nat)
      requires Valid() && b <= pos <= e && e + n <= size
      modifies this`e, data
      ensures Valid()
      ensures gap - b == pos - old(b) && Opened(old(Contents()), Contents(), gap - b, n)
    {
      ghost var m := data[..];
      MemMove(data, pos + n, pos, e - pos);
      ShiftedBack(m, data[..], b, pos, e, n);
      e := e + n;
      gap := pos;
    }

    /** Opens a gap of n bytes at pos and returns where it starts; the bytes in the gap are unspecified. The block is
        kept if one of the rooms is large enough, and replaced by one with both rooms otherwise. */
    method Move(pos: nat, n: nat) returns (gap: nat)
      requires Valid() && b <= pos <= e
      modifies this, data
      ensures Valid() && ((data == old(data) && owner == old(owner)) || (fresh(data) && owner))
      ensures if old(HasRoom(n)) then data == old(data) else Roomy()
      ensures gap - b == pos - old(b) && Opened(old(Contents()), Contents(), gap - b, n)
    {
      if pos - b < e - pos && b >= n {
        gap := ShiftFront(pos, n);
      } else if e + n <= size {
        gap := ShiftBack(pos, n);
      } else {
        gap := MoveGrow(pos, n);
      }
    }

    method MoveGrow(pos: nat, n: nat) returns (gap: nat)
      requires Valid() && b <= pos <= e
      modifies this, data
      ensures Valid() && ((data == old(data) && owner == old(owner)) || (fresh(data) && owner))
      ensures if n <= old(b) then data == old(data) else Roomy()
      ensures gap - b == pos - old(b) && Opened(old(Contents()), Contents(), gap - b, n)
    {
      if b >= n {
        gap := ShiftFront(pos, n);
      } else {
        gap := Grow(pos, n);
      }
    }

    /** Copies the visible bytes to another block, leaving a gap of n bytes at posIndex. */
    method CopyAround(newData: array<Byte>, posIndex: nat, n: nat)
      requires b <= e <= data.Length && posIndex <= e - b
      requires newData != data && HEAD_ROOM + (e - b) + n <= newData.Length
      modifies newData
      ensures Opened(data[..][b..e], newData[..][HEAD_ROOM..HEAD_ROOM + (e - b) + n], posIndex, n)
    {
      ghost var fresh0 := newData[..];
      MemCopy(newData, HEAD_ROOM, data, b, posIndex);
      ghost var fresh1 := newData[..];
      MemCopy(newData, HEAD_ROOM + posIndex + n, data, b + posIndex, (e - b) - posIndex);
      CopiedAround(data[..], fresh0, fresh1, newData[..], b, posIndex, e, n);
    }

    /** Moves everything to a new block. The old block is returned to the pool only if it came from there;
        its bytes are not touched. */
    method Grow(pos: nat, n: nat) returns (gap: nat)
      requires Valid() && b <= pos <= e
      modifies this
      ensures Valid() && fresh(data) && owner && Roomy()
      ensures gap - b == pos - old(b) && Opened(old(Contents()), Contents(), gap - b, n)
    {
      var posIndex := pos - b;
      var dataSize := e - b;
      var requestSize := AllocationSize(dataSize + n);
      var newData := OrderedMalloc(requestSize / CHUNK_SIZE);
      CopyAround(newData, posIndex, n);
      if owner {
        OrderedFree(data, size / CHUNK_SIZE);
      }
      assert held.Keys == {newData};
      b := HEAD_ROOM;
      e := b + dataSize + n;
      size := requestSize;
      data := newData;
      owner := true;
      gap := b + posIndex;
    }

    method FillGap(gap: nat, n: nat, v: Byte)
      requires Valid() && b <= gap && gap + n <= e
      modifies data
      ensures Contents() == old(Contents())[..gap - b] + seq(n, _ => v) + old(Contents())[gap - b + n..]
    {
      ghost var m := data[..];
      MemSet(data, gap, n, v);
      FilledGap(m, data[..], b, e, gap, seq(n, _ => v));
    }

    method InsertFill(pos: nat, n: nat, v: Byte)
      requires Valid() && b <= pos <= e
      modifies this, data
      ensures Valid() && ((data == old(data) && owner == old(owner)) || (fresh(data) && owner))
      ensures var i := pos - old(b);
              Contents() == old(Contents())[..i] + seq(n, _ => v) + old(Contents())[i..]
    {
      if n > 0 {
        var gap := Move(pos, n);
        FillGap(gap, n, v);
      }
    }

    method InsertRange(pos: nat, bytes: seq<Byte>)
      requires Valid() && b <= pos <= e
      modifies this, data
      ensures Valid() && ((data == old(data) && owner == old(owner)) || (fresh(data) && owner))
      ensures var i := pos - old(b);
              Contents() == old(Contents())[..i] + bytes + old(Contents())[i..]
    {
      var gap := Move(pos, |bytes|);
      Overwrite(gap, bytes);
    }

    method Erase(first: nat, last: nat)
      requires Valid() && b <= first <= last <= e
      modifies this`e, data
      ensures Valid()
      ensures var i, j := first - old(b), last - old(b); Contents() == old(Contents())[..i] + old(Contents())[j..]
    {
      ghost var m := data[..];
      MemMove(data, first, last, e - last);
      ClosedGap(m, data[..], b, first, last, e);
      e := e - (last - first);
    }

    /** Writes bytes over the visible ones from pos on. */
    method Overwrite(pos: nat, bytes: seq<Byte>)
      requires Valid() && b <= pos && pos + |bytes| <= e
      modifies data
      ensures Contents() == old(Contents())[..pos - b] + bytes + old(Contents())[pos - b + |bytes|..]
    {
      ghost var m := data[..];
      MemWrite(data, pos, bytes);
      FilledGap(m, data[..], b, e, pos, bytes);
    }

    /** The bytes between two positions. */
    method Read(first: nat, last: nat) returns (bytes: seq<Byte>)
      requires Valid() && b <= first <= last <= e
      ensures bytes == Contents()[first - b..last - b]
    {
      bytes := data[first..last];
      WindowInWindow(data[..], b, e, first, last);
    }

    method TruncateFront(pos: nat)
      requires Valid() && b <= pos <= e
      modifies this`b
      ensures Valid() && Contents() == old(Contents())[pos - old(b)..]
    {
      b := pos;
    }

    method TruncateBack(pos: nat)
      requires Valid() && b <= pos <= e
      modifies this`e
      ensures Valid() && Contents() == old(Contents())[..pos - b]
    {
      e := pos;
    }

    method ReleaseExternal()
      requires Valid()
      modifies this
      ensures Valid() && owner && Contents() == old(Contents())
      ensures data == old(data) || fresh(data)
    {
      if !owner {
        var gap := Grow(b, 0);
        assert Contents() == Contents()[..0] + Contents()[0..];
      }
    }

    /** The destructor: afterwards nothing is held from the pool, and memory of others was not returned. */
    method Destroy()
      requires Valid()
      modifies this`held
      ensures held == map[]
    {
      if owner {
        OrderedFree(data, size / CHUNK_SIZE);
      }
    }
  }
}
