/**
 Integer bit fields in packet data, numbered with the most significant bit first. The parsers read
 and write them with word loads, shifts and masks that depend on how many bytes a field touches.
 They are proved to be the plain operation on the bit string of the buffer: cut the bits out, or
 put other bits in their place.

 Bytes and 32-bit words are their bits, most significant first, so that every shift and mask below
 is the machine operation.
 */
module BitField {
  type Byte = s: seq<bool> | |s| == 8 witness seq(8, _ => false)
  type Word = s: seq<bool> | |s| == 32 witness seq(32, _ => false)

  // ------------------------------------------------------------------------------------------
  // Machine operations

  function Shl(w: Word, k: nat): (r: Word)
    requires k < 32
    ensures forall i {:trigger r[i]} :: 0 <= i < 32 ==> r[i] == (i + k < 32 && w[i + k])
  {
    seq(32, i requires 0 <= i < 32 => i + k < 32 && w[i + k])
  }

  function Shr(w: Word, k: nat): (r: Word)
    requires k < 32
    ensures forall i {:trigger r[i]} :: 0 <= i < 32 ==> r[i] == (i >= k && w[i - k])
  {
    seq(32, i requires 0 <= i < 32 => i >= k && w[i - k])
  }

  function And(x: Word, y: Word): (r: Word)
    ensures forall i {:trigger r[i]} :: 0 <= i < 32 ==> r[i] == (x[i] && y[i])
  {
    seq(32, i requires 0 <= i < 32 => x[i] && y[i])
  }

  function Or(x: Word, y: Word): (r: Word)
    ensures forall i {:trigger r[i]} :: 0 <= i < 32 ==> r[i] == (x[i] || y[i])
  {
    seq(32, i requires 0 <= i < 32 => x[i] || y[i])
  }

  function Not(x: Word): (r: Word)
    ensures forall i {:trigger r[i]} :: 0 <= i < 32 ==> r[i] == !x[i]
  {
    seq(32, i requires 0 <= i < 32 => !x[i])
  }

  /** boost::low_bits_mask_t: the m lowest bits. */
  function LowMask(m: nat): (r: Word)
    requires m <= 32
    ensures forall i {:trigger r[i]} :: 0 <= i < 32 ==> r[i] == (i >= 32 - m)
  {
    seq(32, i requires 0 <= i < 32 => i >= 32 - m)
  }

  // ------------------------------------------------------------------------------------------
  // The bit string of a buffer

  function Bits(buf: seq<Byte>): (r: seq<bool>)
    ensures |r| == 8 * |buf| && forall i {:trigger r[i]} :: 0 <= i < |r| ==> r[i] == buf[i / 8][i % 8]
  {
    seq(8 * |buf|, i requires 0 <= i < 8 * |buf| => buf[i / 8][i % 8])
  }

  lemma BitsDetermineBuffer(x: seq<Byte>, y: seq<Byte>)
    requires |x| == |y| && Bits(x) == Bits(y)
    ensures x == y
  {
    forall j | 0 <= j < |x| ensures x[j] == y[j] {
      forall t | 0 <= t < 8 ensures x[j][t] == y[j][t] {
        assert (8 * j + t) / 8 == j && (8 * j + t) % 8 == t;
        assert Bits(x)[8 * j + t] == Bits(y)[8 * j + t];
      }
    }
  }

  /** w is the k bytes at byte offset off of a bit string, zero-extended. */
  ghost predicate Loads(b: seq<bool>, off: nat, k: nat, w: Word) {
    && k <= 4 && 8 * (off + k) <= |b|
    && forall i {:trigger w[i]} :: 0 <= i < 32 ==> w[i] == (i >= 32 - 8 * k && b[8 * off + i - (32 - 8 * k)])
  }

  /** parse_uint8 .. parse_uint32: k bytes in network byte order, zero-extended. */
  function Load(buf: seq<Byte>, off: nat, k: nat): (r: Word)
    requires k <= 4 && off + k <= |buf|
    ensures Loads(Bits(buf), off, k, r)
  {
    seq(32, i requires 0 <= i < 32 => i >= 32 - 8 * k && Bits(buf)[8 * off + i - (32 - 8 * k)])
  }

  /** The j-th of the k lowest bytes of a word, counted from the most significant. */
  function ByteOf(w: Word, k: nat, j: nat): (r: Byte)
    requires j < k <= 4
  {
    w[32 - 8 * (k - j)..32 - 8 * (k - j) + 8]
  }

  function StoredByte(buf: seq<Byte>, off: nat, k: nat, w: Word, j: nat): (r: Byte)
    requires k <= 4 && off + k <= |buf| && j < |buf|
  {
    if off <= j < off + k then ByteOf(w, k, j - off) else buf[j]
  }

  /** c is b with the bits of the k lowest bytes of w at byte offset off. */
  ghost predicate Stores(b: seq<bool>, off: nat, k: nat, w: Word, c: seq<bool>) {
    && k <= 4 && 8 * (off + k) <= |b| == |c|
    && forall i {:trigger c[i]} :: 0 <= i < |b| ==>
         c[i] == if 8 * off <= i < 8 * (off + k) then w[i - 8 * off + (32 - 8 * k)] else b[i]
  }

  /** write_uint8 .. write_uint32. */
  function Store(buf: seq<Byte>, off: nat, k: nat, w: Word): (r: seq<Byte>)
    requires k <= 4 && off + k <= |buf|
    ensures |r| == |buf| && Stores(Bits(buf), off, k, w, Bits(r))
  {
    var r := seq(|buf|, j requires 0 <= j < |buf| => StoredByte(buf, off, k, w, j));
    StoredBits(buf, off, k, w, r);
    r
  }

  lemma StoredBits(buf: seq<Byte>, off: nat, k: nat, w: Word, r: seq<Byte>)
    requires k <= 4 && off + k <= |buf| == |r|
    requires forall j :: 0 <= j < |r| ==> r[j] == StoredByte(buf, off, k, w, j)
    ensures Stores(Bits(buf), off, k, w, Bits(r))
  {
    forall i | 0 <= i < 8 * |buf|
      ensures Bits(r)[i] == if 8 * off <= i < 8 * (off + k) then w[i - 8 * off + (32 - 8 * k)] else Bits(buf)[i]
    {
      var j, t := i / 8, i % 8;
      assert Bits(r)[i] == r[j][t] && r[j] == StoredByte(buf, off, k, w, j);
      if off <= j < off + k {
        assert r[j][t] == w[32 - 8 * (k - (j - off)) + t];
      }
    }
  }

  // ------------------------------------------------------------------------------------------
  // The field parsers

  /** A field of 1 to 32 bits inside the buffer. */
  predicate IsField(buf: seq<Byte>, start: nat, end: nat) {
    start < end <= start + 32 && end <= 8 * |buf|
  }

  /** The value of a field: its bits, zero-extended. */
  function FieldBits(bits: seq<bool>, start: nat, end: nat): (r: Word)
    requires start < end <= start + 32 && end <= |bits|
  {
    seq(32 - (end - start), _ => false) + bits[start..end]
  }

  /** Putting the lowest bits of a word in the place of a field. */
  function WithField(bits: seq<bool>, start: nat, end: nat, v: Word): (r: seq<bool>)
    requires start < end <= start + 32 && end <= |bits|
    ensures |r| == |bits|
  {
    bits[..start] + v[32 - (end - start)..] + bits[end..]
  }

  /** parse_bitfield_i::parse for a field in k <= 4 bytes from byte off on: one load. */
  function ParseOne(buf: seq<Byte>, start: nat, end: nat, off: nat, k: nat): (r: Word)
    requires IsField(buf, start, end) && 8 * off <= start < 8 * off + 8
    requires 8 * (off + k - 1) < end <= 8 * (off + k) && k <= 4
    ensures r == FieldBits(Bits(buf), start, end)
  {
    var x := Load(buf, off, k);
    CutFromOneLoad(Bits(buf), start, end, off, k, x);
    And(Shr(x, 8 * (off + k) - end), LowMask(end - start))
  }

  /** parse_bitfield_i::parse for a field in five bytes: two loads. */
  function ParseTwo(buf: seq<Byte>, start: nat, end: nat, off: nat): (r: Word)
    requires IsField(buf, start, end) && 8 * off <= start < 8 * off + 8 && end > 8 * off + 32
    ensures r == FieldBits(Bits(buf), start, end)
  {
    var e := end - 8 * off;
    var y, h := Load(buf, off + 1, 4), Load(buf, off, 1);
    CutFromTwoLoads(Bits(buf), start, end, off, y, h);
    And(Or(And(Shr(y, 40 - e), LowMask(e - 8)), Shl(h, e - 8)), LowMask(end - start))
  }

  /** parse_bitfield::parse: the number of bytes touched selects the implementation. Reading a field cuts its
      bits out of the bit string. */
  function Parse(buf: seq<Byte>, start: nat, end: nat): (r: Word)
    requires IsField(buf, start, end)
    ensures r == FieldBits(Bits(buf), start, end)
  {
    var off, k := start / 8, (end - 1) / 8 - start / 8 + 1;
    if k <= 4 then ParseOne(buf, start, end, off, k) else ParseTwo(buf, start, end, off)
  }

  /** A word in which the len bits above the sh lowest ones are taken from v. */
  function Merged(x: Word, len: nat, sh: nat, v: Word): (r: Word)
    requires len <= 32 && sh < 32 && len + sh <= 32
    ensures forall i {:trigger r[i]} :: 0 <= i < 32 ==> r[i] == if 32 - sh - len <= i < 32 - sh then v[i + sh] else x[i]
  {
    Or(And(x, Not(Shl(LowMask(len), sh))), Shl(And(v, LowMask(len)), sh))
  }

  /** The first byte of a field of five bytes: its 8 - s lowest bits come from the top of v. */
  function Topped(h: Word, s: nat, e: nat, v: Word): (r: Word)
    requires s < 8 && 8 <= e < 40
    ensures forall i {:trigger r[i]} :: 0 <= i < 32 ==>
              r[i] == if i >= 24 + s then i >= e - 8 && v[i - (e - 8)] else h[i]
  {
    Or(And(h, Not(LowMask(8 - s))), And(Shr(v, e - 8), LowMask(8 - s)))
  }

  /** parse_bitfield_i::write for a field in k <= 4 bytes from byte off on. */
  function WriteOne(buf: seq<Byte>, start: nat, end: nat, off: nat, k: nat, v: Word): (r: seq<Byte>)
    requires IsField(buf, start, end) && 8 * off <= start < 8 * off + 8
    requires 8 * (off + k - 1) < end <= 8 * (off + k) && k <= 4
    ensures |r| == |buf| && Bits(r) == WithField(Bits(buf), start, end, v)
  {
    var x := Load(buf, off, k);
    var w := Merged(x, end - start, 8 * (off + k) - end, v);
    var r := Store(buf, off, k, w);
    ReplacedByOneStore(Bits(buf), start, end, off, k, v, x, Bits(r));
    r
  }

  /** Four bytes of which the bits above the 40 - e lowest ones come from v. */
  function WriteTail(buf: seq<Byte>, off: nat, e: nat, v: Word): (r: seq<Byte>)
    requires off + 4 <= |buf| && 32 < e <= 40
    ensures |r| == |buf| && Stores(Bits(buf), off, 4, Merged(Load(buf, off, 4), e - 8, 40 - e, v), Bits(r))
  {
    Store(buf, off, 4, Merged(Load(buf, off, 4), e - 8, 40 - e, v))
  }

  /** One byte of which the 8 - s lowest bits come from the top of v. */
  function WriteHead(buf: seq<Byte>, off: nat, s: nat, e: nat, v: Word): (r: seq<Byte>)
    requires off + 1 <= |buf| && s < 8 && 32 < e < 40
    ensures |r| == |buf| && Stores(Bits(buf), off, 1, Topped(Load(buf, off, 1), s, e, v), Bits(r))
  {
    Store(buf, off, 1, Topped(Load(buf, off, 1), s, e, v))
  }

  /** parse_bitfield_i::write for a field in five bytes. */
  function WriteTwo(buf: seq<Byte>, start: nat, end: nat, off: nat, v: Word): (r: seq<Byte>)
    requires IsField(buf, start, end) && 8 * off <= start < 8 * off + 8 && end > 8 * off + 32
    ensures |r| == |buf| && Bits(r) == WithField(Bits(buf), start, end, v)
  {
    TailAndHeadWritten(buf, start, end, off, v);
    WriteHead(WriteTail(buf, off + 1, end - 8 * off, v), off, start - 8 * off, end - 8 * off, v)
  }

  lemma TailAndHeadWritten(buf: seq<Byte>, start: nat, end: nat, off: nat, v: Word)
    requires IsField(buf, start, end) && 8 * off <= start < 8 * off + 8 && end > 8 * off + 32
    ensures Bits(WriteHead(WriteTail(buf, off + 1, end - 8 * off, v), off, start - 8 * off, end - 8 * off, v))
         == WithField(Bits(buf), start, end, v)
  {
    var tail := WriteTail(buf, off + 1, end - 8 * off, v);
    var r := WriteHead(tail, off, start - 8 * off, end - 8 * off, v);
    ReplacedByTwoStores(Bits(buf), start, end, off, v, Load(buf, off + 1, 4), Load(tail, off, 1), Bits(tail), Bits(r));
  }

  /** parse_bitfield::write. Writing a field replaces exactly its bits in the bit string. */
  function Write(buf: seq<Byte>, start: nat, end: nat, v: Word): (r: seq<Byte>)
    requires IsField(buf, start, end)
    ensures |r| == |buf| && Bits(r) == WithField(Bits(buf), start, end, v)
  {
    var off, k := start / 8, (end - 1) / 8 - start / 8 + 1;
    if k <= 4 then WriteOne(buf, start, end, off, k, v) else WriteTwo(buf, start, end, off, v)
  }

  // ------------------------------------------------------------------------------------------
  // Why the loads, shifts and masks are right

  lemma CutFromOneLoad(b: seq<bool>, start: nat, end: nat, off: nat, k: nat, x: Word)
    requires start < end <= start + 32 && 8 * off <= start < 8 * off + 8
    requires 8 * (off + k - 1) < end <= 8 * (off + k) && Loads(b, off, k, x)
    ensures And(Shr(x, 8 * (off + k) - end), LowMask(end - start)) == FieldBits(b, start, end)
  {
    var r, f := And(Shr(x, 8 * (off + k) - end), LowMask(end - start)), FieldBits(b, start, end);
    forall i | 0 <= i < 32 ensures r[i] == f[i] {
      if i >= 32 - (end - start) {
        assert f[i] == b[start + (i - (32 - (end - start)))];
        assert r[i] == x[i - (8 * (off + k) - end)];
      }
    }
  }

  lemma CutFromTwoLoads(b: seq<bool>, start: nat, end: nat, off: nat, y: Word, h: Word)
    requires start < end <= start + 32 && 8 * off <= start < 8 * off + 8 && 8 * off + 32 < end <= |b|
    requires Loads(b, off + 1, 4, y) && Loads(b, off, 1, h)
    ensures var e := end - 8 * off;
            And(Or(And(Shr(y, 40 - e), LowMask(e - 8)), Shl(h, e - 8)), LowMask(end - start))
            == FieldBits(b, start, end)
  {
    var e := end - 8 * off;
    var r := And(Or(And(Shr(y, 40 - e), LowMask(e - 8)), Shl(h, e - 8)), LowMask(end - start));
    var f := FieldBits(b, start, end);
    forall i | 0 <= i < 32 ensures r[i] == f[i] {
      if i >= 32 - (end - start) {
        assert f[i] == b[start + (i - (32 - (end - start)))];
        if i >= 40 - e {
          assert r[i] == y[i - (40 - e)];
        } else {
          assert r[i] == h[i + (e - 8)];
        }
      }
    }
  }

  lemma ReplacedByOneStore(b: seq<bool>, start: nat, end: nat, off: nat, k: nat, v: Word, x: Word, c: seq<bool>)
    requires start < end <= start + 32 && 8 * off <= start < 8 * off + 8
    requires 8 * (off + k - 1) < end <= 8 * (off + k) && Loads(b, off, k, x)
    requires Stores(b, off, k, Merged(x, end - start, 8 * (off + k) - end, v), c)
    ensures c == WithField(b, start, end, v)
  {
    var f := WithField(b, start, end, v);
    forall i | 0 <= i < |b| ensures c[i] == f[i] {
      if 8 * off <= i < 8 * (off + k) {
        var t := i - 8 * off + (32 - 8 * k);
        assert c[i] == Merged(x, end - start, 8 * (off + k) - end, v)[t];
        assert x[t] == b[i];
      }
    }
  }

  lemma ReplacedByTwoStores(b: seq<bool>, start: nat, end: nat, off: nat, v: Word, y: Word, h: Word,
                            m: seq<bool>, c: seq<bool>)
    requires start < end <= start + 32 && 8 * off <= start < 8 * off + 8 && 8 * off + 32 < end <= |b|
    requires Loads(b, off + 1, 4, y) && Stores(b, off + 1, 4, Merged(y, end - 8 * off - 8, 40 - (end - 8 * off), v), m)
    requires Loads(m, off, 1, h) && Stores(m, off, 1, Topped(h, start - 8 * off, end - 8 * off, v), c)
    ensures c == WithField(b, start, end, v)
  {
    var f := WithField(b, start, end, v);
    forall i | 0 <= i < |b| ensures c[i] == f[i] {
      WithFieldAt(b, start, end, v, i);
      if 8 * off <= i < 8 * (off + 1) {
        FirstByteReplaced(b, start, end, off, v, h, m, c, i);
      } else if 8 * (off + 1) <= i < 8 * (off + 5) {
        LastBytesReplaced(b, start, end, off, v, y, m, i);
      }
    }
  }

  lemma FirstByteReplaced(b: seq<bool>, start: nat, end: nat, off: nat, v: Word, h: Word,
                          m: seq<bool>, c: seq<bool>, i: nat)
    requires start < end <= start + 32 && 8 * off <= start < 8 * off + 8 && 8 * off + 32 < end <= |b| == |m|
    requires 8 * off <= i < 8 * (off + 1) && m[i] == b[i]
    requires Loads(m, off, 1, h) && Stores(m, off, 1, Topped(h, start - 8 * off, end - 8 * off, v), c)
    ensures c[i] == if start <= i < end then v[32 - (end - start) + (i - start)] else b[i]
  {
    var t := i - 8 * off + 24;
    assert c[i] == Topped(h, start - 8 * off, end - 8 * off, v)[t];
    assert h[t] == m[i];
  }

  lemma LastBytesReplaced(b: seq<bool>, start: nat, end: nat, off: nat, v: Word, y: Word, m: seq<bool>, i: nat)
    requires start < end <= start + 32 && 8 * off <= start < 8 * off + 8 && 8 * off + 32 < end <= |b|
    requires 8 * (off + 1) <= i < 8 * (off + 5)
    requires Loads(b, off + 1, 4, y) && Stores(b, off + 1, 4, Merged(y, end - 8 * off - 8, 40 - (end - 8 * off), v), m)
    ensures m[i] == if start <= i < end then v[32 - (end - start) + (i - start)] else b[i]
  {
    var t := i - 8 * (off + 1);
    assert m[i] == Merged(y, end - 8 * off - 8, 40 - (end - 8 * off), v)[t];
    assert y[t] == b[i];
  }

  lemma WithFieldAt(bits: seq<bool>, s: nat, e: nat, v: Word, i: nat)
    requires s < e <= s + 32 && e <= |bits| && i < |bits|
    ensures WithField(bits, s, e, v)[i] == if s <= i < e then v[32 - (e - s) + (i - s)] else bits[i]
  {
  }

  // ------------------------------------------------------------------------------------------
  // Numbers

  function Pow2(n: nat): (r: int)
    ensures r >= 1
  {
    if n == 0 then 1 else 2 * Pow2(n - 1)
  }

  /** The unsigned number of a bit string, most significant bit first. */
  function NatOf(bits: seq<bool>): (r: nat)
    ensures r < Pow2(|bits|)
  {
    if bits == [] then 0 else (if bits[0] then Pow2(|bits| - 1) else 0) + NatOf(bits[1..])
  }

  /** The two's complement number of a bit string. */
  function IntOf(bits: seq<bool>): (r: int)
    requires bits != []
    ensures -Pow2(|bits| - 1) <= r < Pow2(|bits| - 1)
  {
    NatOf(bits[1..]) - (if bits[0] then Pow2(|bits| - 1) else 0)
  }

  lemma {:induction false} Pow2Grows(m: nat, n: nat)
    requires m <= n
    ensures Pow2(m) <= Pow2(n)
  {
    if m < n {
      Pow2Grows(m, n - 1);
    }
  }

  /** A number that fits into len bits has only zeros above them. */
  lemma {:induction false} SmallNatHasZeros(bits: seq<bool>, len: nat)
    requires len <= |bits| && NatOf(bits) < Pow2(len)
    ensures forall i :: 0 <= i < |bits| - len ==> !bits[i]
  {
    if len < |bits| {
      Pow2Grows(len, |bits| - 1);
      SmallNatHasZeros(bits[1..], len);
      assert forall i :: 0 < i < |bits| - len ==> bits[i] == bits[1..][i - 1];
    }
  }

  /** A number that fits into len bits of two's complement repeats its sign bit above them. */
  lemma {:induction false} SmallIntRepeatsSign(bits: seq<bool>, len: nat)
    requires 0 < len <= |bits| && -Pow2(len - 1) <= IntOf(bits) < Pow2(len - 1)
    ensures forall i :: 0 <= i < |bits| - len ==> bits[i] == bits[|bits| - len]
  {
    if len < |bits| {
      var rest := bits[1..];
      Pow2Grows(len - 1, |bits| - 2);
      assert bits[0] == rest[0] && IntOf(rest) == IntOf(bits) by {
        assert NatOf(rest) == (if rest[0] then Pow2(|rest| - 1) else 0) + NatOf(rest[1..]);
        assert Pow2(|bits| - 1) == 2 * Pow2(|rest| - 1);
      }
      SmallIntRepeatsSign(rest, len);
      assert forall i :: 0 < i < |bits| - len ==> bits[i] == rest[i - 1];
    }
  }

  // ------------------------------------------------------------------------------------------
  // What the parsers promise

  lemma {:induction false} LeadingZeros(n: nat, x: seq<bool>)
    ensures NatOf(seq(n, _ => false) + x) == NatOf(x)
  {
    if n > 0 {
      LeadingZeros(n - 1, x);
      assert (seq(n, _ => false) + x)[1..] == seq(n - 1, _ => false) + x;
    } else {
      assert seq(0, _ => false) + x == x;
    }
  }

  /** Repeating the sign bit in front of a two's complement number keeps its value. */
  lemma {:induction false} LeadingSigns(n: nat, x: seq<bool>)
    requires x != []
    ensures IntOf(seq(n, _ => x[0]) + x) == IntOf(x)
  {
    if n > 0 {
      var rest := seq(n - 1, _ => x[0]) + x;
      LeadingSigns(n - 1, x);
      assert (seq(n, _ => x[0]) + x)[1..] == rest;
      assert NatOf(rest) == (if rest[0] then Pow2(|rest| - 1) else 0) + NatOf(rest[1..]);
    } else {
      assert seq(0, _ => x[0]) + x == x;
    }
  }

  /** The word that IntFieldParser makes of a field. */
  function Extended(v: Word, len: nat): (r: Word)
    requires 0 < len <= 32
    ensures forall i {:trigger r[i]} :: 0 <= i < 32 ==> r[i] == (v[i] || (v[32 - len] && i < 32 - len))
  {
    if v[32 - len] then Or(v, Not(LowMask(len))) else v
  }

  /** IntFieldParser::value(): a set sign bit is extended to the whole word. */
  function ParseSigned(buf: seq<Byte>, start: nat, end: nat): (r: Word)
    requires IsField(buf, start, end)
  {
    Extended(Parse(buf, start, end), end - start)
  }

  lemma ZeroExtendedValue(x: seq<bool>, v: Word)
    requires 0 < |x| <= 32 && v == seq(32 - |x|, _ => false) + x
    ensures NatOf(v) == NatOf(x)
  {
    LeadingZeros(32 - |x|, x);
  }

  lemma SignExtendedValue(x: seq<bool>, v: Word)
    requires 0 < |x| <= 32 && v == seq(32 - |x|, _ => false) + x
    ensures IntOf(Extended(v, |x|)) == IntOf(x)
  {
    LeadingSigns(32 - |x|, x);
    assert v[32 - |x|] == x[0];
    assert Extended(v, |x|) == seq(32 - |x|, _ => x[0]) + x;
  }

  /** What a field reads as: the unsigned or two's complement number of its bits. */
  lemma FieldValues(buf: seq<Byte>, start: nat, end: nat)
    requires IsField(buf, start, end)
    ensures NatOf(Parse(buf, start, end)) == NatOf(Bits(buf)[start..end])
    ensures IntOf(ParseSigned(buf, start, end)) == IntOf(Bits(buf)[start..end])
  {
    var v, x := Parse(buf, start, end), Bits(buf)[start..end];
    ZeroExtendedValue(x, v);
    SignExtendedValue(x, v);
  }

  lemma ReadBackBits(buf: seq<Byte>, start: nat, end: nat, v: Word)
    requires IsField(buf, start, end)
    ensures var r := Parse(Write(buf, start, end, v), start, end);
            forall i :: 0 <= i < 32 ==> r[i] == (i >= 32 - (end - start) && v[i])
  {
    var w := Write(buf, start, end, v);
    var c := WithField(Bits(buf), start, end, v);
    var r := FieldBits(c, start, end);
    forall i | 0 <= i < 32 ensures r[i] == (i >= 32 - (end - start) && v[i]) {
      if i >= 32 - (end - start) {
        assert r[i] == c[start + (i - (32 - (end - start)))];
      }
    }
  }

  lemma FittingNatReadBack(buf: seq<Byte>, start: nat, end: nat, v: Word)
    requires IsField(buf, start, end) && NatOf(v) < Pow2(end - start)
    ensures Parse(Write(buf, start, end, v), start, end) == v
  {
    ReadBackBits(buf, start, end, v);
    SmallNatHasZeros(v, end - start);
  }

  lemma FittingIntReadBack(buf: seq<Byte>, start: nat, end: nat, v: Word)
    requires IsField(buf, start, end) && -Pow2(end - start - 1) <= IntOf(v) < Pow2(end - start - 1)
    ensures ParseSigned(Write(buf, start, end, v), start, end) == v
  {
    ReadBackBits(buf, start, end, v);
    SmallIntRepeatsSign(v, end - start);
  }

  lemma ReadValuesFit(buf: seq<Byte>, start: nat, end: nat)
    requires IsField(buf, start, end)
    ensures NatOf(Parse(buf, start, end)) < Pow2(end - start)
    ensures -Pow2(end - start - 1) <= IntOf(ParseSigned(buf, start, end)) < Pow2(end - start - 1)
  {
    var v, r, x := Parse(buf, start, end), ParseSigned(buf, start, end), Bits(buf)[start..end];
    NumbersFit(x, end - start);
    FieldValues(buf, start, end);
    assert NatOf(v) == NatOf(x) && IntOf(r) == IntOf(x);
  }

  lemma NumbersFit(x: seq<bool>, len: nat)
    requires |x| == len > 0
    ensures NatOf(x) < Pow2(len) && -Pow2(len - 1) <= IntOf(x) < Pow2(len - 1)
  {
  }

  /** UIntFieldParser: exactly the values that fit into the field are read back. */
  lemma UnsignedRoundTrip(buf: seq<Byte>, start: nat, end: nat, v: Word)
    requires IsField(buf, start, end)
    ensures Parse(Write(buf, start, end, v), start, end) == v <==> NatOf(v) < Pow2(end - start)
  {
    ReadValuesFit(Write(buf, start, end, v), start, end);
    if NatOf(v) < Pow2(end - start) {
      FittingNatReadBack(buf, start, end, v);
    }
  }

  /** IntFieldParser: exactly the values that fit into the field in two's complement are read back. */
  lemma SignedRoundTrip(buf: seq<Byte>, start: nat, end: nat, v: Word)
    requires IsField(buf, start, end)
    ensures ParseSigned(Write(buf, start, end, v), start, end) == v
       <==> -Pow2(end - start - 1) <= IntOf(v) < Pow2(end - start - 1)
  {
    ReadValuesFit(Write(buf, start, end, v), start, end);
    if -Pow2(end - start - 1) <= IntOf(v) < Pow2(end - start - 1) {
      FittingIntReadBack(buf, start, end, v);
    }
  }

  lemma FieldsApart(bits: seq<bool>, s: nat, e: nat, v: Word, s': nat, e': nat, v': Word)
    requires s < e <= s + 32 && s' < e' <= s' + 32 && e <= |bits| && e' <= |bits| && (e <= s' || e' <= s)
    ensures WithField(WithField(bits, s, e, v), s', e', v') == WithField(WithField(bits, s', e', v'), s, e, v)
  {
    var first, second := WithField(bits, s, e, v), WithField(bits, s', e', v');
    var x, y := WithField(first, s', e', v'), WithField(second, s, e, v);
    forall i | 0 <= i < |bits| ensures x[i] == y[i] {
      WithFieldAt(bits, s, e, v, i);
      WithFieldAt(first, s', e', v', i);
      WithFieldAt(bits, s', e', v', i);
      WithFieldAt(second, s, e, v, i);
    }
  }

  /** Writes to disjoint fields commute. */
  lemma DisjointWritesCommute(buf: seq<Byte>, s: nat, e: nat, v: Word, s': nat, e': nat, v': Word)
    requires IsField(buf, s, e) && IsField(buf, s', e') && (e <= s' || e' <= s)
    ensures Write(Write(buf, s, e, v), s', e', v') == Write(Write(buf, s', e', v'), s, e, v)
  {
    FieldsApart(Bits(buf), s, e, v, s', e', v');
    BitsDetermineBuffer(Write(Write(buf, s, e, v), s', e', v'), Write(Write(buf, s', e', v'), s, e, v));
  }

  // ------------------------------------------------------------------------------------------
  // Byte-aligned integers

  /** Int24Parser::value(). */
  function ParseInt24(buf: seq<Byte>): Word
    requires |buf| >= 3
  {
    Extended(Load(buf, 0, 3), 24)
  }

  /** The 24-bit parser is the field of the first 24 bits. */
  lemma Int24IsField(buf: seq<Byte>, v: Word)
    requires |buf| >= 3
    ensures ParseInt24(buf) == ParseSigned(buf, 0, 24)
    ensures Store(buf, 0, 3, v) == Write(buf, 0, 24, v)
  {
    assert Parse(buf, 0, 24) == ParseOne(buf, 0, 24, 0, 3) == Load(buf, 0, 3);
    assert Merged(Load(buf, 0, 3), 24, 0, v)[8..] == v[8..];
    forall j | 0 <= j < |buf| ensures Store(buf, 0, 3, v)[j] == Write(buf, 0, 24, v)[j] {
    }
  }

  // ------------------------------------------------------------------------------------------
  // Flags

  /** 1 << (7 - bit % 8) in one byte. */
  function FlagMask(bit: nat): (r: Byte)
    ensures forall t :: 0 <= t < 8 ==> r[t] == (t == bit % 8)
  {
    seq(8, t requires 0 <= t < 8 => t == bit % 8)
  }

  /** FlagParser::value(v): the mask is or-ed in, or its complement and-ed. */
  function WriteFlag(buf: seq<Byte>, bit: nat, v: bool): (r: seq<Byte>)
    requires bit < 8 * |buf|
    ensures |r| == |buf|
  {
    var j, m := bit / 8, FlagMask(bit);
    var byte: Byte := seq(8, t requires 0 <= t < 8 => if v then buf[j][t] || m[t] else buf[j][t] && !m[t]);
    buf[j := byte]
  }

  function ParseFlag(buf: seq<Byte>, bit: nat): bool
    requires bit < 8 * |buf|
  {
    var j, m := bit / 8, FlagMask(bit);
    exists t :: 0 <= t < 8 && buf[j][t] && m[t]
  }

  lemma WriteFlagBits(buf: seq<Byte>, bit: nat, v: bool)
    requires bit < 8 * |buf|
    ensures Bits(WriteFlag(buf, bit, v)) == Bits(buf)[bit := v]
  {
    var x, f := WriteFlag(buf, bit, v), Bits(buf)[bit := v];
    forall i | 0 <= i < 8 * |buf| ensures Bits(x)[i] == f[i] {
      assert Bits(x)[i] == x[i / 8][i % 8];
      assert i != bit ==> i / 8 != bit / 8 || i % 8 != bit % 8;
    }
  }

  lemma ParseFlagBit(buf: seq<Byte>, bit: nat)
    requires bit < 8 * |buf|
    ensures ParseFlag(buf, bit) == Bits(buf)[bit]
  {
    assert FlagMask(bit)[bit % 8];
    assert Bits(buf)[bit] == buf[bit / 8][bit % 8];
  }

  lemma SameBits(x: seq<Byte>, y: seq<Byte>, c: seq<bool>)
    requires |x| == |y| && Bits(x) == c && Bits(y) == c
    ensures x == y
  {
    BitsDetermineBuffer(x, y);
  }

  lemma OneBitField(bits: seq<bool>, bit: nat, w: Word)
    requires bit < |bits|
    ensures WithField(bits, bit, bit + 1, w) == bits[bit := w[31]]
  {
  }

  /** Writing a flag is writing a field of one bit. */
  lemma FlagIsField(buf: seq<Byte>, bit: nat, w: Word)
    requires bit < 8 * |buf|
    ensures WriteFlag(buf, bit, w[31]) == Write(buf, bit, bit + 1, w)
  {
    var c := Bits(buf)[bit := w[31]];
    WriteFlagBits(buf, bit, w[31]);
    OneBitField(Bits(buf), bit, w);
    SameBits(WriteFlag(buf, bit, w[31]), Write(buf, bit, bit + 1, w), c);
  }

  lemma FlagRoundTrip(buf: seq<Byte>, bit: nat, v: bool)
    requires bit < 8 * |buf|
    ensures ParseFlag(WriteFlag(buf, bit, v), bit) == v
  {
    WriteFlagBits(buf, bit, v);
    ParseFlagBit(WriteFlag(buf, bit, v), bit);
  }

  lemma FlagApart(bits: seq<bool>, bit: nat, x: bool, s: nat, e: nat, v: Word)
    requires bit < |bits| && s < e <= s + 32 && e <= |bits| && !(s <= bit < e)
    ensures WithField(bits, s, e, v)[bit := x] == WithField(bits[bit := x], s, e, v)
  {
  }

  /** A flag outside a field can be written before or after it. */
  lemma FlagAndFieldCommute(buf: seq<Byte>, bit: nat, x: bool, s: nat, e: nat, v: Word)
    requires bit < 8 * |buf| && IsField(buf, s, e) && !(s <= bit < e)
    ensures WriteFlag(Write(buf, s, e, v), bit, x) == Write(WriteFlag(buf, bit, x), s, e, v)
  {
    var flagged, written := WriteFlag(buf, bit, x), Write(buf, s, e, v);
    var c := WithField(Bits(buf), s, e, v)[bit := x];
    WriteFlagBits(buf, bit, x);
    WriteFlagBits(written, bit, x);
    FlagApart(Bits(buf), bit, x, s, e, v);
    SameBits(WriteFlag(written, bit, x), Write(flagged, s, e, v), c);
  }

  // ------------------------------------------------------------------------------------------
  // Writing in place

  method StoreInPlace(a: array<Byte>, off: nat, k: nat, w: Word)
    requires k <= 4 && off + k <= a.Length
    modifies a
    ensures a[..] == Store(old(a[..]), off, k, w)
  {
    for j := 0 to k
      invariant forall i :: 0 <= i < a.Length ==>
                  a[i] == if off <= i < off + j then ByteOf(w, k, i - off) else old(a[i])
    {
      a[off + j] := ByteOf(w, k, j);
    }
    assert forall i :: 0 <= i < a.Length ==> a[i] == StoredByte(old(a[..]), off, k, w, i);
  }

  /** The bit field writer on the packet buffer itself. */
  method WriteInPlace(a: array<Byte>, start: nat, end: nat, v: Word)
    requires IsField(a[..], start, end)
    modifies a
    ensures a[..] == Write(old(a[..]), start, end, v)
  {
    var off, k := start / 8, (end - 1) / 8 - start / 8 + 1;
    if k <= 4 {
      StoreInPlace(a, off, k, Merged(Load(a[..], off, k), end - start, 8 * (off + k) - end, v));
    } else {
      WriteTwoInPlace(a, start, end, off, v);
    }
  }

  method WriteTwoInPlace(a: array<Byte>, start: nat, end: nat, off: nat, v: Word)
    requires IsField(a[..], start, end) && 8 * off <= start < 8 * off + 8 && end > 8 * off + 32
    modifies a
    ensures a[..] == WriteTwo(old(a[..]), start, end, off, v)
  {
    var s, e := start - 8 * off, end - 8 * off;
    StoreInPlace(a, off + 1, 4, Merged(Load(a[..], off + 1, 4), e - 8, 40 - e, v));
    StoreInPlace(a, off, 1, Topped(Load(a[..], off, 1), s, e, v));
  }
}
