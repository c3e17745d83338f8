/**
 Integer fields in the bytes of a packet: the field parsers, which work on bits, applied to the byte
 container of a packet.
 */
module PacketFields {
  import S = Storage
  import opened BitField
  import opened PacketChain

  // ------------------------------------------------------------------------------------------
  // Bytes and their bits

  function BitsOf(x: nat, len: nat): (r: seq<bool>)
    requires x < Pow2(len)
    ensures |r| == len && NatOf(r) == x
  {
    if len == 0 then []
    else
      var high := x >= Pow2(len - 1);
      var r := [high] + BitsOf(if high then x - Pow2(len - 1) else x, len - 1);
      assert r[1..] == BitsOf(if high then x - Pow2(len - 1) else x, len - 1);
      r
  }

  /** A bit string is determined by its length and its number. */
  lemma {:induction false} BitsOfNat(bits: seq<bool>)
    ensures BitsOf(NatOf(bits), |bits|) == bits
  {
    if bits != [] {
      BitsOfNat(bits[1..]);
      assert bits == [bits[0]] + bits[1..];
    }
  }

  lemma EightBits()
    ensures Pow2(8) == 256
  {
    assert Pow2(4) == 16;
  }

  function ToBits(b: S.Byte): (r: Byte)
    ensures NatOf(r) == b
  {
    EightBits();
    BitsOf(b, 8)
  }

  function FromBits(x: Byte): (r: S.Byte)
    ensures ToBits(r) == x
  {
    EightBits();
    BitsOfNat(x);
    NatOf(x)
  }

  /** The bytes of a packet as the field parsers see them, and back. */
  function Decoded(bytes: seq<S.Byte>): (r: seq<Byte>)
    ensures |r| == |bytes| && forall i :: 0 <= i < |r| ==> r[i] == ToBits(bytes[i])
  {
    seq(|bytes|, i requires 0 <= i < |bytes| => ToBits(bytes[i]))
  }

  function Encoded(buf: seq<Byte>): (r: seq<S.Byte>)
    ensures |r| == |buf| && Decoded(r) == buf
  {
    seq(|buf|, i requires 0 <= i < |buf| => FromBits(buf[i]))
  }

  // ------------------------------------------------------------------------------------------
  // Fields in a packet

  /** A parser of n bytes at position at of a packet, and a field in these bytes. */
  predicate FieldAt(data: seq<S.Byte>, at: nat, n: nat, start: nat, end: nat) {
    at + n <= |data| && start < end <= start + 32 && end <= 8 * n
  }

  function ReadFrom(data: seq<S.Byte>, at: nat, n: nat, start: nat, end: nat): Word
    requires FieldAt(data, at, n, start, end)
  {
    Parse(Decoded(data[at..at + n]), start, end)
  }

  function WrittenTo(data: seq<S.Byte>, at: nat, n: nat, start: nat, end: nat, v: Word): (r: seq<S.Byte>)
    requires FieldAt(data, at, n, start, end)
    ensures |r| == |data|
  {
    data[..at] + Encoded(Write(Decoded(data[at..at + n]), start, end, v)) + data[at + n..]
  }

  lemma WrittenBytes(data: seq<S.Byte>, at: nat, n: nat, start: nat, end: nat, v: Word)
    requires FieldAt(data, at, n, start, end)
    ensures var t := WrittenTo(data, at, n, start, end, v);
            && Decoded(t[at..at + n]) == Write(Decoded(data[at..at + n]), start, end, v)
            && t[..at] == data[..at] && t[at + n..] == data[at + n..]
  {
    var w := Encoded(Write(Decoded(data[at..at + n]), start, end, v));
    assert WrittenTo(data, at, n, start, end, v)[at..at + n] == w;
  }

  lemma ReadDecoded(data: seq<S.Byte>, at: nat, n: nat, start: nat, end: nat, buf: seq<Byte>)
    requires FieldAt(data, at, n, start, end) && buf == Decoded(data[at..at + n])
    ensures ReadFrom(data, at, n, start, end) == Parse(buf, start, end)
  {
  }

  /** A field of a packet: what is written is read back exactly if it fits. */
  lemma PacketFieldRoundTrip(data: seq<S.Byte>, at: nat, n: nat, start: nat, end: nat, v: Word)
    requires FieldAt(data, at, n, start, end)
    ensures ReadFrom(WrittenTo(data, at, n, start, end, v), at, n, start, end) == v <==> NatOf(v) < Pow2(end - start)
  {
    var buf := Decoded(data[at..at + n]);
    WrittenBytes(data, at, n, start, end, v);
    ReadDecoded(WrittenTo(data, at, n, start, end, v), at, n, start, end, Write(buf, start, end, v));
    UnsignedRoundTrip(buf, start, end, v);
  }

  /** Another field in the same bytes reads as before. */
  lemma PacketFieldsApart(data: seq<S.Byte>, at: nat, n: nat, start: nat, end: nat, v: Word, s: nat, e: nat)
    requires FieldAt(data, at, n, start, end) && FieldAt(data, at, n, s, e) && (e <= start || end <= s)
    ensures ReadFrom(WrittenTo(data, at, n, start, end, v), at, n, s, e) == ReadFrom(data, at, n, s, e)
  {
    var buf := Decoded(data[at..at + n]);
    WrittenBytes(data, at, n, start, end, v);
    ReadDecoded(WrittenTo(data, at, n, start, end, v), at, n, s, e, Write(buf, start, end, v));
    ReadDecoded(data, at, n, s, e, buf);
    OtherFieldKept(buf, start, end, v, s, e);
  }

  lemma OtherFieldKept(buf: seq<Byte>, start: nat, end: nat, v: Word, s: nat, e: nat)
    requires IsField(buf, start, end) && IsField(buf, s, e) && (e <= start || end <= s)
    ensures Parse(Write(buf, start, end, v), s, e) == Parse(buf, s, e)
  {
    var x, y := Bits(buf), WithField(Bits(buf), start, end, v);
    forall i | s <= i < e ensures y[i] == x[i] {
      WithFieldAt(x, start, end, v, i);
    }
    assert y[s..e] == x[s..e];
  }

  /** Interpreters that do not cover the parser's bytes see what they saw. */
  lemma WrittenSeen(p: Packet, at: nat, n: nat, start: nat, end: nat, v: Word, i: nat)
    requires Nested(p) && FieldAt(p.data, at, n, start, end) && i < |p.chain|
    requires p.chain[i].end <= at || at + n <= p.chain[i].begin
    ensures var q := p.(data := WrittenTo(p.data, at, n, start, end, v)); Nested(q) && Sees(q, i) == Sees(p, i)
  {
    var ins := Encoded(Write(Decoded(p.data[at..at + n]), start, end, v));
    WindowOutside(p.data, at, at + n, ins, p.chain[i].begin, p.chain[i].end);
  }

  /** A parser's value() on the byte container of the packet. */
  method ReadField(data: S.PacketVector, at: nat, n: nat, start: nat, end: nat) returns (v: Word)
    requires data.Valid() && FieldAt(data.Contents(), at, n, start, end)
    ensures v == ReadFrom(data.Contents(), at, n, start, end)
  {
    var bytes := Bytes(data, at, n);
    v := Parse(Decoded(bytes), start, end);
  }

  /** A parser's value(v). */
  method WriteField(data: S.PacketVector, at: nat, n: nat, start: nat, end: nat, v: Word)
    requires data.Valid() && FieldAt(data.Contents(), at, n, start, end)
    modifies data.data
    ensures data.Valid() && data.Contents() == WrittenTo(old(data.Contents()), at, n, start, end, v)
  {
    var bytes := Bytes(data, at, n);
    ghost var was := data.Contents();
    Put(data, at, Encoded(Write(Decoded(bytes), start, end, v)));
    assert data.Contents() == WrittenTo(was, at, n, start, end, v);
  }

  method Bytes(data: S.PacketVector, at: nat, n: nat) returns (bytes: seq<S.Byte>)
    requires data.Valid() && at + n <= |data.Contents()|
    ensures bytes == data.Contents()[at..at + n]
  {
    bytes := data.Read(data.b + at, data.b + at + n);
    assert data.b + at - data.b == at && data.b + at + n - data.b == at + n;
  }

  method Put(data: S.PacketVector, at: nat, bytes: seq<S.Byte>)
    requires data.Valid() && at + |bytes| <= |data.Contents()|
    modifies data.data
    ensures data.Valid()
    ensures data.Contents() == old(data.Contents())[..at] + bytes + old(data.Contents())[at + |bytes|..]
  {
    data.Overwrite(data.b + at, bytes);
    assert data.b + at - data.b == at && data.b + at - data.b + |bytes| == at + |bytes|;
  }
}
