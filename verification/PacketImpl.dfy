/**
 The packet implementation object: a byte container shared by a list of interpreter objects whose
 begin and end indices are patched in place. Each method is proved to do to the packet value what
 the functions of module PacketChain say.
 */
module PacketImpl {
  import opened Common
  import opened Storage
  import opened PacketChain

  class Interpreter {
    var begin: int
    var end: int

    constructor (begin: int, end: int)
      ensures this.begin == begin && this.end == end
    {
      this.begin, this.end := begin, end;
    }
  }

  ghost function Ranges(xs: seq<Interpreter>): (r: seq<Range>)
    reads xs
    ensures |r| == |xs|
  {
    seq(|xs|, i requires 0 <= i < |xs| reads xs => Range(xs[i].begin, xs[i].end))
  }

  ghost function GrownBelow(was: seq<Range>, i: nat, n: int): (r: seq<Range>)
    ensures |r| == |was|
  {
    seq(|was|, j requires 0 <= j < |was| => if j < i then was[j].Grown(n) else was[j])
  }

  ghost function ShiftedBetween(was: seq<Range>, i: nat, m: nat, n: int): (r: seq<Range>)
    ensures |r| == |was|
  {
    seq(|was|, j requires 0 <= j < |was| => if i <= j < m then was[j].Shifted(n) else was[j])
  }

  /** The loops of updateIterators, put together, are the three-case patch. */
  lemma PatchedInTwoSteps(was: seq<Range>, grown: seq<Range>, now: seq<Range>, k: nat, pos: int, n: int)
    requires k < |was| && grown == GrownBelow(was, k + 1, n)
    requires now == if k + 1 < |was| && pos <= grown[k + 1].begin then ShiftedBetween(grown, k + 1, |was|, n) else grown
    ensures now == PacketChain.UpdateIterators(was, k, pos, n)
  {
  }

  class PacketImpl {
    const data: PacketVector
    var interpreters: seq<Interpreter>

    ghost predicate Valid()
      reads this, data
    {
      data.Valid() && Distinct(interpreters)
    }

    ghost function Value(): Packet
      requires Valid()
      reads this, data, data.data, interpreters
    {
      Packet(data.Contents(), Ranges(interpreters))
    }

    /** Interpreter k of a chain that lies in the buffer. */
    ghost predicate Holds(self: Interpreter, k: nat)
      reads this, data, interpreters
    {
      && Valid() && k < |interpreters| && interpreters[k] == self
      && Range(self.begin, self.end).In(Range(0, data.e - data.b))
    }

    constructor (bytes: seq<Byte>)
      ensures Valid() && fresh(data) && fresh(data.data) && Value() == Packet(bytes, [])
    {
      data := new PacketVector.FromBytes(bytes);
      interpreters := [];
    }

    method UpdateIterators(self: Interpreter, ghost k: nat, pos: int, n: int)
      requires Distinct(interpreters) && k < |interpreters| && interpreters[k] == self
      modifies interpreters
      ensures Ranges(interpreters) == PacketChain.UpdateIterators(old(Ranges(interpreters)), k, pos, n)
    {
      ghost var was := Ranges(interpreters);
      var i := GrowUpTo(self, k, n);
      ghost var grown := Ranges(interpreters);
      if i == |interpreters| || pos > interpreters[i].begin {
        PatchedInTwoSteps(was, grown, grown, k, pos, n);
        return;
      }
      ShiftFrom(i, n);
      PatchedInTwoSteps(was, grown, Ranges(interpreters), k, pos, n);
    }

    /** Grows the ranges up to and including the one of self and returns the index behind it. */
    method GrowUpTo(self: Interpreter, ghost k: nat, n: int) returns (i: nat)
      requires Distinct(interpreters) && k < |interpreters| && interpreters[k] == self
      modifies interpreters
      ensures i == k + 1 && Ranges(interpreters) == GrownBelow(old(Ranges(interpreters)), i, n)
    {
      ghost var was := Ranges(interpreters);
      i := 0;
      while interpreters[i] != self
        invariant 0 <= i <= k
        invariant Ranges(interpreters) == GrownBelow(was, i, n)
        decreases k - i
      {
        GrowOne(interpreters[i], i, n, was);
        i := i + 1;
      }
      GrowOne(self, i, n, was);
      i := i + 1;
    }

    method GrowOne(p: Interpreter, ghost i: nat, n: int, ghost was: seq<Range>)
      requires Distinct(interpreters) && i < |interpreters| == |was| && interpreters[i] == p
      requires Ranges(interpreters) == GrownBelow(was, i, n)
      modifies p`end
      ensures Ranges(interpreters) == GrownBelow(was, i + 1, n)
    {
      ghost var before := Ranges(interpreters);
      p.end := p.end + n;
      assert Ranges(interpreters) == before[i := before[i].Grown(n)];
    }

    /** Moves the ranges of all interpreters from index i on. */
    method ShiftFrom(i: nat, n: int)
      requires Distinct(interpreters) && i <= |interpreters|
      modifies interpreters
      ensures Ranges(interpreters) == ShiftedBetween(old(Ranges(interpreters)), i, |interpreters|, n)
    {
      ghost var was := Ranges(interpreters);
      assert was == ShiftedBetween(was, i, i, n);
      for m := i to |interpreters|
        invariant Ranges(interpreters) == ShiftedBetween(was, i, m, n)
      {
        ShiftOne(interpreters[m], m, n);
      }
    }

    method ShiftOne(p: Interpreter, ghost i: nat, n: int)
      requires Distinct(interpreters) && i < |interpreters| && interpreters[i] == p
      modifies p
      ensures Ranges(interpreters) == old(Ranges(interpreters))[i := old(Ranges(interpreters))[i].Shifted(n)]
    {
      p.begin := p.begin + n;
      p.end := p.end + n;
    }

    /** The byte container's insert, at an index into the packet. */
    method InsertBytes(pos: nat, n: nat, v: Byte)
      requires data.Valid() && pos <= data.e - data.b
      modifies data, data.data
      ensures data.Valid() && (data.data == old(data.data) || fresh(data.data))
      ensures data.Contents() == old(data.Contents())[..pos] + seq(n, _ => v) + old(data.Contents())[pos..]
    {
      data.InsertFill(data.b + pos, n, v);
    }

    method EraseBytes(first: nat, last: nat)
      requires data.Valid() && first <= last <= data.e - data.b
      modifies data, data.data
      ensures data.Valid() && data.data == old(data.data)
      ensures data.Contents() == old(data.Contents())[..first] + old(data.Contents())[last..]
    {
      data.Erase(data.b + first, data.b + last);
    }

    method Insert(self: Interpreter, ghost k: nat, pos: nat, n: nat, v: Byte)
      requires Valid() && k < |interpreters| && interpreters[k] == self && pos <= data.e - data.b
      modifies data, data.data, interpreters
      ensures Valid() && (data.data == old(data.data) || fresh(data.data))
      ensures Value() == InsertAt(old(Value()), k, pos, seq(n, _ => v))
    {
      ghost var chain := Ranges(interpreters);
      InsertBytes(pos, n, v);
      ghost var bytes := data.Contents();
      UpdateIterators(self, k, pos, n);
      assert Value() == Packet(bytes, PacketChain.UpdateIterators(chain, k, pos, n));
    }

    method Erase(self: Interpreter, ghost k: nat, first: nat, last: nat)
      requires Valid() && k < |interpreters| && interpreters[k] == self && first <= last <= data.e - data.b
      modifies data, data.data, interpreters
      ensures Valid() && data.data == old(data.data)
      ensures Value() == EraseAt(old(Value()), k, first, last)
    {
      ghost var chain := Ranges(interpreters);
      EraseBytes(first, last);
      ghost var bytes := data.Contents();
      UpdateIterators(self, k, first, first - last);
      assert Value() == Packet(bytes, PacketChain.UpdateIterators(chain, k, first, first - last));
    }

    /** PacketData::resize. */
    method Resize(self: Interpreter, ghost k: nat, n: nat, v: Byte)
      requires Holds(self, k)
      modifies data, data.data, interpreters
      ensures Valid() && (data.data == old(data.data) || fresh(data.data))
      ensures old(Value()).chain[k] == Range(old(self.begin), old(self.end))
      ensures Value() == Resized(old(Value()), k, n, v)
    {
      ghost var was := Value();
      assert was.chain[k] == Range(self.begin, self.end);
      if n < self.end - self.begin {
        Erase(self, k, self.begin + n, self.end);
        assert Value() == Resized(was, k, n, v);
      } else if n > self.end - self.begin {
        Insert(self, k, self.end, n - (self.end - self.begin), v);
        assert Value() == Resized(was, k, n, v);
      }
    }

    method Truncate(k: nat)
      requires Valid() && k < |interpreters|
      modifies this`interpreters
      ensures Valid() && Value() == Truncated(old(Value()), k) && interpreters == old(interpreters)[..k + 1]
    {
      interpreters := interpreters[..k + 1];
    }

    method Clear(self: Interpreter, k: nat)
      requires Holds(self, k)
      modifies this`interpreters, data, data.data, interpreters
      ensures Valid()
      ensures old(Value()).chain[k] == Range(old(self.begin), old(self.end))
      ensures Value() == Cleared(old(Value()), k)
    {
      ghost var was := Value();
      assert was.chain[k] == Range(self.begin, self.end);
      if k + 1 < |interpreters| {
        Truncate(k);
      }
      assert Value() == Truncated(was, k);
      Erase(self, k, self.begin, self.end);
    }

    /** PacketParserBase::resize: the iterator is saved as an offset from the interpreter's begin. */
    method ResizeField(self: Interpreter, ghost k: nat, at: nat, oldSize: nat, newSize: nat) returns (at': int)
      requires Holds(self, k) && self.begin <= at && at + oldSize <= self.end
      modifies data, data.data, interpreters
      ensures Valid() && Value() == FieldResized(old(Value()), k, at, oldSize, newSize)
      ensures at' - self.begin == at - old(self.begin)
    {
      var offset := at - self.begin;
      if oldSize > newSize {
        ShrinkField(self, k, at, oldSize, newSize);
      } else if oldSize < newSize {
        GrowField(self, k, at, oldSize, newSize);
      }
      at' := self.begin + offset;
    }

    method ShrinkField(self: Interpreter, ghost k: nat, at: nat, oldSize: nat, newSize: nat)
      requires Holds(self, k) && self.begin <= at && at + oldSize <= self.end && oldSize > newSize
      modifies data, data.data, interpreters
      ensures Valid() && Value() == FieldResized(old(Value()), k, at, oldSize, newSize)
    {
      Erase(self, k, at + newSize, at + oldSize);
    }

    method GrowField(self: Interpreter, ghost k: nat, at: nat, oldSize: nat, newSize: nat)
      requires Holds(self, k) && self.begin <= at && at + oldSize <= self.end && oldSize < newSize
      modifies data, data.data, interpreters
      ensures Valid() && Value() == FieldResized(old(Value()), k, at, oldSize, newSize)
    {
      Insert(self, k, at + oldSize, newSize - oldSize, 0);
    }

    method AppendInterpreter(p: Interpreter)
      requires Valid() && p !in interpreters
      modifies this`interpreters
      ensures Valid() && interpreters == old(interpreters) + [p]
      ensures Ranges(interpreters) == old(Ranges(interpreters)) + [Range(p.begin, p.end)]
    {
      interpreters := interpreters + [p];
      assert Ranges(interpreters) == old(Ranges(interpreters)) + [Range(p.begin, p.end)];
    }

    /** The bytes of an interpreter. */
    method Bytes(self: Interpreter, ghost k: nat) returns (bytes: seq<Byte>)
      requires Holds(self, k)
      ensures Value().chain[k] == Range(self.begin, self.end) && bytes == Sees(Value(), k)
    {
      bytes := data.Read(data.b + self.begin, data.b + self.end);
      assert data.b + self.begin - data.b == self.begin && data.b + self.end - data.b == self.end;
    }

    /** The ranges of the interpreters from index m on, as p->next() walks them. */
    method RangesFrom(m: nat) returns (ranges: seq<Range>)
      requires Valid() && m <= |interpreters|
      ensures ranges == Ranges(interpreters)[m..]
    {
      ranges := [];
      for i := m to |interpreters|
        invariant ranges == Ranges(interpreters)[m..i]
      {
        ranges := ranges + [Range(interpreters[i].begin, interpreters[i].end)];
      }
    }

    /** Appends an interpreter for each of the ranges, moved by n. */
    method AppendClones(ranges: seq<Range>, n: int)
      requires Valid()
      modifies this`interpreters
      ensures Valid() && old(interpreters) <= interpreters
      ensures forall j :: |old(interpreters)| <= j < |interpreters| ==> fresh(interpreters[j])
      ensures Ranges(interpreters) == old(Ranges(interpreters)) + Moved(ranges, n)
    {
      ghost var was := Ranges(interpreters);
      for i := 0 to |ranges|
        invariant Distinct(interpreters) && old(interpreters) <= interpreters
        invariant |interpreters| == |old(interpreters)| + i
        invariant forall j :: |old(interpreters)| <= j < |interpreters| ==> fresh(interpreters[j])
        invariant Ranges(interpreters) == was + Moved(ranges[..i], n)
      {
        var p := new Interpreter(ranges[i].begin + n, ranges[i].end + n);
        AppendInterpreter(p);
        assert Moved(ranges[..i + 1], n) == Moved(ranges[..i], n) + [Range(p.begin, p.end)];
      }
      assert ranges[..|ranges|] == ranges;
    }

    /** No object is shared between the two packets. */
    ghost predicate Apart(other: PacketImpl)
      reads this, other, data, other.data
    {
      && other != this && other.data != data && other.data.data != data.data
      && forall x :: x in interpreters ==> x !in other.interpreters
    }

    /** PacketInterpreterBase::append: the payload range next (which depends on the packet type) and the
        chain behind self are replaced by a copy of the given packet. Without a payload range the call
        fails, but the chain behind self is already gone. */
    method Append(self: Interpreter, k: nat, next: Option<Range>, other: PacketImpl, packet: Interpreter, m: nat)
        returns (rv: Option<Interpreter>)
      requires Holds(self, k) && other.Holds(packet, m) && Apart(other)
      requires next.Some? ==> next.value.In(Range(self.begin, self.end))
      modifies this`interpreters, data, data.data, interpreters
      ensures Valid()
      ensures rv.Some? == next.Some?
      ensures next.None? ==> Value() == Truncated(old(Value()), k)
      ensures next.Some? ==>
                && old(other.Value()).chain[m] == old(Range(packet.begin, packet.end))
                && Value() == Appended(old(Value()), k, next.value, old(other.Value()), m)
      ensures next.Some? ==> |interpreters| > k + 1 && rv.value == interpreters[k + 1]
    {
      ghost var was, source := Value(), other.Value();
      if k + 1 < |interpreters| {
        Truncate(k);
      }
      assert Value() == Truncated(was, k);
      if next.None? {
        return None;
      }
      var body := other.Bytes(packet, m);
      var rest := other.RangesFrom(m + 1);
      AppendedInSteps(was, k, next.value, source, m, Value(), body, rest);
      var p := SpliceIn(next.value, body, rest, packet.begin);
      return Some(p);
    }

    /** The copying part of an append, at the last interpreter. */
    method SpliceIn(r: Range, body: seq<Byte>, rest: seq<Range>, base: int) returns (p: Interpreter)
      requires Valid() && r.In(Range(0, data.e - data.b))
      modifies this`interpreters, data, data.data, interpreters
      ensures Valid() && Value() == Spliced(old(Value()), r, body, rest, base)
      ensures |interpreters| > |old(interpreters)| && p == interpreters[|old(interpreters)|]
    {
      p := PlaceBody(r, body);
      AppendClones(rest, p.begin - base);
    }

    /** Appends an interpreter for the range r, resizes it to the body and copies the body into it. */
    method PlaceBody(r: Range, body: seq<Byte>) returns (p: Interpreter)
      requires Valid() && r.In(Range(0, data.e - data.b))
      modifies this`interpreters, data, data.data, interpreters
      ensures Valid() && interpreters != [] && interpreters[|interpreters| - 1] == p && p.begin == r.begin
      ensures data.Contents() == old(data.Contents())[..r.begin] + body + old(data.Contents())[r.end..]
      ensures Ranges(interpreters)
           == GrownChain(old(Ranges(interpreters)), |body| - (r.end - r.begin)) + [Range(r.begin, r.begin + |body|)]
    {
      ghost var head, tail := data.Contents()[..r.begin], data.Contents()[r.end..];
      p := MakeRoom(r, |body|);
      CopyInto(p, |interpreters| - 1, body, head, tail);
    }

    /** Appends an interpreter for the range r and resizes it. */
    method MakeRoom(r: Range, n: nat) returns (p: Interpreter)
      requires Valid() && r.In(Range(0, data.e - data.b))
      modifies this`interpreters, data, data.data, interpreters
      ensures data.data == old(data.data) || fresh(data.data)
      ensures interpreters != [] && Holds(p, |interpreters| - 1)
      ensures p.begin == r.begin && p.end == r.begin + n
      ensures data.Contents()[..r.begin] == old(data.Contents())[..r.begin]
      ensures data.Contents()[p.end..] == old(data.Contents())[r.end..]
      ensures Ranges(interpreters)
           == GrownChain(old(Ranges(interpreters)), n - (r.end - r.begin)) + [Range(r.begin, r.begin + n)]
    {
      ghost var was := Value();
      p := new Interpreter(r.begin, r.end);
      AppendInterpreter(p);
      ghost var k := |interpreters| - 1;
      assert Value() == was.(chain := was.chain + [r]);
      Resize(p, k, n, 0);
      ResizedLast(was, r, n, 0);
      assert Value().chain[k] == Ranges(interpreters)[k] == Range(p.begin, p.end);
    }

    /** std::copy over the bytes of an interpreter. */
    method CopyInto(p: Interpreter, ghost k: nat, body: seq<Byte>, ghost head: seq<Byte>, ghost tail: seq<Byte>)
      requires Holds(p, k) && p.end == p.begin + |body|
      requires data.Contents()[..p.begin] == head && data.Contents()[p.end..] == tail
      modifies data.data
      ensures Valid() && data.Contents() == head + body + tail && Ranges(interpreters) == old(Ranges(interpreters))
    {
      data.Overwrite(data.b + p.begin, body);
      assert data.b + p.begin - data.b == p.begin && data.b + p.begin - data.b + |body| == p.end;
    }

    /** PacketInterpreterBase::clone: a new packet of its own from self on. */
    method Clone(self: Interpreter, k: nat) returns (copy: PacketImpl)
      requires Holds(self, k)
      ensures fresh(copy) && fresh(copy.data) && fresh(copy.data.data) && fresh(copy.interpreters)
      ensures old(Value()).chain[k] == old(Range(self.begin, self.end))
      ensures copy.Valid() && copy.Value() == Cloned(old(Value()), k)
      ensures Apart(copy)
    {
      var bytes := Bytes(self, k);
      var ranges := RangesFrom(k);
      assert Cloned(Value(), k) == Packet(bytes, Moved(ranges, -self.begin));
      copy := Assemble(bytes, ranges, -self.begin);
    }

    /** A packet with interpreters for the given ranges, moved by n. */
    static method Assemble(bytes: seq<Byte>, ranges: seq<Range>, n: int) returns (copy: PacketImpl)
      ensures fresh(copy) && fresh(copy.data) && fresh(copy.data.data) && fresh(copy.interpreters)
      ensures copy.Valid() && copy.Value() == Packet(bytes, Moved(ranges, n))
    {
      copy := new PacketImpl(bytes);
      copy.AppendClones(ranges, n);
      assert Ranges(copy.interpreters) == [] + Moved(ranges, n) == Moved(ranges, n);
    }

    /** An insert into one of two separate packets, such as a packet and its clone, leaves the other one alone
        and keeps them separate. */
    method InsertBeside(other: PacketImpl, self: Interpreter, ghost k: nat, pos: nat, n: nat, v: Byte)
      requires Valid() && k < |interpreters| && interpreters[k] == self && pos <= data.e - data.b
      requires Apart(other) && other.Valid()
      modifies data, data.data, interpreters
      ensures Valid() && Value() == InsertAt(old(Value()), k, pos, seq(n, _ => v))
      ensures Apart(other) && other.Valid() && other.Value() == old(other.Value())
    {
      forall j | 0 <= j < |other.interpreters| ensures other.interpreters[j] !in interpreters {
        assert other.interpreters[j] in other.interpreters;
      }
      Insert(self, k, pos, n, v);
      RangesKept(other.interpreters);
    }

    /** The same for an erase. */
    method EraseBeside(other: PacketImpl, self: Interpreter, ghost k: nat, first: nat, last: nat)
      requires Valid() && k < |interpreters| && interpreters[k] == self && first <= last <= data.e - data.b
      requires Apart(other) && other.Valid()
      modifies data, data.data, interpreters
      ensures Valid() && Value() == EraseAt(old(Value()), k, first, last)
      ensures Apart(other) && other.Valid() && other.Value() == old(other.Value())
    {
      forall j | 0 <= j < |other.interpreters| ensures other.interpreters[j] !in interpreters {
        assert other.interpreters[j] in other.interpreters;
      }
      Erase(self, k, first, last);
      RangesKept(other.interpreters);
    }
  }

  twostate lemma RangesKept(xs: seq<Interpreter>)
    requires forall j :: 0 <= j < |xs| ==> xs[j].begin == old(xs[j].begin) && xs[j].end == old(xs[j].end)
    ensures Ranges(xs) == old(Ranges(xs))
  {
  }
}
