/** nanopb's streams: reading a limited part of a buffer, and writing to one or only counting. */
module PbStreams {
  import opened Keys
  import opened LogFormat
  import opened Coding
  import opened PbVarints

  // ---------- wire format ----------

  const WT_VARINT: nat := 0
  const WT_64BIT: nat := 1
  const WT_STRING: nat := 2
  const WT_32BIT: nat := 5

  /** The tag and the wire type. */
  function DecodeTag(s: seq<byte>): (r: Read<(nat, nat)>)
    ensures r.Some? ==> |r.value.1| < |s|
  {
    var t := DecodeVarint32(s);
    if t.None? || t.value.0 == 0 then None else Some(((t.value.0 / 8, t.value.0 % 8), t.value.1))
  }

  /** A zero byte, however it is padded, ends a message early. */
  predicate EndsEarly(s: seq<byte>) {
    var t := DecodeVarint32(s);
    t.Some? && t.value.0 == 0
  }

  function TakeBytes(s: seq<byte>, n: nat): (r: Read<seq<byte>>) {
    if |s| < n then None else Some((s[..n], s[n..]))
  }

  /** A length and as many bytes. */
  function TakeString(s: seq<byte>): (r: Read<seq<byte>>)
    ensures r.Some? ==> |r.value.0| + |r.value.1| < |s|
  {
    var n := DecodeVarint32(s);
    if n.None? then None else TakeBytes(n.value.1, n.value.0)
  }

  function AfterVarint(s: seq<byte>): (r: Option<seq<byte>>)
    ensures r.Some? ==> |r.value| < |s|
    decreases |s|
  {
    if s == [] then None else if s[0] < 128 then Some(s[1..]) else AfterVarint(s[1..])
  }

  function AfterBytes(s: seq<byte>, n: nat): (r: Option<seq<byte>>) {
    if |s| < n then None else Some(s[n..])
  }

  function AfterField(s: seq<byte>, wireType: nat): (r: Option<seq<byte>>)
    ensures r.Some? ==> |r.value| <= |s|
  {
    if wireType == WT_VARINT then AfterVarint(s)
    else if wireType == WT_64BIT then AfterBytes(s, 8)
    else if wireType == WT_STRING then var t := TakeString(s); if t.None? then None else Some(t.value.1)
    else if wireType == WT_32BIT then AfterBytes(s, 4)
    else None
  }

  // ---------- input ----------

  class IStream {
    const buffer: seq<byte>
    var state: nat
    var bytesLeft: nat

    ghost predicate Valid()
      reads this
    {
      state + bytesLeft <= |buffer|
    }

    /** What can still be read. */
    ghost function Rest(): seq<byte>
      requires Valid()
      reads this
    {
      buffer[state..state + bytesLeft]
    }

    constructor FromBuffer(buffer: seq<byte>)
      ensures Valid() && Rest() == buffer && state == 0 && this.buffer == buffer
    {
      this.buffer := buffer;
      state, bytesLeft := 0, |buffer|;
      new;
      assert this.buffer[state..state + bytesLeft] == buffer;
    }

    constructor At(buffer: seq<byte>, state: nat, bytesLeft: nat)
      requires state + bytesLeft <= |buffer|
      ensures Valid() && this.buffer == buffer && this.state == state && this.bytesLeft == bytesLeft
    {
      this.buffer, this.state, this.bytesLeft := buffer, state, bytesLeft;
    }

    method ReadByte() returns (ok: bool, b: byte)
      requires Valid()
      modifies this
      ensures Valid() && state + bytesLeft == old(state + bytesLeft)
      ensures ok <==> old(Rest()) != []
      ensures if ok then b == old(Rest())[0] && Rest() == old(Rest())[1..] else Rest() == old(Rest())
    {
      b := 0;
      if bytesLeft == 0 {
        return false, b;
      }
      b := buffer[state];
      state := state + 1;
      bytesLeft := bytesLeft - 1;
      ok := true;
    }

    method Read(count: nat) returns (ok: bool, data: seq<byte>)
      requires Valid()
      modifies this
      ensures Valid() && state + bytesLeft == old(state + bytesLeft)
      ensures ok <==> TakeBytes(old(Rest()), count).Some?
      ensures ok ==> TakeBytes(old(Rest()), count) == Some((data, Rest()))
    {
      data := [];
      if bytesLeft < count {
        return false, data;
      }
      data := buffer[state..state + count];
      state := state + count;
      bytesLeft := bytesLeft - count;
      ok := true;
      assert data == old(Rest())[..count] && Rest() == old(Rest())[count..];
    }

    method DecodeVarint() returns (ok: bool, value: nat)
      requires Valid()
      modifies this
      ensures Valid() && state + bytesLeft == old(state + bytesLeft)
      ensures ok <==> PbVarints.DecodeVarint(old(Rest())).Some?
      ensures ok ==> PbVarints.DecodeVarint(old(Rest())) == Some((value, Rest()))
    {
      hide Power128;
      ghost var start := Rest();
      var b: byte := 128;
      var i: nat := 0;
      value := 0;
      while b >= 128
        invariant Valid() && state + bytesLeft == old(state + bytesLeft)
        invariant b >= 128 ==> PbVarints.DecodeVarint(start) == VarintFrom(Rest(), i, value)
        invariant b < 128 ==> PbVarints.DecodeVarint(start) == Some((value, Rest()))
        decreases if b >= 128 then 1 else 0, bytesLeft
      {
        if 7 * i >= 64 {
          return false, value;
        }
        ok, b := ReadByte();
        if !ok {
          return;
        }
        value := value + b % 128 * Power128(i) % TWO_64;
        i := i + 1;
      }
      ok := true;
    }

    /** eof tells whether the stream was empty from the start. */
    method DecodeVarint32() returns (ok: bool, value: nat, eof: bool)
      requires Valid()
      modifies this
      ensures Valid() && state + bytesLeft == old(state + bytesLeft)
      ensures ok <==> PbVarints.DecodeVarint32(old(Rest())).Some?
      ensures ok ==> PbVarints.DecodeVarint32(old(Rest())) == Some((value, Rest()))
      ensures eof <==> old(Rest()) == []
    {
      hide Or, Power2;
      var b: byte;
      ghost var start := Rest();
      value, eof := 0, false;
      ok, b := ReadByte();
      if !ok {
        return false, value, true;
      }
      if b < 128 {
        return true, b, false;
      }
      var bitpos: nat := 7;
      value := b % 128;
      while b >= 128
        invariant Valid() && state + bytesLeft == old(state + bytesLeft) && bitpos < 256
        invariant b >= 128 ==> PbVarints.DecodeVarint32(start) == Varint32From(Rest(), bitpos, value)
        invariant b < 128 ==> PbVarints.DecodeVarint32(start) == if bitpos == 35 && b / 16 % 8 != 0 then None else Some((value, Rest()))
        decreases if b >= 128 then 1 else 0, bytesLeft
      {
        ok, b := ReadByte();
        if !ok {
          return;
        }
        if bitpos >= 32 {
          var signExtension := if bitpos < 63 then 0xFF else 0x01;
          if b % 128 != 0 && (value / TWO_31 == 0 || b != signExtension) {
            return false, value, false;
          }
        } else {
          value := Or(value, b % 128 * Power2(bitpos) % TWO_32);
        }
        bitpos := (bitpos + 7) % 256;
      }
      if bitpos == 35 && b / 16 % 8 != 0 {
        return false, value, false;
      }
      ok := true;
    }

    /** Fails with eof at the end of the message, whether the bytes end or a zero tag says so. */
    method ReadTag() returns (ok: bool, wireType: nat, tag: nat, eof: bool)
      requires Valid()
      modifies this
      ensures Valid() && state + bytesLeft == old(state + bytesLeft)
      ensures ok <==> DecodeTag(old(Rest())).Some?
      ensures ok ==> DecodeTag(old(Rest())) == Some(((tag, wireType), Rest()))
      ensures !ok ==> (eof <==> old(Rest()) == [] || EndsEarly(old(Rest())))
    {
      var temp;
      wireType, tag := 0, 0;
      ok, temp, eof := DecodeVarint32();
      if !ok {
        return;
      }
      if temp == 0 {
        return false, wireType, tag, true;
      }
      tag, wireType := temp / 8, temp % 8;
    }

    method SkipVarint() returns (ok: bool)
      requires Valid()
      modifies this
      ensures Valid() && state + bytesLeft == old(state + bytesLeft)
      ensures ok <==> AfterVarint(old(Rest())).Some?
      ensures ok ==> AfterVarint(old(Rest())) == Some(Rest())
    {
      ghost var start := Rest();
      var b: byte := 128;
      while b >= 128
        invariant Valid() && state + bytesLeft == old(state + bytesLeft)
        invariant AfterVarint(start) == if b >= 128 then AfterVarint(Rest()) else Some(Rest())
        decreases if b >= 128 then 1 else 0, bytesLeft
      {
        ok, b := ReadByte();
        if !ok {
          return;
        }
      }
      ok := true;
    }

    method SkipBytes(count: nat) returns (ok: bool)
      requires Valid()
      modifies this
      ensures Valid() && state + bytesLeft == old(state + bytesLeft)
      ensures ok <==> AfterBytes(old(Rest()), count).Some?
      ensures ok ==> AfterBytes(old(Rest()), count) == Some(Rest())
    {
      var data;
      ok, data := Read(count);
    }

    method SkipField(wireType: nat) returns (ok: bool)
      requires Valid()
      modifies this
      ensures Valid() && state + bytesLeft == old(state + bytesLeft)
      ensures ok <==> AfterField(old(Rest()), wireType).Some?
      ensures ok ==> AfterField(old(Rest()), wireType) == Some(Rest())
    {
      match wireType {
        case 0 => ok := SkipVarint();
        case 1 => ok := SkipBytes(8);
        case 2 =>
          var length, eof;
          ok, length, eof := DecodeVarint32();
          if ok {
            ok := SkipBytes(length);
          }
        case 5 => ok := SkipBytes(4);
        case _ => ok := false;
      }
    }

    /** A stream of its own for the string that follows; closing it moves this one past the string. */
    method MakeStringSubstream() returns (ok: bool, substream: IStream)
      requires Valid()
      modifies this
      ensures ok <==> TakeString(old(Rest())).Some?
      ensures ok ==> fresh(substream) && substream.Valid() && substream.Rest() == TakeString(old(Rest())).value.0
      ensures ok ==> substream.buffer == buffer && substream.state + substream.bytesLeft + bytesLeft <= |buffer|
      ensures ok ==> substream.state + substream.bytesLeft + bytesLeft == old(state + bytesLeft)
      ensures ok ==> buffer[substream.state + substream.bytesLeft..old(state + bytesLeft)] == TakeString(old(Rest())).value.1
      ensures !ok ==> Valid() && state + bytesLeft == old(state + bytesLeft)
    {
      var size, eof;
      substream := this;
      ok, size, eof := DecodeVarint32();
      if !ok {
        return;
      }
      if bytesLeft < size {
        return false, substream;
      }
      substream := new IStream.At(buffer, state, size);
      bytesLeft := bytesLeft - size;
      ok := true;
    }

    method CloseStringSubstream(substream: IStream)
      requires substream.Valid() && substream != this && substream.buffer == buffer
      requires substream.state + substream.bytesLeft + bytesLeft <= |buffer|
      modifies this, substream
      ensures Valid() && state == old(substream.state + substream.bytesLeft) && bytesLeft == old(bytesLeft)
    {
      if substream.bytesLeft > 0 {
        assert |substream.Rest()| == substream.bytesLeft;
        var skipped := substream.SkipBytes(substream.bytesLeft);
        assert skipped && |substream.Rest()| == substream.bytesLeft;
      }
      state := substream.state;
    }
  }

  // ---------- output ----------

  class OStream {
    const sizing: bool
    const maxSize: nat
    var buffer: seq<byte>
    var bytesWritten: nat

    ghost predicate Valid()
      reads this
    {
      !sizing ==> |buffer| == bytesWritten <= maxSize
    }

    constructor (sizing: bool, maxSize: nat)
      ensures Valid() && this.sizing == sizing && this.maxSize == maxSize && bytesWritten == 0 && buffer == []
    {
      this.sizing, this.maxSize := sizing, maxSize;
      buffer, bytesWritten := [], 0;
    }

    /** Whether the bytes can be written. */
    ghost predicate Fits(n: nat)
      reads this
    {
      sizing || bytesWritten + n <= maxSize
    }

    /** The effect of having written b. */
    twostate predicate Wrote(b: seq<byte>)
      reads this
    {
      bytesWritten == old(bytesWritten) + |b| && (!sizing ==> buffer == old(buffer) + b)
    }

    method Write(b: seq<byte>) returns (ok: bool)
      requires Valid()
      modifies this
      ensures Valid() && ok == old(Fits(|b|)) && (ok ==> Wrote(b))
    {
      if !sizing {
        if bytesWritten + |b| > maxSize {
          return false;
        }
        buffer := buffer + b;
      }
      bytesWritten := bytesWritten + |b|;
      ok := true;
    }

    /** What is only counted need not be at hand. */
    method Count(n: nat) returns (ok: bool)
      requires Valid() && sizing
      modifies this
      ensures Valid() && ok && bytesWritten == old(bytesWritten) + n
    {
      bytesWritten := bytesWritten + n;
      ok := true;
    }

    method EncodeVarint(value: nat) returns (ok: bool)
      requires Valid() && value < TWO_64
      modifies this
      ensures Valid() && ok == old(Fits(|Base128(value)|)) && (ok ==> Wrote(Base128(value)))
    {
      if value <= 0x7F {
        ok := Write([value]);
        return;
      }
      var bytes := new byte[10];
      var v: nat, i: nat := value, 0;
      VarintLength(value);
      while v > 0
        invariant Valid() && bytesWritten == old(bytesWritten) && buffer == old(buffer)
        invariant i <= 10 && (v > 0 ==> i + |Base128(v)| <= 10)
        invariant v > 0 ==> Base128(value) == bytes[..i] + Base128(v)
        invariant v == 0 ==> i > 0 && bytes[i - 1] >= 128 && Base128(value) == bytes[..i - 1] + [bytes[i - 1] - 128]
      {
        bytes[i] := v % 128 + 128;
        v := v / 128;
        i := i + 1;
      }
      bytes[i - 1] := bytes[i - 1] - 128;
      assert bytes[..i] == bytes[..i - 1] + [bytes[i - 1]];
      ok := Write(bytes[..i]);
    }
  }
}
