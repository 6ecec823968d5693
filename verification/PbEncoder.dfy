/** nanopb's encoder. Every method writes exactly the bytes that the descriptor and the message
    determine, or fails; and it fails only if there are none or they do not fit. */
module PbEncoder {
  import opened Keys
  import opened LogFormat
  import opened Coding
  import opened PbStreams
  import opened PbMessages

  lemma CatStep(done: seq<byte>, b: seq<byte>, rest: Encoding)
    ensures Cat(Some(done), Cat(Some(b), rest)) == Cat(Some(done + b), rest)
  {
    if rest.Some? {
      assert done + (b + rest.value) == done + b + rest.value;
    }
  }

  lemma CatEmpty(b: Encoding)
    ensures Cat(Some([]), b) == b
  {
    if b.Some? {
      assert [] + b.value == b.value;
    }
  }

  method EncodeTag(stream: OStream, wireType: nat, tag: Tag) returns (ok: bool)
    requires stream.Valid() && wireType < 8
    modifies stream
    ensures stream.Valid() && ok == old(stream.Fits(|TagBytes(wireType, tag)|))
    ensures ok ==> stream.Wrote(TagBytes(wireType, tag))
  {
    ok := stream.EncodeVarint(tag * 8 + wireType);
  }

  method EncodeString(stream: OStream, bytes: seq<byte>) returns (ok: bool)
    requires stream.Valid()
    modifies stream
    ensures stream.Valid() && ok == (Prefixed(Some(bytes)).Some? && old(stream.Fits(|Prefixed(Some(bytes)).value|)))
    ensures ok ==> stream.Wrote(Prefixed(Some(bytes)).value)
  {
    if |bytes| >= TWO_64 {
      return false;
    }
    ok := stream.EncodeVarint(|bytes|);
    if ok {
      ok := stream.Write(bytes);
    }
  }

  /** The encoder of the field's type. */
  method EncodeValue(stream: OStream, lt: LType, size: nat, v: FieldValue) returns (ok: bool)
    requires stream.Valid() && Typed(lt, size, v)
    modifies stream
    ensures stream.Valid() && ok == (ValueBytes(lt, size, v).Some? && old(stream.Fits(|ValueBytes(lt, size, v).value|)))
    ensures ok ==> stream.Wrote(ValueBytes(lt, size, v).value)
    decreases lt, 0, 0
  {
    hide Base128;
    match lt {
      case Fixed32 => ok := stream.Write(EncodeFixed32(v.n));
      case Fixed64 => ok := stream.Write(EncodeFixed64(v.n));
      case Bytes =>
        if |v.bytes| + BYTES_OFFSET > size {
          return false;
        }
        ok := EncodeString(stream, v.bytes);
      case String => ok := EncodeString(stream, v.bytes);
      case FixedLengthBytes => ok := EncodeString(stream, v.bytes);
      case Submessage(fs) => ok := EncodeSubmessage(stream, fs, v.slots);
      case _ =>
        if size != 1 && size != 2 && size != 4 && size != 8 {
          return false;
        }
        ok := stream.EncodeVarint(WireNumber(lt, size, v));
    }
  }

  /** The size is found by encoding without writing; the second pass has room for just that size. */
  method EncodeSubmessage(stream: OStream, fs: seq<Field>, slots: seq<Slot>) returns (ok: bool)
    requires stream.Valid() && StructTyped(fs, slots)
    modifies stream
    ensures stream.Valid()
    ensures var b := Prefixed(MessageBytes(fs, slots)); ok == (b.Some? && old(stream.Fits(|b.value|)))
    ensures ok ==> stream.Wrote(Prefixed(MessageBytes(fs, slots)).value)
    decreases fs, 1
  {
    hide MessageBytes, StructTyped, Base128;
    var substream := new OStream(true, 0);
    ok := Encode(substream, fs, slots);
    if !ok {
      return;
    }
    var size := substream.bytesWritten;
    if size >= TWO_64 {
      return false;
    }
    ok := stream.EncodeVarint(size);
    if !ok {
      return;
    }
    if stream.sizing {
      ok := stream.Count(size);
      return;
    }
    if stream.bytesWritten + size > stream.maxSize {
      return false;
    }
    substream := new OStream(false, size);
    ok := Encode(substream, fs, slots);
    stream.bytesWritten := stream.bytesWritten + substream.bytesWritten;
    stream.buffer := stream.buffer + substream.buffer;
    if substream.bytesWritten != size {
      // "submsg size changed"
      assert false;
    }
  }

  /** A packed array's size: known for fixed sizes, else counted. */
  method PackedSize(lt: LType, size: nat, vs: seq<FieldValue>) returns (ok: bool, bytes: nat)
    requires forall v :: v in vs ==> Typed(lt, size, v)
    requires Packable(lt)
    ensures ok == PackedBytes(lt, size, vs).Some?
    ensures ok ==> bytes == |PackedBytes(lt, size, vs).value|
    decreases lt, 1
  {
    ok := true;
    if lt.Fixed32? {
      FixedPacked(lt, size, vs);
      bytes := 4 * |vs|;
    } else if lt.Fixed64? {
      FixedPacked(lt, size, vs);
      bytes := 8 * |vs|;
    } else {
      var sizestream := new OStream(true, 0);
      ok := EncodeItems(sizestream, lt, size, vs);
      bytes := sizestream.bytesWritten;
    }
  }

  lemma {:induction false} FixedPacked(lt: LType, size: nat, vs: seq<FieldValue>)
    requires (lt.Fixed32? || lt.Fixed64?) && forall v :: v in vs ==> Typed(lt, size, v)
    ensures PackedBytes(lt, size, vs).Some? && |PackedBytes(lt, size, vs).value| == (if lt.Fixed32? then 4 else 8) * |vs|
    decreases |vs|
  {
    if vs != [] {
      FixedPacked(lt, size, vs[1..]);
    }
  }

  method EncodeItems(stream: OStream, lt: LType, size: nat, vs: seq<FieldValue>) returns (ok: bool)
    requires stream.Valid() && forall v :: v in vs ==> Typed(lt, size, v)
    modifies stream
    ensures stream.Valid() && ok == (PackedBytes(lt, size, vs).Some? && old(stream.Fits(|PackedBytes(lt, size, vs).value|)))
    ensures ok ==> stream.Wrote(PackedBytes(lt, size, vs).value)
    decreases lt, 0, 1
  {
    hide ValueBytes, Typed;
    ghost var done: seq<byte> := [];
    ok := true;
    assert vs[0..] == vs;
    CatEmpty(PackedBytes(lt, size, vs));
    for i := 0 to |vs|
      invariant stream.Valid() && ok
      invariant PackedBytes(lt, size, vs) == Cat(Some(done), PackedBytes(lt, size, vs[i..]))
      invariant old(stream.Fits(|done|)) && stream.Wrote(done)
    {
      assert vs[i..][0] == vs[i] && vs[i..][1..] == vs[i + 1..];
      ok := EncodeValue(stream, lt, size, vs[i]);
      if !ok {
        return;
      }
      CatStep(done, ValueBytes(lt, size, vs[i]).value, PackedBytes(lt, size, vs[i + 1..]));
      done := done + ValueBytes(lt, size, vs[i]).value;
    }
  }

  method EncodeArray(stream: OStream, f: Field, vs: seq<FieldValue>) returns (ok: bool)
    requires stream.Valid() && forall v :: v in vs ==> Typed(f.ltype, f.dataSize, v)
    modifies stream
    ensures stream.Valid() && ok == (ArrayBytes(f, vs).Some? && old(stream.Fits(|ArrayBytes(f, vs).value|)))
    ensures ok ==> stream.Wrote(ArrayBytes(f, vs).value)
    decreases f, 1
  {
    hide ValueBytes, Typed, Base128, PackedBytes;
    if |vs| == 0 {
      return true;
    }
    if |vs| > f.arraySize {
      return false;
    }
    if Packable(f.ltype) {
      ok := EncodeTag(stream, WT_STRING, f.tag);
      if !ok {
        return;
      }
      var size;
      ok, size := PackedSize(f.ltype, f.dataSize, vs);
      if !ok || size >= TWO_64 {
        return false;
      }
      ok := stream.EncodeVarint(size);
      if !ok {
        return;
      }
      if stream.sizing {
        ok := stream.Count(size);
        return;
      }
      ok := EncodeItems(stream, f.ltype, f.dataSize, vs);
    } else {
      ok := EncodeUnpacked(stream, f, vs);
    }
  }

  method EncodeUnpacked(stream: OStream, f: Field, vs: seq<FieldValue>) returns (ok: bool)
    requires stream.Valid() && forall v :: v in vs ==> Typed(f.ltype, f.dataSize, v)
    modifies stream
    ensures stream.Valid() && ok == (ItemsBytes(f, vs).Some? && old(stream.Fits(|ItemsBytes(f, vs).value|)))
    ensures ok ==> stream.Wrote(ItemsBytes(f, vs).value)
    decreases f, 0, 1
  {
    hide ItemBytes, Typed;
    ghost var done: seq<byte> := [];
    ok := true;
    assert vs[0..] == vs;
    CatEmpty(ItemsBytes(f, vs));
    for i := 0 to |vs|
      invariant stream.Valid() && ok
      invariant ItemsBytes(f, vs) == Cat(Some(done), ItemsBytes(f, vs[i..]))
      invariant old(stream.Fits(|done|)) && stream.Wrote(done)
    {
      assert vs[i..][0] == vs[i] && vs[i..][1..] == vs[i + 1..];
      ok := EncodeItem(stream, f, vs[i]);
      if !ok {
        return;
      }
      CatStep(done, ItemBytes(f, vs[i]).value, ItemsBytes(f, vs[i + 1..]));
      done := done + ItemBytes(f, vs[i]).value;
    }
  }

  method EncodeItem(stream: OStream, f: Field, v: FieldValue) returns (ok: bool)
    requires stream.Valid() && Typed(f.ltype, f.dataSize, v)
    modifies stream
    ensures stream.Valid() && ok == (ItemBytes(f, v).Some? && old(stream.Fits(|ItemBytes(f, v).value|)))
    ensures ok ==> stream.Wrote(ItemBytes(f, v).value)
    decreases f, 0, 0
  {
    hide ValueBytes, Typed, Base128;
    ok := EncodeTag(stream, WireType(f.ltype), f.tag);
    if ok {
      ok := EncodeValue(stream, f.ltype, f.dataSize, v);
    }
  }

  method EncodeBasicField(stream: OStream, f: Field, s: Slot) returns (ok: bool)
    requires stream.Valid() && SlotTyped(f, s)
    modifies stream
    ensures stream.Valid() && ok == (SlotBytes(f, s).Some? && old(stream.Fits(|SlotBytes(f, s).value|)))
    ensures ok ==> stream.Wrote(SlotBytes(f, s).value)
    decreases f, 2
  {
    hide ItemBytes, ArrayBytes, Typed;
    ok := true;
    match f.rule {
      case Required => ok := EncodeItem(stream, f, s.value);
      case Optional =>
        if s.has {
          ok := EncodeItem(stream, f, s.value);
        }
      case Singular =>
        if !IsDefault(f, s) {
          ok := EncodeItem(stream, f, s.value);
        }
      case Repeated => ok := EncodeArray(stream, f, s.values);
      case Oneof(_) =>
        if s.chosen.Some? {
          ok := EncodeItem(stream, f, s.chosen.value);
        }
    }
  }

  /** pb_encode: field after field. */
  method Encode(stream: OStream, fs: seq<Field>, slots: seq<Slot>) returns (ok: bool)
    requires stream.Valid() && StructTyped(fs, slots)
    modifies stream
    ensures stream.Valid() && ok == (MessageBytes(fs, slots).Some? && old(stream.Fits(|MessageBytes(fs, slots).value|)))
    ensures ok ==> stream.Wrote(MessageBytes(fs, slots).value)
    decreases fs, 0
  {
    hide SlotBytes, SlotTyped;
    ghost var done: seq<byte> := [];
    ok := true;
    assert fs[0..] == fs && slots[0..] == slots;
    CatEmpty(MessageBytes(fs, slots));
    for i := 0 to |fs|
      invariant stream.Valid() && ok
      invariant MessageBytes(fs, slots) == Cat(Some(done), MessageBytes(fs[i..], slots[i..]))
      invariant old(stream.Fits(|done|)) && stream.Wrote(done)
    {
      assert fs[i..][0] == fs[i] && fs[i..][1..] == fs[i + 1..] && slots[i..][0] == slots[i] && slots[i..][1..] == slots[i + 1..];
      ok := EncodeBasicField(stream, fs[i], slots[i]);
      if !ok {
        return;
      }
      CatStep(done, SlotBytes(fs[i], slots[i]).value, MessageBytes(fs[i + 1..], slots[i + 1..]));
      done := done + SlotBytes(fs[i], slots[i]).value;
    }
  }

  /** pb_get_encoded_size. */
  method GetEncodedSize(fs: seq<Field>, slots: seq<Slot>) returns (ok: bool, size: nat)
    requires StructTyped(fs, slots)
    ensures ok == MessageBytes(fs, slots).Some?
    ensures ok ==> size == |MessageBytes(fs, slots).value|
  {
    hide StructTyped, MessageBytes;
    var stream := new OStream(true, 0);
    ok := Encode(stream, fs, slots);
    size := stream.bytesWritten;
  }

  /** The size that is counted beforehand is exact: a buffer is large enough if and only if it has that
      size, and then it is filled. */
  method EncodeToBuffer(fs: seq<Field>, slots: seq<Slot>, capacity: nat) returns (counted: bool, size: nat, ok: bool, written: seq<byte>)
    requires StructTyped(fs, slots)
    ensures ok == (counted && size <= capacity)
    ensures ok ==> |written| == size && MessageBytes(fs, slots) == Some(written)
    ensures counted == MessageBytes(fs, slots).Some?
  {
    hide StructTyped, MessageBytes;
    counted, size := GetEncodedSize(fs, slots);
    var stream := new OStream(false, capacity);
    ok := Encode(stream, fs, slots);
    written := stream.buffer;
    if ok {
      CatEmpty(MessageBytes(fs, slots));
      assert written == MessageBytes(fs, slots).value;
    }
  }
}
