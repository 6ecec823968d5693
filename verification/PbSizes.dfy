/** Which messages have an encoding, how long it is, and so which messages come back from it. */
module PbSizes {
  import opened Keys
  import opened LogFormat
  import opened Coding
  import opened PbStreams
  import opened PbMessages
  import opened PbDecoder
  import opened PbRoundTrip

  // ---------- what fits ----------

  /** Bytes fit in their objects, at every depth of what is sent. */
  predicate ValueFits(lt: LType, size: nat, v: FieldValue)
    requires Typed(lt, size, v)
    decreases lt
  {
    match lt
    case Bytes => |v.bytes| + BYTES_OFFSET <= size
    case Submessage(fs) => StructFits(fs, v.slots)
    case _ => true
  }

  /** And arrays have no more items than there is room for. */
  predicate SlotFits(f: Field, s: Slot)
    requires SlotTyped(f, s)
    decreases f
  {
    match f.rule
    case Required => ValueFits(f.ltype, f.dataSize, s.value)
    case Optional => s.has ==> ValueFits(f.ltype, f.dataSize, s.value)
    case Singular => !IsDefault(f, s) ==> ValueFits(f.ltype, f.dataSize, s.value)
    case Repeated => |s.values| <= f.arraySize && forall v :: v in s.values ==> ValueFits(f.ltype, f.dataSize, v)
    case Oneof(_) => s.chosen.Some? ==> ValueFits(f.ltype, f.dataSize, s.chosen.value)
  }

  predicate StructFits(fs: seq<Field>, slots: seq<Slot>)
    requires StructTyped(fs, slots)
    decreases fs
  {
    forall i :: 0 <= i < |fs| ==> SlotFits(fs[i], slots[i])
  }

  // ---------- sizes ----------

  function VarintSize(n: nat): nat {
    |Base128(n)|
  }

  function PrefixedSize(n: nat): (size: nat)
    ensures size >= n
  {
    VarintSize(n) + n
  }

  function ValueSize(lt: LType, size: nat, v: FieldValue): nat
    requires Typed(lt, size, v)
    decreases lt, 0
  {
    match lt
    case Fixed32 => 4
    case Fixed64 => 8
    case Bytes => PrefixedSize(|v.bytes|)
    case String => PrefixedSize(|v.bytes|)
    case FixedLengthBytes => PrefixedSize(|v.bytes|)
    case Submessage(fs) => PrefixedSize(MessageSize(fs, v.slots))
    case _ => VarintSize(WireNumber(lt, size, v))
  }

  function PackedSize(lt: LType, size: nat, vs: seq<FieldValue>): nat
    requires forall v :: v in vs ==> Typed(lt, size, v)
    decreases lt, 1 + |vs|
  {
    if vs == [] then 0 else ValueSize(lt, size, vs[0]) + PackedSize(lt, size, vs[1..])
  }

  function ItemSize(f: Field, v: FieldValue): nat
    requires Typed(f.ltype, f.dataSize, v)
    decreases f, 0, 0
  {
    |TagBytes(WireType(f.ltype), f.tag)| + ValueSize(f.ltype, f.dataSize, v)
  }

  function ItemsSize(f: Field, vs: seq<FieldValue>): nat
    requires forall v :: v in vs ==> Typed(f.ltype, f.dataSize, v)
    decreases f, 1, |vs|
  {
    if vs == [] then 0 else ItemSize(f, vs[0]) + ItemsSize(f, vs[1..])
  }

  function ArraySize(f: Field, vs: seq<FieldValue>): nat
    requires forall v :: v in vs ==> Typed(f.ltype, f.dataSize, v)
    decreases f, 2, 0
  {
    if vs == [] then 0
    else if Packable(f.ltype) then |TagBytes(WT_STRING, f.tag)| + PrefixedSize(PackedSize(f.ltype, f.dataSize, vs))
    else ItemsSize(f, vs)
  }

  function SlotSize(f: Field, s: Slot): nat
    requires SlotTyped(f, s)
    decreases f, 3, 0
  {
    match f.rule
    case Required => ItemSize(f, s.value)
    case Optional => if s.has then ItemSize(f, s.value) else 0
    case Singular => if IsDefault(f, s) then 0 else ItemSize(f, s.value)
    case Repeated => ArraySize(f, s.values)
    case Oneof(_) => if s.chosen.Some? then ItemSize(f, s.chosen.value) else 0
  }

  function MessageSize(fs: seq<Field>, slots: seq<Slot>): nat
    requires StructTyped(fs, slots)
    decreases fs
  {
    if fs == [] then 0 else SlotSize(fs[0], slots[0]) + MessageSize(fs[1..], slots[1..])
  }

  // ---------- the bytes have that size, and exist when what is sent fits ----------

  /** There are bytes if and only if everything fits; then they are as many as said. */
  ghost predicate Sized(b: Encoding, fits: bool, size: nat) {
    && (b.Some? ==> fits && |b.value| == size)
    && (fits && size < TWO_64 ==> b.Some?)
  }

  predicate TypeWellFormed(lt: LType, size: nat) {
    && (lt.Submessage? ==> WellFormed(lt.fields))
    && (lt.Varint? || lt.UVarint? || lt.SVarint? ==> IntegerSize(size))
  }

  lemma {:induction false} ValueSized(lt: LType, size: nat, v: FieldValue)
    requires Typed(lt, size, v) && TypeWellFormed(lt, size)
    ensures Sized(ValueBytes(lt, size, v), ValueFits(lt, size, v), ValueSize(lt, size, v))
    decreases lt, 0
  {
    hide Base128, EncodeFixed32, EncodeFixed64;
    if lt.Submessage? {
      MessageSized(lt.fields, v.slots);
    }
  }

  lemma {:induction false} PackedSized(lt: LType, size: nat, vs: seq<FieldValue>)
    requires (forall v :: v in vs ==> Typed(lt, size, v)) && TypeWellFormed(lt, size)
    ensures Sized(PackedBytes(lt, size, vs), forall v :: v in vs ==> ValueFits(lt, size, v), PackedSize(lt, size, vs))
    decreases lt, 1 + |vs|
  {
    hide ValueBytes, ValueSize, ValueFits, Typed;
    if vs != [] {
      assert vs == [vs[0]] + vs[1..];
      ValueSized(lt, size, vs[0]);
      PackedSized(lt, size, vs[1..]);
    }
  }

  lemma ItemSized(f: Field, v: FieldValue)
    requires Typed(f.ltype, f.dataSize, v) && FieldWellFormed(f)
    ensures Sized(ItemBytes(f, v), ValueFits(f.ltype, f.dataSize, v), ItemSize(f, v))
    decreases f, 0, 0
  {
    hide ValueBytes, ValueSize, ValueFits, TagBytes;
    ValueSized(f.ltype, f.dataSize, v);
  }

  lemma {:induction false} ItemsSized(f: Field, vs: seq<FieldValue>)
    requires (forall v :: v in vs ==> Typed(f.ltype, f.dataSize, v)) && FieldWellFormed(f)
    ensures Sized(ItemsBytes(f, vs), forall v :: v in vs ==> ValueFits(f.ltype, f.dataSize, v), ItemsSize(f, vs))
    decreases f, 1, |vs|
  {
    hide ItemBytes, ItemSize, ValueFits, Typed, FieldWellFormed;
    if vs != [] {
      assert vs == [vs[0]] + vs[1..];
      ItemSized(f, vs[0]);
      ItemsSized(f, vs[1..]);
    }
  }

  lemma ArraySized(f: Field, vs: seq<FieldValue>)
    requires (forall v :: v in vs ==> Typed(f.ltype, f.dataSize, v)) && FieldWellFormed(f)
    ensures Sized(ArrayBytes(f, vs), |vs| <= f.arraySize && forall v :: v in vs ==> ValueFits(f.ltype, f.dataSize, v), ArraySize(f, vs))
    decreases f, 2, 0
  {
    hide PackedBytes, PackedSize, ItemsBytes, ItemsSize, ValueFits, Typed, Base128;
    if Packable(f.ltype) {
      PackedSized(f.ltype, f.dataSize, vs);
    } else {
      ItemsSized(f, vs);
    }
  }

  lemma SlotSized(f: Field, s: Slot)
    requires SlotTyped(f, s) && FieldWellFormed(f)
    ensures Sized(SlotBytes(f, s), SlotFits(f, s), SlotSize(f, s))
    decreases f, 3, 0
  {
    hide ItemBytes, ItemSize, ArrayBytes, ArraySize, ValueFits, Typed, IsDefault, FieldWellFormed;
    match f.rule {
      case Required => ItemSized(f, s.value);
      case Optional => ItemSized(f, s.value);
      case Singular => ItemSized(f, s.value);
      case Repeated => ArraySized(f, s.values);
      case Oneof(_) => if s.chosen.Some? { ItemSized(f, s.chosen.value); }
    }
  }

  lemma {:induction false} MessageSized(fs: seq<Field>, slots: seq<Slot>)
    requires StructTyped(fs, slots) && forall i :: 0 <= i < |fs| ==> FieldWellFormed(fs[i])
    ensures Sized(MessageBytes(fs, slots), StructFits(fs, slots), MessageSize(fs, slots))
    decreases fs
  {
    hide SlotBytes, SlotSize, SlotFits, SlotTyped, FieldWellFormed;
    if fs != [] {
      SlotSized(fs[0], slots[0]);
      MessageSized(fs[1..], slots[1..]);
      assert StructFits(fs, slots) <==> SlotFits(fs[0], slots[0]) && StructFits(fs[1..], slots[1..]) by {
        forall i | 1 <= i < |fs| ensures SlotFits(fs[i], slots[i]) <==> SlotFits(fs[1..][i - 1], slots[1..][i - 1]) {
        }
      }
    }
  }

  /** A message of fewer than 2^64 bytes can be encoded if and only if what is sent of it fits its
      objects. */
  lemma EncodesIffFits(fs: seq<Field>, slots: seq<Slot>)
    requires WellFormed(fs) && StructTyped(fs, slots) && MessageSize(fs, slots) < TWO_64
    ensures MessageBytes(fs, slots).Some? <==> StructFits(fs, slots)
    ensures MessageBytes(fs, slots).Some? ==> |MessageBytes(fs, slots).value| == MessageSize(fs, slots)
  {
    MessageSized(fs, slots);
    hide MessageBytes, StructFits, MessageSize;
  }

  /** Every conforming message that fits, and takes fewer than 2^32 bytes, is encoded and comes back. */
  lemma FittingMessageReturns(fs: seq<Field>, slots: seq<Slot>)
    requires WellFormed(fs) && StructTyped(fs, slots) && StructConforms(fs, slots)
    requires StructFits(fs, slots) && MessageSize(fs, slots) < TWO_32
    ensures MessageBytes(fs, slots).Some? && Decode(fs, MessageBytes(fs, slots).value) == Some(PresentStruct(fs, slots))
  {
    hide MessageBytes, StructFits, MessageSize, Decode, StructConforms, WellFormed, StructTyped;
    EncodesIffFits(fs, slots);
    MessageRoundTrip(fs, slots);
  }

  // ---------- the format in numbers ----------

  /** The key of a field is its tag times eight plus 0 for varints, 1 for 64 bits, 5 for 32 bits, and 2 for
      what has a length before it. */
  lemma KeysInNumbers(tag: Tag, fs: seq<Field>)
    ensures TagBytes(WireType(Varint), tag) == TagBytes(WireType(UVarint), tag) == TagBytes(WireType(SVarint), tag) == Base128(tag * 8)
    ensures TagBytes(WireType(Fixed64), tag) == Base128(tag * 8 + 1)
    ensures TagBytes(WireType(Bytes), tag) == TagBytes(WireType(String), tag) == TagBytes(WireType(FixedLengthBytes), tag) == Base128(tag * 8 + 2)
    ensures TagBytes(WireType(Submessage(fs)), tag) == Base128(tag * 8 + 2)
    ensures TagBytes(WireType(Fixed32), tag) == Base128(tag * 8 + 5)
  {
  }

  function PlainField(tag: Tag, lt: LType, size: nat, rule: Rule, room: nat): Field {
    Field(tag, lt, rule, size, room, Number(0), 0, 0)
  }

  lemma SmallVarints()
    ensures Base128(3) == [3] && Base128(6) == [6] && Base128(7) == [7] && Base128(8) == [8]
    ensures Base128(18) == [0x12] && Base128(34) == [0x22] && Base128(150) == [0x96, 1]
    ensures Base128(270) == [0x8E, 2] && Base128(86942) == [0x9E, 0xA7, 5]
  {
    assert Base128(1) == [1] && Base128(2) == [2] && Base128(5) == [5];
    assert Base128(679) == [0xA7] + Base128(5);
  }

  /** Three messages of the Encoding specification: the number 150 as field 1 (section "A Simple Message"), the
      string "testing" as field 2 ("Strings"), the numbers 3, 270 and 86942 packed as field 4 ("Packed
      Repeated Fields"). */
  lemma SpecifiedBytes()
    ensures SlotBytes(PlainField(1, Varint, 4, Required, 0), One(Number(150))) == Some([0x08, 0x96, 0x01])
    ensures SlotBytes(PlainField(2, String, 8, Required, 0), One(Blob([0x74, 0x65, 0x73, 0x74, 0x69, 0x6E, 0x67])))
         == Some([0x12, 0x07, 0x74, 0x65, 0x73, 0x74, 0x69, 0x6E, 0x67])
    ensures SlotBytes(PlainField(4, Varint, 4, Repeated, 3), Many([Number(3), Number(270), Number(86942)]))
         == Some([0x22, 0x06, 0x03, 0x8E, 0x02, 0x9E, 0xA7, 0x05])
  {
    hide SlotBytes;
    SpecifiedNumber();
    SpecifiedString([0x74, 0x65, 0x73, 0x74, 0x69, 0x6E, 0x67]);
    assert [0x12, 0x07] + [0x74, 0x65, 0x73, 0x74, 0x69, 0x6E, 0x67] == [0x12, 0x07, 0x74, 0x65, 0x73, 0x74, 0x69, 0x6E, 0x67];
    SpecifiedPacked();
  }

  lemma SpecifiedNumber()
    ensures SlotTyped(PlainField(1, Varint, 4, Required, 0), One(Number(150)))
    ensures SlotBytes(PlainField(1, Varint, 4, Required, 0), One(Number(150))) == Some([0x08, 0x96, 0x01])
  {
    SmallVarints();
    SmallValue(150);
    hide Base128, ValueBytes;
    assert Base128(8) + Base128(150) == [0x08, 0x96, 0x01];
  }

  lemma SpecifiedString(text: seq<byte>)
    requires |text| == 7 && 0 !in text
    ensures SlotTyped(PlainField(2, String, 8, Required, 0), One(Blob(text)))
    ensures SlotBytes(PlainField(2, String, 8, Required, 0), One(Blob(text))) == Some([0x12, 0x07] + text)
  {
    SmallVarints();
    StringBytes(text);
    hide Base128, ValueBytes;
    assert Base128(18) + (Base128(7) + text) == [0x12, 0x07] + text;
  }

  lemma SpecifiedPacked()
    ensures SlotTyped(PlainField(4, Varint, 4, Repeated, 3), Many([Number(3), Number(270), Number(86942)]))
    ensures SlotBytes(PlainField(4, Varint, 4, Repeated, 3), Many([Number(3), Number(270), Number(86942)]))
         == Some([0x22, 0x06, 0x03, 0x8E, 0x02, 0x9E, 0xA7, 0x05])
  {
    SmallVarints();
    PackedNumbers();
    hide Base128, ValueBytes, PackedBytes;
    assert Base128(34) + (Base128(6) + [3, 0x8E, 2, 0x9E, 0xA7, 5]) == [0x22, 0x06, 0x03, 0x8E, 0x02, 0x9E, 0xA7, 0x05];
  }

  lemma PackedNumbers()
    ensures var vs := [Number(3), Number(270), Number(86942)];
      (forall v :: v in vs ==> Typed(Varint, 4, v)) && PackedBytes(Varint, 4, vs) == Some([3, 0x8E, 2, 0x9E, 0xA7, 5])
  {
    SmallVarints();
    SmallValue(3);
    SmallValue(270);
    SmallValue(86942);
    hide Base128, ValueBytes;
    var a, b, c := Number(3), Number(270), Number(86942);
    var vs := [a, b, c];
    assert vs[1..] == [b, c] && [b, c][1..] == [c] && [c][1..] == [];
    assert [0x9E, 0xA7, 5] + [] == [0x9E, 0xA7, 5];
    assert PackedBytes(Varint, 4, [c]) == Some([0x9E, 0xA7, 5]);
    assert [0x8E, 2] + [0x9E, 0xA7, 5] == [0x8E, 2, 0x9E, 0xA7, 5];
    assert PackedBytes(Varint, 4, [b, c]) == Some([0x8E, 2, 0x9E, 0xA7, 5]);
    assert [3] + [0x8E, 2, 0x9E, 0xA7, 5] == [3, 0x8E, 2, 0x9E, 0xA7, 5];
  }

  lemma SmallValue(n: nat)
    requires n < 0x8000_0000
    ensures Typed(Varint, 4, Number(n)) && ValueBytes(Varint, 4, Number(n)) == Some(Base128(n))
  {
  }

  lemma StringBytes(b: seq<byte>)
    requires |b| < 8 && 0 !in b
    ensures Typed(String, 8, Blob(b)) && ValueBytes(String, 8, Blob(b)) == Some(Base128(|b|) + b)
  {
  }
}
