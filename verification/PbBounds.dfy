/** nanopb's decoder stays inside the struct: whatever bytes it is given, what it stores has room in the
    objects, arrays and unions of the message, and what has no room is refused. */
module PbBounds {
  import opened Keys
  import opened LogFormat
  import opened Coding
  import opened PbVarints
  import opened PbStreams
  import opened PbMessages
  import opened PbDecoder
  import opened PbRoundTrip
  import opened PbSizes

  // ---------- room ----------

  /** A value has room in its object: bytes behind their size, a string with its zero. */
  predicate ValueHeld(lt: LType, size: nat, v: FieldValue)
    requires Typed(lt, size, v)
    decreases lt
  {
    match lt
    case Bytes => |v.bytes| + BYTES_OFFSET <= size
    case String => |v.bytes| + 1 <= size
    case Submessage(fs) => StructHeld(fs, v.slots)
    case _ => true
  }

  /** So do all values of a field, whether or not they count as present, and the items of an array. */
  predicate SlotHeld(f: Field, s: Slot)
    requires SlotTyped(f, s)
    decreases f
  {
    match f.rule
    case Required => ValueHeld(f.ltype, f.dataSize, s.value)
    case Singular => ValueHeld(f.ltype, f.dataSize, s.value)
    case Optional => ValueHeld(f.ltype, f.dataSize, s.value)
    case Repeated => |s.values| <= f.arraySize && forall v :: v in s.values ==> ValueHeld(f.ltype, f.dataSize, v)
    case Oneof(_) => s.chosen.Some? ==> ValueHeld(f.ltype, f.dataSize, s.chosen.value)
  }

  /** And of the fields of a union, which share their storage, at most one is there. */
  predicate StructHeld(fs: seq<Field>, slots: seq<Slot>)
    requires StructTyped(fs, slots)
    decreases fs
  {
    OneOfEach(fs, slots) && forall i :: 0 <= i < |fs| ==> SlotHeld(fs[i], slots[i])
  }

  /** The initial values of a descriptor have room, at every depth. */
  predicate InitialsHeld(fs: seq<Field>)
    requires WellFormed(fs)
    decreases fs
  {
    forall i :: 0 <= i < |fs| ==> InitialHeld(fs[i])
  }

  predicate InitialHeld(f: Field)
    requires FieldWellFormed(f)
    decreases f
  {
    if f.ltype.Submessage? then InitialsHeld(f.ltype.fields) else ValueHeld(f.ltype, f.dataSize, f.initial)
  }

  // ---------- defaults ----------

  lemma DefaultValueHeld(f: Field)
    requires FieldWellFormed(f) && InitialHeld(f)
    ensures ValueHeld(f.ltype, f.dataSize, DefaultValue(f))
    decreases f, 0
  {
    if f.ltype.Submessage? {
      DefaultsHeld(f.ltype.fields);
    }
  }

  lemma DefaultSlotHeld(f: Field)
    requires FieldWellFormed(f) && InitialHeld(f)
    ensures SlotHeld(f, DefaultSlot(f))
    decreases f, 1
  {
    DefaultValueHeld(f);
    hide FieldWellFormed, InitialHeld, ValueHeld, Typed;
  }

  lemma DefaultsHeld(fs: seq<Field>)
    requires WellFormed(fs) && InitialsHeld(fs)
    ensures StructHeld(fs, Defaults(fs))
    decreases fs
  {
    hide FieldWellFormed, InitialHeld, SlotHeld;
    forall i | 0 <= i < |fs| ensures SlotHeld(fs[i], Defaults(fs)[i]) {
      DefaultSlotHeld(fs[i]);
    }
  }

  // ---------- decoding ----------

  predicate TargetHeld(lt: LType, into: FieldValue)
    requires Target(lt, into)
  {
    lt.Submessage? ==> InitialsHeld(lt.fields) && StructHeld(lt.fields, into.slots)
  }

  lemma ValueStaysHeld(lt: LType, size: nat, s: seq<byte>, into: FieldValue)
    requires Target(lt, into) && TargetHeld(lt, into)
    ensures var r := DecodeValue(lt, size, s, into); r.Some? ==> ValueHeld(lt, size, r.value.0)
    decreases lt, 0
  {
    hide DecodeFields, WellFormed, StructTyped, StructHeld, InitialsHeld, DecodeVarint32;
    if lt.Submessage? {
      var sub := TakeString(s);
      if sub.Some? {
        FieldsStayHeld(lt.fields, sub.value.0, into.slots, {});
      }
    }
  }

  lemma {:induction false} PackedStaysHeld(lt: LType, size: nat, s: seq<byte>, vs: seq<FieldValue>, room: nat)
    requires Packable(lt) && (forall v :: v in vs ==> Typed(lt, size, v)) && |vs| <= room
    ensures var r := DecodePacked(lt, size, s, vs, room); r.Some? ==> |r.value| <= room
    decreases |s|
  {
    hide DecodeValue, Typed;
    if s != [] && |vs| < room {
      var v := DecodeValue(lt, size, s, Number(0));
      if v.Some? {
        PackedStaysHeld(lt, size, v.value.1, vs + [v.value.0], room);
      }
    }
  }

  lemma OverStaysHeld(f: Field, s: seq<byte>, v: FieldValue)
    requires FieldWellFormed(f) && InitialHeld(f) && Typed(f.ltype, f.dataSize, v) && ValueHeld(f.ltype, f.dataSize, v)
    ensures var r := DecodeOver(f, s, v); r.Some? ==> ValueHeld(f.ltype, f.dataSize, r.value.0)
    decreases f, 1
  {
    ValueStaysHeld(f.ltype, f.dataSize, s, v);
  }

  lemma SlotStaysHeld(f: Field, wireType: nat, s: seq<byte>, slot: Slot)
    requires FieldWellFormed(f) && InitialHeld(f) && SlotTyped(f, slot) && SlotHeld(f, slot)
    ensures var r := DecodeSlot(f, wireType, s, slot); r.Some? ==> SlotHeld(f, r.value.0)
    decreases f, 2
  {
    DefaultValueHeld(f);
    hide FieldWellFormed, InitialHeld, DecodeOver, DecodePacked, TakeString, DefaultValue;
    if f.rule.Repeated? {
      if wireType == WT_STRING && Packable(f.ltype) {
        var sub := TakeString(s);
        if sub.Some? {
          PackedStaysHeld(f.ltype, f.dataSize, sub.value.0, slot.values, f.arraySize);
        }
      } else {
        OverStaysHeld(f, s, DefaultValue(f));
      }
    } else {
      hide Typed, ValueHeld;
      OverStaysHeld(f, s, if f.rule.Oneof? then DefaultValue(f) else slot.value);
    }
  }

  lemma StoreStaysHeld(fs: seq<Field>, slots: seq<Slot>, i: nat, slot: Slot)
    requires StructTyped(fs, slots) && i < |fs| && SlotTyped(fs[i], slot) && StructHeld(fs, slots) && SlotHeld(fs[i], slot)
    ensures StructHeld(fs, Store(fs, slots, i, slot))
  {
    var r := Store(fs, slots, i, slot);
    forall j | 0 <= j < |fs| ensures SlotHeld(fs[j], r[j]) {
    }
  }

  lemma FieldsStayHeld(fs: seq<Field>, s: seq<byte>, slots: seq<Slot>, seen: set<nat>)
    requires WellFormed(fs) && InitialsHeld(fs) && StructTyped(fs, slots) && StructHeld(fs, slots)
    ensures var r := DecodeFields(fs, s, slots, seen); r.Some? ==> StructHeld(fs, r.value)
    decreases fs, |s|
  {
    hide DecodeSlot, Store, SlotHeld, StructHeld, FieldWellFormed, InitialHeld, SlotTyped, AllRequired, DecodeTag, EndsEarly, AfterField, Find;
    if s != [] && !EndsEarly(s) && DecodeTag(s).Some? {
      var ((tag, wireType), rest) := DecodeTag(s).value;
      var i := Find(fs, tag);
      if i == |fs| {
        var after := AfterField(rest, wireType);
        if after.Some? && !(fs == [] && tag == 0) {
          FieldsStayHeld(fs, after.value, slots, seen);
        }
      } else {
        HeldAt(fs, slots, i);
        SlotStaysHeld(fs[i], wireType, rest, slots[i]);
        var slot := DecodeSlot(fs[i], wireType, rest, slots[i]);
        if slot.Some? {
          StoreStaysHeld(fs, slots, i, slot.value.0);
          FieldsStayHeld(fs, slot.value.1, Store(fs, slots, i, slot.value.0), seen + {i});
        }
      }
    }
  }

  lemma HeldAt(fs: seq<Field>, slots: seq<Slot>, i: nat)
    requires StructTyped(fs, slots) && StructHeld(fs, slots) && i < |fs|
    ensures SlotTyped(fs[i], slots[i]) && SlotHeld(fs[i], slots[i])
  {
  }

  /** For every input: what is decoded has room in its struct, at every depth. */
  lemma DecodedIsHeld(fs: seq<Field>, s: seq<byte>)
    requires WellFormed(fs) && InitialsHeld(fs) && Decode(fs, s).Some?
    ensures StructHeld(fs, Decode(fs, s).value)
  {
    DefaultsHeld(fs);
    FieldsStayHeld(fs, s, Defaults(fs), {});
  }

  // ---------- what is decoded can be sent on ----------

  lemma ValueHeldFits(lt: LType, size: nat, v: FieldValue)
    requires Typed(lt, size, v) && ValueHeld(lt, size, v)
    ensures ValueFits(lt, size, v) && Conforms(lt, size, v)
    decreases lt
  {
    if lt.Submessage? {
      StructHeldFits(lt.fields, v.slots);
    }
  }

  lemma SlotHeldFits(f: Field, s: Slot)
    requires SlotTyped(f, s) && SlotHeld(f, s)
    ensures SlotFits(f, s) && SlotConforms(f, s)
    decreases f
  {
    hide Typed, ValueHeld, ValueFits, Conforms, IsDefault;
    match f.rule {
      case Repeated =>
        forall v | v in s.values ensures ValueFits(f.ltype, f.dataSize, v) && Conforms(f.ltype, f.dataSize, v) {
          ValueHeldFits(f.ltype, f.dataSize, v);
        }
      case Oneof(_) =>
        if s.chosen.Some? {
          ValueHeldFits(f.ltype, f.dataSize, s.chosen.value);
        }
      case _ => ValueHeldFits(f.ltype, f.dataSize, s.value);
    }
  }

  lemma StructHeldFits(fs: seq<Field>, slots: seq<Slot>)
    requires StructTyped(fs, slots) && StructHeld(fs, slots)
    ensures StructFits(fs, slots) && StructConforms(fs, slots)
    decreases fs
  {
    hide SlotHeld, SlotFits, SlotConforms, SlotTyped;
    forall i | 0 <= i < |fs| ensures SlotFits(fs[i], slots[i]) && SlotConforms(fs[i], slots[i]) {
      HeldAt(fs, slots, i);
      SlotHeldFits(fs[i], slots[i]);
    }
  }

  /** Whatever bytes a message was decoded from: it can be encoded, and comes back from its encoding. */
  lemma DecodedIsSentOn(fs: seq<Field>, s: seq<byte>)
    requires WellFormed(fs) && InitialsHeld(fs) && Decode(fs, s).Some?
    requires MessageSize(fs, Decode(fs, s).value) < TWO_32
    ensures var m := Decode(fs, s).value;
      MessageBytes(fs, m).Some? && Decode(fs, MessageBytes(fs, m).value) == Some(PresentStruct(fs, m))
  {
    hide WellFormed, InitialsHeld, StructHeld, StructFits, StructConforms, MessageSize, MessageBytes, PresentStruct;
    DecodedIsHeld(fs, s);
    hide Decode;
    StructHeldFits(fs, Decode(fs, s).value);
    FittingMessageReturns(fs, Decode(fs, s).value);
  }

  // ---------- exactly what has no room is refused ----------

  /** Bytes are taken if and only if they have room behind their size. */
  lemma BytesTakenIff(size: nat, b: seq<byte>, rest: seq<byte>)
    requires |b| < TWO_32
    ensures DecodeBytes(size, Base128(|b|) + b + rest) == if |b| + 4 <= size then Some((Blob(b), rest)) else None
  {
    hide Base128, DecodeVarint32, TakeBytes;
    TakePrefixed(b, rest);
  }

  /** A string is taken, up to its first zero, if and only if there is room for one more byte. */
  lemma StringTakenIff(size: nat, b: seq<byte>, rest: seq<byte>)
    requires |b| < TWO_32
    ensures DecodeString(size, Base128(|b|) + b + rest) == if |b| < size then Some((Blob(UpToNul(b)), rest)) else None
  {
    hide Base128, DecodeVarint32, TakeBytes;
    TakePrefixed(b, rest);
  }

  /** A field of fixed length takes just that many bytes, or none at all for zeros. */
  lemma FixedLengthTakenIff(size: nat, b: seq<byte>, rest: seq<byte>)
    requires |b| < TWO_32
    ensures DecodeFixedLength(size, Base128(|b|) + b + rest) ==
      if b == [] then Some((Blob(ZeroBytes(size)), rest)) else if |b| == size then Some((Blob(b), rest)) else None
  {
    hide Base128, DecodeVarint32;
    TakePrefixed(b, rest);
  }

  /** All items of a packed array, were there room without end. */
  function PackedItems(lt: LType, size: nat, s: seq<byte>): (r: Option<seq<FieldValue>>)
    requires Packable(lt)
    decreases |s|
  {
    if s == [] then Some([])
    else
      var v := DecodeValue(lt, size, s, Number(0));
      if v.None? then None
      else
        var more := PackedItems(lt, size, v.value.1);
        if more.None? then None else Some([v.value.0] + more.value)
  }

  /** Packed items are taken if and only if all of them have room beside those that are there. */
  lemma {:induction false} PackedTakenIff(lt: LType, size: nat, s: seq<byte>, vs: seq<FieldValue>, room: nat)
    requires Packable(lt) && (forall v :: v in vs ==> Typed(lt, size, v)) && |vs| <= room
    ensures DecodePacked(lt, size, s, vs, room) ==
      var items := PackedItems(lt, size, s);
      if items.Some? && |vs| + |items.value| <= room then Some(vs + items.value) else None
    decreases |s|
  {
    hide DecodeValue, Typed;
    if s == [] {
      assert vs + [] == vs;
    } else {
      var v := DecodeValue(lt, size, s, Number(0));
      if v.Some? && |vs| < room {
        PackedTakenIff(lt, size, v.value.1, vs + [v.value.0], room);
        var more := PackedItems(lt, size, v.value.1);
        if more.Some? {
          assert vs + [v.value.0] + more.value == vs + ([v.value.0] + more.value);
        }
      }
    }
  }

  /** An item that is sent by itself is taken if and only if the array has room for one more. */
  lemma ItemTakenIff(f: Field, v: FieldValue, vs: seq<FieldValue>, rest: seq<byte>)
    requires FieldWellFormed(f) && f.rule.Repeated? && (forall w :: w in vs ==> Typed(f.ltype, f.dataSize, w))
    requires Typed(f.ltype, f.dataSize, v) && Conforms(f.ltype, f.dataSize, v)
    requires ValueBytes(f.ltype, f.dataSize, v).Some? && |ValueBytes(f.ltype, f.dataSize, v).value| < TWO_32
    ensures DecodeSlot(f, WireType(f.ltype), ValueBytes(f.ltype, f.dataSize, v).value + rest, Many(vs)) ==
      if |vs| < f.arraySize then Some((Many(vs + [Present(f.ltype, f.dataSize, v)]), rest)) else None
  {
    ValueRoundTrip(f.ltype, f.dataSize, v, rest, DefaultValue(f));
    hide Typed, ValueBytes, DecodeValue, Present, Conforms, DecodePacked, WellFormed;
  }

  /** An integer is taken if and only if it fits its object: an unsigned one as it is, a zigzag one by what it
      stands for, a signed one by its lowest 64 bits, or by its lowest 32 where the object is smaller. */
  lemma IntegerTakenIff(lt: LType, size: nat, v: nat, n: int)
    requires (lt.Varint? || lt.UVarint? || lt.SVarint?) && IntegerSize(size) && v < TWO_64
    ensures IntegerField(lt, size, v) == Some(Number(n)) <==>
      && Typed(lt, size, Number(n))
      && match lt
         case UVarint => n == v
         case SVarint => -(TWO_63 as int) <= n < TWO_63 && ZigZag(n) == v
         case _ => if size == 8 then n == v || n == v - TWO_64 else n % TWO_32 == v % TWO_32
  {
    if lt.SVarint? {
      UnZigZagInverts(v);
      if -(TWO_63 as int) <= n < TWO_63 && ZigZag(n) == v {
        ZigZagInverts(n);
      }
    } else if lt.Varint? && size != 8 && -(TWO_31 as int) <= n < TWO_31 {
      LowBits(n);
    }
  }

  lemma LowBits(n: int)
    requires -(TWO_31 as int) <= n < TWO_31
    ensures n % TWO_32 == if n >= 0 then n else n + TWO_32
  {
  }
}
