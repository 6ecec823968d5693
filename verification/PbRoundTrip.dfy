/** nanopb: decoding what was encoded gives the message back. */
module PbRoundTrip {
  import opened Keys
  import opened LogFormat
  import opened Coding
  import opened PbVarints
  import opened PbStreams
  import opened PbMessages
  import opened PbDecoder

  // ---------- conforming messages ----------

  /** Strings leave room for their zero, and at most one field of a union is chosen, at every depth. */
  predicate Conforms(lt: LType, size: nat, v: FieldValue)
    requires Typed(lt, size, v)
    decreases lt
  {
    match lt
    case String => |v.bytes| + 1 <= size
    case Submessage(fs) => StructConforms(fs, v.slots)
    case _ => true
  }

  predicate SlotConforms(f: Field, s: Slot)
    requires SlotTyped(f, s)
    decreases f
  {
    match f.rule
    case Required => Conforms(f.ltype, f.dataSize, s.value)
    case Singular => Conforms(f.ltype, f.dataSize, s.value)
    case Optional => Conforms(f.ltype, f.dataSize, s.value)
    case Repeated => forall v :: v in s.values ==> Conforms(f.ltype, f.dataSize, v)
    case Oneof(_) => s.chosen.Some? ==> Conforms(f.ltype, f.dataSize, s.chosen.value)
  }

  predicate IsChosen(s: Slot) {
    s.Choice? && s.chosen.Some?
  }

  predicate OneOfEach(fs: seq<Field>, slots: seq<Slot>)
    requires |fs| == |slots|
  {
    forall i, j :: 0 <= i < j < |fs| && fs[i].rule.Oneof? && fs[j].rule == fs[i].rule ==> !IsChosen(slots[i]) || !IsChosen(slots[j])
  }

  predicate StructConforms(fs: seq<Field>, slots: seq<Slot>)
    requires StructTyped(fs, slots)
    decreases fs
  {
    OneOfEach(fs, slots) && forall i :: 0 <= i < |fs| ==> SlotConforms(fs[i], slots[i])
  }

  // ---------- what decoding gives back ----------

  /** The message without what is not present in it: absent fields hold their defaults. */
  function Present(lt: LType, size: nat, v: FieldValue): (r: FieldValue)
    requires Typed(lt, size, v) && (lt.Submessage? ==> WellFormed(lt.fields))
    decreases lt
  {
    if lt.Submessage? then Message(PresentStruct(lt.fields, v.slots)) else v
  }

  function PresentSlot(f: Field, s: Slot): (r: Slot)
    requires SlotTyped(f, s) && FieldWellFormed(f)
    decreases f
  {
    match f.rule
    case Required => One(Present(f.ltype, f.dataSize, s.value))
    case Singular => if IsDefault(f, s) then One(DefaultValue(f)) else One(Present(f.ltype, f.dataSize, s.value))
    case Optional => if s.has then Maybe(true, Present(f.ltype, f.dataSize, s.value)) else Maybe(false, DefaultValue(f))
    case Repeated => Many(seq(|s.values|, i requires 0 <= i < |s.values| => assert s.values[i] in s.values; Present(f.ltype, f.dataSize, s.values[i])))
    case Oneof(_) => if s.chosen.Some? then Choice(Some(Present(f.ltype, f.dataSize, s.chosen.value))) else s
  }

  function PresentStruct(fs: seq<Field>, slots: seq<Slot>): (r: seq<Slot>)
    requires StructTyped(fs, slots) && WellFormed(fs)
    ensures |r| == |fs| && forall i :: 0 <= i < |fs| ==> r[i] == PresentSlot(fs[i], slots[i])
    decreases fs
  {
    seq(|fs|, i requires 0 <= i < |fs| => PresentSlot(fs[i], slots[i]))
  }

  // ---------- numbers and strings ----------

  lemma IntegerRoundTrip(lt: LType, size: nat, v: FieldValue)
    requires (lt.Varint? || lt.UVarint? || lt.SVarint?) && Typed(lt, size, v) && IntegerSize(size)
    ensures IntegerField(lt, size, WireNumber(lt, size, v)) == Some(v)
  {
    if lt.SVarint? {
      ZigZagInverts(v.n);
    }
  }

  lemma Varint32RoundTrip(n: nat, rest: seq<byte>)
    requires n < TWO_32
    ensures DecodeVarint32(Base128(n) + rest) == Some((n, rest))
  {
    hide Base128, DecodeVarint32, LooksSigned;
    Varint32Exact(n, rest);
  }

  lemma TakeExactly(b: seq<byte>, rest: seq<byte>)
    ensures TakeBytes(b + rest, |b|) == Some((b, rest))
  {
    assert (b + rest)[..|b|] == b && (b + rest)[|b|..] == rest;
  }

  lemma Regroup(a: seq<byte>, b: seq<byte>, c: seq<byte>)
    ensures a + b + c == a + (b + c)
  {
  }

  /** A length is read back, and the bytes after it. */
  lemma TakePrefixed(b: seq<byte>, rest: seq<byte>)
    requires |b| < TWO_32
    ensures DecodeVarint32(Base128(|b|) + b + rest) == Some((|b|, b + rest))
    ensures TakeBytes(b + rest, |b|) == Some((b, rest))
    ensures TakeString(Base128(|b|) + b + rest) == Some((b, rest))
  {
    hide Base128, DecodeVarint32, TakeBytes, LooksSigned, Varint32From;
    Regroup(Base128(|b|), b, rest);
    Varint32RoundTrip(|b|, b + rest);
    TakeExactly(b, rest);
  }

  lemma FixedRoundTrip(lt: LType, v: FieldValue, rest: seq<byte>)
    requires (lt.Fixed32? || lt.Fixed64?) && Typed(lt, 0, v)
    ensures DecodeFixed(lt, (if lt.Fixed32? then EncodeFixed32(v.n) else EncodeFixed64(v.n)) + rest) == Some((v, rest))
  {
    hide EncodeFixed32, EncodeFixed64, DecodeFixed32, DecodeFixed64;
    var b := if lt.Fixed32? then EncodeFixed32(v.n) else EncodeFixed64(v.n);
    if lt.Fixed32? {
      DecodeEncodeFixed32(v.n);
    } else {
      DecodeEncodeFixed64(v.n);
    }
    assert (b + rest)[..|b|] == b && (b + rest)[|b|..] == rest;
  }

  lemma TagRoundTrip(wireType: nat, tag: Tag, rest: seq<byte>)
    requires 0 < tag < 0x2000_0000 && wireType < 8
    ensures DecodeTag(TagBytes(wireType, tag) + rest) == Some(((tag, wireType), rest))
    ensures !EndsEarly(TagBytes(wireType, tag) + rest) && TagBytes(wireType, tag) + rest != []
  {
    hide Base128, DecodeVarint32;
    Varint32RoundTrip(tag * 8 + wireType, rest);
  }

  lemma FindDistinct(fs: seq<Field>, i: nat)
    requires DistinctTags(fs) && i < |fs|
    ensures Find(fs, fs[i].tag) == i
  {
  }

  // ---------- values ----------


  lemma ValueRoundTrip(lt: LType, size: nat, v: FieldValue, rest: seq<byte>, into: FieldValue)
    requires Typed(lt, size, v) && Conforms(lt, size, v) && Target(lt, into)
    requires lt.Submessage? ==> into == Message(Defaults(lt.fields))
    requires ValueBytes(lt, size, v).Some? && |ValueBytes(lt, size, v).value| < TWO_32
    ensures DecodeValue(lt, size, ValueBytes(lt, size, v).value + rest, into) == Some((Present(lt, size, v), rest))
    decreases lt, 0
  {
    hide Base128, DecodeVarint32, TakeString, DecodeFields, WellFormed, StructTyped, StructConforms, MessageBytes;
    match lt {
      case Fixed32 => FixedRoundTrip(lt, v, rest);
      case Fixed64 => FixedRoundTrip(lt, v, rest);
      case Bytes => TakePrefixed(v.bytes, rest);
      case String => TakePrefixed(v.bytes, rest);
      case FixedLengthBytes => TakePrefixed(v.bytes, rest);
      case Submessage(_) => SubmessageRoundTrip(lt, size, v, rest, into);
      case _ =>
        DecodeEncodedVarint(WireNumber(lt, size, v), rest);
        IntegerRoundTrip(lt, size, v);
    }
  }

  lemma SubmessageRoundTrip(lt: LType, size: nat, v: FieldValue, rest: seq<byte>, into: FieldValue)
    requires lt.Submessage? && Typed(lt, size, v) && Conforms(lt, size, v) && Target(lt, into) && into == Message(Defaults(lt.fields))
    requires ValueBytes(lt, size, v).Some? && |ValueBytes(lt, size, v).value| < TWO_32
    ensures DecodeValue(lt, size, ValueBytes(lt, size, v).value + rest, into) == Some((Present(lt, size, v), rest))
    decreases lt, 0, 0
  {
    hide Base128, DecodeVarint32, TakeString, DecodeFields, WellFormed, StructTyped, StructConforms, MessageBytes;
    TakePrefixed(MessageBytes(lt.fields, v.slots).value, rest);
    MessageRoundTrip(lt.fields, v.slots);
  }

  lemma {:induction false} PackedRoundTrip(lt: LType, size: nat, vs: seq<FieldValue>, before: seq<FieldValue>, room: nat)
    requires Packable(lt) && (forall v :: v in vs ==> Typed(lt, size, v)) && (forall v :: v in before ==> Typed(lt, size, v))
    requires |before| + |vs| <= room
    requires PackedBytes(lt, size, vs).Some? && |PackedBytes(lt, size, vs).value| < TWO_32
    ensures DecodePacked(lt, size, PackedBytes(lt, size, vs).value, before, room) == Some(before + vs)
    decreases lt, 1, |vs|
  {
    hide ValueBytes, DecodeValue;
    if vs == [] {
      assert before + vs == before;
    } else {
      ValueRoundTrip(lt, size, vs[0], PackedBytes(lt, size, vs[1..]).value, Number(0));
      PackedRoundTrip(lt, size, vs[1..], before + [vs[0]], room);
      assert before + [vs[0]] + vs[1..] == before + vs;
      NotEmpty(lt, size, vs[0]);
    }
  }

  lemma NotEmpty(lt: LType, size: nat, v: FieldValue)
    requires Packable(lt) && Typed(lt, size, v) && ValueBytes(lt, size, v).Some?
    ensures ValueBytes(lt, size, v).value != []
  {
  }

  // ---------- fields ----------

  /** The state of decoding when the fields before i have been read. */
  function Progress(fs: seq<Field>, slots: seq<Slot>, i: nat): (r: seq<Slot>)
    requires WellFormed(fs) && StructTyped(fs, slots) && i <= |fs|
    ensures |r| == |fs|
  {
    PresentStruct(fs, slots)[..i] + Defaults(fs)[i..]
  }

  lemma PresentTyped(f: Field, s: Slot)
    requires FieldWellFormed(f) && SlotTyped(f, s)
    ensures SlotTyped(f, PresentSlot(f, s))
    decreases f, 0
  {
    match f.rule {
      case Required => PresentValueTyped(f.ltype, f.dataSize, s.value);
      case Singular => PresentValueTyped(f.ltype, f.dataSize, s.value);
      case Optional => PresentValueTyped(f.ltype, f.dataSize, s.value);
      case Repeated =>
        forall i | 0 <= i < |s.values| ensures Typed(f.ltype, f.dataSize, PresentSlot(f, s).values[i]) {
          assert s.values[i] in s.values;
          PresentValueTyped(f.ltype, f.dataSize, s.values[i]);
        }
      case Oneof(_) =>
        if s.chosen.Some? {
          PresentValueTyped(f.ltype, f.dataSize, s.chosen.value);
        }
    }
  }

  lemma PresentValueTyped(lt: LType, size: nat, v: FieldValue)
    requires Typed(lt, size, v) && (lt.Submessage? ==> WellFormed(lt.fields))
    ensures Typed(lt, size, Present(lt, size, v))
    decreases lt
  {
    if lt.Submessage? {
      assert StructTyped(lt.fields, v.slots);
      forall i | 0 <= i < |lt.fields| ensures SlotTyped(lt.fields[i], PresentStruct(lt.fields, v.slots)[i]) {
        PresentTyped(lt.fields[i], v.slots[i]);
      }
    }
  }

  lemma ProgressTyped(fs: seq<Field>, slots: seq<Slot>, i: nat)
    requires WellFormed(fs) && StructTyped(fs, slots) && i <= |fs|
    ensures StructTyped(fs, Progress(fs, slots, i))
    ensures forall j :: 0 <= j < |fs| ==> Progress(fs, slots, i)[j] == if j < i then PresentSlot(fs[j], slots[j]) else DefaultSlot(fs[j])
    ensures i < |fs| ==> Progress(fs, slots, i)[i] == DefaultSlot(fs[i])
  {
    forall j | 0 <= j < |fs| ensures SlotTyped(fs[j], Progress(fs, slots, i)[j]) {
      PresentTyped(fs[j], slots[j]);
    }
  }

  /** Reading one tag and what it introduces. */
  lemma FieldStep(fs: seq<Field>, i: nat, wireType: nat, s: seq<byte>, slots: seq<Slot>, seen: set<nat>)
    requires WellFormed(fs) && StructTyped(fs, slots) && i < |fs| && wireType < 8
    ensures var d := DecodeSlot(fs[i], wireType, s, slots[i]);
      DecodeFields(fs, TagBytes(wireType, fs[i].tag) + s, slots, seen) ==
        if d.None? then None else DecodeFields(fs, d.value.1, Store(fs, slots, i, d.value.0), seen + {i})
  {
    hide DecodeSlot, TagBytes, DecodeTag, EndsEarly, Store;
    TagRoundTrip(wireType, fs[i].tag, s);
    FindDistinct(fs, i);
  }

  /** Storing the slot of the field in turn. */
  lemma StoreProgress(fs: seq<Field>, slots: seq<Slot>, i: nat)
    requires WellFormed(fs) && StructTyped(fs, slots) && OneOfEach(fs, slots) && i < |fs|
    requires fs[i].rule.Oneof? ==> IsChosen(slots[i])
    ensures SlotTyped(fs[i], PresentSlot(fs[i], slots[i])) && StructTyped(fs, Progress(fs, slots, i))
    ensures Store(fs, Progress(fs, slots, i), i, PresentSlot(fs[i], slots[i])) == Progress(fs, slots, i + 1)
  {
    PresentTyped(fs[i], slots[i]);
    ProgressTyped(fs, slots, i);
    ProgressTyped(fs, slots, i + 1);
    var t := Store(fs, Progress(fs, slots, i), i, PresentSlot(fs[i], slots[i]));
    forall j | 0 <= j < |fs| ensures t[j] == Progress(fs, slots, i + 1)[j] {
      if j != i && fs[i].rule.Oneof? && fs[j].rule == fs[i].rule {
        assert SlotTyped(fs[j], slots[j]);
        assert !IsChosen(slots[j]);
      }
    }
  }

  /** A field that is not sent keeps its default. */
  lemma NothingSent(fs: seq<Field>, slots: seq<Slot>, i: nat)
    requires WellFormed(fs) && StructTyped(fs, slots) && i < |fs| && PresentSlot(fs[i], slots[i]) == DefaultSlot(fs[i])
    ensures Progress(fs, slots, i + 1) == Progress(fs, slots, i)
  {
    ProgressTyped(fs, slots, i);
    ProgressTyped(fs, slots, i + 1);
    hide Progress;
  }

  /** The value that is sent of a field that is not repeated. */
  function Sent(f: Field, s: Slot): (v: Option<FieldValue>)
    requires SlotTyped(f, s)
    ensures v.Some? ==> Typed(f.ltype, f.dataSize, v.value)
  {
    match f.rule
    case Required => Some(s.value)
    case Singular => if IsDefault(f, s) then None else Some(s.value)
    case Optional => if s.has then Some(s.value) else None
    case Oneof(_) => s.chosen
    case Repeated => None
  }

  /** One item of a field, over its default. */
  lemma ItemRoundTrip(f: Field, v: FieldValue, rest: seq<byte>)
    requires FieldWellFormed(f) && Typed(f.ltype, f.dataSize, v) && Conforms(f.ltype, f.dataSize, v)
    requires ItemBytes(f, v).Some? && |ItemBytes(f, v).value| < TWO_32
    ensures ValueBytes(f.ltype, f.dataSize, v).Some?
    ensures ItemBytes(f, v).value + rest == TagBytes(WireType(f.ltype), f.tag) + (ValueBytes(f.ltype, f.dataSize, v).value + rest)
    ensures DecodeOver(f, ValueBytes(f.ltype, f.dataSize, v).value + rest, DefaultValue(f)) == Some((Present(f.ltype, f.dataSize, v), rest))
    decreases f, 0
  {
    hide TagBytes, ValueBytes, DecodeValue, WellFormed, StructTyped, Typed, Conforms, Present;
    var tag, value := TagBytes(WireType(f.ltype), f.tag), ValueBytes(f.ltype, f.dataSize, v).value;
    assert tag + value + rest == tag + (value + rest);
    ValueRoundTrip(f.ltype, f.dataSize, v, rest, DefaultValue(f));
  }

  lemma ArrayRoundTrip(f: Field, vs: seq<FieldValue>, rest: seq<byte>)
    requires f.rule.Repeated? && Packable(f.ltype) && vs != [] && SlotTyped(f, Many(vs)) && FieldWellFormed(f)
    requires ArrayBytes(f, vs).Some? && |ArrayBytes(f, vs).value| < TWO_32
    ensures PackedBytes(f.ltype, f.dataSize, vs).Some?
    ensures var body := PackedBytes(f.ltype, f.dataSize, vs).value; ArrayBytes(f, vs).value + rest == TagBytes(WT_STRING, f.tag) + (Base128(|body|) + body + rest)
    ensures var body := PackedBytes(f.ltype, f.dataSize, vs).value;
      DecodeSlot(f, WT_STRING, Base128(|body|) + body + rest, Many([])) == Some((PresentSlot(f, Many(vs)), rest))
    decreases f, 0
  {
    hide TagBytes, PackedBytes, DecodePacked, WellFormed, StructTyped, TakeString, Base128;
    var tag, body := TagBytes(WT_STRING, f.tag), PackedBytes(f.ltype, f.dataSize, vs).value;
    var value := Base128(|body|) + body;
    assert tag + value + rest == tag + (value + rest);
    TakePrefixed(body, rest);
    PackedRoundTrip(f.ltype, f.dataSize, vs, [], f.arraySize);
    assert [] + vs == vs;
    PackedPresent(f, vs);
  }

  lemma OneItem(fs: seq<Field>, slots: seq<Slot>, i: nat, rest: seq<byte>, seen: set<nat>)
    requires WellFormed(fs) && StructTyped(fs, slots) && OneOfEach(fs, slots) && i < |fs| && StructTyped(fs, Progress(fs, slots, i))
    requires SlotConforms(fs[i], slots[i]) && Sent(fs[i], slots[i]).Some?
    requires var b := ItemBytes(fs[i], Sent(fs[i], slots[i]).value); b.Some? && |b.value| < TWO_32
    ensures StructTyped(fs, Progress(fs, slots, i + 1))
    ensures DecodeFields(fs, ItemBytes(fs[i], Sent(fs[i], slots[i]).value).value + rest, Progress(fs, slots, i), seen)
         == DecodeFields(fs, rest, Progress(fs, slots, i + 1), seen + {i})
    decreases fs, 1
  {
    FieldOk(fs, slots, i);
    ProgressTyped(fs, slots, i);
    ProgressTyped(fs, slots, i + 1);
    hide TagBytes, Progress, ValueBytes, ItemBytes, DecodeOver, DecodeFields, Store, WellFormed, StructTyped,
         Present, Conforms, Typed;
    var f := fs[i];
    var v := Sent(f, slots[i]).value;
    ItemRoundTrip(f, v, rest);
    FieldStep(fs, i, WireType(f.ltype), ValueBytes(f.ltype, f.dataSize, v).value + rest, Progress(fs, slots, i), seen);
    StoreProgress(fs, slots, i);
  }

  lemma FieldOk(fs: seq<Field>, slots: seq<Slot>, i: nat)
    requires WellFormed(fs) && StructTyped(fs, slots) && i < |fs|
    ensures FieldWellFormed(fs[i]) && 0 < fs[i].tag < 0x2000_0000
    ensures fs[i].ltype.Submessage? ==> WellFormed(fs[i].ltype.fields)
    ensures |slots| == |fs| && SlotTyped(fs[i], slots[i])
  {
  }

  // ---------- repeated fields ----------

  predicate IsArray(fs: seq<Field>, slots: seq<Slot>, i: nat) {
    i < |fs| == |slots| && fs[i].rule.Repeated? && slots[i].Many? && SlotTyped(fs[i], slots[i])
  }

  lemma PackedItem(fs: seq<Field>, slots: seq<Slot>, i: nat, rest: seq<byte>, seen: set<nat>)
    requires WellFormed(fs) && StructTyped(fs, slots) && OneOfEach(fs, slots) && IsArray(fs, slots, i)
    requires StructTyped(fs, Progress(fs, slots, i)) && Packable(fs[i].ltype) && slots[i].values != []
    requires var b := ArrayBytes(fs[i], slots[i].values); b.Some? && |b.value| < TWO_32
    ensures StructTyped(fs, Progress(fs, slots, i + 1))
    ensures DecodeFields(fs, ArrayBytes(fs[i], slots[i].values).value + rest, Progress(fs, slots, i), seen)
         == DecodeFields(fs, rest, Progress(fs, slots, i + 1), seen + {i})
    decreases fs, 1
  {
    FieldOk(fs, slots, i);
    ProgressTyped(fs, slots, i);
    ProgressTyped(fs, slots, i + 1);
    hide TagBytes, Progress, PackedBytes, ArrayBytes, DecodeSlot, DecodeFields, Store, WellFormed, StructTyped,
         Base128, Typed;
    var f, vs := fs[i], slots[i].values;
    ArrayRoundTrip(f, vs, rest);
    var body := PackedBytes(f.ltype, f.dataSize, vs).value;
    FieldStep(fs, i, WT_STRING, Base128(|body|) + body + rest, Progress(fs, slots, i), seen);
    StoreProgress(fs, slots, i);
  }

  lemma PackedPresent(f: Field, vs: seq<FieldValue>)
    requires FieldWellFormed(f) && f.rule.Repeated? && Packable(f.ltype) && SlotTyped(f, Many(vs))
    ensures PresentSlot(f, Many(vs)) == Many(vs)
  {
    assert PresentSlot(f, Many(vs)).values == vs;
  }

  /** The state when the first k items of field i have been read. */
  function ItemsProgress(fs: seq<Field>, slots: seq<Slot>, i: nat, k: nat): (r: seq<Slot>)
    requires WellFormed(fs) && StructTyped(fs, slots) && IsArray(fs, slots, i) && k <= |slots[i].values|
  {
    Progress(fs, slots, i)[i := Many(PresentSlot(fs[i], slots[i]).values[..k])]
  }

  lemma ItemsProgressTyped(fs: seq<Field>, slots: seq<Slot>, i: nat, k: nat)
    requires WellFormed(fs) && StructTyped(fs, slots) && IsArray(fs, slots, i) && k <= |slots[i].values|
    ensures StructTyped(fs, ItemsProgress(fs, slots, i, k))
    ensures ItemsProgress(fs, slots, i, k)[i] == Many(PresentSlot(fs[i], slots[i]).values[..k])
    ensures k == 0 ==> ItemsProgress(fs, slots, i, k) == Progress(fs, slots, i)
    ensures k == |slots[i].values| ==> ItemsProgress(fs, slots, i, k) == Progress(fs, slots, i + 1)
  {
    ProgressTyped(fs, slots, i);
    ProgressTyped(fs, slots, i + 1);
    PresentTyped(fs[i], slots[i]);
    var p, r := PresentSlot(fs[i], slots[i]).values, ItemsProgress(fs, slots, i, k);
    assert forall v :: v in p[..k] ==> v in p;
    forall j | 0 <= j < |fs| ensures SlotTyped(fs[j], r[j]) {
      if j != i {
        assert r[j] == Progress(fs, slots, i)[j];
      }
    }
    assert p[..|p|] == p && p[..0] == [];
  }

  lemma ItemsBytesFrom(f: Field, vs: seq<FieldValue>, k: nat, rest: seq<byte>)
    requires k <= |vs| && (forall v :: v in vs ==> Typed(f.ltype, f.dataSize, v)) && ItemsBytes(f, vs[k..]).Some?
    ensures k == |vs| ==> ItemsBytes(f, vs[k..]).value + rest == rest
    ensures k < |vs| ==>
      && ItemBytes(f, vs[k]).Some? && ItemsBytes(f, vs[k + 1..]).Some?
      && |ItemBytes(f, vs[k]).value| + |ItemsBytes(f, vs[k + 1..]).value| == |ItemsBytes(f, vs[k..]).value|
      && ItemsBytes(f, vs[k..]).value + rest == ItemBytes(f, vs[k]).value + (ItemsBytes(f, vs[k + 1..]).value + rest)
  {
    hide ItemBytes, Typed;
    if k < |vs| {
      assert vs[k..][0] == vs[k] && vs[k..][1..] == vs[k + 1..];
      var item, more := ItemBytes(f, vs[k]).value, ItemsBytes(f, vs[k + 1..]).value;
      assert item + more + rest == item + (more + rest);
    } else {
      assert vs[k..] == [];
      assert ItemsBytes(f, vs[k..]).value + rest == rest;
    }
  }

  lemma {:induction false} UnpackedItems(fs: seq<Field>, slots: seq<Slot>, i: nat, k: nat, rest: seq<byte>, seen: set<nat>)
    requires WellFormed(fs) && StructTyped(fs, slots) && IsArray(fs, slots, i) && !Packable(fs[i].ltype)
    requires SlotConforms(fs[i], slots[i]) && k <= |slots[i].values| <= fs[i].arraySize
    requires StructTyped(fs, ItemsProgress(fs, slots, i, k))
    requires var b := ItemsBytes(fs[i], slots[i].values[k..]); b.Some? && |b.value| < TWO_32
    ensures StructTyped(fs, Progress(fs, slots, i + 1))
    ensures DecodeFields(fs, ItemsBytes(fs[i], slots[i].values[k..]).value + rest, ItemsProgress(fs, slots, i, k), seen)
         == DecodeFields(fs, rest, Progress(fs, slots, i + 1), seen + if k < |slots[i].values| then {i} else {})
    decreases fs, 1, |slots[i].values| - k
  {
    FieldOk(fs, slots, i);
    hide DecodeFields, WellFormed, StructTyped, ItemsProgress, Progress, ItemBytes, ItemsBytes, SlotTyped,
         SlotConforms, PresentSlot, FieldWellFormed;
    var f, vs := fs[i], slots[i].values;
    ItemsProgressTyped(fs, slots, i, k);
    ItemsBytesFrom(f, vs, k, rest);
    if k == |vs| {
      assert seen + {} == seen;
    } else {
      ItemsProgressTyped(fs, slots, i, k + 1);
      UnpackedItem(fs, slots, i, k, ItemsBytes(f, vs[k + 1..]).value + rest, seen);
      UnpackedItems(fs, slots, i, k + 1, rest, seen + {i});
      assert seen + {i} + (if k + 1 < |vs| then {i} else {}) == seen + {i};
    }
  }

  lemma UnpackedItem(fs: seq<Field>, slots: seq<Slot>, i: nat, k: nat, rest: seq<byte>, seen: set<nat>)
    requires WellFormed(fs) && StructTyped(fs, slots) && IsArray(fs, slots, i) && !Packable(fs[i].ltype)
    requires SlotConforms(fs[i], slots[i]) && k < |slots[i].values| <= fs[i].arraySize
    requires StructTyped(fs, ItemsProgress(fs, slots, i, k)) && StructTyped(fs, ItemsProgress(fs, slots, i, k + 1))
    requires var b := ItemBytes(fs[i], slots[i].values[k]); b.Some? && |b.value| < TWO_32
    ensures DecodeFields(fs, ItemBytes(fs[i], slots[i].values[k]).value + rest, ItemsProgress(fs, slots, i, k), seen)
         == DecodeFields(fs, rest, ItemsProgress(fs, slots, i, k + 1), seen + {i})
    decreases fs, 1, 0
  {
    FieldOk(fs, slots, i);
    ItemsProgressTyped(fs, slots, i, k);
    ItemsProgressTyped(fs, slots, i, k + 1);
    var f, v := fs[i], slots[i].values[k];
    var p := PresentSlot(f, slots[i]).values;
    assert p[k] == Present(f.ltype, f.dataSize, v) && p[..k + 1] == p[..k] + [p[k]];
    StoreItem(fs, slots, i, k);
    hide TagBytes, ValueBytes, ItemBytes, DecodeOver, DecodeFields, Store, WellFormed, StructTyped, ItemsProgress,
         PresentSlot, Present, Conforms, Typed;
    ItemRoundTrip(f, v, rest);
    FieldStep(fs, i, WireType(f.ltype), ValueBytes(f.ltype, f.dataSize, v).value + rest, ItemsProgress(fs, slots, i, k), seen);
  }

  lemma StoreItem(fs: seq<Field>, slots: seq<Slot>, i: nat, k: nat)
    requires WellFormed(fs) && StructTyped(fs, slots) && IsArray(fs, slots, i) && k < |slots[i].values|
    requires StructTyped(fs, ItemsProgress(fs, slots, i, k)) && SlotTyped(fs[i], Many(PresentSlot(fs[i], slots[i]).values[..k + 1]))
    ensures Store(fs, ItemsProgress(fs, slots, i, k), i, Many(PresentSlot(fs[i], slots[i]).values[..k + 1])) == ItemsProgress(fs, slots, i, k + 1)
  {
  }

  // ---------- messages ----------

  /** One field's bytes take the decoder from the state before it to the state after. */
  lemma FieldRoundTrip(fs: seq<Field>, slots: seq<Slot>, i: nat, rest: seq<byte>, seen: set<nat>)
    requires WellFormed(fs) && StructTyped(fs, slots) && StructConforms(fs, slots) && i < |fs| && StructTyped(fs, Progress(fs, slots, i))
    requires SlotBytes(fs[i], slots[i]).Some? && |SlotBytes(fs[i], slots[i]).value| < TWO_32
    ensures StructTyped(fs, Progress(fs, slots, i + 1))
    ensures exists seen' ::
      && seen <= seen' && (fs[i].rule.Required? ==> i in seen')
      && DecodeFields(fs, SlotBytes(fs[i], slots[i]).value + rest, Progress(fs, slots, i), seen)
      == DecodeFields(fs, rest, Progress(fs, slots, i + 1), seen')
    decreases fs, 2
  {
    hide DecodeFields, WellFormed, StructTyped, StructConforms, OneOfEach, FieldWellFormed, Progress, ItemBytes,
         ItemsBytes, PackedBytes, Typed, Conforms;
    FieldOk(fs, slots, i);
    ConformsAt(fs, slots, i);
    ProgressTyped(fs, slots, i + 1);
    var f, s := fs[i], slots[i];
    if Sent(f, s).Some? {
      OneItem(fs, slots, i, rest, seen);
    } else if f.rule.Repeated? && s.values != [] {
      if Packable(f.ltype) {
        PackedItem(fs, slots, i, rest, seen);
      } else {
        ItemsProgressTyped(fs, slots, i, 0);
        assert s.values[0..] == s.values;
        UnpackedItems(fs, slots, i, 0, rest, seen);
      }
    } else {
      NothingSent(fs, slots, i);
      assert [] + rest == rest;
    }
  }

  lemma ConformsAt(fs: seq<Field>, slots: seq<Slot>, i: nat)
    requires StructTyped(fs, slots) && StructConforms(fs, slots) && i < |fs|
    ensures SlotTyped(fs[i], slots[i]) && SlotConforms(fs[i], slots[i]) && OneOfEach(fs, slots)
  {
  }

  lemma MessageFrom(fs: seq<Field>, slots: seq<Slot>, i: nat, seen: set<nat>)
    requires WellFormed(fs) && StructTyped(fs, slots) && StructConforms(fs, slots) && i <= |fs| && StructTyped(fs, Progress(fs, slots, i))
    requires forall j :: 0 <= j < i && fs[j].rule.Required? ==> j in seen
    requires StructTyped(fs[i..], slots[i..])
    requires MessageBytes(fs[i..], slots[i..]).Some? && |MessageBytes(fs[i..], slots[i..]).value| < TWO_32
    ensures DecodeFields(fs, MessageBytes(fs[i..], slots[i..]).value, Progress(fs, slots, i), seen) == Some(PresentStruct(fs, slots))
    decreases fs, 3, |fs| - i
  {
    if i == |fs| {
      assert MessageBytes(fs[i..], slots[i..]).value == [];
      assert Progress(fs, slots, i) == PresentStruct(fs, slots);
      assert AllRequired(fs, seen);
    } else {
      hide DecodeFields, WellFormed, StructTyped, StructConforms, Progress, SlotBytes;
      MessageBytesFrom(fs, slots, i);
      FieldRoundTrip(fs, slots, i, MessageBytes(fs[i + 1..], slots[i + 1..]).value, seen);
      var seen' :|
        && seen <= seen' && (fs[i].rule.Required? ==> i in seen')
        && DecodeFields(fs, SlotBytes(fs[i], slots[i]).value + MessageBytes(fs[i + 1..], slots[i + 1..]).value, Progress(fs, slots, i), seen)
        == DecodeFields(fs, MessageBytes(fs[i + 1..], slots[i + 1..]).value, Progress(fs, slots, i + 1), seen');
      MessageFrom(fs, slots, i + 1, seen');
    }
  }

  lemma MessageBytesFrom(fs: seq<Field>, slots: seq<Slot>, i: nat)
    requires StructTyped(fs, slots) && i < |fs| && StructTyped(fs[i..], slots[i..]) && MessageBytes(fs[i..], slots[i..]).Some?
    ensures SlotTyped(fs[i], slots[i]) && SlotBytes(fs[i], slots[i]).Some?
    ensures StructTyped(fs[i + 1..], slots[i + 1..]) && MessageBytes(fs[i + 1..], slots[i + 1..]).Some?
    ensures MessageBytes(fs[i..], slots[i..]).value == SlotBytes(fs[i], slots[i]).value + MessageBytes(fs[i + 1..], slots[i + 1..]).value
  {
    hide SlotBytes;
    assert fs[i..][0] == fs[i] && fs[i..][1..] == fs[i + 1..] && slots[i..][0] == slots[i] && slots[i..][1..] == slots[i + 1..];
  }

  /** pb_decode of pb_encode's output: every field present gets back its value, in arrays, unions and
      submessages alike, and every other field its default. */
  lemma MessageRoundTrip(fs: seq<Field>, slots: seq<Slot>)
    requires WellFormed(fs) && StructTyped(fs, slots) && StructConforms(fs, slots)
    requires MessageBytes(fs, slots).Some? && |MessageBytes(fs, slots).value| < TWO_32
    ensures Decode(fs, MessageBytes(fs, slots).value) == Some(PresentStruct(fs, slots))
    decreases fs, 4
  {
    hide DecodeFields, WellFormed, StructTyped, StructConforms, SlotBytes;
    assert fs[0..] == fs && slots[0..] == slots;
    assert Progress(fs, slots, 0) == Defaults(fs);
    MessageFrom(fs, slots, 0, {});
  }

  // ---------- what comes back means the same ----------

  /** If any value of the field counts as absent, its default does. */
  lemma DefaultIsDefault(f: Field, s: Slot)
    requires FieldWellFormed(f) && SlotTyped(f, s) && IsDefault(f, s)
    ensures IsDefault(f, DefaultSlot(f))
    decreases f, 0
  {
    if f.rule.Singular? && f.ltype.Submessage? {
      DefaultsAreDefault(f.ltype.fields, s.value.slots);
    }
  }

  lemma DefaultsAreDefault(fs: seq<Field>, slots: seq<Slot>)
    requires WellFormed(fs) && StructTyped(fs, slots) && AllDefault(fs, slots)
    ensures AllDefault(fs, Defaults(fs))
    decreases fs
  {
    forall i | 0 <= i < |fs| ensures IsDefault(fs[i], Defaults(fs)[i]) {
      assert IsDefault(fs[i], slots[i]);
      DefaultIsDefault(fs[i], slots[i]);
    }
  }

  lemma PresentDefault(f: Field, s: Slot)
    requires FieldWellFormed(f) && SlotTyped(f, s)
    ensures SlotTyped(f, PresentSlot(f, s)) && IsDefault(f, PresentSlot(f, s)) == IsDefault(f, s)
    decreases f, 0
  {
    PresentTyped(f, s);
    if f.rule.Singular? {
      if IsDefault(f, s) {
        DefaultIsDefault(f, s);
      } else if f.ltype.Submessage? {
        PresentAllDefault(f.ltype.fields, s.value.slots);
      }
    }
  }

  lemma PresentAllDefault(fs: seq<Field>, slots: seq<Slot>)
    requires WellFormed(fs) && StructTyped(fs, slots)
    ensures StructTyped(fs, PresentStruct(fs, slots)) && AllDefault(fs, PresentStruct(fs, slots)) == AllDefault(fs, slots)
    decreases fs
  {
    var p := PresentStruct(fs, slots);
    forall i | 0 <= i < |fs| ensures SlotTyped(fs[i], p[i]) && IsDefault(fs[i], p[i]) == IsDefault(fs[i], slots[i]) {
      PresentDefault(fs[i], slots[i]);
    }
    if AllDefault(fs, p) {
      forall i | 0 <= i < |fs| ensures IsDefault(fs[i], slots[i]) {
        assert IsDefault(fs[i], p[i]);
      }
    }
  }

  lemma PresentValueBytes(lt: LType, size: nat, v: FieldValue)
    requires Typed(lt, size, v) && (lt.Submessage? ==> WellFormed(lt.fields))
    ensures Typed(lt, size, Present(lt, size, v)) && ValueBytes(lt, size, Present(lt, size, v)) == ValueBytes(lt, size, v)
    decreases lt
  {
    PresentValueTyped(lt, size, v);
    if lt.Submessage? {
      PresentMessageBytes(lt.fields, v.slots);
    }
  }

  lemma PresentItemBytes(f: Field, v: FieldValue)
    requires FieldWellFormed(f) && Typed(f.ltype, f.dataSize, v)
    ensures Typed(f.ltype, f.dataSize, Present(f.ltype, f.dataSize, v))
    ensures ItemBytes(f, Present(f.ltype, f.dataSize, v)) == ItemBytes(f, v)
    decreases f, 0, 0
  {
    hide ValueBytes, Present, Typed;
    PresentValueBytes(f.ltype, f.dataSize, v);
  }

  lemma {:induction false} PresentItemsBytes(f: Field, vs: seq<FieldValue>, ps: seq<FieldValue>)
    requires FieldWellFormed(f) && |vs| == |ps| && forall v :: v in vs ==> Typed(f.ltype, f.dataSize, v)
    requires forall i :: 0 <= i < |vs| ==> Typed(f.ltype, f.dataSize, vs[i]) && ps[i] == Present(f.ltype, f.dataSize, vs[i])
    ensures forall v :: v in ps ==> Typed(f.ltype, f.dataSize, v)
    ensures ItemsBytes(f, ps) == ItemsBytes(f, vs)
    decreases f, 1, |vs|
  {
    hide ItemBytes, Present, Typed;
    if vs != [] {
      PresentItemBytes(f, vs[0]);
      PresentItemsBytes(f, vs[1..], ps[1..]);
      forall v | v in ps ensures Typed(f.ltype, f.dataSize, v) {
        if v != ps[0] {
          assert v in ps[1..];
        }
      }
    }
  }

  lemma PresentSlotBytes(f: Field, s: Slot)
    requires FieldWellFormed(f) && SlotTyped(f, s)
    ensures SlotTyped(f, PresentSlot(f, s)) && SlotBytes(f, PresentSlot(f, s)) == SlotBytes(f, s)
    decreases f, 2
  {
    PresentDefault(f, s);
    hide ItemBytes, Typed, Present;
    match f.rule {
      case Required => PresentItemBytes(f, s.value);
      case Singular => PresentItemBytes(f, s.value);
      case Optional => PresentItemBytes(f, s.value);
      case Oneof(_) =>
        if s.chosen.Some? {
          PresentItemBytes(f, s.chosen.value);
        }
      case Repeated =>
        if Packable(f.ltype) {
          PackedPresent(f, s.values);
        } else {
          PresentItemsBytes(f, s.values, PresentSlot(f, s).values);
        }
    }
  }

  /** What comes back is encoded to the very same bytes: nothing that matters was lost. */
  lemma {:induction false} PresentMessageBytes(fs: seq<Field>, slots: seq<Slot>)
    requires WellFormed(fs) && StructTyped(fs, slots)
    ensures StructTyped(fs, PresentStruct(fs, slots))
    ensures MessageBytes(fs, PresentStruct(fs, slots)) == MessageBytes(fs, slots)
    decreases fs
  {
    PresentAllDefault(fs, slots);
    hide SlotBytes, PresentSlot, FieldWellFormed, SlotTyped;
    if fs != [] {
      PresentSlotBytes(fs[0], slots[0]);
      PresentMessageBytes(fs[1..], slots[1..]);
      assert PresentStruct(fs, slots)[1..] == PresentStruct(fs[1..], slots[1..]);
    }
  }

  // ---------- unknown fields ----------

  datatype Payload = VarintPayload(v: nat) | Bytes8(b: seq<byte>) | StringPayload(b: seq<byte>) | Bytes4(b: seq<byte>)

  predicate PayloadOk(p: Payload) {
    match p
    case VarintPayload(_) => true
    case Bytes8(b) => |b| == 8
    case StringPayload(b) => |b| < TWO_32
    case Bytes4(b) => |b| == 4
  }

  function PayloadBytes(p: Payload): seq<byte> {
    match p
    case VarintPayload(v) => Base128(v)
    case Bytes8(b) => b
    case StringPayload(b) => Base128(|b|) + b
    case Bytes4(b) => b
  }

  function PayloadType(p: Payload): nat {
    if p.VarintPayload? then WT_VARINT else if p.Bytes8? then WT_64BIT else if p.StringPayload? then WT_STRING else WT_32BIT
  }

  lemma {:induction false} SkippedVarint(v: nat, rest: seq<byte>)
    ensures AfterVarint(Base128(v) + rest) == Some(rest)
    decreases v
  {
    hide Base128;
    FirstByte(v, rest);
    if v >= 128 {
      SkippedVarint(v / 128, rest);
    }
  }

  /** A field that the descriptor does not know, of whatever wire type, changes nothing: messages may
      carry more than the receiver asks for. */
  lemma UnknownFieldSkipped(fs: seq<Field>, tag: Tag, p: Payload, rest: seq<byte>, slots: seq<Slot>, seen: set<nat>)
    requires WellFormed(fs) && StructTyped(fs, slots) && PayloadOk(p)
    requires 0 < tag < 0x2000_0000 && forall i :: 0 <= i < |fs| ==> fs[i].tag != tag
    ensures DecodeFields(fs, TagBytes(PayloadType(p), tag) + (PayloadBytes(p) + rest), slots, seen) == DecodeFields(fs, rest, slots, seen)
  {
    hide TagBytes, DecodeTag, EndsEarly, DecodeSlot, AfterVarint, TakeString, Base128;
    TagRoundTrip(PayloadType(p), tag, PayloadBytes(p) + rest);
    assert Find(fs, tag) == |fs|;
    match p {
      case VarintPayload(v) => SkippedVarint(v, rest);
      case StringPayload(b) => TakePrefixed(b, rest);
      case Bytes8(b) => assert (b + rest)[8..] == rest;
      case Bytes4(b) => assert (b + rest)[4..] == rest;
    }
  }
}
