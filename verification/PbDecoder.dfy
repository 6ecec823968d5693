/** nanopb's decoder: what it makes of any input, and its loops over streams. */
module PbDecoder {
  import opened Keys
  import opened LogFormat
  import opened Coding
  import opened PbVarints
  import opened PbStreams
  import opened PbMessages

  const MAX_REQUIRED_FIELDS: nat := 64

  // ---------- descriptors ----------

  predicate DistinctTags(fs: seq<Field>) {
    && (forall i :: 0 <= i < |fs| ==> 0 < fs[i].tag < 0x2000_0000)
    && forall i, j :: 0 <= i < j < |fs| ==> fs[i].tag != fs[j].tag
  }

  /** A descriptor as the generator makes them. */
  predicate WellFormed(fs: seq<Field>)
    decreases fs
  {
    DistinctTags(fs) && forall i :: 0 <= i < |fs| ==> FieldWellFormed(fs[i])
  }

  predicate FieldWellFormed(f: Field)
    decreases f
  {
    && (if f.ltype.Submessage? then WellFormed(f.ltype.fields) else Typed(f.ltype, f.dataSize, f.initial))
    && (f.ltype.Varint? || f.ltype.UVarint? || f.ltype.SVarint? ==> IntegerSize(f.dataSize))
    && (f.rule.Singular? && !f.ltype.Submessage? && !f.ltype.FixedLengthBytes? ==> IsZero(f.ltype, f.dataSize, f.initial))
  }

  /** The place of a required field among the required ones. */
  function RequiredIndex(fs: seq<Field>, i: nat): nat
    requires i <= |fs|
  {
    if i == 0 then 0 else RequiredIndex(fs, i - 1) + if fs[i - 1].rule.Required? then 1 else 0
  }

  predicate AllRequired(fs: seq<Field>, seen: set<nat>) {
    forall i :: 0 <= i < |fs| && fs[i].rule.Required? && RequiredIndex(fs, i) < MAX_REQUIRED_FIELDS ==> i in seen
  }

  /** The field with the tag, or none. */
  function Find(fs: seq<Field>, tag: nat): (i: nat)
    ensures i < |fs| ==> fs[i].tag == tag
    ensures i >= |fs| ==> i == |fs| && forall j :: 0 <= j < |fs| ==> fs[j].tag != tag
  {
    if fs == [] then 0 else if fs[0].tag == tag then 0 else 1 + Find(fs[1..], tag)
  }

  // ---------- defaults ----------

  function DefaultValue(f: Field): (v: FieldValue)
    requires FieldWellFormed(f)
    ensures Typed(f.ltype, f.dataSize, v)
    decreases f, 0
  {
    if f.ltype.Submessage? then Message(Defaults(f.ltype.fields)) else f.initial
  }

  function DefaultSlot(f: Field): (s: Slot)
    requires FieldWellFormed(f)
    ensures SlotTyped(f, s)
    decreases f, 1
  {
    match f.rule
    case Required => One(DefaultValue(f))
    case Singular => One(DefaultValue(f))
    case Optional => Maybe(false, DefaultValue(f))
    case Repeated => Many([])
    case Oneof(_) => Choice(None)
  }

  /** pb_message_set_to_defaults */
  function Defaults(fs: seq<Field>): (slots: seq<Slot>)
    requires WellFormed(fs)
    ensures StructTyped(fs, slots)
    ensures |slots| == |fs| && forall i :: 0 <= i < |fs| ==> slots[i] == DefaultSlot(fs[i])
    decreases fs
  {
    seq(|fs|, i requires 0 <= i < |fs| => DefaultSlot(fs[i]))
  }

  // ---------- numbers ----------

  /** The cast of a varint to a signed field of the size, unless it does not fit. Up to 32 bits, only
      the lowest 32 bits of the varint count. */
  function SignedField(size: nat, v: nat): Option<FieldValue>
    requires v < TWO_64
  {
    var n := if size == 8 then Signed(v) else if v % TWO_32 < TWO_31 then v % TWO_32 else v % TWO_32 - TWO_32;
    if IntegerSize(size) && -(Half(size) as int) <= n < Half(size) then Some(Number(n)) else None
  }

  function UnsignedField(size: nat, v: nat): Option<FieldValue> {
    if IntegerSize(size) && v < 2 * Half(size) then Some(Number(v)) else None
  }

  function ZigZagField(size: nat, v: nat): Option<FieldValue>
    requires v < TWO_64
  {
    var n := UnZigZag(v);
    if IntegerSize(size) && -(Half(size) as int) <= n < Half(size) then Some(Number(n)) else None
  }

  function IntegerField(lt: LType, size: nat, v: nat): (r: Option<FieldValue>)
    requires (lt.Varint? || lt.UVarint? || lt.SVarint?) && v < TWO_64
    ensures r.Some? ==> Typed(lt, size, r.value)
  {
    if lt.Varint? then SignedField(size, v) else if lt.UVarint? then UnsignedField(size, v) else ZigZagField(size, v)
  }

  /** A C string ends at its first zero byte. */
  function UpToNul(b: seq<byte>): (r: seq<byte>)
    ensures 0 !in r && |r| <= |b| && (0 !in b ==> r == b)
  {
    if b == [] || b[0] == 0 then [] else [b[0]] + UpToNul(b[1..])
  }

  function ZeroBytes(n: nat): (b: seq<byte>)
    ensures |b| == n
  {
    seq(n, _ => 0)
  }

  // ---------- values and fields ----------

  predicate Target(lt: LType, into: FieldValue) {
    lt.Submessage? ==> WellFormed(lt.fields) && into.Message? && StructTyped(lt.fields, into.slots)
  }

  function Place(r: Read<seq<byte>>): (p: Read<FieldValue>) {
    if r.None? then None else Some((Blob(r.value.0), r.value.1))
  }

  function DecodeInteger(lt: LType, size: nat, s: seq<byte>): (r: Read<FieldValue>)
    requires lt.Varint? || lt.UVarint? || lt.SVarint?
    ensures r.Some? ==> Typed(lt, size, r.value.0) && |r.value.1| < |s|
  {
    VarintFits(s);
    var v := DecodeVarint(s);
    if v.None? then None
    else
      var n := IntegerField(lt, size, v.value.0);
      if n.None? then None else Some((n.value, v.value.1))
  }

  function DecodeFixed(lt: LType, s: seq<byte>): (r: Read<FieldValue>)
    requires lt.Fixed32? || lt.Fixed64?
    ensures r.Some? ==> Typed(lt, 0, r.value.0) && |r.value.1| < |s|
  {
    var b := TakeBytes(s, if lt.Fixed32? then 4 else 8);
    if b.None? then None
    else Some((Number(if lt.Fixed32? then DecodeFixed32(b.value.0) else DecodeFixed64(b.value.0)), b.value.1))
  }

  function DecodeBytes(size: nat, s: seq<byte>): (r: Read<FieldValue>)
    ensures r.Some? ==> r.value.0.Blob? && |r.value.1| < |s|
  {
    var n := DecodeVarint32(s);
    if n.None? || n.value.0 + BYTES_OFFSET > size then None else Place(TakeBytes(n.value.1, n.value.0))
  }

  /** The last byte is kept for the zero. */
  function DecodeString(size: nat, s: seq<byte>): (r: Read<FieldValue>)
    ensures r.Some? ==> Typed(String, size, r.value.0) && |r.value.1| < |s|
  {
    var n := DecodeVarint32(s);
    if n.None? || n.value.0 + 1 > size then None
    else
      var b := TakeBytes(n.value.1, n.value.0);
      if b.None? then None else Some((Blob(UpToNul(b.value.0)), b.value.1))
  }

  /** No bytes stand for zeros. */
  function DecodeFixedLength(size: nat, s: seq<byte>): (r: Read<FieldValue>)
    ensures r.Some? ==> Typed(FixedLengthBytes, size, r.value.0) && |r.value.1| < |s|
  {
    var n := DecodeVarint32(s);
    if n.None? then None
    else if n.value.0 == 0 then Some((Blob(ZeroBytes(size)), n.value.1))
    else if n.value.0 != size then None
    else Place(TakeBytes(n.value.1, size))
  }

  /** The decoder of the type; a submessage is merged into what is there. */
  function DecodeValue(lt: LType, size: nat, s: seq<byte>, into: FieldValue): (r: Read<FieldValue>)
    requires Target(lt, into)
    ensures r.Some? ==> Typed(lt, size, r.value.0) && |r.value.1| < |s|
    decreases lt, 0
  {
    match lt
    case Fixed32 => DecodeFixed(lt, s)
    case Fixed64 => DecodeFixed(lt, s)
    case Bytes => DecodeBytes(size, s)
    case String => DecodeString(size, s)
    case FixedLengthBytes => DecodeFixedLength(size, s)
    case Submessage(fs) =>
      var sub := TakeString(s);
      if sub.None? then None
      else
        var slots := DecodeFields(fs, sub.value.0, into.slots, {});
        if slots.None? then None else Some((Message(slots.value), sub.value.1))
    case _ => DecodeInteger(lt, size, s)
  }

  /** Items of a packed array, as long as there is room; all must be used up. */
  function DecodePacked(lt: LType, size: nat, s: seq<byte>, vs: seq<FieldValue>, room: nat): (r: Option<seq<FieldValue>>)
    requires Packable(lt) && forall v :: v in vs ==> Typed(lt, size, v)
    ensures r.Some? ==> forall v :: v in r.value ==> Typed(lt, size, v)
    decreases lt, 1 + |s|
  {
    if s == [] then Some(vs)
    else if |vs| >= room then None
    else
      var v := DecodeValue(lt, size, s, Number(0));
      if v.None? then None else DecodePacked(lt, size, v.value.1, vs + [v.value.0], room)
  }

  /** Decoding over what the field holds. */
  function DecodeOver(f: Field, s: seq<byte>, v: FieldValue): (r: Read<FieldValue>)
    requires FieldWellFormed(f) && Typed(f.ltype, f.dataSize, v)
    ensures r.Some? ==> Typed(f.ltype, f.dataSize, r.value.0) && |r.value.1| < |s|
    decreases f, 1
  {
    DecodeValue(f.ltype, f.dataSize, s, v)
  }

  /** decode_static_field */
  function DecodeSlot(f: Field, wireType: nat, s: seq<byte>, slot: Slot): (r: Read<Slot>)
    requires FieldWellFormed(f) && SlotTyped(f, slot)
    ensures r.Some? ==> SlotTyped(f, r.value.0) && |r.value.1| < |s|
    decreases f, 2
  {
    match f.rule
    case Required => var v := DecodeOver(f, s, slot.value); if v.None? then None else Some((One(v.value.0), v.value.1))
    case Singular => var v := DecodeOver(f, s, slot.value); if v.None? then None else Some((One(v.value.0), v.value.1))
    case Optional => var v := DecodeOver(f, s, slot.value); if v.None? then None else Some((Maybe(true, v.value.0), v.value.1))
    case Oneof(_) => var v := DecodeOver(f, s, DefaultValue(f)); if v.None? then None else Some((Choice(Some(v.value.0)), v.value.1))
    case Repeated =>
      if wireType == WT_STRING && Packable(f.ltype) then
        var sub := TakeString(s);
        if sub.None? then None
        else
          var vs := DecodePacked(f.ltype, f.dataSize, sub.value.0, slot.values, f.arraySize);
          if vs.None? then None else Some((Many(vs.value), sub.value.1))
      else if |slot.values| >= f.arraySize then None
      else
        var v := DecodeOver(f, s, DefaultValue(f));
        if v.None? then None else Some((Many(slot.values + [v.value.0]), v.value.1))
  }

  /** Storing a field; a field of a union takes the place of the others. */
  function Store(fs: seq<Field>, slots: seq<Slot>, i: nat, slot: Slot): (r: seq<Slot>)
    requires StructTyped(fs, slots) && i < |fs| && SlotTyped(fs[i], slot)
    ensures StructTyped(fs, r)
  {
    seq(|slots|, j requires 0 <= j < |slots| =>
      if j == i then slot
      else if fs[i].rule.Oneof? && fs[j].rule == fs[i].rule then Choice(None)
      else slots[j])
  }

  /** pb_decode_noinit */
  function DecodeFields(fs: seq<Field>, s: seq<byte>, slots: seq<Slot>, seen: set<nat>): (r: Option<seq<Slot>>)
    requires WellFormed(fs) && StructTyped(fs, slots)
    ensures r.Some? ==> StructTyped(fs, r.value)
    decreases fs, |s|
  {
    var t := DecodeTag(s);
    if s == [] || EndsEarly(s) then if AllRequired(fs, seen) then Some(slots) else None
    else if t.None? then None
    else
      var ((tag, wireType), rest) := t.value;
      var i := Find(fs, tag);
      if fs == [] && tag == 0 then None // the terminator is taken for a field, of an impossible size
      else if i == |fs| then
        var after := AfterField(rest, wireType);
        if after.None? then None else DecodeFields(fs, after.value, slots, seen)
      else
        var slot := DecodeSlot(fs[i], wireType, rest, slots[i]);
        if slot.None? then None else DecodeFields(fs, slot.value.1, Store(fs, slots, i, slot.value.0), seen + {i})
  }

  /** pb_decode */
  function Decode(fs: seq<Field>, s: seq<byte>): (r: Option<seq<Slot>>)
    requires WellFormed(fs)
    ensures r.Some? ==> StructTyped(fs, r.value)
  {
    DecodeFields(fs, s, Defaults(fs), {})
  }
}
