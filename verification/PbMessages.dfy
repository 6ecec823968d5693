/** nanopb: field descriptors, the messages they describe, and the bytes of a message. Fields have
    static allocation; there are no callbacks, extensions or arrays of fixed count. */
module PbMessages {
  import opened Keys
  import opened LogFormat
  import opened Coding
  import opened PbVarints
  import opened PbStreams

  // ---------- descriptors and messages ----------

  datatype LType = Varint | UVarint | SVarint | Fixed32 | Fixed64 | Bytes | String | Submessage(fields: seq<Field>) | FixedLengthBytes

  /** Optional has a has_ flag, Singular is what proto3 makes of it; the fields of a union share storage. */
  datatype Rule = Required | Optional | Singular | Repeated | Oneof(union: nat)

  type Tag = t: nat | t < TWO_32
  datatype Field = Field(tag: Tag, ltype: LType, rule: Rule, dataSize: nat, arraySize: nat, initial: FieldValue,
                         dataOffset: nat, sizeOffset: int)

  datatype FieldValue = Number(n: int) | Blob(bytes: seq<byte>) | Message(slots: seq<Slot>)

  /** The part of a struct that belongs to a field. */
  datatype Slot = One(value: FieldValue) | Maybe(has: bool, value: FieldValue) | Many(values: seq<FieldValue>) | Choice(chosen: Option<FieldValue>)

  predicate Packable(lt: LType) {
    lt.Varint? || lt.UVarint? || lt.SVarint? || lt.Fixed32? || lt.Fixed64?
  }

  predicate IntegerSize(size: nat) {
    size == 1 || size == 2 || size == 4 || size == 8
  }

  function Half(size: nat): (h: nat)
    ensures 0 < h <= TWO_63
  {
    if size == 1 then 0x80 else if size == 2 then 0x8000 else if size == 4 then TWO_31 else TWO_63
  }

  /** What a C object of the type can hold. */
  predicate Typed(lt: LType, size: nat, v: FieldValue)
    decreases lt
  {
    match lt
    case Varint => v.Number? && -(Half(size) as int) <= v.n < Half(size)
    case SVarint => v.Number? && -(Half(size) as int) <= v.n < Half(size)
    case UVarint => v.Number? && 0 <= v.n < 2 * Half(size)
    case Fixed32 => v.Number? && 0 <= v.n < TWO_32
    case Fixed64 => v.Number? && 0 <= v.n < TWO_64
    case Bytes => v.Blob?
    case String => v.Blob? && |v.bytes| <= size && 0 !in v.bytes
    case FixedLengthBytes => v.Blob? && |v.bytes| == size
    case Submessage(fs) => v.Message? && StructTyped(fs, v.slots)
  }

  predicate SlotTyped(f: Field, s: Slot)
    decreases f
  {
    match f.rule
    case Required => s.One? && Typed(f.ltype, f.dataSize, s.value)
    case Singular => s.One? && Typed(f.ltype, f.dataSize, s.value)
    case Optional => s.Maybe? && Typed(f.ltype, f.dataSize, s.value)
    case Repeated => s.Many? && forall v :: v in s.values ==> Typed(f.ltype, f.dataSize, v)
    case Oneof(_) => s.Choice? && (s.chosen.Some? ==> Typed(f.ltype, f.dataSize, s.chosen.value))
  }

  predicate StructTyped(fs: seq<Field>, slots: seq<Slot>)
    decreases fs
  {
    |fs| == |slots| && forall i :: 0 <= i < |fs| ==> SlotTyped(fs[i], slots[i])
  }

  // ---------- the bytes of a message ----------

  type Encoding = Option<seq<byte>>

  function Cat(a: Encoding, b: Encoding): Encoding {
    if a.Some? && b.Some? then Some(a.value + b.value) else None
  }

  /** A length, and as many bytes; no object is as large as 2^64 bytes. */
  function Prefixed(b: Encoding): Encoding {
    if b.Some? && |b.value| < TWO_64 then Some(Base128(|b.value|) + b.value) else None
  }

  function WireType(lt: LType): (wt: nat)
    ensures wt < 8
  {
    match lt
    case Varint => WT_VARINT
    case UVarint => WT_VARINT
    case SVarint => WT_VARINT
    case Fixed32 => WT_32BIT
    case Fixed64 => WT_64BIT
    case _ => WT_STRING
  }

  function TagBytes(wireType: nat, tag: Tag): (b: seq<byte>) {
    Base128(tag * 8 + wireType)
  }

  // With PB_FIELD_32BIT sizes take four bytes; pb_bytes_array_t begins with one.
  const BYTES_OFFSET: nat := 4
  const PB_SIZE_MAX: nat := 0xFFFF_FFFF

  /** The number that stands for an integer on the wire. */
  function WireNumber(lt: LType, size: nat, v: FieldValue): (n: nat)
    requires (lt.Varint? || lt.UVarint? || lt.SVarint?) && Typed(lt, size, v)
    ensures n < TWO_64
  {
    if lt.Varint? then Unsigned(v.n) else if lt.UVarint? then v.n else ZigZag(v.n)
  }

  function ValueBytes(lt: LType, size: nat, v: FieldValue): Encoding
    requires Typed(lt, size, v)
    decreases lt, 0
  {
    match lt
    case Fixed32 => Some(EncodeFixed32(v.n))
    case Fixed64 => Some(EncodeFixed64(v.n))
    case Bytes => if |v.bytes| + BYTES_OFFSET > size then None else Prefixed(Some(v.bytes))
    case String => Prefixed(Some(v.bytes))
    case FixedLengthBytes => Prefixed(Some(v.bytes))
    case Submessage(fs) => Prefixed(MessageBytes(fs, v.slots))
    case _ => if IntegerSize(size) then Some(Base128(WireNumber(lt, size, v))) else None
  }

  function PackedBytes(lt: LType, size: nat, vs: seq<FieldValue>): Encoding
    requires forall v :: v in vs ==> Typed(lt, size, v)
    decreases lt, 1 + |vs|
  {
    if vs == [] then Some([]) else Cat(ValueBytes(lt, size, vs[0]), PackedBytes(lt, size, vs[1..]))
  }

  function ItemBytes(f: Field, v: FieldValue): Encoding
    requires Typed(f.ltype, f.dataSize, v)
    decreases f, 0, 0
  {
    Cat(Some(TagBytes(WireType(f.ltype), f.tag)), ValueBytes(f.ltype, f.dataSize, v))
  }

  function ItemsBytes(f: Field, vs: seq<FieldValue>): Encoding
    requires forall v :: v in vs ==> Typed(f.ltype, f.dataSize, v)
    decreases f, 1, |vs|
  {
    if vs == [] then Some([]) else Cat(ItemBytes(f, vs[0]), ItemsBytes(f, vs[1..]))
  }

  function ArrayBytes(f: Field, vs: seq<FieldValue>): Encoding
    requires forall v :: v in vs ==> Typed(f.ltype, f.dataSize, v)
    decreases f, 2, 0
  {
    if vs == [] then Some([])
    else if |vs| > f.arraySize then None
    else if Packable(f.ltype) then Cat(Some(TagBytes(WT_STRING, f.tag)), Prefixed(PackedBytes(f.ltype, f.dataSize, vs)))
    else ItemsBytes(f, vs)
  }

  /** pb_check_proto3_default_value */
  predicate IsDefault(f: Field, s: Slot)
    requires SlotTyped(f, s)
    decreases f
  {
    match f.rule
    case Required => false
    case Repeated => s.values == []
    case Oneof(_) => s.chosen.None?
    case Optional => !s.has
    case Singular => IsZero(f.ltype, f.dataSize, s.value)
  }

  predicate IsZero(lt: LType, size: nat, v: FieldValue)
    requires Typed(lt, size, v)
    decreases lt
  {
    match lt
    case Bytes => v.bytes == []
    case String => v.bytes == []
    case FixedLengthBytes => size == 0
    case Submessage(fs) => AllDefault(fs, v.slots)
    case _ => v.n == 0
  }

  predicate AllDefault(fs: seq<Field>, slots: seq<Slot>)
    requires StructTyped(fs, slots)
    decreases fs
  {
    forall i :: 0 <= i < |fs| ==> IsDefault(fs[i], slots[i])
  }

  function SlotBytes(f: Field, s: Slot): Encoding
    requires SlotTyped(f, s)
    decreases f, 3, 0
  {
    match f.rule
    case Required => ItemBytes(f, s.value)
    case Optional => if s.has then ItemBytes(f, s.value) else Some([])
    case Singular => if IsDefault(f, s) then Some([]) else ItemBytes(f, s.value)
    case Repeated => ArrayBytes(f, s.values)
    case Oneof(_) => if s.chosen.Some? then ItemBytes(f, s.chosen.value) else Some([])
  }

  function MessageBytes(fs: seq<Field>, slots: seq<Slot>): Encoding
    requires StructTyped(fs, slots)
    decreases fs
  {
    if fs == [] then Some([]) else Cat(SlotBytes(fs[0], slots[0]), MessageBytes(fs[1..], slots[1..]))
  }
}
