/** nanopb's decoder on bytes that follow one another: required fields, messages in parts, and submessages
    that are sent more than once. */
module PbSequences {
  import opened Keys
  import opened LogFormat
  import opened Coding
  import opened PbVarints
  import opened PbStreams
  import opened PbMessages
  import opened PbDecoder
  import opened PbRoundTrip

  // ---------- decoders read no further than they need ----------

  lemma TailOf(s: seq<byte>, more: seq<byte>)
    requires s != []
    ensures (s + more)[0] == s[0] && (s + more)[1..] == s[1..] + more
  {
  }

  lemma {:induction false} VarintFromLocal(s: seq<byte>, i: nat, result: nat, more: seq<byte>)
    requires VarintFrom(s, i, result).Some?
    ensures var r := VarintFrom(s, i, result).value; VarintFrom(s + more, i, result) == Some((r.0, r.1 + more))
    decreases |s|
  {
    hide Power128;
    TailOf(s, more);
    if s[0] >= 128 {
      VarintFromLocal(s[1..], i + 1, result + s[0] % 128 * Power128(i) % TWO_64, more);
    }
  }

  lemma {:induction false} Varint32FromLocal(s: seq<byte>, bitpos: nat, result: nat, more: seq<byte>)
    requires Varint32From(s, bitpos, result).Some?
    ensures var r := Varint32From(s, bitpos, result).value; Varint32From(s + more, bitpos, result) == Some((r.0, r.1 + more))
    decreases |s|
  {
    hide Or, Power2;
    TailOf(s, more);
    if s[0] >= 128 {
      var sum := if bitpos >= 32 then result else Or(result, s[0] % 128 * Power2(bitpos) % TWO_32);
      Varint32FromLocal(s[1..], (bitpos + 7) % 256, sum, more);
    }
  }

  lemma Varint32Local(s: seq<byte>, more: seq<byte>)
    requires DecodeVarint32(s).Some?
    ensures var r := DecodeVarint32(s).value; DecodeVarint32(s + more) == Some((r.0, r.1 + more))
  {
    hide Varint32From;
    TailOf(s, more);
    if s[0] >= 128 {
      Varint32FromLocal(s[1..], 7, s[0] % 128, more);
    }
  }

  lemma TakeLocal(s: seq<byte>, n: nat, more: seq<byte>)
    requires n <= |s|
    ensures TakeBytes(s + more, n) == Some((s[..n], s[n..] + more))
  {
    assert (s + more)[..n] == s[..n] && (s + more)[n..] == s[n..] + more;
  }

  lemma StringLocal(s: seq<byte>, more: seq<byte>)
    requires TakeString(s).Some?
    ensures var r := TakeString(s).value; TakeString(s + more) == Some((r.0, r.1 + more))
  {
    hide DecodeVarint32;
    Varint32Local(s, more);
    TakeLocal(DecodeVarint32(s).value.1, DecodeVarint32(s).value.0, more);
  }

  lemma {:induction false} AfterVarintLocal(s: seq<byte>, more: seq<byte>)
    requires AfterVarint(s).Some?
    ensures AfterVarint(s + more) == Some(AfterVarint(s).value + more)
    decreases |s|
  {
    TailOf(s, more);
    if s[0] >= 128 {
      AfterVarintLocal(s[1..], more);
    }
  }

  lemma AfterFieldLocal(s: seq<byte>, wireType: nat, more: seq<byte>)
    requires AfterField(s, wireType).Some?
    ensures AfterField(s + more, wireType) == Some(AfterField(s, wireType).value + more)
  {
    hide TakeString, AfterVarint;
    if wireType == WT_VARINT {
      AfterVarintLocal(s, more);
    } else if wireType == WT_STRING {
      StringLocal(s, more);
    } else {
      var n := if wireType == WT_64BIT then 8 else 4;
      assert (s + more)[n..] == s[n..] + more;
    }
  }

  lemma IntegerLocal(lt: LType, size: nat, s: seq<byte>, more: seq<byte>)
    requires (lt.Varint? || lt.UVarint? || lt.SVarint?) && DecodeInteger(lt, size, s).Some?
    ensures var r := DecodeInteger(lt, size, s).value; DecodeInteger(lt, size, s + more) == Some((r.0, r.1 + more))
  {
    hide VarintFrom, IntegerField;
    VarintFits(s);
    VarintFits(s + more);
    VarintFromLocal(s, 0, 0, more);
  }

  lemma BlobLocal(lt: LType, size: nat, s: seq<byte>, more: seq<byte>)
    requires lt.Bytes? || lt.String? || lt.FixedLengthBytes?
    requires BlobOf(lt, size, s).Some?
    ensures var r := BlobOf(lt, size, s).value; BlobOf(lt, size, s + more) == Some((r.0, r.1 + more))
  {
    hide DecodeVarint32;
    Varint32Local(s, more);
    var (n, rest) := DecodeVarint32(s).value;
    if n <= |rest| {
      TakeLocal(rest, n, more);
    }
  }

  function BlobOf(lt: LType, size: nat, s: seq<byte>): Read<FieldValue>
    requires lt.Bytes? || lt.String? || lt.FixedLengthBytes?
  {
    if lt.Bytes? then DecodeBytes(size, s) else if lt.String? then DecodeString(size, s) else DecodeFixedLength(size, s)
  }

  /** What is decoded does not depend on what comes behind it. */
  lemma ValueLocal(lt: LType, size: nat, s: seq<byte>, into: FieldValue, more: seq<byte>)
    requires Target(lt, into) && DecodeValue(lt, size, s, into).Some?
    ensures var r := DecodeValue(lt, size, s, into).value; DecodeValue(lt, size, s + more, into) == Some((r.0, r.1 + more))
  {
    hide DecodeFields, TakeString, WellFormed, StructTyped, DecodeInteger, DecodeBytes, DecodeString, DecodeFixedLength;
    if lt.Submessage? {
      StringLocal(s, more);
    } else if lt.Fixed32? || lt.Fixed64? {
      TakeLocal(s, if lt.Fixed32? then 4 else 8, more);
    } else if lt.Bytes? || lt.String? || lt.FixedLengthBytes? {
      BlobLocal(lt, size, s, more);
    } else {
      IntegerLocal(lt, size, s, more);
    }
  }

  lemma OverLocal(f: Field, s: seq<byte>, v: FieldValue, more: seq<byte>)
    requires FieldWellFormed(f) && Typed(f.ltype, f.dataSize, v) && DecodeOver(f, s, v).Some?
    ensures var r := DecodeOver(f, s, v).value; DecodeOver(f, s + more, v) == Some((r.0, r.1 + more))
  {
    hide DecodeValue, WellFormed, StructTyped;
    ValueLocal(f.ltype, f.dataSize, s, v, more);
  }

  lemma SlotLocal(f: Field, wireType: nat, s: seq<byte>, slot: Slot, more: seq<byte>)
    requires FieldWellFormed(f) && SlotTyped(f, slot) && DecodeSlot(f, wireType, s, slot).Some?
    ensures var r := DecodeSlot(f, wireType, s, slot).value; DecodeSlot(f, wireType, s + more, slot) == Some((r.0, r.1 + more))
  {
    hide DecodeOver, DecodePacked, TakeString, FieldWellFormed, Typed, DefaultValue;
    if f.rule.Repeated? && wireType == WT_STRING && Packable(f.ltype) {
      StringLocal(s, more);
    } else {
      OverLocal(f, s, if f.rule.Oneof? || f.rule.Repeated? then DefaultValue(f) else slot.value, more);
    }
  }

  lemma TagLocal(s: seq<byte>, more: seq<byte>)
    requires DecodeTag(s).Some?
    ensures var r := DecodeTag(s).value; DecodeTag(s + more) == Some((r.0, r.1 + more))
    ensures !EndsEarly(s) && !EndsEarly(s + more)
  {
    hide DecodeVarint32;
    Varint32Local(s, more);
  }

  // ---------- fields, one after another ----------

  /** What the fields of s make of a message, and which fields of the descriptor they are; nothing if one cannot
      be decoded, or a zero tag ends the message. */
  function Walk(fs: seq<Field>, s: seq<byte>, slots: seq<Slot>): (r: Option<(seq<Slot>, set<nat>)>)
    requires WellFormed(fs) && StructTyped(fs, slots)
    ensures r.Some? ==> StructTyped(fs, r.value.0)
    decreases |s|
  {
    var t := DecodeTag(s);
    if s == [] then Some((slots, {}))
    else if t.None? then None
    else
      var ((tag, wireType), rest) := t.value;
      var i := Find(fs, tag);
      if fs == [] && tag == 0 then None
      else if i == |fs| then
        var after := AfterField(rest, wireType);
        if after.None? then None else Walk(fs, after.value, slots)
      else
        var slot := DecodeSlot(fs[i], wireType, rest, slots[i]);
        if slot.None? then None
        else
          var more := Walk(fs, slot.value.1, Store(fs, slots, i, slot.value.0));
          if more.None? then None else Some((more.value.0, more.value.1 + {i}))
  }

  /** Decoding one part and then another is decoding the other over what the first has made. */
  lemma {:induction false} DecodeInParts(fs: seq<Field>, s: seq<byte>, more: seq<byte>, slots: seq<Slot>, seen: set<nat>)
    requires WellFormed(fs) && StructTyped(fs, slots) && Walk(fs, s, slots).Some?
    ensures var (m, met) := Walk(fs, s, slots).value; DecodeFields(fs, s + more, slots, seen) == DecodeFields(fs, more, m, seen + met)
    decreases |s|
  {
    hide DecodeFields, DecodeSlot, DecodeTag, EndsEarly, AfterField, Store, WellFormed, StructTyped, Find, AllRequired;
    if s == [] {
      assert s + more == more && seen + {} == seen;
    } else {
      TagLocal(s, more);
      FieldsUnfold(fs, s + more, slots, seen);
      var ((tag, wireType), rest) := DecodeTag(s).value;
      var i := Find(fs, tag);
      FieldFound(fs, slots, tag);
      if i == |fs| {
        AfterFieldLocal(rest, wireType, more);
        DecodeInParts(fs, AfterField(rest, wireType).value, more, slots, seen);
      } else {
        SlotLocal(fs[i], wireType, rest, slots[i], more);
        var slot := DecodeSlot(fs[i], wireType, rest, slots[i]).value;
        DecodeInParts(fs, slot.1, more, Store(fs, slots, i, slot.0), seen + {i});
        var met := Walk(fs, slot.1, Store(fs, slots, i, slot.0)).value.1;
        assert seen + {i} + met == seen + (met + {i});
      }
    }
  }

  lemma FieldFound(fs: seq<Field>, slots: seq<Slot>, tag: nat)
    requires WellFormed(fs) && StructTyped(fs, slots)
    ensures var i := Find(fs, tag); i <= |fs| == |slots| && (i < |fs| ==> FieldWellFormed(fs[i]) && SlotTyped(fs[i], slots[i]))
  {
    hide Find;
  }

  lemma FieldsUnfold(fs: seq<Field>, s: seq<byte>, slots: seq<Slot>, seen: set<nat>)
    requires WellFormed(fs) && StructTyped(fs, slots) && s != [] && !EndsEarly(s) && DecodeTag(s).Some?
    ensures var ((tag, wireType), rest) := DecodeTag(s).value;
      var i := Find(fs, tag);
      if fs == [] && tag == 0 then DecodeFields(fs, s, slots, seen) == None
      else if i == |fs| then
        var after := AfterField(rest, wireType);
        DecodeFields(fs, s, slots, seen) == if after.None? then None else DecodeFields(fs, after.value, slots, seen)
      else
        |slots| == |fs| && FieldWellFormed(fs[i]) && SlotTyped(fs[i], slots[i]) &&
        var slot := DecodeSlot(fs[i], wireType, rest, slots[i]);
        DecodeFields(fs, s, slots, seen) ==
          if slot.None? then None else DecodeFields(fs, slot.value.1, Store(fs, slots, i, slot.value.0), seen + {i})
  {
    hide DecodeSlot, DecodeTag, EndsEarly, AfterField, Store, Find, AllRequired;
  }

  /** A message is accepted if and only if all of its fields can be decoded and the required ones, of the first
      64, are among them. */
  lemma RequiredIff(fs: seq<Field>, s: seq<byte>)
    requires WellFormed(fs) && Walk(fs, s, Defaults(fs)).Some?
    ensures var (m, met) := Walk(fs, s, Defaults(fs)).value; Decode(fs, s) == if AllRequired(fs, met) then Some(m) else None
  {
    DecodeInParts(fs, s, [], Defaults(fs), {});
    assert s + [] == s;
    var (m, met) := Walk(fs, s, Defaults(fs)).value;
    assert {} + met == met;
    NothingLeft(fs, m, met);
  }

  lemma NothingLeft(fs: seq<Field>, slots: seq<Slot>, seen: set<nat>)
    requires WellFormed(fs) && StructTyped(fs, slots)
    ensures DecodeFields(fs, [], slots, seen) == if AllRequired(fs, seen) then Some(slots) else None
  {
  }

  // ---------- submessages in parts ----------

  /** Fields seen before can only help. */
  lemma {:induction false} SeenBefore(fs: seq<Field>, s: seq<byte>, slots: seq<Slot>, seen: set<nat>, more: set<nat>)
    requires WellFormed(fs) && StructTyped(fs, slots) && DecodeFields(fs, s, slots, seen).Some? && seen <= more
    ensures DecodeFields(fs, s, slots, more) == DecodeFields(fs, s, slots, seen)
    decreases |s|
  {
    hide DecodeSlot, DecodeTag, AfterField, Store, WellFormed, StructTyped, Find;
    if s != [] && !EndsEarly(s) && DecodeTag(s).Some? {
      FieldsUnfold(fs, s, slots, seen);
      FieldsUnfold(fs, s, slots, more);
      hide DecodeFields;
      var ((tag, wireType), rest) := DecodeTag(s).value;
      var i := Find(fs, tag);
      FieldFound(fs, slots, tag);
      if i == |fs| {
        SeenBefore(fs, AfterField(rest, wireType).value, slots, seen, more);
      } else {
        var slot := DecodeSlot(fs[i], wireType, rest, slots[i]).value;
        SeenBefore(fs, slot.1, Store(fs, slots, i, slot.0), seen + {i}, more + {i});
      }
    }
  }

  predicate InPlace(f: Field) {
    f.ltype.Submessage? && (f.rule.Required? || f.rule.Singular? || f.rule.Optional?)
  }

  function WithLength(x: seq<byte>, rest: seq<byte>): seq<byte> {
    Base128(|x|) + x + rest
  }

  lemma SubmessageDecoded(f: Field, x: seq<byte>, rest: seq<byte>, into: seq<Slot>)
    requires FieldWellFormed(f) && f.ltype.Submessage? && StructTyped(f.ltype.fields, into) && |x| < TWO_32
    ensures DecodeOver(f, WithLength(x, rest), Message(into)) ==
      var m := DecodeFields(f.ltype.fields, x, into, {}); if m.None? then None else Some((Message(m.value), rest))
  {
    TakePrefixed(x, rest);
    hide DecodeFields, TakeString, WellFormed, StructTyped, Base128;
  }

  /** A submessage that is sent twice is merged: the second is decoded into what the first has made, and both
      come to the same as one submessage with the bytes of the two. */
  lemma SentTwiceIsMerged(f: Field, x: seq<byte>, y: seq<byte>, rest: seq<byte>, into: seq<Slot>)
    requires FieldWellFormed(f) && InPlace(f) && StructTyped(f.ltype.fields, into) && |x| + |y| < TWO_32
    requires Walk(f.ltype.fields, x, into).Some? && AllRequired(f.ltype.fields, Walk(f.ltype.fields, x, into).value.1)
    ensures var m := Walk(f.ltype.fields, x, into).value.0;
      && DecodeOver(f, WithLength(x, rest), Message(into)) == Some((Message(m), rest))
      && (DecodeOver(f, WithLength(y, rest), Message(m)).Some? ==>
            DecodeOver(f, WithLength(x + y, rest), Message(into)) == DecodeOver(f, WithLength(y, rest), Message(m)))
  {
    hide DecodeFields, Walk, WellFormed, StructTyped, WithLength, DecodeOver, AllRequired;
    var gs := f.ltype.fields;
    var (m, met) := Walk(gs, x, into).value;
    SubmessageDecoded(f, x, rest, into);
    SubmessageDecoded(f, y, rest, m);
    SubmessageDecoded(f, x + y, rest, into);
    DecodeInParts(gs, x, [], into, {});
    DecodeInParts(gs, x, y, into, {});
    assert x + [] == x && {} + met == met;
    NothingLeft(gs, m, met);
    if DecodeFields(gs, y, m, {}).Some? {
      SeenBefore(gs, y, m, {}, met);
    }
  }

  /** And the slot of such a field is decoded over what it holds. */
  lemma SlotIsMerged(f: Field, wireType: nat, s: seq<byte>, slot: Slot)
    requires FieldWellFormed(f) && InPlace(f) && SlotTyped(f, slot)
    ensures var r, v := DecodeSlot(f, wireType, s, slot), DecodeOver(f, s, slot.value);
      (r.Some? <==> v.Some?) && (r.Some? ==> r.value.0.value == v.value.0 && r.value.1 == v.value.1 && (f.rule.Optional? ==> r.value.0.has))
  {
    hide DecodeOver, Typed;
  }
}
