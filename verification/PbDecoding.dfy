/** nanopb's decoder as the code has it: loops over a stream, proved to compute what the decoding
    functions say. */
module PbDecoding {
  import opened Keys
  import opened LogFormat
  import opened Coding
  import opened PbVarints
  import opened PbStreams
  import opened PbMessages
  import opened PbDecoder
  import opened PbIterator

  method DecInteger(stream: IStream, lt: LType, size: nat) returns (ok: bool, v: FieldValue)
    requires stream.Valid() && (lt.Varint? || lt.UVarint? || lt.SVarint?)
    modifies stream
    ensures stream.Valid() && stream.state + stream.bytesLeft == old(stream.state + stream.bytesLeft)
    ensures ok <==> DecodeInteger(lt, size, old(stream.Rest())).Some?
    ensures ok ==> DecodeInteger(lt, size, old(stream.Rest())) == Some((v, stream.Rest()))
  {
    v := Number(0);
    var n;
    VarintFits(stream.Rest());
    ok, n := stream.DecodeVarint();
    if ok {
      var r := IntegerField(lt, size, n);
      if r.None? {
        return false, v;
      }
      v := r.value;
    }
  }

  method DecFixed(stream: IStream, lt: LType) returns (ok: bool, v: FieldValue)
    requires stream.Valid() && (lt.Fixed32? || lt.Fixed64?)
    modifies stream
    ensures stream.Valid() && stream.state + stream.bytesLeft == old(stream.state + stream.bytesLeft)
    ensures ok <==> DecodeFixed(lt, old(stream.Rest())).Some?
    ensures ok ==> DecodeFixed(lt, old(stream.Rest())) == Some((v, stream.Rest()))
  {
    v := Number(0);
    var b;
    ok, b := stream.Read(if lt.Fixed32? then 4 else 8);
    if ok {
      v := Number(if lt.Fixed32? then DecodeFixed32(b) else DecodeFixed64(b));
    }
  }

  method DecBytes(stream: IStream, size: nat) returns (ok: bool, v: FieldValue)
    requires stream.Valid()
    modifies stream
    ensures stream.Valid() && stream.state + stream.bytesLeft == old(stream.state + stream.bytesLeft)
    ensures ok <==> DecodeBytes(size, old(stream.Rest())).Some?
    ensures ok ==> DecodeBytes(size, old(stream.Rest())) == Some((v, stream.Rest()))
  {
    v := Blob([]);
    var n, eof, b;
    ok, n, eof := stream.DecodeVarint32();
    if !ok || n + BYTES_OFFSET > size {
      return false, v;
    }
    ok, b := stream.Read(n);
    v := Blob(b);
  }

  method DecString(stream: IStream, size: nat) returns (ok: bool, v: FieldValue)
    requires stream.Valid()
    modifies stream
    ensures stream.Valid() && stream.state + stream.bytesLeft == old(stream.state + stream.bytesLeft)
    ensures ok <==> DecodeString(size, old(stream.Rest())).Some?
    ensures ok ==> DecodeString(size, old(stream.Rest())) == Some((v, stream.Rest()))
  {
    v := Blob([]);
    var n, eof, b;
    ok, n, eof := stream.DecodeVarint32();
    if !ok || n + 1 > size {
      return false, v;
    }
    ok, b := stream.Read(n);
    v := Blob(UpToNul(b));
  }

  method DecFixedLengthBytes(stream: IStream, size: nat) returns (ok: bool, v: FieldValue)
    requires stream.Valid()
    modifies stream
    ensures stream.Valid() && stream.state + stream.bytesLeft == old(stream.state + stream.bytesLeft)
    ensures ok <==> DecodeFixedLength(size, old(stream.Rest())).Some?
    ensures ok ==> DecodeFixedLength(size, old(stream.Rest())) == Some((v, stream.Rest()))
  {
    v := Blob(ZeroBytes(size));
    var n, eof, b;
    ok, n, eof := stream.DecodeVarint32();
    if !ok || n == 0 {
      return;
    }
    if n != size {
      return false, v;
    }
    ok, b := stream.Read(size);
    v := Blob(b);
  }

  /** The decoder of the type; a submessage has a stream of its own. */
  method DecValue(stream: IStream, lt: LType, size: nat, into: FieldValue) returns (ok: bool, v: FieldValue)
    requires stream.Valid() && Target(lt, into)
    modifies stream
    ensures ok <==> DecodeValue(lt, size, old(stream.Rest()), into).Some?
    ensures ok ==> stream.Valid() && stream.state + stream.bytesLeft == old(stream.state + stream.bytesLeft)
    ensures ok ==> DecodeValue(lt, size, old(stream.Rest()), into) == Some((v, stream.Rest()))
    decreases lt, 0
  {
    hide DecodeFixed, DecodeBytes, DecodeString, DecodeFixedLength, DecodeInteger, DecodeFields, TakeString,
         WellFormed, StructTyped, Typed;
    match lt {
      case Fixed32 => ok, v := DecFixed(stream, lt);
      case Fixed64 => ok, v := DecFixed(stream, lt);
      case Bytes => ok, v := DecBytes(stream, size);
      case String => ok, v := DecString(stream, size);
      case FixedLengthBytes => ok, v := DecFixedLengthBytes(stream, size);
      case Submessage(fs) =>
        var substream, slots;
        v := into;
        ok, substream := stream.MakeStringSubstream();
        if !ok {
          return;
        }
        ok, slots := DecodeNoInit(substream, fs, into.slots);
        if ok {
          stream.CloseStringSubstream(substream);
          v := Message(slots);
        }
      case _ => ok, v := DecInteger(stream, lt, size);
    }
  }

  method DecPacked(stream: IStream, lt: LType, size: nat, values: seq<FieldValue>, room: nat) returns (ok: bool, vs: seq<FieldValue>)
    requires stream.Valid() && Packable(lt) && forall v :: v in values ==> Typed(lt, size, v)
    modifies stream
    ensures ok <==> DecodePacked(lt, size, old(stream.Rest()), values, room).Some?
    ensures ok ==> stream.Valid() && stream.state + stream.bytesLeft == old(stream.state + stream.bytesLeft)
    ensures ok ==> DecodePacked(lt, size, old(stream.Rest()), values, room) == Some(vs)
    decreases lt, 1
  {
    hide DecodeValue, Typed;
    vs := values;
    while stream.bytesLeft > 0 && |vs| < room
      invariant stream.Valid() && stream.state + stream.bytesLeft == old(stream.state + stream.bytesLeft)
      invariant forall v :: v in vs ==> Typed(lt, size, v)
      invariant DecodePacked(lt, size, old(stream.Rest()), values, room) == DecodePacked(lt, size, stream.Rest(), vs, room)
      decreases stream.bytesLeft
    {
      var v;
      ghost var before := stream.Rest();
      ok, v := DecValue(stream, lt, size, Number(0));
      if !ok {
        return;
      }
      assert |stream.Rest()| < |before| && |before| == stream.bytesLeft + (|before| - |stream.Rest()|);
      vs := vs + [v];
    }
    ok := stream.bytesLeft == 0;
  }

  /** decode_static_field */
  method DecSlot(stream: IStream, f: Field, wireType: nat, slot: Slot) returns (ok: bool, r: Slot)
    requires stream.Valid() && FieldWellFormed(f) && SlotTyped(f, slot)
    modifies stream
    ensures ok <==> DecodeSlot(f, wireType, old(stream.Rest()), slot).Some?
    ensures ok ==> stream.Valid() && stream.state + stream.bytesLeft == old(stream.state + stream.bytesLeft)
    ensures ok ==> DecodeSlot(f, wireType, old(stream.Rest()), slot) == Some((r, stream.Rest()))
    decreases f, 2
  {
    hide DecodeOver, DecodePacked, TakeString, Typed, WellFormed;
    var v, vs;
    r := slot;
    match f.rule {
      case Required =>
        ok, v := DecOver(stream, f, slot.value);
        r := One(v);
      case Singular =>
        ok, v := DecOver(stream, f, slot.value);
        r := One(v);
      case Optional =>
        ok, v := DecOver(stream, f, slot.value);
        r := Maybe(true, v);
      case Oneof(_) =>
        ok, v := DecOver(stream, f, DefaultValue(f));
        r := Choice(Some(v));
      case Repeated =>
        if wireType == WT_STRING && Packable(f.ltype) {
          var substream;
          ok, substream := stream.MakeStringSubstream();
          if !ok {
            return;
          }
          ok, vs := DecPacked(substream, f.ltype, f.dataSize, slot.values, f.arraySize);
          if ok {
            stream.CloseStringSubstream(substream);
            r := Many(vs);
          }
        } else {
          if |slot.values| >= f.arraySize {
            return false, r;
          }
          ok, v := DecOver(stream, f, DefaultValue(f));
          r := Many(slot.values + [v]);
        }
    }
  }

  method DecOver(stream: IStream, f: Field, into: FieldValue) returns (ok: bool, v: FieldValue)
    requires stream.Valid() && FieldWellFormed(f) && Typed(f.ltype, f.dataSize, into)
    modifies stream
    ensures ok <==> DecodeOver(f, old(stream.Rest()), into).Some?
    ensures ok ==> stream.Valid() && stream.state + stream.bytesLeft == old(stream.state + stream.bytesLeft)
    ensures ok ==> DecodeOver(f, old(stream.Rest()), into) == Some((v, stream.Rest()))
    decreases f, 1
  {
    ok, v := DecValue(stream, f.ltype, f.dataSize, into);
  }

  /** What follows a tag: the field of that tag, or something to skip. */
  method DecField(stream: IStream, fs: seq<Field>, wireType: nat, tag: nat, iter: FieldIter, bits: SeenFields,
                  dest: seq<Slot>, ghost s: seq<byte>, ghost seen: set<nat>)
      returns (ok: bool, slots: seq<Slot>, ghost seen': set<nat>)
    requires stream.Valid() && WellFormed(fs) && StructTyped(fs, dest)
    requires iter.Valid() && iter.fields == fs && bits.Valid() && bits.Bits() == SeenBits(fs, seen)
    requires s != [] && DecodeTag(s) == Some(((tag, wireType), stream.Rest()))
    modifies stream, iter, bits
    ensures !ok ==> DecodeFields(fs, s, dest, seen) == None
    ensures ok ==> stream.Valid() && stream.state + stream.bytesLeft == old(stream.state + stream.bytesLeft)
    ensures ok ==> |stream.Rest()| <= |old(stream.Rest())|
    ensures ok ==> StructTyped(fs, slots) && iter.Valid() && bits.Valid() && bits.Bits() == SeenBits(fs, seen')
    ensures ok ==> DecodeFields(fs, s, dest, seen) == DecodeFields(fs, stream.Rest(), slots, seen')
    decreases fs, 2
  {
    hide DecodeFields, WellFormed, StructTyped, DecodeSlot, SeenBits, AllRequired, Store, DecodeTag, EndsEarly,
         FieldWellFormed, SlotTyped, AfterField, RequiredIndex;
    DecodeFieldsStep(fs, s, dest, seen);
    slots, seen' := dest, seen;
    var found := iter.Find(tag);
    if found && fs == [] {
      return false, slots, seen';  // no integer has the size of the terminator
    }
    if !found {
      ok := stream.SkipField(wireType);
    } else {
      FoundIs(fs, iter.pos, tag);
      OneMoreSeen(fs, seen, iter.pos);
      if fs[iter.pos].rule.Required? && iter.requiredIndex < MAX_REQUIRED_FIELDS {
        bits.Set(iter.requiredIndex);
      }
      var slot;
      ok, slot := DecSlot(stream, fs[iter.pos], wireType, slots[iter.pos]);
      if ok {
        slots := Store(fs, slots, iter.pos, slot);
        seen' := seen + {iter.pos};
      }
    }
  }

  /** pb_decode_noinit: tag after tag, until the bytes end or a zero tag comes. */
  method DecodeNoInit(stream: IStream, fs: seq<Field>, dest: seq<Slot>) returns (ok: bool, slots: seq<Slot>)
    requires stream.Valid() && WellFormed(fs) && StructTyped(fs, dest)
    modifies stream
    ensures ok <==> DecodeFields(fs, old(stream.Rest()), dest, {}).Some?
    ensures ok ==> stream.Valid() && stream.state + stream.bytesLeft == old(stream.state + stream.bytesLeft)
    ensures ok ==> DecodeFields(fs, old(stream.Rest()), dest, {}) == Some(slots)
    decreases fs, 3
  {
    hide DecodeFields, WellFormed, StructTyped, SeenBits, AllRequired, DecodeTag, EndsEarly;
    ghost var start, total := stream.Rest(), stream.state + stream.bytesLeft;
    ghost var seen: set<nat> := {};
    NothingSeen(fs);
    var bits := new SeenFields();
    var iter := new FieldIter(fs, 0);
    slots := dest;
    var done := false;
    while stream.bytesLeft > 0 && !done
      invariant stream.Valid() && stream.state + stream.bytesLeft == total
      invariant StructTyped(fs, slots) && iter.Valid() && iter.fields == fs && bits.Valid() && bits.Bits() == SeenBits(fs, seen)
      invariant !done ==> DecodeFields(fs, start, dest, {}) == DecodeFields(fs, stream.Rest(), slots, seen)
      invariant done ==> DecodeFields(fs, start, dest, {}) == if AllRequired(fs, seen) then Some(slots) else None
      decreases if done then 0 else 1, stream.bytesLeft
    {
      var wireType, tag, eof;
      ghost var s := stream.Rest();
      DecodeFieldsStep(fs, s, slots, seen);
      ok, wireType, tag, eof := stream.ReadTag();
      if !ok {
        if !eof {
          return;
        }
        done := true;
      } else {
        ok, slots, seen := DecField(stream, fs, wireType, tag, iter, bits, slots, s, seen);
        if !ok {
          return;
        }
        assert stream.bytesLeft == |stream.Rest()|;
      }
    }
    if !done {
      assert stream.Rest() == [];
      DecodeFieldsStep(fs, stream.Rest(), slots, seen);
    }
    var count := CountRequired(iter);
    BitsTellRequired(fs, seen);
    ghost var all := bits.Bits();
    assert all == SeenBits(fs, seen) && count == RequiredCount(fs);
    ok := bits.Check(count);
    assert bits.Bits() == all;
  }

  lemma DecodeFieldsStep(fs: seq<Field>, s: seq<byte>, slots: seq<Slot>, seen: set<nat>)
    requires WellFormed(fs) && StructTyped(fs, slots)
    ensures s == [] || EndsEarly(s) ==> DecodeFields(fs, s, slots, seen) == if AllRequired(fs, seen) then Some(slots) else None
    ensures s != [] && !EndsEarly(s) && DecodeTag(s).None? ==> DecodeFields(fs, s, slots, seen) == None
    ensures s != [] && DecodeTag(s).Some? ==>
      var ((tag, wireType), rest) := DecodeTag(s).value;
      var i := Find(fs, tag);
      && (fs == [] && tag == 0 ==> DecodeFields(fs, s, slots, seen) == None)
      && (i == |fs| && !(fs == [] && tag == 0) ==>
            DecodeFields(fs, s, slots, seen) ==
              if AfterField(rest, wireType).None? then None else DecodeFields(fs, AfterField(rest, wireType).value, slots, seen))
      && (i < |fs| ==>
            && FieldWellFormed(fs[i]) && |slots| == |fs| && SlotTyped(fs[i], slots[i])
            && var slot := DecodeSlot(fs[i], wireType, rest, slots[i]);
               DecodeFields(fs, s, slots, seen) ==
                 if slot.None? then None else DecodeFields(fs, slot.value.1, Store(fs, slots, i, slot.value.0), seen + {i}))
  {
    hide DecodeSlot, Store, AllRequired;
  }

  lemma NothingSeen(fs: seq<Field>)
    ensures SeenBits(fs, {}) == {}
  {
  }

  lemma FoundIs(fs: seq<Field>, i: nat, tag: nat)
    requires WellFormed(fs) && i < |fs| && fs[i].tag == tag
    ensures Find(fs, tag) == i
  {
  }

  lemma OneMoreSeen(fs: seq<Field>, seen: set<nat>, i: nat)
    requires i < |fs|
    ensures SeenBits(fs, seen + {i}) == SeenBits(fs, seen) +
      if fs[i].rule.Required? && RequiredIndex(fs, i) < MAX_REQUIRED_FIELDS then {RequiredIndex(fs, i)} else {}
  {
  }

  /** The number of required fields, found by stepping to the end; at most 64. */
  method CountRequired(iter: FieldIter) returns (count: nat)
    requires iter.Valid()
    modifies iter
    ensures count == RequiredCount(iter.fields)
  {
    var lastRequired := iter.fields != [] && iter.fields[iter.pos].rule.Required?;
    count := iter.requiredIndex;
    var more := iter.Next();
    while more
      invariant iter.Valid() && (iter.fields == [] ==> !more && count == 0 && !lastRequired)
      invariant iter.fields != [] ==> var last := if more then iter.pos - 1 else |iter.fields| - 1;
        0 <= last < |iter.fields| && count == RequiredIndex(iter.fields, last) && lastRequired == iter.fields[last].rule.Required?
      decreases if more then |iter.fields| - iter.pos else 0
    {
      count := iter.requiredIndex;
      lastRequired := iter.fields[iter.pos].rule.Required?;
      more := iter.Next();
    }
    if lastRequired {
      count := count + 1;
    }
    assert iter.fields != [] ==> count == RequiredIndex(iter.fields, |iter.fields|);
    if count > MAX_REQUIRED_FIELDS {
      count := MAX_REQUIRED_FIELDS;
    }
  }

  /** pb_decode: defaults first. */
  method DecodeMessage(stream: IStream, fs: seq<Field>) returns (ok: bool, slots: seq<Slot>)
    requires stream.Valid() && WellFormed(fs)
    modifies stream
    ensures ok <==> Decode(fs, old(stream.Rest())).Some?
    ensures ok ==> Decode(fs, old(stream.Rest())) == Some(slots)
  {
    ok, slots := DecodeNoInit(stream, fs, Defaults(fs));
  }
}
