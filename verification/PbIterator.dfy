/** nanopb's field iterator, and the bitmap of required fields that the decoder keeps with its help. */
module PbIterator {
  import opened PbMessages
  import opened PbDecoder

  // ---------- where a field lies ----------

  function SlotSize(f: Field): nat {
    if f.rule.Repeated? then f.dataSize * f.arraySize else f.dataSize
  }

  /** The next field of a union stays where it is. */
  predicate InsideUnion(previous: Field, f: Field) {
    previous.rule.Oneof? && f.rule.Oneof? && f.dataOffset == PB_SIZE_MAX
  }

  function DataOffset(fs: seq<Field>, i: nat): int
    requires i < |fs|
  {
    if i == 0 then fs[0].dataOffset
    else if InsideUnion(fs[i - 1], fs[i]) then DataOffset(fs, i - 1)
    else DataOffset(fs, i - 1) + SlotSize(fs[i - 1]) + fs[i].dataOffset
  }

  function SizeOffset(fs: seq<Field>, i: nat): int
    requires i < |fs|
  {
    if i > 0 && InsideUnion(fs[i - 1], fs[i]) then SizeOffset(fs, i - 1) else DataOffset(fs, i) + fs[i].sizeOffset
  }

  class FieldIter {
    const fields: seq<Field>
    const destStruct: int
    var pos: nat
    var requiredIndex: nat
    var pData: int
    var pSize: int

    /** Everything the iterator knows follows from its position, however it got there. */
    ghost predicate Valid()
      reads this
    {
      if fields == [] then pos == 0 && requiredIndex == 0 && pData == destStruct && pSize == destStruct
      else
        && pos < |fields| && requiredIndex == RequiredIndex(fields, pos)
        && pData == destStruct + DataOffset(fields, pos) && pSize == destStruct + SizeOffset(fields, pos)
    }

    constructor (fields: seq<Field>, destStruct: int)
      ensures Valid() && pos == 0 && this.fields == fields && this.destStruct == destStruct
    {
      this.fields, this.destStruct := fields, destStruct;
      pos, requiredIndex, pData, pSize := 0, 0, destStruct, destStruct;
      new;
      Begin();
    }

    method Begin()
      modifies this
      ensures Valid() && pos == 0
    {
      pos, requiredIndex := 0, 0;
      pData := destStruct + if fields == [] then 0 else fields[0].dataOffset;
      pSize := pData + if fields == [] then 0 else fields[0].sizeOffset;
    }

    /** False when it has come round to the first field again. */
    method Next() returns (more: bool)
      requires Valid()
      modifies this
      ensures Valid() && more == (old(pos) + 1 < |fields|)
      ensures pos == if more then old(pos) + 1 else 0
    {
      if fields == [] {
        return false;
      }
      var previous := fields[pos];
      pos := pos + 1;
      if pos == |fields| {
        Begin();
        return false;
      }
      more := true;
      var previousSize := previous.dataSize;
      if previous.rule.Oneof? && fields[pos].rule.Oneof? && fields[pos].dataOffset == PB_SIZE_MAX {
        return;
      } else if previous.rule.Repeated? {
        previousSize := previousSize * previous.arraySize;
      }
      if previous.rule.Required? {
        requiredIndex := requiredIndex + 1;
      }
      pData := pData + previousSize + fields[pos].dataOffset;
      pSize := pData + fields[pos].sizeOffset;
    }

    /** From where it stands, once around at most. */
    method Find(tag: nat) returns (found: bool)
      requires Valid()
      modifies this
      ensures Valid()
      ensures fields != [] ==> (found <==> exists i :: 0 <= i < |fields| && fields[i].tag == tag)
      ensures fields != [] ==> if found then fields[pos].tag == tag else pos == old(pos)
      ensures fields == [] ==> (found <==> tag == 0) && pos == old(pos)
    {
      if fields == [] {
        return tag == 0;  // the terminator is a field like any other here
      }
      var start := pos;
      ghost var steps := 0;
      while true
        invariant Valid() && 0 <= steps < |fields|
        invariant pos == if start + steps < |fields| then start + steps else start + steps - |fields|
        invariant forall i :: 0 <= i < |fields| && (start <= i < start + steps || i + |fields| < start + steps) ==> fields[i].tag != tag
        decreases |fields| - steps
      {
        if fields[pos].tag == tag {
          return true;
        }
        var more := Next();
        steps := steps + 1;
        if pos == start {
          return false;
        }
      }
    }
  }

  // ---------- required fields ----------

  lemma {:induction false} RequiredIndexGrows(fs: seq<Field>, i: nat, j: nat)
    requires i <= j <= |fs|
    ensures RequiredIndex(fs, i) <= RequiredIndex(fs, j)
    ensures i < j && fs[i].rule.Required? ==> RequiredIndex(fs, i) < RequiredIndex(fs, j)
    decreases j
  {
    if i < j {
      RequiredIndexGrows(fs, i, j - 1);
    }
  }

  lemma {:induction false} RequiredFieldAt(fs: seq<Field>, k: nat, n: nat) returns (i: nat)
    requires n <= |fs| && k < RequiredIndex(fs, n)
    ensures i < n && fs[i].rule.Required? && RequiredIndex(fs, i) == k
    decreases n
  {
    if RequiredIndex(fs, n - 1) == k {
      i := n - 1;
    } else {
      i := RequiredFieldAt(fs, k, n - 1);
    }
  }

  /** The bits that the decoder sets for the fields it has seen. */
  ghost function SeenBits(fs: seq<Field>, seen: set<nat>): set<nat> {
    set i | i in seen && i < |fs| && fs[i].rule.Required? && RequiredIndex(fs, i) < MAX_REQUIRED_FIELDS :: RequiredIndex(fs, i)
  }

  function RequiredCount(fs: seq<Field>): nat {
    var n := RequiredIndex(fs, |fs|);
    if n > MAX_REQUIRED_FIELDS then MAX_REQUIRED_FIELDS else n
  }

  /** All bits are set if and only if every required field, among the first 64, has been seen. */
  lemma BitsTellRequired(fs: seq<Field>, seen: set<nat>)
    ensures AllRequired(fs, seen) <==> forall k: nat :: k < RequiredCount(fs) ==> k in SeenBits(fs, seen)
    ensures forall k :: k in SeenBits(fs, seen) ==> k < RequiredCount(fs)
  {
    forall k | k in SeenBits(fs, seen) ensures k < RequiredCount(fs) {
      var i :| i in seen && i < |fs| && fs[i].rule.Required? && RequiredIndex(fs, i) == k;
      RequiredIndexGrows(fs, i, |fs|);
    }
    if AllRequired(fs, seen) {
      forall k: nat | k < RequiredCount(fs) ensures k in SeenBits(fs, seen) {
        var i := RequiredFieldAt(fs, k, |fs|);
        assert i in seen;
      }
    }
    if forall k: nat :: k < RequiredCount(fs) ==> k in SeenBits(fs, seen) {
      forall i | 0 <= i < |fs| && fs[i].rule.Required? && RequiredIndex(fs, i) < MAX_REQUIRED_FIELDS ensures i in seen {
        RequiredIndexGrows(fs, i, |fs|);
        var k := RequiredIndex(fs, i);
        assert k in SeenBits(fs, seen);
        var j :| j in seen && j < |fs| && fs[j].rule.Required? && RequiredIndex(fs, j) == k;
        if i < j {
          RequiredIndexGrows(fs, i, j);
        } else if j < i {
          RequiredIndexGrows(fs, j, i);
        }
      }
    }
  }

  /** A word of 32 bits, as the set of those that are one. */
  type Word = set<nat>

  function LowBits(n: nat): (w: Word)
    ensures forall k: nat :: k in w <==> k < n
  {
    if n == 0 then {} else LowBits(n - 1) + {n - 1}
  }

  class SeenFields {
    var low: Word
    var high: Word

    constructor ()
      ensures Bits() == {} && Valid()
    {
      low, high := {}, {};
    }

    ghost predicate Valid()
      reads this
    {
      (forall k :: k in low ==> k < 32) && (forall k :: k in high ==> k < 32)
    }

    ghost predicate IsSet(b: nat)
      reads this
    {
      if b < 32 then b in low else b - 32 in high
    }

    ghost function Bits(): set<nat>
      reads this
    {
      set b: nat | b < MAX_REQUIRED_FIELDS && IsSet(b)
    }

    /** fields_seen[index >> 5] |= 1 << (index & 31) */
    method Set(index: nat)
      requires Valid() && index < MAX_REQUIRED_FIELDS
      modifies this
      ensures Valid() && Bits() == old(Bits()) + {index}
    {
      if index / 32 == 0 {
        low := low + {index % 32};
      } else {
        high := high + {index % 32};
      }
    }

    /** Whole words first, then the bits that remain. */
    method Check(count: nat) returns (complete: bool)
      requires Valid() && count <= MAX_REQUIRED_FIELDS && forall b :: b in Bits() ==> b < count
      ensures complete <==> forall b: nat :: b < count ==> b in Bits()
    {
      complete := true;
      var i := 0;
      while i < count / 32
        invariant 0 <= i <= count / 32
        invariant complete && forall b: nat :: b < 32 * i ==> b in Bits()
      {
        var word := if i == 0 then low else high;
        if word != LowBits(32) {
          var k :| k in LowBits(32) && k !in word;
          assert 32 * i + k !in Bits();
          return false;
        }
        forall b: nat | 32 * i <= b < 32 * i + 32 ensures b in Bits() {
          assert b - 32 * i in word;
        }
        i := i + 1;
      }
      if count % 32 != 0 {
        var word := if count / 32 == 0 then low else high;
        if word != LowBits(count % 32) {
          RestDiffers(word, count);
          return false;
        }
        forall b: nat | 32 * i <= b < count ensures b in Bits() {
          assert b - 32 * i in word;
        }
      }
    }

    lemma RestDiffers(word: Word, count: nat)
      requires Valid() && count < MAX_REQUIRED_FIELDS && word == (if count / 32 == 0 then low else high) && word != LowBits(count % 32)
      requires forall b :: b in Bits() ==> b < count
      ensures exists b: nat :: b < count && b !in Bits()
    {
      forall k | k in word ensures k in LowBits(count % 32) {
        assert count / 32 * 32 + k in Bits();
      }
      var k :| k in LowBits(count % 32) && k !in word;
      assert count / 32 * 32 + k !in Bits();
    }
  }
}
