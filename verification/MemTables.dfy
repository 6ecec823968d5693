/** The memtable: entries and lookup keys as bytes, kept in a skip list. */
module MemTables {
  import opened Keys
  import opened LogFormat
  import opened Coding
  import opened SkipLists

  // ---------- bytes ----------

  /** AppendInternalKey */
  function InternalKeyBytes(key: seq<byte>, tag: nat): (b: seq<byte>)
    requires tag < TWO_64
    ensures |b| == |key| + 8
  {
    key + EncodeFixed64(tag)
  }

  function TagOf(sequence: SequenceNumber, kind: ValueType): (tag: nat)
    ensures tag < TWO_64
  {
    PackSequenceAndType(sequence, kind)
  }

  datatype Addition = Addition(key: seq<byte>, sequence: SequenceNumber, kind: ValueType, value: seq<byte>)

  predicate Fits(key: seq<byte>, value: seq<byte>) {
    |key| + 8 < TWO_32 && |value| < TWO_32
  }

  /** The buffer that Add fills. */
  function EntryBytes(a: Addition): seq<byte>
    requires Fits(a.key, a.value)
  {
    VarString(InternalKeyBytes(a.key, TagOf(a.sequence, a.kind))) + VarString(a.value)
  }

  /** LookupKey: sorts before every entry of the key that the snapshot sees, after all others. */
  function LookupBytes(key: seq<byte>, snapshot: SequenceNumber): seq<byte>
    requires |key| + 8 < TWO_32
  {
    VarString(InternalKeyBytes(key, TagOf(snapshot, Put)))
  }

  function UserKeyOf(internal: seq<byte>): seq<byte>
    requires |internal| >= 8
  {
    internal[..|internal| - 8]
  }

  function TagIn(internal: seq<byte>): nat
    requires |internal| >= 8
  {
    DecodeFixed64(internal[|internal| - 8..])
  }

  /** What KeyComparator compares: the user key's place in the user's order, and the tag. */
  function KeyOf(buffer: seq<byte>, rank: seq<byte> -> UserKey): Key {
    var internal := GetLengthPrefixedSlice(buffer);
    if internal.Some? && |internal.value.0| >= 8 then Key(rank(UserKeyOf(internal.value.0)), TagIn(internal.value.0))
    else Key(0, 0)
  }

  lemma InternalKeyParts(key: seq<byte>, tag: nat)
    requires tag < TWO_64
    ensures UserKeyOf(InternalKeyBytes(key, tag)) == key && TagIn(InternalKeyBytes(key, tag)) == tag
  {
    hide EncodeFixed64, DecodeFixed64;
    DecodeEncodeFixed64(tag);
    assert InternalKeyBytes(key, tag)[|key|..] == EncodeFixed64(tag);
  }

  lemma EntryParts(a: Addition, rank: seq<byte> -> UserKey)
    requires Fits(a.key, a.value)
    ensures GetLengthPrefixedSlice(EntryBytes(a)) == Some((InternalKeyBytes(a.key, TagOf(a.sequence, a.kind)), |EntryBytes(a)| - |VarString(a.value)|))
    ensures GetLengthPrefixedSlice(EntryBytes(a)[|EntryBytes(a)| - |VarString(a.value)|..]) == Some((a.value, |VarString(a.value)|))
    ensures KeyOf(EntryBytes(a), rank) == Key(rank(a.key), TagOf(a.sequence, a.kind))
  {
    hide EncodeFixed64, DecodeFixed64, GetLengthPrefixedSlice, VarString;
    var internal := InternalKeyBytes(a.key, TagOf(a.sequence, a.kind));
    InternalKeyParts(a.key, TagOf(a.sequence, a.kind));
    GetVarString(internal, VarString(a.value));
    GetVarString(a.value, []);
    assert EntryBytes(a)[|VarString(internal)|..] == VarString(a.value) + [];
  }

  lemma LookupParts(key: seq<byte>, snapshot: SequenceNumber, rank: seq<byte> -> UserKey)
    requires |key| + 8 < TWO_32
    ensures KeyOf(LookupBytes(key, snapshot), rank) == Key(rank(key), TagOf(snapshot, Put))
  {
    hide EncodeFixed64, DecodeFixed64, GetLengthPrefixedSlice, VarString;
    var internal := InternalKeyBytes(key, TagOf(snapshot, Put));
    InternalKeyParts(key, TagOf(snapshot, Put));
    GetVarString(internal, []);
    assert VarString(internal) + [] == VarString(internal);
  }

  // ---------- one seek answers a lookup ----------

  function EntryOf(a: Addition, rank: seq<byte> -> UserKey): Entry {
    Entry(rank(a.key), a.sequence, a.kind, a.value)
  }

  /** The packed lookup key divides a key's entries into those the snapshot sees, which come after it
      newest first, and the others. */
  lemma LookupDivides(e: Entry, k: UserKey, snapshot: SequenceNumber)
    ensures e.key == k ==> (Visible(e, k, snapshot) <==> !Less(Key(e.key, Tag(e)), Key(k, TagOf(snapshot, Put))))
  {
  }

  // ---------- the memtable ----------

  ghost predicate Represents(s: List, added: seq<Addition>, rank: seq<byte> -> UserKey) {
    && Linked(s) && s.entering == NIL && |added| == |s.keys|
    && forall n :: 1 <= n < |added| ==> s.keys[n] == Key(rank(added[n].key), TagOf(added[n].sequence, added[n].kind))
  }

  ghost function EntriesOf(added: seq<Addition>, rank: seq<byte> -> UserKey): set<Entry> {
    set n | 1 <= n < |added| :: EntryOf(added[n], rank)
  }

  ghost predicate Holds(buffers: seq<seq<byte>>, added: seq<Addition>) {
    && 1 <= |buffers| == |added|
    && forall n :: 1 <= n < |added| ==> Fits(added[n].key, added[n].value) && buffers[n] == EntryBytes(added[n])
  }

  class MemTable {
    const rank: seq<byte> -> UserKey
    const table: SkipList
    var buffers: seq<seq<byte>>       // by node; the head has none
    ghost var added: seq<Addition>    // likewise

    ghost predicate Valid()
      reads this, table
    {
      table.Valid() && Holds(buffers, added) && Represents(table.Abs(), added, rank)
    }

    ghost function Contents(): set<Entry>
      reads this
    {
      EntriesOf(added, rank)
    }

    constructor (rank: seq<byte> -> UserKey)
      ensures Valid() && fresh(table) && this.rank == rank && Contents() == {}
    {
      this.rank := rank;
      table := new SkipList();
      buffers, added := [[]], [Addition([], 0, Put, [])];
    }

    method Add(sequence: SequenceNumber, kind: ValueType, key: seq<byte>, value: seq<byte>, height: nat)
      requires Valid() && Fits(key, value) && 1 <= height <= MAX_HEIGHT
      requires forall e :: e in Contents() ==> e.key != rank(key) || Tag(e) != TagOf(sequence, kind)
      modifies this`buffers, this`added, table
      ensures Valid() && Contents() == old(Contents()) + {Entry(rank(key), sequence, kind, value)}
    {
      hide Linked, SkipLists.Contents, EntryBytes, KeyOf;
      var a := Addition(key, sequence, kind, value);
      var buffer := EntryBytes(a);
      EntryParts(a, rank);
      ContentsHas(added, rank);
      NotInTable(table.Abs(), added, rank, a);
      table.Insert(KeyOf(buffer, rank), height);
      buffers, added := buffers + [buffer], added + [a];
      OneMore(old(added), a, rank);
    }

    /** True if the memtable knows about the key at the snapshot: its value, or that it was deleted. */
    method Get(key: seq<byte>, snapshot: SequenceNumber) returns (found: bool, value: Option<seq<byte>>)
      requires Valid() && |key| + 8 < TWO_32
      ensures found <==> Newest(Contents(), rank(key), snapshot).Some?
      ensures found ==> value == Read(Contents(), rank(key), snapshot)
    {
      hide Linked, SkipLists.Contents, EntryBytes, KeyOf, IsBound, Newest, LookupBytes, Represents,
           GetLengthPrefixedSlice, EntriesOf;
      var iter := new Iterator(table);
      LookupParts(key, snapshot, rank);
      iter.Seek(KeyOf(LookupBytes(key, snapshot), rank));
      SeekFindsNewest(table.Abs(), added, rank, rank(key), snapshot, iter.node);
      found, value := false, None;
      if iter.node != NIL {
        var userKey, v := ReadEntry(iter.node);
        if rank(userKey) == rank(key) {
          found, value := true, v;
        }
      }
    }

    /** What the buffer of a node says: the user key; and the value, if the tag's low byte is that of a put. */
    method ReadEntry(node: nat) returns (userKey: seq<byte>, value: Option<seq<byte>>)
      requires Holds(buffers, added) && 1 <= node < |added|
      ensures userKey == added[node].key && value == if added[node].kind == Put then Some(added[node].value) else None
    {
      hide EntryBytes, KeyOf, GetLengthPrefixedSlice, UserKeyOf, TagIn, InternalKeyBytes;
      var entry := buffers[node];
      EntryParts(added[node], rank);
      InternalKeyParts(added[node].key, TagOf(added[node].sequence, added[node].kind));
      var internal := GetLengthPrefixedSlice(entry).value;
      userKey := UserKeyOf(internal.0);
      match TagIn(internal.0) % 256 {
        case 1 => value := Some(GetLengthPrefixedSlice(entry[internal.1..]).value.0);
        case _ => value := None;
      }
    }
  }

  lemma OneMore(added: seq<Addition>, a: Addition, rank: seq<byte> -> UserKey)
    requires |added| >= 1
    ensures EntriesOf(added + [a], rank) == EntriesOf(added, rank) + {EntryOf(a, rank)}
  {
    var more := added + [a];
    assert more[|added|] == a;
    assert forall n :: 1 <= n < |added| ==> more[n] == added[n];
  }

  lemma ContentsHas(added: seq<Addition>, rank: seq<byte> -> UserKey)
    ensures forall n :: 1 <= n < |added| ==> EntryOf(added[n], rank) in EntriesOf(added, rank)
  {
  }

  lemma NotInTable(s: List, added: seq<Addition>, rank: seq<byte> -> UserKey, a: Addition)
    requires Represents(s, added, rank)
    requires forall n :: 1 <= n < |added| ==> rank(added[n].key) != rank(a.key) || TagOf(added[n].sequence, added[n].kind) != TagOf(a.sequence, a.kind)
    ensures Key(rank(a.key), TagOf(a.sequence, a.kind)) !in SkipLists.Contents(s)
  {
  }

  lemma NoneOfTheKey(s: List, target: Key, node: int, n: int)
    requires In(s, 0, n) && exists before :: IsBound(s, Some(target), before, node)
    requires node == NIL || s.keys[node].user != target.user
    ensures s.keys[n].user == target.user ==> Less(s.keys[n], target)
  {
  }

  /** The first entry at or after the lookup key is the newest that the snapshot sees, if it is of the
      same user key; otherwise there is none. */
  lemma SeekFindsNewest(s: List, added: seq<Addition>, rank: seq<byte> -> UserKey, k: UserKey, snapshot: SequenceNumber, node: int)
    requires Represents(s, added, rank)
    requires exists before :: IsBound(s, Some(Key(k, TagOf(snapshot, Put))), before, node)
    ensures node != NIL ==> 1 <= node < |added|
    ensures node != NIL && rank(added[node].key) == k ==> Newest(EntriesOf(added, rank), k, snapshot) == Some(EntryOf(added[node], rank))
    ensures node == NIL || rank(added[node].key) != k ==> Newest(EntriesOf(added, rank), k, snapshot) == None
  {
    var db := EntriesOf(added, rank);
    assert forall n :: 1 <= n < |s.keys| ==> In(s, 0, n);
    assert Distinct(db);
    if node != NIL && rank(added[node].key) == k {
      var e := EntryOf(added[node], rank);
      LookupDivides(e, k, snapshot);
      assert IsNewest(db, k, snapshot, e);
      NewestIs(db, k, snapshot, e);
    } else {
      forall e | e in db ensures !Visible(e, k, snapshot) {
        var n :| 1 <= n < |added| && e == EntryOf(added[n], rank);
        assert s.keys[n] == Key(e.key, Tag(e));
        LookupDivides(e, k, snapshot);
        NoneOfTheKey(s, Key(k, TagOf(snapshot, Put)), node, n);
      }
      NewestIsNone(db, k, snapshot);
    }
  }
}
