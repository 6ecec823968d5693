/** Internal keys and the reading of a set of entries at a snapshot.

    A user key stands for its position in the user comparator's total order: every
    statement of this project mentions finitely many user keys, and only compares them. */
module Keys {

  datatype Option<+T> = None | Some(value: T)

  type byte = b: int | 0 <= b < 256
  type UserKey = int
  type Value = seq<byte>

  // The sequence number and the type share 64 bits, so 56 are left for the number.
  const MAX_SEQUENCE: nat := 0xFF_FFFF_FFFF_FFFF
  type SequenceNumber = s: nat | s <= MAX_SEQUENCE

  // kTypeDeletion = 0, kTypeValue = 1
  datatype ValueType = Deletion | Put

  datatype Entry = Entry(key: UserKey, sequence: SequenceNumber, kind: ValueType, value: Value)

  function PackSequenceAndType(sequence: SequenceNumber, kind: ValueType): nat {
    sequence * 256 + if kind == Put then 1 else 0
  }

  function Tag(e: Entry): nat {
    PackSequenceAndType(e.sequence, e.kind)
  }

  /** InternalKeyComparator: user keys ascending, then packed tags descending. */
  predicate Precedes(key0: UserKey, tag0: nat, key1: UserKey, tag1: nat) {
    key0 < key1 || (key0 == key1 && tag0 > tag1)
  }

  predicate Before(a: Entry, b: Entry) {
    Precedes(a.key, Tag(a), b.key, Tag(b))
  }

  predicate Sorted(es: seq<Entry>) {
    forall i, j :: 0 <= i < j < |es| ==> Before(es[i], es[j])
  }

  function Entries(es: seq<Entry>): set<Entry> {
    set e | e in es
  }

  // ---------- reading at a snapshot ----------

  predicate Visible(e: Entry, k: UserKey, s: nat) {
    e.key == k && e.sequence <= s
  }

  ghost predicate IsNewest(db: set<Entry>, k: UserKey, s: nat, e: Entry) {
    && e in db
    && Visible(e, k, s)
    && forall f :: f in db && Visible(f, k, s) ==> Tag(f) <= Tag(e)
  }

  /** No two entries compare equal as internal keys. */
  ghost predicate Distinct(db: set<Entry>) {
    forall e, f :: e in db && f in db && e.key == f.key && Tag(e) == Tag(f) ==> e == f
  }

  /** The newest entry of k that a snapshot s sees. */
  ghost function Newest(db: set<Entry>, k: UserKey, s: nat): Option<Entry> {
    if exists e :: IsNewest(db, k, s, e) then
      var e :| IsNewest(db, k, s, e);
      Some(e)
    else
      None
  }

  /** What a reader of k at snapshot s is told: a deletion marker reads as absence. */
  ghost function Read(db: set<Entry>, k: UserKey, s: nat): Option<Value> {
    var e := Newest(db, k, s);
    if e.Some? && e.value.kind == Put then Some(e.value.value) else None
  }

  lemma {:induction false} NewestExists(db: set<Entry>, k: UserKey, s: nat, e: Entry)
    requires e in db && Visible(e, k, s)
    ensures exists n :: IsNewest(db, k, s, n)
    decreases db
  {
    var rest := db - {e};
    if f :| f in rest && Visible(f, k, s) {
      NewestExists(rest, k, s, f);
      var n :| IsNewest(rest, k, s, n);
      if Tag(n) < Tag(e) {
        assert IsNewest(db, k, s, e);
      } else {
        assert IsNewest(db, k, s, n);
      }
    } else {
      assert IsNewest(db, k, s, e);
    }
  }

  lemma NewestIs(db: set<Entry>, k: UserKey, s: nat, e: Entry)
    requires Distinct(db) && IsNewest(db, k, s, e)
    ensures Newest(db, k, s) == Some(e)
  {
    var n := Newest(db, k, s).value;
    assert IsNewest(db, k, s, n);
  }

  lemma NewestIsNone(db: set<Entry>, k: UserKey, s: nat)
    requires forall e :: e in db ==> !Visible(e, k, s)
    ensures Newest(db, k, s) == None
  {
  }

  /** No reader at lo or later can tell the two apart. */
  ghost predicate SameReads(a: set<Entry>, b: set<Entry>, lo: nat) {
    forall k: UserKey, s: nat :: lo <= s ==> Read(a, k, s) == Read(b, k, s)
  }
}
