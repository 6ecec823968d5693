/** DBIter: a bidirectional cursor over internal entries that shows the user keys and values one
    snapshot sees. It is proved to move like a cursor over the map k -> Read(entries, k, snapshot). */
module DbIter {
  import opened Keys

  // ---------- the plain cursor ----------

  datatype Bound = All | AtLeast(key: UserKey) | Above(key: UserKey) | Below(key: UserKey)

  predicate Within(b: Bound, k: UserKey) {
    match b
    case All => true
    case AtLeast(key) => k >= key
    case Above(key) => k > key
    case Below(key) => k < key
  }

  ghost predicate Present(es: seq<Entry>, s: nat, k: UserKey) {
    Read(Entries(es), k, s).Some?
  }

  ghost predicate IsLeast(es: seq<Entry>, s: nat, b: Bound, k: UserKey) {
    && Present(es, s, k) && Within(b, k)
    && forall k' :: Present(es, s, k') && Within(b, k') ==> k <= k'
  }

  ghost predicate IsGreatest(es: seq<Entry>, s: nat, b: Bound, k: UserKey) {
    && Present(es, s, k) && Within(b, k)
    && forall k' :: Present(es, s, k') && Within(b, k') ==> k' <= k
  }

  ghost function Least(es: seq<Entry>, s: nat, b: Bound): Option<UserKey> {
    if exists k :: IsLeast(es, s, b, k) then
      var k :| IsLeast(es, s, b, k);
      Some(k)
    else None
  }

  ghost function Greatest(es: seq<Entry>, s: nat, b: Bound): Option<UserKey> {
    if exists k :: IsGreatest(es, s, b, k) then
      var k :| IsGreatest(es, s, b, k);
      Some(k)
    else None
  }

  datatype Op = Seek(target: UserKey) | SeekToFirst | SeekToLast | Next | Prev

  /** Where an operation takes the plain cursor; Next and Prev are only called on a position. */
  ghost function Move(es: seq<Entry>, s: nat, at: Option<UserKey>, op: Op): Option<UserKey> {
    match op
    case Seek(target) => Least(es, s, AtLeast(target))
    case SeekToFirst => Least(es, s, All)
    case SeekToLast => Greatest(es, s, All)
    case Next => if at.None? then None else Least(es, s, Above(at.value))
    case Prev => if at.None? then None else Greatest(es, s, Below(at.value))
  }

  datatype Shown = Nothing | Pair(key: UserKey, value: Value)

  ghost function Show(es: seq<Entry>, s: nat, at: Option<UserKey>): Shown {
    if at.Some? && Present(es, s, at.value) then Pair(at.value, Read(Entries(es), at.value, s).value) else Nothing
  }

  ghost function Walk(es: seq<Entry>, s: nat, at: Option<UserKey>, ops: seq<Op>): seq<Shown>
    decreases |ops|
  {
    if ops == [] then []
    else
      var at' := Move(es, s, at, ops[0]);
      [Show(es, s, at')] + Walk(es, s, at', ops[1..])
  }

  /** A step forward is undone by a step backward, and conversely. */
  lemma StepsCancel(es: seq<Entry>, s: nat, k: UserKey, k': UserKey)
    requires Present(es, s, k) && Present(es, s, k')
    ensures Least(es, s, Above(k)) == Some(k') <==> Greatest(es, s, Below(k')) == Some(k)
  {
    if Least(es, s, Above(k)) == Some(k') {
      assert IsLeast(es, s, Above(k), k');
      assert IsGreatest(es, s, Below(k'), k);
    }
    if Greatest(es, s, Below(k')) == Some(k) {
      assert IsGreatest(es, s, Below(k'), k);
      assert IsLeast(es, s, Above(k), k');
    }
  }

  // ---------- yielded entries ----------

  /** Entry i is the newest its key shows to s, and it is a value. */
  predicate Yields(es: seq<Entry>, s: nat, i: nat)
    requires i < |es|
  {
    && es[i].sequence <= s && es[i].kind == Put
    && forall j :: 0 <= j < i && es[j].key == es[i].key ==> es[j].sequence > s
  }

  lemma SortedDistinct(es: seq<Entry>)
    requires Sorted(es)
    ensures Distinct(Entries(es))
  {
    forall e, f | e in Entries(es) && f in Entries(es) && e.key == f.key && Tag(e) == Tag(f)
      ensures e == f
    {
      var i :| 0 <= i < |es| && es[i] == e;
      var j :| 0 <= j < |es| && es[j] == f;
    }
  }

  lemma YieldsRead(es: seq<Entry>, s: nat, i: nat)
    requires Sorted(es) && i < |es| && Yields(es, s, i)
    ensures Read(Entries(es), es[i].key, s) == Some(es[i].value)
  {
    SortedDistinct(es);
    forall f | f in Entries(es) && Visible(f, es[i].key, s) ensures Tag(f) <= Tag(es[i]) {
      var j :| 0 <= j < |es| && es[j] == f;
      assert i < j ==> Before(es[i], es[j]);
    }
    assert IsNewest(Entries(es), es[i].key, s, es[i]);
    NewestIs(Entries(es), es[i].key, s, es[i]);
  }

  lemma PresentYields(es: seq<Entry>, s: nat, k: UserKey) returns (i: nat)
    requires Sorted(es) && Present(es, s, k)
    ensures i < |es| && es[i].key == k && Yields(es, s, i)
  {
    var e := Newest(Entries(es), k, s).value;
    assert IsNewest(Entries(es), k, s, e);
    i :| 0 <= i < |es| && es[i] == e;
    forall j | 0 <= j < i && es[j].key == k ensures es[j].sequence > s {
      assert Before(es[j], es[i]) && es[j] in Entries(es);
      assert Visible(es[j], k, s) <==> es[j].sequence <= s;
    }
  }

  /** Around entry p keys ascend, and a key's entries get older. */
  lemma KeyOrder(es: seq<Entry>, p: nat)
    requires Sorted(es) && p < |es|
    ensures forall j :: p < j < |es| ==> es[j].key >= es[p].key && (es[j].key == es[p].key ==> es[j].sequence <= es[p].sequence)
    ensures forall j :: 0 <= j < p ==> es[j].key <= es[p].key && (es[j].key == es[p].key ==> es[j].sequence >= es[p].sequence)
  {
    assert forall j :: p < j < |es| ==> Before(es[p], es[j]);
    assert forall j :: 0 <= j < p ==> Before(es[j], es[p]);
  }

  lemma YieldOrder(es: seq<Entry>, s: nat, i: nat, j: nat)
    requires Sorted(es) && i < |es| && j < |es| && Yields(es, s, i) && Yields(es, s, j)
    ensures i < j <==> es[i].key < es[j].key
  {
    assert i < j ==> Before(es[i], es[j]);
    assert j < i ==> Before(es[j], es[i]);
  }

  /** The first yielded entry within b sits at the least present key within b. */
  lemma FirstYieldIsLeast(es: seq<Entry>, s: nat, b: Bound, i: nat)
    requires Sorted(es) && i < |es| && Yields(es, s, i) && Within(b, es[i].key)
    requires forall j :: 0 <= j < i && Yields(es, s, j) ==> !Within(b, es[j].key)
    ensures Least(es, s, b) == Some(es[i].key)
  {
    YieldsRead(es, s, i);
    forall k | Present(es, s, k) && Within(b, k) ensures es[i].key <= k {
      var j := PresentYields(es, s, k);
      YieldOrder(es, s, j, i);
    }
    assert IsLeast(es, s, b, es[i].key);
  }

  lemma LastYieldIsGreatest(es: seq<Entry>, s: nat, b: Bound, i: nat)
    requires Sorted(es) && i < |es| && Yields(es, s, i) && Within(b, es[i].key)
    requires forall j :: i < j < |es| && Yields(es, s, j) ==> !Within(b, es[j].key)
    ensures Greatest(es, s, b) == Some(es[i].key)
  {
    YieldsRead(es, s, i);
    forall k | Present(es, s, k) && Within(b, k) ensures k <= es[i].key {
      var j := PresentYields(es, s, k);
      YieldOrder(es, s, i, j);
    }
    assert IsGreatest(es, s, b, es[i].key);
  }

  lemma NoYieldNone(es: seq<Entry>, s: nat, b: Bound)
    requires Sorted(es)
    requires forall j :: 0 <= j < |es| && Yields(es, s, j) ==> !Within(b, es[j].key)
    ensures Least(es, s, b) == None && Greatest(es, s, b) == None
  {
    forall k | Present(es, s, k) ensures !Within(b, k) {
      var j := PresentYields(es, s, k);
    }
  }

  // ---------- going back ----------

  /** What a scan backwards that has come to p knows: the one entry behind p that is yielded and within b, if
      there is one, unless p holds a newer one of its key. */
  ghost predicate Scanned(es: seq<Entry>, s: nat, b: Bound, p: int, found: bool, at: nat) {
    && -1 <= p < |es|
    && (forall j :: p < j < |es| && Within(b, es[j].key) && Yields(es, s, j) ==> found && j == at)
    && (found ==> p < at < |es| && Within(b, es[at].key) && es[at].sequence <= s && es[at].kind == Put)
    && (found ==> forall j :: p < j < at ==> es[j].sequence > s)
  }

  lemma NothingScanned(es: seq<Entry>, s: nat, b: Bound, p: int)
    requires -1 <= p < |es| && forall j :: p < j < |es| && es[j].sequence <= s ==> !Within(b, es[j].key)
    ensures forall at: nat :: Scanned(es, s, b, p, false, at)
  {
  }

  lemma ScanStep(es: seq<Entry>, s: nat, b: Bound, p: nat, found: bool, at: nat)
    requires Sorted(es) && Scanned(es, s, b, p, found, at) && Within(b, es[p].key)
    requires found && es[p].sequence <= s ==> es[p].key >= es[at].key
    ensures var now := es[p].sequence <= s;
      Scanned(es, s, b, p - 1, if now then es[p].kind == Put else found, if now && es[p].kind == Put then p else at)
  {
    KeyOrder(es, p);
    hide Sorted, Within;
  }

  lemma NothingFound(es: seq<Entry>, s: nat, b: Bound, p: int, at: nat)
    requires Sorted(es) && Scanned(es, s, b, p, false, at) && p == -1
    ensures Least(es, s, b) == None && Greatest(es, s, b) == None
  {
    hide Least, Greatest;
    NoYieldNone(es, s, b);
  }

  lemma LastFound(es: seq<Entry>, s: nat, b: Bound, p: int, at: nat)
    requires Sorted(es) && Scanned(es, s, b, p, true, at)
    requires p >= 0 ==> es[p].sequence <= s && es[p].key < es[at].key
    ensures p < at < |es| && Yields(es, s, at) && Greatest(es, s, b) == Some(es[at].key)
    ensures forall j :: p < j < at ==> es[j].sequence > s
  {
    hide Least, Greatest;
    if p >= 0 {
      KeyOrder(es, p);
    }
    assert Yields(es, s, at);
    LastYieldIsGreatest(es, s, b, at);
  }

  // ---------- the inner iterator ----------

  /** The merging iterator's contract: a position in the sorted entries, or invalid. */
  class InternalIterator {
    const entries: seq<Entry>
    var pos: int

    ghost predicate Ok()
      reads this
    {
      Sorted(entries) && -1 <= pos < |entries|
    }

    constructor (entries: seq<Entry>)
      requires Sorted(entries)
      ensures Ok() && this.entries == entries
    {
      this.entries := entries;
      pos := -1;
    }

    predicate Valid()
      reads this
    {
      pos >= 0
    }

    function Current(): Entry
      requires Ok() && Valid()
      reads this
    {
      entries[pos]
    }

    method Next()
      requires Ok() && Valid()
      modifies this
      ensures Ok()
      ensures pos == if old(pos) + 1 < |entries| then old(pos) + 1 else -1
    {
      pos := if pos + 1 < |entries| then pos + 1 else -1;
    }

    method Prev()
      requires Ok() && Valid()
      modifies this
      ensures Ok() && pos == old(pos) - 1
    {
      pos := pos - 1;
    }

    method SeekToFirst()
      requires Ok()
      modifies this
      ensures Ok() && pos == if |entries| > 0 then 0 else -1
    {
      pos := if |entries| > 0 then 0 else -1;
    }

    method SeekToLast()
      requires Ok()
      modifies this
      ensures Ok() && pos == |entries| - 1
    {
      pos := |entries| - 1;
    }

    /** Positions at the first entry at or after the internal key (key, tag). */
    method Seek(key: UserKey, tag: nat)
      requires Ok()
      modifies this
      ensures Ok()
      ensures Valid() ==> !Precedes(entries[pos].key, Tag(entries[pos]), key, tag)
      ensures forall j :: 0 <= j < (if Valid() then pos else |entries|) ==> Precedes(entries[j].key, Tag(entries[j]), key, tag)
    {
      var i := 0;
      while i < |entries| && Precedes(entries[i].key, Tag(entries[i]), key, tag)
        invariant 0 <= i <= |entries|
        invariant forall j :: 0 <= j < i ==> Precedes(entries[j].key, Tag(entries[j]), key, tag)
      {
        i := i + 1;
      }
      pos := if i < |entries| then i else -1;
    }
  }

  // ---------- DBIter ----------

  datatype Direction = Forward | Reverse

  class DBIter {
    const iter: InternalIterator
    const sequence: SequenceNumber
    var savedKey: Option<UserKey>   // None: cleared, or holding a seek target
    var savedValue: Value
    var direction: Direction
    var valid: bool
    ghost var at: nat               // index of the entry shown, while valid

    /** Going forward the inner iterator is at the entry shown. Going backward it is somewhere
        before it: everything in between is too new for the snapshot. */
    ghost predicate Repr()
      reads this, iter
    {
      && iter.Ok()
      && (direction == Reverse ==> valid)
      && (valid ==> at < |iter.entries| && Yields(iter.entries, sequence, at))
      && (valid && direction == Forward ==> iter.pos == at)
      && (direction == Reverse ==>
            && iter.pos < at
            && savedKey == Some(iter.entries[at].key) && savedValue == iter.entries[at].value
            && (iter.Valid() ==> iter.Current().key < iter.entries[at].key)
            && forall j :: iter.pos < j < at ==> iter.entries[j].sequence > sequence)
    }

    /** The key shown, as the plain cursor's position. */
    ghost function Cursor(): Option<UserKey>
      requires Repr()
      reads this, iter
    {
      if valid then Some(iter.entries[at].key) else None
    }

    constructor (iter: InternalIterator, s: SequenceNumber)
      requires iter.Ok()
      ensures Repr() && this.iter == iter && sequence == s && Cursor() == None
    {
      this.iter := iter;
      sequence := s;
      savedKey, savedValue := None, [];
      direction, valid := Forward, false;
    }

    method Key() returns (k: UserKey)
      requires Repr() && valid
      ensures Cursor() == Some(k)
    {
      k := if direction == Forward then iter.Current().key else savedKey.value;
    }

    method Value() returns (v: Value)
      requires Repr() && valid
      ensures Read(Entries(iter.entries), Cursor().value, sequence) == Some(v)
    {
      YieldsRead(iter.entries, sequence, at);
      v := if direction == Forward then iter.Current().value else savedValue;
    }

    method Next()
      requires Repr() && valid
      modifies this, iter
      ensures Repr()
      ensures Cursor() == Least(iter.entries, sequence, Above(old(Cursor()).value))
    {
      ghost var k := Cursor().value;
      ghost var es := iter.entries;
      assert forall j :: at <= j < |es| ==> es[j].key >= k by {
        assert forall j :: at < j < |es| ==> Before(es[at], es[j]);
      }
      assert forall j :: 0 <= j <= at ==> es[j].key <= k by {
        assert forall j :: 0 <= j < at ==> Before(es[j], es[at]);
      }
      if direction == Reverse {
        direction := Forward;
        if !iter.Valid() {
          iter.SeekToFirst();
        } else {
          iter.Next();
        }
        if !iter.Valid() {
          assert false;   // the entry at `at` still follows, so the code's early return is never taken
        }
      } else {
        savedKey := Some(iter.Current().key);
      }
      FindNextUserEntry(true, Above(k));
    }

    /** From the inner position on, shows the first yielded entry within b. */
    method FindNextUserEntry(skip: bool, ghost b: Bound)
      requires iter.Ok() && iter.Valid() && direction == Forward
      requires skip ==> savedKey.Some? && b == Above(savedKey.value)
      requires !skip ==> b.All? || b.AtLeast?
      requires forall j :: iter.pos <= j < |iter.entries| && iter.entries[j].sequence <= sequence ==>
                 (if skip then iter.entries[j].key >= savedKey.value else Within(b, iter.entries[j].key))
      requires forall j :: 0 <= j < iter.pos && iter.entries[j].sequence <= sequence ==>
                 !Within(b, iter.entries[j].key)
      modifies this, iter
      ensures Repr()
      ensures Cursor() == Least(iter.entries, sequence, b)
    {
      hide Least, Greatest, Present, Sorted, Before;
      var skipping := skip;
      ghost var es := iter.entries;
      var more := true;
      while more
        invariant iter.Ok() && direction == Forward
        invariant more ==> iter.Valid()
        invariant !more ==> !iter.Valid()
        invariant skipping ==> savedKey.Some?
        invariant skip ==> skipping && (savedKey.value == b.key || Within(b, savedKey.value))
        invariant more && skipping && Within(b, savedKey.value) ==>
                    exists j :: 0 <= j < iter.pos && es[j].key == savedKey.value && es[j].sequence <= sequence
        invariant forall j :: 0 <= j < (if more then iter.pos else |es|) && Yields(es, sequence, j) ==> !Within(b, es[j].key)
        invariant more ==> forall j :: 0 <= j < iter.pos && es[j].sequence <= sequence && Within(b, es[j].key) ==>
                    skipping && es[j].key <= savedKey.value
        invariant more ==> forall j :: iter.pos <= j < |es| && es[j].sequence <= sequence ==>
                    && (skipping ==> es[j].key >= savedKey.value)
                    && (Within(b, es[j].key) || (skip && es[j].key == b.key))
        decreases if more then |es| - iter.pos else 0, more
      {
        var ikey := iter.Current();
        ghost var p := iter.pos;
        KeyOrder(es, p);
        if ikey.sequence <= sequence {
          match ikey.kind {
            case Deletion =>
              savedKey := Some(ikey.key);
              skipping := true;
            case Put =>
              if skipping && ikey.key <= savedKey.value {
                // entry hidden
              } else {
                valid := true;
                savedKey := None;
                at := p;
                assert Yields(es, sequence, at);
                FirstYieldIsLeast(es, sequence, b, at);
                return;
              }
          }
        }
        assert Yields(es, sequence, p) ==> !Within(b, es[p].key);
        iter.Next();
        more := iter.Valid();
      }
      savedKey := None;
      valid := false;
      NoYieldNone(es, sequence, b);
    }

    method Prev()
      requires Repr() && valid
      modifies this, iter
      ensures Repr()
      ensures Cursor() == Greatest(iter.entries, sequence, Below(old(Cursor()).value))
    {
      ghost var k := Cursor().value;
      ghost var es := iter.entries;
      assert forall j :: at <= j < |es| ==> es[j].key >= k by {
        assert forall j :: at < j < |es| ==> Before(es[at], es[j]);
      }
      if direction == Forward {
        savedKey := Some(iter.Current().key);
        while true
          invariant iter.Ok() && iter.Valid() && savedKey == Some(k) && direction == Forward
          invariant forall j :: iter.pos <= j < |es| ==> es[j].key >= k
          decreases iter.pos
        {
          iter.Prev();
          if !iter.Valid() {
            valid, savedKey, savedValue := false, None, [];
            NoYieldNone(es, sequence, Below(k));
            return;
          }
          if iter.Current().key < savedKey.value {
            break;
          }
        }
        direction := Reverse;
      }
      FindPrevUserEntry(Below(k));
    }

    /** From the inner position backwards, shows the last yielded entry within b. */
    method FindPrevUserEntry(ghost b: Bound)
      requires iter.Ok() && direction == Reverse
      requires b.All? || b.Below?
      requires forall j :: iter.pos < j < |iter.entries| && iter.entries[j].sequence <= sequence ==>
                 !Within(b, iter.entries[j].key)
      requires iter.Valid() ==> Within(b, iter.Current().key)
      modifies this, iter
      ensures Repr()
      ensures Cursor() == Greatest(iter.entries, sequence, b)
    {
      hide Least, Greatest, Present, Sorted, Before, Yields, Scanned;
      var valueType := Deletion;
      ghost var es := iter.entries;
      NothingScanned(es, sequence, b, iter.pos);
      if iter.Valid() {
        KeyOrder(es, iter.pos);
        var more := true;
        while more
          invariant iter.Ok() && direction == Reverse && (more <==> iter.Valid())
          invariant forall j :: 0 <= j <= iter.pos ==> Within(b, es[j].key)
          invariant Scanned(es, sequence, b, iter.pos, valueType == Put, at)
          invariant valueType == Put ==> at < |es| && savedKey == Some(es[at].key) && savedValue == es[at].value
          decreases iter.pos
        {
          var ikey := iter.Current();
          ghost var p := iter.pos;
          if ikey.sequence <= sequence {
            if valueType != Deletion && ikey.key < savedKey.value {
              break;
            }
            ScanStep(es, sequence, b, p, valueType == Put, at);
            valueType := ikey.kind;
            if valueType == Deletion {
              savedKey, savedValue := None, [];
            } else {
              savedKey, savedValue := Some(ikey.key), ikey.value;
              at := p;
            }
          } else {
            ScanStep(es, sequence, b, p, valueType == Put, at);
          }
          iter.Prev();
          more := iter.Valid();
        }
      }
      if valueType == Deletion {
        valid := false;
        savedKey, savedValue := None, [];
        direction := Forward;
        NothingFound(es, sequence, b, iter.pos, at);
      } else {
        valid := true;
        LastFound(es, sequence, b, iter.pos, at);
      }
    }

    method Seek(target: UserKey)
      requires Repr()
      modifies this, iter
      ensures Repr()
      ensures Cursor() == Least(iter.entries, sequence, AtLeast(target))
    {
      direction := Forward;
      savedValue := [];
      savedKey := None;
      ghost var es := iter.entries;
      iter.Seek(target, PackSequenceAndType(sequence, Put));
      if iter.Valid() {
        assert forall j :: iter.pos < j < |es| ==> Before(es[iter.pos], es[j]);
        FindNextUserEntry(false, AtLeast(target));
      } else {
        valid := false;
        NoYieldNone(es, sequence, AtLeast(target));
      }
    }

    method SeekToFirst()
      requires Repr()
      modifies this, iter
      ensures Repr()
      ensures Cursor() == Least(iter.entries, sequence, All)
    {
      direction := Forward;
      savedValue := [];
      iter.SeekToFirst();
      if iter.Valid() {
        FindNextUserEntry(false, All);
      } else {
        valid := false;
        NoYieldNone(iter.entries, sequence, All);
      }
    }

    method SeekToLast()
      requires Repr()
      modifies this, iter
      ensures Repr()
      ensures Cursor() == Greatest(iter.entries, sequence, All)
    {
      direction := Reverse;
      savedValue := [];
      iter.SeekToLast();
      FindPrevUserEntry(All);
    }

    method Do(op: Op) returns (shown: Shown)
      requires Repr()
      modifies this, iter
      ensures Repr()
      ensures Cursor() == Move(iter.entries, sequence, old(Cursor()), op)
      ensures shown == Show(iter.entries, sequence, Cursor())
    {
      match op {
        case Seek(target) => Seek(target);
        case SeekToFirst => SeekToFirst();
        case SeekToLast => SeekToLast();
        case Next => if valid { Next(); }
        case Prev => if valid { Prev(); }
      }
      if !valid {
        return Nothing;
      }
      var k := Key();
      var v := Value();
      shown := Pair(k, v);
    }

    /** Any sequence of calls, with any changes of direction, shows what the plain cursor shows. */
    method Run(ops: seq<Op>) returns (shown: seq<Shown>)
      requires Repr()
      modifies this, iter
      ensures Repr()
      ensures shown == Walk(iter.entries, sequence, old(Cursor()), ops)
    {
      shown := [];
      ghost var start := Cursor();
      var n := 0;
      while n < |ops|
        invariant 0 <= n <= |ops| && Repr()
        invariant Walk(iter.entries, sequence, start, ops) == shown + Walk(iter.entries, sequence, Cursor(), ops[n..])
      {
        assert ops[n..][0] == ops[n] && ops[n..][1..] == ops[n + 1..];
        var next := Do(ops[n]);
        shown := shown + [next];
        n := n + 1;
      }
    }
  }
}
