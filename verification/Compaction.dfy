/** The merge loop of a compaction (DoCompactionWork) and the level test it relies on. */
module Compaction {
  import opened Keys

  /** The user-key range of one table file. */
  datatype FileRange = FileRange(smallest: UserKey, largest: UserKey)

  predicate InRange(f: FileRange, k: UserKey) {
    f.smallest <= k <= f.largest
  }

  /** The files of a level below 0 are ordered; neighbours may share one user key. */
  predicate OrderedLevel(files: seq<FileRange>) {
    && (forall i :: 0 <= i < |files| ==> files[i].smallest <= files[i].largest)
    && (forall i, j :: 0 <= i < j < |files| ==> files[i].largest <= files[j].smallest)
  }

  predicate OrderedLevels(levels: seq<seq<FileRange>>) {
    forall l :: 0 <= l < |levels| ==> OrderedLevel(levels[l])
  }

  predicate LevelHas(files: seq<FileRange>, k: UserKey) {
    exists i :: 0 <= i < |files| && InRange(files[i], k)
  }

  /** No file of the levels below the compaction's output level can hold k. */
  predicate BaseLevel(levels: seq<seq<FileRange>>, k: UserKey) {
    forall l :: 0 <= l < |levels| ==> !LevelHas(levels[l], k)
  }

  // ---------- what the loop keeps ----------

  /** Entry i is hidden from every snapshot >= smallest by an earlier entry of its key. */
  predicate Shadowed(input: seq<Entry>, smallest: nat, i: nat)
    requires i < |input|
  {
    (if i > 0 && input[i - 1].key == input[i].key then input[i - 1].sequence else MAX_SEQUENCE) <= smallest
  }

  predicate Dropped(input: seq<Entry>, smallest: nat, levels: seq<seq<FileRange>>, i: nat)
    requires i < |input|
  {
    || Shadowed(input, smallest, i)
    || (input[i].kind == Deletion && input[i].sequence <= smallest && BaseLevel(levels, input[i].key))
  }

  /** The entries among the first n that survive. */
  function Keep(input: seq<Entry>, smallest: nat, levels: seq<seq<FileRange>>, n: nat): (kept: seq<Entry>)
    requires n <= |input|
  {
    if n == 0 then []
    else
      var before := Keep(input, smallest, levels, n - 1);
      if Dropped(input, smallest, levels, n - 1) then before else before + [input[n - 1]]
  }

  lemma {:induction false} KeepIff(input: seq<Entry>, smallest: nat, levels: seq<seq<FileRange>>, n: nat, e: Entry)
    requires n <= |input|
    ensures e in Keep(input, smallest, levels, n)
       <==> exists i :: 0 <= i < n && input[i] == e && !Dropped(input, smallest, levels, i)
  {
    if n > 0 {
      KeepIff(input, smallest, levels, n - 1, e);
    }
  }

  /** In sorted input the entries of a key are contiguous, and each has a larger tag than the next. */
  lemma PreviousOfKey(input: seq<Entry>, i: nat, j: nat)
    requires Sorted(input) && i < j < |input| && input[i].key == input[j].key
    ensures input[j - 1].key == input[j].key && input[j - 1].sequence <= input[i].sequence
  {
    assert Before(input[j - 1], input[j]);
    if i < j - 1 {
      assert Before(input[i], input[j - 1]);
    }
  }

  /** A newer entry of the same key in the input that every snapshot from `smallest` on sees. */
  predicate Hidden(input: seq<Entry>, smallest: nat, e: Entry) {
    exists f :: f in input && f.key == e.key && Tag(f) > Tag(e) && f.sequence <= smallest
  }

  lemma ShadowedIsHidden(input: seq<Entry>, smallest: nat, i: nat)
    requires Sorted(input) && smallest < MAX_SEQUENCE && i < |input|
    ensures Shadowed(input, smallest, i) <==> Hidden(input, smallest, input[i])
  {
    if Shadowed(input, smallest, i) {
      assert Before(input[i - 1], input[i]) && input[i - 1] in input;
    }
    if f :| f in input && f.key == input[i].key && Tag(f) > Tag(input[i]) && f.sequence <= smallest {
      var j :| 0 <= j < |input| && input[j] == f;
      assert j < i;
      PreviousOfKey(input, j, i);
    }
  }

  /** What a compaction is for: an entry of the input goes exactly if every snapshot that is still
      needed and sees it sees a newer one, or it is a deletion that they all see and no deeper level can
      hold its key. */
  lemma KeptIff(input: seq<Entry>, smallest: nat, levels: seq<seq<FileRange>>, e: Entry)
    requires Sorted(input) && smallest < MAX_SEQUENCE
    ensures e in Keep(input, smallest, levels, |input|) <==>
      && e in input
      && !Hidden(input, smallest, e)
      && !(e.kind == Deletion && e.sequence <= smallest && BaseLevel(levels, e.key))
  {
    hide Shadowed, Hidden;
    KeepIff(input, smallest, levels, |input|, e);
    forall i | 0 <= i < |input| && input[i] == e ensures Shadowed(input, smallest, i) <==> Hidden(input, smallest, e) {
      ShadowedIsHidden(input, smallest, i);
    }
  }

  /** The output is in table order. */
  lemma {:induction false} KeepSorted(input: seq<Entry>, smallest: nat, levels: seq<seq<FileRange>>, n: nat)
    requires n <= |input| && Sorted(input)
    ensures Sorted(Keep(input, smallest, levels, n))
    ensures forall e :: e in Keep(input, smallest, levels, n) ==> e in input[..n]
  {
    if n > 0 {
      KeepSorted(input, smallest, levels, n - 1);
      var before := Keep(input, smallest, levels, n - 1);
      forall e | e in before ensures Before(e, input[n - 1]) {
        var i :| 0 <= i < n - 1 && input[i] == e;
      }
      assert forall i :: 0 <= i < |before| ==> before[i] in before;
    }
  }

  // ---------- reads are preserved ----------

  /** How the entries outside the compaction lie around its input: one that is older than an input
      entry of its key is of a key that a file of a deeper level covers. */
  ghost predicate Separated(input: seq<Entry>, rest: set<Entry>, levels: seq<seq<FileRange>>) {
    forall e, f :: e in rest && f in input && e.key == f.key && e.sequence < f.sequence ==> !BaseLevel(levels, e.key)
  }

  ghost function DbBefore(input: seq<Entry>, rest: set<Entry>): set<Entry> {
    rest + Entries(input)
  }

  ghost function DbAfter(input: seq<Entry>, rest: set<Entry>, smallest: nat, levels: seq<seq<FileRange>>): set<Entry> {
    rest + Entries(Keep(input, smallest, levels, |input|))
  }

  lemma AfterIsSubset(input: seq<Entry>, rest: set<Entry>, smallest: nat, levels: seq<seq<FileRange>>)
    ensures DbAfter(input, rest, smallest, levels) <= DbBefore(input, rest)
  {
    forall e | e in Entries(Keep(input, smallest, levels, |input|)) ensures e in Entries(input) {
      KeepIff(input, smallest, levels, |input|, e);
    }
  }

  /** An entry that is gone although a snapshot would have read it was a deletion with nothing beneath
      it. */
  lemma DroppedNewest(input: seq<Entry>, rest: set<Entry>, smallest: nat, levels: seq<seq<FileRange>>, k: UserKey, s: nat, i: nat)
    requires Sorted(input) && Separated(input, rest, levels) && Distinct(DbBefore(input, rest))
    requires smallest <= s && smallest < MAX_SEQUENCE
    requires i < |input| && IsNewest(DbBefore(input, rest), k, s, input[i])
    requires input[i] !in DbAfter(input, rest, smallest, levels)
    ensures input[i].kind == Deletion
    ensures forall f :: f in DbAfter(input, rest, smallest, levels) ==> !Visible(f, k, s)
  {
    var e := input[i];
    KeepIff(input, smallest, levels, |input|, e);
    if Shadowed(input, smallest, i) {
      assert Before(input[i - 1], e) && input[i - 1] in DbBefore(input, rest);
      assert Visible(input[i - 1], k, s);
      assert false;
    }
    forall f | f in DbAfter(input, rest, smallest, levels) ensures !Visible(f, k, s) {
      if Visible(f, k, s) {
        if f in rest {
          OlderOfKey(DbBefore(input, rest), k, s, e, f);
        } else {
          KeepIff(input, smallest, levels, |input|, f);
          var j :| 0 <= j < |input| && input[j] == f && !Dropped(input, smallest, levels, j);
          assert f in DbBefore(input, rest);
          assert j != i;
          assert j > i;
          PreviousOfKey(input, i, j);
        }
      }
    }
  }

  /** A visible entry besides the newest has a smaller number, unless the newest is a value. */
  lemma OlderOfKey(db: set<Entry>, k: UserKey, s: nat, e: Entry, f: Entry)
    requires Distinct(db) && IsNewest(db, k, s, e) && e.kind == Deletion && f in db && Visible(f, k, s) && f != e
    ensures f.sequence < e.sequence
  {
    assert Tag(f) <= Tag(e);
  }

  /** Every key reads the same before and after, at every snapshot not older than smallest. */
  lemma CompactionPreservesReads(input: seq<Entry>, rest: set<Entry>, smallest: nat, levels: seq<seq<FileRange>>, k: UserKey, s: nat)
    requires Sorted(input) && Separated(input, rest, levels) && Distinct(DbBefore(input, rest))
    requires smallest <= s && smallest < MAX_SEQUENCE
    ensures Read(DbBefore(input, rest), k, s) == Read(DbAfter(input, rest, smallest, levels), k, s)
  {
    var db, db' := DbBefore(input, rest), DbAfter(input, rest, smallest, levels);
    AfterIsSubset(input, rest, smallest, levels);
    if exists e :: IsNewest(db, k, s, e) {
      var e :| IsNewest(db, k, s, e);
      NewestIs(db, k, s, e);
      if e in db' {
        assert IsNewest(db', k, s, e);
        NewestIs(db', k, s, e);
      } else {
        var i :| 0 <= i < |input| && input[i] == e;
        DroppedNewest(input, rest, smallest, levels, k, s, i);
        NewestIsNone(db', k, s);
      }
    } else {
      forall f | f in db' ensures !Visible(f, k, s) {
        if Visible(f, k, s) { NewestExists(db, k, s, f); }
      }
      NewestIsNone(db', k, s);
    }
  }

  ghost predicate Legal(input: seq<Entry>, rest: set<Entry>, levels: seq<seq<FileRange>>) {
    Sorted(input) && Separated(input, rest, levels) && Distinct(DbBefore(input, rest))
  }

  ghost predicate ReadsPreserved(input: seq<Entry>, rest: set<Entry>, smallest: nat, levels: seq<seq<FileRange>>) {
    SameReads(DbBefore(input, rest), DbAfter(input, rest, smallest, levels), smallest)
  }

  /** The loop marks "no entry of this key seen yet" with kMaxSequenceNumber, so it is exact just
      when smallest_snapshot has not reached that number. */
  lemma ReadsPreservedIffBelowMax(smallest: nat)
    ensures smallest < MAX_SEQUENCE
       <==> forall input, rest, levels :: Legal(input, rest, levels) ==> ReadsPreserved(input, rest, smallest, levels)
  {
    if smallest < MAX_SEQUENCE {
      forall input, rest, levels, k: UserKey, s: nat | Legal(input, rest, levels) && smallest <= s
        ensures Read(DbBefore(input, rest), k, s) == Read(DbAfter(input, rest, smallest, levels), k, s)
      {
        CompactionPreservesReads(input, rest, smallest, levels, k, s);
      }
    } else {
      var e := Entry(0, 0, Put, []);
      assert Legal([e], {}, []);
      assert e in Entries([e]) && IsNewest(DbBefore([e], {}), 0, smallest, e);
      NewestIs(DbBefore([e], {}), 0, smallest, e);
      assert Keep([e], smallest, [], 1) == [];
      assert DbAfter([e], {}, smallest, []) == {};
      NewestIsNone(DbAfter([e], {}, smallest, []), 0, smallest);
      assert Read(DbBefore([e], {}), 0, smallest) != Read(DbAfter([e], {}, smallest, []), 0, smallest);
      assert !ReadsPreserved([e], {}, smallest, []);
    }
  }

  /** A deletion that the base level test drops hides a value outside the compaction. */
  ghost predicate Uncovers(input: seq<Entry>, rest: set<Entry>, smallest: nat, levels: seq<seq<FileRange>>) {
    exists d :: d in input && d.kind == Deletion && d.sequence <= smallest && BaseLevel(levels, d.key)
      && IsNewest(DbBefore(input, rest), d.key, smallest, d) && Read(rest, d.key, smallest).Some?
  }

  /** Beneath a newest deletion that goes, only what lies outside is left to be read. */
  lemma RestIsRead(input: seq<Entry>, rest: set<Entry>, smallest: nat, levels: seq<seq<FileRange>>, s: nat, d: Entry)
    requires Sorted(input) && Distinct(DbBefore(input, rest)) && smallest <= s && smallest < MAX_SEQUENCE
    requires d in input && d.kind == Deletion && d.sequence <= smallest
    requires IsNewest(DbBefore(input, rest), d.key, s, d) && d !in DbAfter(input, rest, smallest, levels)
    ensures Read(DbAfter(input, rest, smallest, levels), d.key, s) == Read(rest, d.key, smallest)
  {
    var db, db' := DbBefore(input, rest), DbAfter(input, rest, smallest, levels);
    AfterIsSubset(input, rest, smallest, levels);
    forall f | f in db' && Visible(f, d.key, s) ensures f in rest && Visible(f, d.key, smallest) {
      OlderOfKey(db, d.key, s, d, f);
      KeptIff(input, smallest, levels, f);
      assert f in Keep(input, smallest, levels, |input|) ==> Hidden(input, smallest, f);
    }
    hide Keep, BaseLevel;
    SameVisible(db', rest, d.key, s, smallest);
  }

  lemma SameVisible(a: set<Entry>, b: set<Entry>, k: UserKey, s: nat, s': nat)
    requires b <= a && Distinct(a) && s' <= s && forall f :: f in a && Visible(f, k, s) ==> f in b && Visible(f, k, s')
    ensures Read(a, k, s) == Read(b, k, s')
  {
    if n :| IsNewest(a, k, s, n) {
      assert IsNewest(b, k, s', n);
      NewestIs(a, k, s, n);
      NewestIs(b, k, s', n);
    } else {
      forall f | f in b ensures !Visible(f, k, s') {
        if Visible(f, k, s') { NewestExists(a, k, s, f); }
      }
      NewestIsNone(b, k, s');
    }
  }

  /** An entry that goes although a snapshot would have read it is a deletion at the bottom. */
  lemma GoneIsDeletion(input: seq<Entry>, rest: set<Entry>, smallest: nat, levels: seq<seq<FileRange>>, k: UserKey, s: nat, e: Entry)
    requires Sorted(input) && Distinct(DbBefore(input, rest)) && smallest <= s && smallest < MAX_SEQUENCE
    requires IsNewest(DbBefore(input, rest), k, s, e) && e !in DbAfter(input, rest, smallest, levels)
    ensures e in input && e.kind == Deletion && e.sequence <= smallest && BaseLevel(levels, e.key)
    ensures IsNewest(DbBefore(input, rest), k, smallest, e)
  {
    hide Keep, BaseLevel;
    KeptIff(input, smallest, levels, e);
    forall f | f in input && f.key == e.key && Tag(f) > Tag(e) ensures f.sequence > smallest {
      assert f in DbBefore(input, rest);
    }
  }

  /** Wherever the input was taken from: reads are preserved exactly if no deletion that goes hides a value
      outside. */
  lemma ReadsPreservedIff(input: seq<Entry>, rest: set<Entry>, smallest: nat, levels: seq<seq<FileRange>>)
    requires Sorted(input) && Distinct(DbBefore(input, rest)) && smallest < MAX_SEQUENCE
    ensures ReadsPreserved(input, rest, smallest, levels) <==> !Uncovers(input, rest, smallest, levels)
  {
    hide Read, Keep, BaseLevel, DbBefore, DbAfter;
    var db, db' := DbBefore(input, rest), DbAfter(input, rest, smallest, levels);
    if Uncovers(input, rest, smallest, levels) {
      var d :| d in input && d.kind == Deletion && d.sequence <= smallest && BaseLevel(levels, d.key)
        && IsNewest(db, d.key, smallest, d) && Read(rest, d.key, smallest).Some?;
      DeletionGoes(input, rest, smallest, levels, d);
      RestIsRead(input, rest, smallest, levels, smallest, d);
      DeletionReadsNone(db, d.key, smallest, d);
      assert Read(db, d.key, smallest) != Read(db', d.key, smallest);
    } else {
      forall k: UserKey, s: nat | smallest <= s ensures Read(db, k, s) == Read(db', k, s) {
        NothingUncovered(input, rest, smallest, levels, k, s);
      }
    }
  }

  lemma DeletionReadsNone(db: set<Entry>, k: UserKey, s: nat, d: Entry)
    requires Distinct(db) && IsNewest(db, k, s, d) && d.kind == Deletion
    ensures Read(db, k, s) == None
  {
    NewestIs(db, k, s, d);
  }

  lemma DeletionGoes(input: seq<Entry>, rest: set<Entry>, smallest: nat, levels: seq<seq<FileRange>>, d: Entry)
    requires Sorted(input) && Distinct(DbBefore(input, rest)) && smallest < MAX_SEQUENCE
    requires d in input && d.kind == Deletion && d.sequence <= smallest && BaseLevel(levels, d.key)
    requires IsNewest(DbBefore(input, rest), d.key, smallest, d) && Read(rest, d.key, smallest).Some?
    ensures d !in DbAfter(input, rest, smallest, levels)
  {
    hide Keep, BaseLevel;
    KeptIff(input, smallest, levels, d);
    if d in rest {
      assert rest <= DbBefore(input, rest);
      assert IsNewest(rest, d.key, smallest, d);
      DeletionReadsNone(rest, d.key, smallest, d);
      assert false;
    }
  }

  lemma NothingUncovered(input: seq<Entry>, rest: set<Entry>, smallest: nat, levels: seq<seq<FileRange>>, k: UserKey, s: nat)
    requires Sorted(input) && Distinct(DbBefore(input, rest)) && smallest < MAX_SEQUENCE && smallest <= s
    requires !Uncovers(input, rest, smallest, levels)
    ensures Read(DbBefore(input, rest), k, s) == Read(DbAfter(input, rest, smallest, levels), k, s)
  {
    hide Read, Keep, BaseLevel, DbBefore, DbAfter;
    var db, db' := DbBefore(input, rest), DbAfter(input, rest, smallest, levels);
    AfterIsSubset(input, rest, smallest, levels);
    if e :| IsNewest(db, k, s, e) && e !in db' {
      GoneIsDeletion(input, rest, smallest, levels, k, s, e);
      RestIsRead(input, rest, smallest, levels, s, e);
      DeletionReadsNone(db, k, s, e);
    } else {
      SameUnlessGone(db, db', k, s);
    }
  }

  lemma SameUnlessGone(db: set<Entry>, db': set<Entry>, k: UserKey, s: nat)
    requires db' <= db && Distinct(db) && forall e :: IsNewest(db, k, s, e) ==> e in db'
    ensures Read(db, k, s) == Read(db', k, s)
  {
    if e :| IsNewest(db, k, s, e) {
      assert IsNewest(db', k, s, e);
      NewestIs(db, k, s, e);
      NewestIs(db', k, s, e);
    } else {
      forall f | f in db' ensures !Visible(f, k, s) {
        if Visible(f, k, s) { NewestExists(db, k, s, f); }
      }
      NewestIsNone(db', k, s);
    }
  }

  // ---------- the code ----------

  /** Compaction::IsBaseLevelForKey: one cursor per deeper level, which only advances. */
  class BaseLevelTest {
    const levels: seq<seq<FileRange>>
    var levelPtrs: seq<nat>

    ghost predicate Valid()
      reads this
    {
      && OrderedLevels(levels)
      && |levelPtrs| == |levels|
      && forall l :: 0 <= l < |levels| ==> levelPtrs[l] <= |levels[l]|
    }

    /** Every file the cursors have passed ends before k. */
    ghost predicate ReadyFor(k: UserKey)
      requires Valid()
      reads this
    {
      forall l, i :: 0 <= l < |levels| && 0 <= i < levelPtrs[l] ==> levels[l][i].largest < k
    }

    constructor (levels: seq<seq<FileRange>>)
      requires OrderedLevels(levels)
      ensures Valid() && this.levels == levels && forall k :: ReadyFor(k)
    {
      this.levels := levels;
      levelPtrs := seq(|levels|, _ => 0);
    }

    method IsBaseLevelForKey(k: UserKey) returns (base: bool)
      requires Valid() && ReadyFor(k)
      modifies this
      ensures Valid() && forall k' :: k <= k' ==> ReadyFor(k')
      ensures base == BaseLevel(levels, k)
    {
      var l := 0;
      while l < |levels|
        invariant 0 <= l <= |levels| && Valid() && ReadyFor(k)
        invariant forall l' :: 0 <= l' < l ==> !LevelHas(levels[l'], k)
      {
        var files := levels[l];
        while levelPtrs[l] < |files|
          invariant Valid() && ReadyFor(k)
          invariant forall l' :: 0 <= l' < l ==> !LevelHas(levels[l'], k)
          decreases |files| - levelPtrs[l]
        {
          var f := files[levelPtrs[l]];
          if k <= f.largest {
            if k >= f.smallest {
              assert LevelHas(files, k);
              return false;
            }
            break;
          }
          levelPtrs := levelPtrs[l := levelPtrs[l] + 1];
        }
        assert !LevelHas(levels[l], k) by {
          forall i | 0 <= i < |files| ensures !InRange(files[i], k) {
            if levelPtrs[l] < i {
              assert files[levelPtrs[l]].largest <= files[i].smallest;
            }
          }
        }
        l := l + 1;
      }
      return true;
    }
  }

  datatype Output = Output(entries: seq<Entry>, smallest: Entry, largest: Entry)

  predicate WellBounded(o: Output) {
    |o.entries| > 0 && o.smallest == o.entries[0] && o.largest == o.entries[|o.entries| - 1]
  }

  /** The files' entries, file by file. */
  function Contents(outputs: seq<Output>): (files: seq<seq<Entry>>)
    ensures |files| == |outputs|
  {
    seq(|outputs|, i requires 0 <= i < |outputs| => outputs[i].entries)
  }

  function Flatten(files: seq<seq<Entry>>): seq<Entry> {
    if files == [] then [] else Flatten(files[..|files| - 1]) + files[|files| - 1]
  }

  lemma OneFileMore(files: seq<seq<Entry>>, file: seq<Entry>)
    ensures Flatten(files + [file]) == Flatten(files) + file
  {
    assert (files + [file])[..|files|] == files;
  }

  lemma EntryAtEnd(a: seq<Entry>, b: seq<Entry>, e: Entry)
    ensures a + (b + [e]) == a + b + [e]
  {
  }

  lemma LastGrows(files: seq<seq<Entry>>, e: Entry)
    requires files != []
    ensures Flatten(files[..|files| - 1] + [files[|files| - 1] + [e]]) == Flatten(files) + [e]
  {
    hide Flatten;
    var before, last := files[..|files| - 1], files[|files| - 1];
    OneFileMore(before, last);
    OneFileMore(before, last + [e]);
    EntryAtEnd(Flatten(before), last, e);
    assert before + [last] == files;
  }

  /** What decides about the output: the input, the entries that go, and where a file is to end, before an
      entry (ShouldStopBefore) or behind one (the size test). */
  datatype Plan = Plan(input: seq<Entry>, smallest: nat, levels: seq<seq<FileRange>>, stopBefore: seq<bool>, fileFull: seq<bool>) {
    predicate Valid() {
      |stopBefore| == |fileFull| == |input|
    }

    predicate Drops(i: nat)
      requires i < |input|
    {
      Dropped(input, smallest, levels, i)
    }
  }

  /** Whether a file is open behind the first n entries. */
  predicate OpenAfter(p: Plan, n: nat)
    requires p.Valid() && n <= |p.input|
  {
    n > 0 && if p.Drops(n - 1) then OpenAfter(p, n - 1) && !p.stopBefore[n - 1] else !p.fileFull[n - 1]
  }

  /** The files that the first n entries make. */
  function Cut(p: Plan, n: nat): (files: seq<seq<Entry>>)
    requires p.Valid() && n <= |p.input|
    ensures OpenAfter(p, n) ==> files != []
  {
    if n == 0 then []
    else
      var before := Cut(p, n - 1);
      if p.Drops(n - 1) then before
      else if OpenAfter(p, n - 1) && !p.stopBefore[n - 1] then
        before[..|before| - 1] + [before[|before| - 1] + [p.input[n - 1]]]
      else before + [[p.input[n - 1]]]
  }

  /** An entry that is kept shares its file with the one that was kept before it, exactly if that one did
      not fill the file and the file was not to end before any entry since. */
  lemma {:induction false} OpenIff(p: Plan, n: nat)
    requires p.Valid() && n <= |p.input|
    ensures OpenAfter(p, n) <==>
      exists i :: 0 <= i < n && !p.Drops(i) && !p.fileFull[i] && forall j :: i < j < n ==> p.Drops(j) && !p.stopBefore[j]
  {
    if n > 0 {
      OpenIff(p, n - 1);
      if p.Drops(n - 1) {
        if i :| 0 <= i < n && !p.Drops(i) && !p.fileFull[i] && forall j :: i < j < n ==> p.Drops(j) && !p.stopBefore[j] {
          assert i < n - 1;
          assert forall j :: i < j < n - 1 ==> p.Drops(j) && !p.stopBefore[j];
        }
      }
    }
  }

  /** The files hold the entries that are kept, in order. */
  lemma {:induction false} CutIsKeep(p: Plan, n: nat)
    requires p.Valid() && n <= |p.input|
    ensures Flatten(Cut(p, n)) == Keep(p.input, p.smallest, p.levels, n)
  {
    if n > 0 {
      hide Flatten, Dropped, OpenAfter;
      CutIsKeep(p, n - 1);
      var before, e := Cut(p, n - 1), p.input[n - 1];
      if !p.Drops(n - 1) {
        if OpenAfter(p, n - 1) && !p.stopBefore[n - 1] {
          LastGrows(before, e);
        } else {
          OneFileMore(before, [e]);
        }
      }
    }
  }

  lemma CutOneMore(p: Plan, i: nat)
    requires p.Valid() && i < |p.input|
    ensures var open := OpenAfter(p, i) && !p.stopBefore[i];
      && OpenAfter(p, i + 1) == (if p.Drops(i) then open else !p.fileFull[i])
      && (open ==> Cut(p, i) != [])
      && Cut(p, i + 1) == if p.Drops(i) then Cut(p, i)
                          else if open then Cut(p, i)[..|Cut(p, i)| - 1] + [Cut(p, i)[|Cut(p, i)| - 1] + [p.input[i]]]
                          else Cut(p, i) + [[p.input[i]]]
  {
  }

  /** DBImpl::CompactionState: the output files; the last one is open while a builder exists. */
  class CompactionState {
    var outputs: seq<Output>
    var open: bool

    ghost predicate Valid()
      reads this
    {
      (open ==> |outputs| > 0) && forall o :: o in outputs ==> WellBounded(o)
    }

    constructor ()
      ensures Valid() && outputs == [] && !open
    {
      outputs, open := [], false;
    }

    /** Operations on output files so far: each is opened, and each but an open one finished. */
    ghost function Operations(): int
      reads this
    {
      2 * |outputs| - if open then 1 else 0
    }

    /** builder->Add, opening an output file first when there is none. */
    method Add(e: Entry)
      requires Valid()
      modifies this
      ensures Valid() && open
      ensures var before := Contents(old(outputs));
        Contents(outputs) == if old(open) then before[..|before| - 1] + [before[|before| - 1] + [e]] else before + [[e]]
    {
      if open {
        var n := |outputs| - 1;
        var current := outputs[n];
        assert WellBounded(current);
        outputs := outputs[..n] + [Output(current.entries + [e], current.smallest, e)];
      } else {
        outputs, open := outputs + [Output([e], e, e)], true;
      }
    }

    /** DoCompactionWork. The plan's stopBefore and fileFull stand for ShouldStopBefore and for the size test,
        entry by entry; shutdownAt is the iteration that first sees the shutdown flag, failAt the operation
        on an output file (opening or finishing one) that fails, inputOk the input iterator's status at
        the end. However it ends, what was written is the beginning of what is to be kept, cut into files as
        planned; it is all of it, and all files were finished, if and only if the status is OK. */
    method DoCompactionWork(plan: Plan, test: BaseLevelTest, shutdownAt: nat, failAt: Option<nat>, inputOk: bool)
      returns (ok: bool, done: nat, performed: nat)
      requires Valid() && outputs == [] && !open
      requires plan.Valid() && Sorted(plan.input)
      requires test.Valid() && test.levels == plan.levels && forall k :: test.ReadyFor(k)
      modifies this, test
      ensures Valid() && done <= |plan.input| && Contents(outputs) == Cut(plan, done)
      ensures performed == Operations() || (performed == Operations() + 1 && !open && failAt == Some(performed - 1))
      ensures failAt.Some? ==> performed <= failAt.value + 1
      ensures ok <==> inputOk && |plan.input| < shutdownAt && (failAt.None? || failAt.value >= performed)
      ensures ok ==> !open
      ensures failAt.None? || failAt.value >= performed ==> done == if |plan.input| < shutdownAt then |plan.input| else shutdownAt
    {
      hide BaseLevel, WellBounded, Contents, Cut, OpenAfter, Dropped, Shadowed;
      NothingCut(plan);
      var input := plan.input;
      var i := 0;
      performed := 0;
      var currentUserKey: Option<UserKey> := None;
      var lastSequenceForKey: nat := MAX_SEQUENCE;
      ok := true;
      while i < |input| && i < shutdownAt
        invariant 0 <= i <= |input| && i <= shutdownAt && Valid() && test.Valid() && ok
        invariant i < |input| ==> test.ReadyFor(input[i].key)
        invariant i == 0 ==> currentUserKey == None
        invariant i > 0 ==> currentUserKey == Some(input[i - 1].key) && lastSequenceForKey == input[i - 1].sequence
        invariant Contents(outputs) == Cut(plan, i) && open == OpenAfter(plan, i)
        invariant performed == Operations() && (failAt.None? || failAt.value >= performed)
      {
        if plan.stopBefore[i] && open {
          ok, performed := FinishCompactionOutputFile(performed, failAt);
          if !ok {
            return false, i, performed;
          }
        }
        var drop;
        drop, currentUserKey, lastSequenceForKey := DropsNext(plan, test, i, currentUserKey, lastSequenceForKey);
        CutOneMore(plan, i);
        if !drop {
          var added;
          ok, performed, added := Emit(input[i], plan.fileFull[i], performed, failAt);
          if !ok {
            return false, if added then i + 1 else i, performed;
          }
        }
        assert i + 1 < |input| ==> Before(input[i], input[i + 1]);
        i := i + 1;
      }
      done := i;
      ok := !(shutdownAt <= |input|);
      if ok && open {
        ok, performed := FinishCompactionOutputFile(performed, failAt);
      }
      ok := ok && inputOk;
    }

    /** Whether the next entry goes: the loop's locals current_user_key and last_sequence_for_key tell of the
        one before it. */
    method DropsNext(plan: Plan, test: BaseLevelTest, i: nat, key: Option<UserKey>, last: nat)
      returns (drop: bool, currentUserKey: Option<UserKey>, lastSequenceForKey: nat)
      requires i < |plan.input| && test.Valid() && test.levels == plan.levels && test.ReadyFor(plan.input[i].key)
      requires if i == 0 then key == None else key == Some(plan.input[i - 1].key) && last == plan.input[i - 1].sequence
      modifies test
      ensures test.Valid() && forall k :: plan.input[i].key <= k ==> test.ReadyFor(k)
      ensures drop == plan.Drops(i)
      ensures currentUserKey == Some(plan.input[i].key) && lastSequenceForKey == plan.input[i].sequence
    {
      hide BaseLevel;
      var ikey := plan.input[i];
      drop, currentUserKey, lastSequenceForKey := false, key, last;
      if currentUserKey == None || ikey.key != currentUserKey.value {
        currentUserKey := Some(ikey.key);
        lastSequenceForKey := MAX_SEQUENCE;
      }
      if lastSequenceForKey <= plan.smallest {
        drop := true;
      } else if ikey.kind == Deletion && ikey.sequence <= plan.smallest {
        drop := test.IsBaseLevelForKey(ikey.key);
      }
      lastSequenceForKey := ikey.sequence;
    }

    /** One entry that is kept: a file is opened if there is none, and finished when it is full. */
    method Emit(e: Entry, full: bool, operations: nat, failAt: Option<nat>) returns (ok: bool, performed: nat, added: bool)
      requires Valid() && operations == Operations() && (failAt.None? || failAt.value >= operations)
      modifies this
      ensures Valid() && (ok <==> failAt.None? || failAt.value >= performed)
      ensures failAt.Some? ==> performed <= failAt.value + 1
      ensures performed == Operations() + if added then 0 else 1
      ensures !added ==> !ok && !open && outputs == old(outputs)
      ensures added ==> open == !full
      ensures var before := Contents(old(outputs));
        added ==> Contents(outputs) == if old(open) then before[..|before| - 1] + [before[|before| - 1] + [e]] else before + [[e]]
    {
      hide Contents;
      ok, performed, added := true, operations, false;
      if !open {
        if failAt == Some(performed) {
          return false, performed + 1, false;
        }
        performed := performed + 1;
      }
      Add(e);
      added := true;
      if full {
        ok, performed := FinishCompactionOutputFile(performed, failAt);
      }
    }

    /** FinishCompactionOutputFile: the builder is gone whether or not the file could be finished. */
    method FinishCompactionOutputFile(operations: nat, failAt: Option<nat>) returns (ok: bool, performed: nat)
      requires Valid() && open
      modifies this`open
      ensures Valid() && !open && ok == (failAt != Some(operations)) && performed == operations + 1
    {
      open := false;
      ok, performed := failAt != Some(operations), operations + 1;
    }
  }

  lemma NothingCut(p: Plan)
    requires p.Valid()
    ensures Contents([]) == Cut(p, 0) && !OpenAfter(p, 0)
  {
  }

  lemma {:induction false} FlattenHas(files: seq<seq<Entry>>, e: Entry)
    ensures e in Flatten(files) <==> exists i :: 0 <= i < |files| && e in files[i]
    decreases |files|
  {
    if files != [] {
      var n := |files| - 1;
      FlattenHas(files[..n], e);
      if i :| 0 <= i < n && e in files[..n][i] {
        assert e in files[i];
      }
      if i :| 0 <= i < n && e in files[i] {
        assert e in files[..n][i];
      }
    }
  }
}
