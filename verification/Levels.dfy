/** The levels of a version and the choice of a compaction's inputs (GetOverlappingInputs,
    PickCompaction, SetupOtherInputs, CompactRange): when what they leave behind is no older than what
    they take. */
module Levels {
  import opened Keys
  import opened Compaction
  import opened Database
  import opened DatabaseMemory

  /** A table with its file number; FileMetaData's smallest and largest are its ends. */
  datatype Table = Table(number: nat, entries: seq<Entry>)

  predicate TableOk(t: Table) {
    t.entries != [] && Sorted(t.entries)
  }

  function First(t: Table): Entry
    requires TableOk(t)
  {
    t.entries[0]
  }

  function Last(t: Table): Entry
    requires TableOk(t)
  {
    t.entries[|t.entries| - 1]
  }

  function Range(t: Table): FileRange
    requires TableOk(t)
  {
    FileRange(First(t).key, Last(t).key)
  }

  predicate TablesOk(ts: seq<Table>) {
    forall t :: t in ts ==> TableOk(t)
  }

  /** Below level 0 tables are disjoint in internal keys; neighbours may share a user key. */
  predicate InOrder(ts: seq<Table>)
    requires TablesOk(ts)
  {
    forall i, j :: 0 <= i < j < |ts| ==> Before(Last(ts[i]), First(ts[j]))
  }

  function Content(ts: seq<Table>): set<Entry> {
    set t, e | t in ts && e in t.entries :: e
  }

  function Numbers(ts: seq<Table>): set<nat> {
    set t | t in ts :: t.number
  }

  function AllTables(v: seq<seq<Table>>): seq<Table>
    decreases |v|
  {
    if v == [] then [] else v[0] + AllTables(v[1..])
  }

  /** Of entries of one key, those in upper levels are the newer ones. */
  ghost predicate NewerAbove(v: seq<seq<Table>>) {
    forall l, l', e, e' :: 0 <= l < l' < |v| && e in Content(v[l]) && e' in Content(v[l']) && e.key == e'.key ==> e.sequence > e'.sequence
  }

  ghost predicate Ordered(v: seq<seq<Table>>) {
    && (forall l :: 0 <= l < |v| ==> TablesOk(v[l]))
    && (forall l :: 0 < l < |v| ==> InOrder(v[l]))
    && NewerAbove(v)
    && UniqueNumbers(Content(AllTables(v)))
  }

  function Ranges(ts: seq<Table>): seq<FileRange>
    requires TablesOk(ts)
  {
    seq(|ts|, i requires 0 <= i < |ts| => Range(ts[i]))
  }

  function RangesOf(v: seq<seq<Table>>): seq<seq<FileRange>>
    requires forall l :: 0 <= l < |v| ==> TablesOk(v[l])
  {
    seq(|v|, l requires 0 <= l < |v| => Ranges(v[l]))
  }

  // ---------- the choice ----------

  /** The least user key of the tables, and the largest. */
  function Least(ts: seq<Table>): UserKey
    requires TablesOk(ts) && ts != []
  {
    if |ts| == 1 then First(ts[0]).key else Min(First(ts[0]).key, Least(ts[1..]))
  }

  function Greatest(ts: seq<Table>): UserKey
    requires TablesOk(ts) && ts != []
  {
    if |ts| == 1 then Last(ts[0]).key else Max(Last(ts[0]).key, Greatest(ts[1..]))
  }

  function Min(a: UserKey, b: UserKey): UserKey {
    if a < b then a else b
  }

  function Max(a: UserKey, b: UserKey): UserKey {
    if a < b then b else a
  }

  /** No bound stands for NULL: no limit on that side. */
  predicate Overlaps(t: Table, begin: Option<UserKey>, end: Option<UserKey>)
    requires TableOk(t)
  {
    !(begin.Some? && Last(t).key < begin.value) && !(end.Some? && First(t).key > end.value)
  }

  function Overlapping(ts: seq<Table>, begin: Option<UserKey>, end: Option<UserKey>): (r: seq<Table>)
    requires TablesOk(ts)
    ensures forall t :: t in r <==> t in ts && Overlaps(t, begin, end)
  {
    if ts == [] then []
    else
      var n := |ts| - 1;
      Overlapping(ts[..n], begin, end) + if Overlaps(ts[n], begin, end) then [ts[n]] else []
  }

  /** The tables that overlap the range lie inside it. */
  predicate Closed(ts: seq<Table>, begin: Option<UserKey>, end: Option<UserKey>)
    requires TablesOk(ts)
  {
    forall t :: t in ts && Overlaps(t, begin, end) ==>
      (begin.Some? ==> begin.value <= First(t).key) && (end.Some? ==> Last(t).key <= end.value)
  }

  /** What is chosen at level l: tables of the level, at level 0 all that overlap one another; and all
      tables of the next level that overlap them. */
  ghost predicate Chosen(v: seq<seq<Table>>, l: nat, in0: seq<Table>, in1: seq<Table>)
    requires Ordered(v)
  {
    && l + 1 < |v| && in0 != [] && (forall t :: t in in0 ==> t in v[l])
    && in1 == Overlapping(v[l + 1], Some(Least(in0)), Some(Greatest(in0)))
    && (l == 0 ==> forall t :: t in v[0] && Overlaps(t, Some(Least(in0)), Some(Greatest(in0))) ==> t in in0)
  }

  ghost function Outside(v: seq<seq<Table>>, chosen: seq<Table>): set<Entry> {
    set t, e | t in AllTables(v) && t !in chosen && e in t.entries :: e
  }

  /** Some table of the level is left although it begins with the user key that the chosen table before
      it ends with, and below there is nothing of that key. */
  predicate Splits(ts: seq<Table>, chosen: seq<Table>, below: seq<seq<FileRange>>)
    requires TablesOk(ts)
  {
    exists j :: 0 < j < |ts| && ts[j] !in chosen && ts[j - 1] in chosen
      && First(ts[j]).key == Last(ts[j - 1]).key && BaseLevel(below, First(ts[j]).key)
  }

  ghost predicate LeavesOlder(v: seq<seq<Table>>, l: nat, in0: seq<Table>, in1: seq<Table>)
    requires Ordered(v) && l + 1 < |v|
  {
    || (l > 0 && Splits(v[l], in0, RangesOf(v[l + 2..])))
    || Splits(v[l + 1], in1, RangesOf(v[l + 2..]))
  }

  lemma InTable(t: Table, e: Entry)
    requires TableOk(t) && e in t.entries
    ensures First(t).key <= e.key <= Last(t).key
    ensures e == First(t) || Before(First(t), e)
    ensures e == Last(t) || Before(e, Last(t))
  {
    var i :| 0 <= i < |t.entries| && t.entries[i] == e;
  }

  lemma InContent(ts: seq<Table>, t: Table, e: Entry)
    requires t in ts && e in t.entries
    ensures e in Content(ts)
  {
  }

  lemma {:induction false} InAllTables(v: seq<seq<Table>>, t: Table)
    ensures t in AllTables(v) <==> exists l :: 0 <= l < |v| && t in v[l]
    decreases |v|
  {
    if v != [] {
      InAllTables(v[1..], t);
      if l :| 0 <= l < |v[1..]| && t in v[1..][l] {
        assert t in v[l + 1];
      }
      if l :| 0 < l < |v| && t in v[l] {
        assert t in v[1..][l - 1];
      }
    }
  }

  /** In an ordered level, the older entry of a key lies further right; and between a chosen table and
      one to its right that is left, all of the same key, there is a place where they meet. */
  lemma OlderIsSplit(ts: seq<Table>, chosen: seq<Table>, below: seq<seq<FileRange>>, a: nat, b: nat, e: Entry, f: Entry)
    requires TablesOk(ts) && InOrder(ts) && a < |ts| && b < |ts|
    requires ts[a] !in chosen && ts[b] in chosen && e in ts[a].entries && f in ts[b].entries
    requires e.key == f.key && e.sequence < f.sequence && BaseLevel(below, e.key)
    ensures Splits(ts, chosen, below)
  {
    InTable(ts[a], e);
    InTable(ts[b], f);
    assert b < a;
    var j := Border(ts, chosen, a, b);
    KeysBetween(ts, b, j - 1);
    KeysBetween(ts, j, a);
    assert Before(Last(ts[j - 1]), First(ts[j]));
  }

  lemma Border(ts: seq<Table>, chosen: seq<Table>, a: nat, b: nat) returns (j: nat)
    requires b < a < |ts| && ts[a] !in chosen && ts[b] in chosen
    ensures b < j <= a && ts[j - 1] in chosen && ts[j] !in chosen
  {
    j := b + 1;
    while ts[j] in chosen
      invariant b < j <= a && ts[j - 1] in chosen
      decreases a - j
    {
      j := j + 1;
    }
  }

  lemma KeysBetween(ts: seq<Table>, i: nat, j: nat)
    requires TablesOk(ts) && InOrder(ts) && i <= j < |ts|
    ensures First(ts[i]).key <= Last(ts[i]).key <= Last(ts[j]).key
    ensures First(ts[i]).key <= First(ts[j]).key
  {
    InTable(ts[i], Last(ts[i]));
    InTable(ts[j], Last(ts[j]));
    if i < j {
      assert Before(Last(ts[i]), First(ts[j]));
    }
  }

  lemma {:induction false} InHull(ts: seq<Table>, t: Table, e: Entry)
    requires TablesOk(ts) && t in ts && e in t.entries
    ensures Least(ts) <= e.key <= Greatest(ts)
    decreases |ts|
  {
    InTable(t, e);
    if |ts| > 1 && t != ts[0] {
      InHull(ts[1..], t, e);
    }
  }

  /** A table that holds a key of the chosen ones of a level overlaps them. */
  lemma SharesKey(ts: seq<Table>, t: Table, t': Table, e: Entry, f: Entry)
    requires TablesOk(ts) && t' in ts && f in t'.entries && TableOk(t) && e in t.entries && e.key == f.key
    ensures ts != [] && Overlaps(t, Some(Least(ts)), Some(Greatest(ts)))
  {
    InTable(t, e);
    InHull(ts, t', f);
  }

  lemma CoveredBelow(v: seq<seq<Table>>, l: nat, l': nat, t: Table, e: Entry)
    requires (forall i :: 0 <= i < |v| ==> TablesOk(v[i])) && l <= l' < |v| && t in v[l'] && e in t.entries
    ensures !BaseLevel(RangesOf(v[l..]), e.key)
  {
    InTable(t, e);
    var j :| 0 <= j < |v[l']| && v[l'][j] == t;
    var r := RangesOf(v[l..])[l' - l];
    assert v[l..][l' - l] == v[l'];
    assert r[j] == Range(t) && InRange(r[j], e.key);
    assert LevelHas(r, e.key);
  }

  /** The base level test holds exactly when no table from level l on reaches over the key. */
  lemma BaseLevelIff(v: seq<seq<Table>>, l: nat, k: UserKey)
    requires (forall i :: 0 <= i < |v| ==> TablesOk(v[i])) && l <= |v|
    ensures BaseLevel(RangesOf(v[l..]), k) <==> forall i, t :: l <= i < |v| && t in v[i] ==> !(First(t).key <= k <= Last(t).key)
  {
    var levels := RangesOf(v[l..]);
    if !BaseLevel(levels, k) {
      var i, j :| 0 <= i < |levels| && 0 <= j < |levels[i]| && InRange(levels[i][j], k);
      assert v[l..][i] == v[l + i] && v[l + i][j] in v[l + i];
    }
    forall i, t | l <= i < |v| && t in v[i] && First(t).key <= k <= Last(t).key ensures !BaseLevel(levels, k) {
      var j :| 0 <= j < |v[i]| && v[i][j] == t;
      assert v[l..][i - l] == v[i];
      assert InRange(levels[i - l][j], k);
      assert LevelHas(levels[i - l], k);
    }
  }

  /** An entry left outside that is older than one taken: it lies deeper, or a level was split. */
  lemma OlderOutside(v: seq<seq<Table>>, l: nat, in0: seq<Table>, in1: seq<Table>, t: Table, t': Table, e: Entry, f: Entry)
    requires Ordered(v) && Chosen(v, l, in0, in1) && !LeavesOlder(v, l, in0, in1)
    requires t in AllTables(v) && t !in in0 + in1 && e in t.entries && t' in in0 + in1 && f in t'.entries
    requires e.key == f.key && e.sequence < f.sequence
    ensures !BaseLevel(RangesOf(v[l + 2..]), e.key)
  {
    hide UniqueNumbers, Content, Splits, InOrder, AllTables, RangesOf, Least, Greatest, BaseLevel, Overlaps;
    InAllTables(v, t);
    var lt :| 0 <= lt < |v| && t in v[lt];
    var lf := if t' in in0 then l else l + 1;
    InContent(v[lt], t, e);
    InContent(v[lf], t', f);
    var below := RangesOf(v[l + 2..]);
    if lt >= l + 2 {
      CoveredBelow(v, l + 2, lt, t, e);
    } else if BaseLevel(below, e.key) {
      assert lt >= lf;
      if lt == lf && lt > 0 {
        var a :| 0 <= a < |v[lt]| && v[lt][a] == t;
        var b :| 0 <= b < |v[lt]| && v[lt][b] == t';
        OlderIsSplit(v[lt], if lf == l then in0 else in1, below, a, b, e, f);
      } else {
        SharesKey(in0, t, t', e, f);
      }
      assert false;
    }
  }

  lemma NumbersDiffer(v: seq<seq<Table>>, l: nat, t: Table, t': Table, e: Entry, f: Entry)
    requires Ordered(v) && l < |v| && t in v[l] && t' in v[l] && e in t.entries && f in t'.entries && Before(f, e) && e.key == f.key
    ensures e.sequence < f.sequence
  {
    InAllTables(v, t);
    InAllTables(v, t');
    InContent(AllTables(v), t, e);
    InContent(AllTables(v), t', f);
    hide NewerAbove, InOrder, AllTables, Content;
  }

  /** Where a level is split, an entry is left that is older than one taken, with nothing deeper. */
  lemma SplitLeavesOlder(v: seq<seq<Table>>, l: nat, chosen: seq<Table>, below: seq<seq<FileRange>>) returns (t: Table, t': Table)
    requires Ordered(v) && 0 < l < |v| && Splits(v[l], chosen, below)
    ensures t in v[l] && t !in chosen && t' in chosen && TableOk(t) && TableOk(t')
    ensures First(t).key == Last(t').key && First(t).sequence < Last(t').sequence && BaseLevel(below, First(t).key)
  {
    hide BaseLevel, NewerAbove, UniqueNumbers;
    var ts := v[l];
    var j :| 0 < j < |ts| && ts[j] !in chosen && ts[j - 1] in chosen
      && First(ts[j]).key == Last(ts[j - 1]).key && BaseLevel(below, First(ts[j]).key);
    t, t' := ts[j], ts[j - 1];
    NumbersDiffer(v, l, t, t', First(t), Last(t'));
  }

  /** What a compaction leaves is not older than what it takes, or lies deeper, if and only if the choice
      of its inputs splits no user key between a table that is taken and the next one of its level. */
  lemma SeparatedIff(v: seq<seq<Table>>, l: nat, in0: seq<Table>, in1: seq<Table>, input: seq<Entry>)
    requires Ordered(v) && Chosen(v, l, in0, in1) && Entries(input) == Content(in0 + in1)
    ensures Separated(input, Outside(v, in0 + in1), RangesOf(v[l + 2..])) <==> !LeavesOlder(v, l, in0, in1)
  {
    hide NewerAbove, UniqueNumbers, InOrder, Overlaps, Splits, BaseLevel, RangesOf, AllTables, Least, Greatest;
    var rest, below := Outside(v, in0 + in1), RangesOf(v[l + 2..]);
    if LeavesOlder(v, l, in0, in1) {
      var at := if l > 0 && Splits(v[l], in0, below) then l else l + 1;
      var t, t' := SplitLeavesOlder(v, at, if at == l then in0 else in1, below);
      LeftIsOutside(v, l, in0, in1, at, t);
      InContent(in0 + in1, t', Last(t'));
      InAllTables(v, t);
      assert t in AllTables(v) && First(t) in t.entries;
      assert First(t) in rest;
      assert Last(t') in Entries(input);
    } else {
      forall e, f | e in rest && f in input && e.key == f.key && e.sequence < f.sequence ensures !BaseLevel(below, e.key) {
        var t :| t in AllTables(v) && t !in in0 + in1 && e in t.entries;
        assert f in Entries(input);
        var t' :| t' in in0 + in1 && f in t'.entries;
        OlderOutside(v, l, in0, in1, t, t', e, f);
      }
    }
  }

  /** A table of one input level that is not taken there is not taken at all. */
  lemma LeftIsOutside(v: seq<seq<Table>>, l: nat, in0: seq<Table>, in1: seq<Table>, at: nat, t: Table)
    requires Ordered(v) && Chosen(v, l, in0, in1) && (at == l || at == l + 1) && t in v[at] && t !in (if at == l then in0 else in1)
    ensures t !in in0 + in1
  {
    if t in in0 + in1 {
      assert t in v[l] && t in v[l + 1];
      InContent(v[l], t, First(t));
      InContent(v[l + 1], t, First(t));
    }
  }

  /** The files are the tables of the levels. */
  ghost predicate Fits(tables: map<nat, set<Entry>>, files: set<nat>, v: seq<seq<Table>>) {
    && files == Numbers(AllTables(v))
    && (forall t :: t in AllTables(v) ==> t.number in tables && tables[t.number] == Entries(t.entries))
    && (forall t, t' :: t in AllTables(v) && t' in AllTables(v) && t.number == t'.number ==> t == t')
  }

  /** The state machine's files, arranged in levels. */
  ghost predicate Arranged(f: Files, v: seq<seq<Table>>) {
    Fits(f.tables, f.current.version, v)
  }

  lemma UnionOfTables(f: Files, v: seq<seq<Table>>, ts: seq<Table>)
    requires Arranged(f, v) && forall t :: t in ts ==> t in AllTables(v)
    ensures Numbers(ts) <= f.current.version
    ensures Union(f.tables, Numbers(ts)) == Content(ts)
    ensures Union(f.tables, f.current.version - Numbers(ts)) == Outside(v, ts)
  {
    hide AllTables;
    forall e ensures e in Union(f.tables, Numbers(ts)) <==> e in Content(ts) {
      if t :| t in ts && e in t.entries {
        assert t.number in Numbers(ts) && e in f.tables[t.number];
      }
    }
    forall e ensures e in Union(f.tables, f.current.version - Numbers(ts)) <==> e in Outside(v, ts) {
      if t :| t in AllTables(v) && t !in ts && e in t.entries {
        assert t.number in f.current.version - Numbers(ts) && e in f.tables[t.number];
      }
    }
  }

  /** So the contract that the state machine asks of a compaction is met if and only if no level is split
      at a user key. */
  lemma MergeInputIff(f: Files, v: seq<seq<Table>>, l: nat, in0: seq<Table>, in1: seq<Table>, m: Merge)
    requires Ordered(v) && Arranged(f, v) && Chosen(v, l, in0, in1)
    requires m.inputs == Numbers(in0 + in1) && m.levels == RangesOf(v[l + 2..])
    requires Sorted(m.input) && Entries(m.input) == Content(in0 + in1)
    ensures MergeInput(f, m) <==> !LeavesOlder(v, l, in0, in1)
  {
    forall t | t in in0 + in1 ensures t in AllTables(v) {
      InAllTables(v, t);
    }
    UnionOfTables(f, v, in0 + in1);
    SeparatedIff(v, l, in0, in1, m.input);
    hide Ordered, Arranged, Chosen, LeavesOlder, Separated, Union, Content, Outside, RangesOf;
  }

  // ---------- when a level is split ----------

  lemma SplitExample(t: Table, t': Table, v: seq<seq<Table>>)
    requires |t.entries| == 1 && |t'.entries| == 1 && v == [[], [t, t'], []]
    requires t.entries[0].key == t'.entries[0].key && t.entries[0].sequence > t'.entries[0].sequence
    ensures Ordered(v) && Chosen(v, 1, [t], []) && LeavesOlder(v, 1, [t], [])
  {
    var ts := v[1];
    SplitIsOrdered(t, t', v);
    assert v[3..] == [] && RangesOf(v[3..]) == [];
    assert ts[1] !in [t] && ts[0] in [t];
    hide AllTables, NewerAbove, InOrder, UniqueNumbers;
    assert Splits(ts, [t], RangesOf(v[3..]));
    assert Overlapping(v[2], Some(Least([t])), Some(Greatest([t]))) == [];
  }

  lemma AllTablesOfTwo(t: Table, t': Table, v: seq<seq<Table>>)
    requires v == [[], [t, t'], []]
    ensures AllTables(v) == [t, t']
  {
    var none: seq<seq<Table>> := [[]];
    assert v[1..] == [[t, t'], []] && v[1..][1..] == none && none[1..] == [];
    assert AllTables(none) == [];
    assert AllTables(v[1..]) == [t, t'];
  }

  lemma ContentOfTwo(t: Table, t': Table, e: Entry, f: Entry)
    requires t.entries == [e] && t'.entries == [f]
    ensures Content([t, t']) == {e, f} && Content([]) == {}
  {
    InContent([t, t'], t, e);
    InContent([t, t'], t', f);
  }

  lemma OneLevelNewerAbove(t: Table, t': Table, v: seq<seq<Table>>)
    requires v == [[], [t, t'], []]
    ensures NewerAbove(v)
  {
    assert Content([]) == {};
  }

  lemma SplitIsOrdered(t: Table, t': Table, v: seq<seq<Table>>)
    requires |t.entries| == 1 && |t'.entries| == 1 && v == [[], [t, t'], []]
    requires t.entries[0].key == t'.entries[0].key && t.entries[0].sequence > t'.entries[0].sequence
    ensures Ordered(v)
  {
    hide AllTables, Content, NewerAbove;
    var e, f := t.entries[0], t'.entries[0];
    AllTablesOfTwo(t, t', v);
    ContentOfTwo(t, t', e, f);
    OneLevelNewerAbove(t, t', v);
    assert UniqueNumbers({e, f});
  }

  lemma ReadsOfTwo(deleted: Entry, kept: Entry, s: nat)
    requires deleted.key == kept.key && deleted.kind == Deletion && kept.kind == Put && kept.sequence < deleted.sequence <= s
    ensures Read({kept} + {deleted}, kept.key, s) == None && Read({kept}, kept.key, s) == Some(kept.value)
  {
    assert IsNewest({kept} + {deleted}, kept.key, s, deleted);
    NewestIs({kept} + {deleted}, kept.key, s, deleted);
    assert IsNewest({kept}, kept.key, s, kept);
    NewestIs({kept}, kept.key, s, kept);
  }

  /** Two updates of a key, kept apart for a snapshot between them and written to two tables; once that
      snapshot is gone, compacting the first table alone brings the value back. */
  lemma DeletedComesBack(k: UserKey, value: Value)
    ensures var deleted, kept := Entry(k, 10, Deletion, []), Entry(k, 5, Put, value);
      var t, t' := Table(1, [deleted]), Table(2, [kept]);
      var v := [[], [t, t'], []];
      && Keep([deleted, kept], 7, [], 2) == [deleted, kept]
      && Ordered(v) && Chosen(v, 1, [t], []) && LeavesOlder(v, 1, [t], [])
      && forall s: nat :: s >= 10 ==>
           && Read(DbBefore([deleted], {kept}), k, s) == None
           && Read(DbAfter([deleted], {kept}, 10, RangesOf(v[3..])), k, s) == Some(value)
  {
    hide Ordered, Chosen, LeavesOlder, Read;
    var deleted, kept := Entry(k, 10, Deletion, []), Entry(k, 5, Put, value);
    var t, t' := Table(1, [deleted]), Table(2, [kept]);
    var v := [[], [t, t'], []];
    assert Keep([deleted, kept], 7, [], 1) == [deleted];
    SplitExample(t, t', v);
    assert v[3..] == [] && RangesOf(v[3..]) == [];
    assert Keep([deleted], 10, [], 1) == [];
    assert DbBefore([deleted], {kept}) == {kept} + {deleted} && DbAfter([deleted], {kept}, 10, []) == {kept};
    forall s: nat | s >= 10 ensures Read({kept} + {deleted}, k, s) == None && Read({kept}, k, s) == Some(value) {
      ReadsOfTwo(deleted, kept, s);
    }
  }

  // ---------- the code ----------

  predicate Wider(begin: Option<UserKey>, end: Option<UserKey>, begin': Option<UserKey>, end': Option<UserKey>) {
    && (begin.None? <==> begin'.None?) && (end.None? <==> end'.None?)
    && (begin.Some? ==> begin'.value <= begin.value) && (end.Some? ==> end'.value >= end.value)
  }

  /** How many tables reach out of the range. */
  function Reaching(ts: seq<Table>, begin: Option<UserKey>, end: Option<UserKey>): nat
    requires TablesOk(ts)
    decreases |ts|
  {
    if ts == [] then 0
    else
      (if begin.Some? && First(ts[0]).key < begin.value then 1 else 0)
      + (if end.Some? && Last(ts[0]).key > end.value then 1 else 0)
      + Reaching(ts[1..], begin, end)
  }

  lemma {:induction false} ReachingLess(ts: seq<Table>, begin: Option<UserKey>, end: Option<UserKey>,
                                        begin': Option<UserKey>, end': Option<UserKey>, i: nat)
    requires TablesOk(ts) && Wider(begin, end, begin', end')
    ensures Reaching(ts, begin', end') <= Reaching(ts, begin, end)
    ensures i < |ts| && begin.Some? && begin'.value <= First(ts[i]).key < begin.value ==> Reaching(ts, begin', end') < Reaching(ts, begin, end)
    ensures i < |ts| && end.Some? && end'.value >= Last(ts[i]).key > end.value ==> Reaching(ts, begin', end') < Reaching(ts, begin, end)
    decreases |ts|
  {
    if ts != [] {
      ReachingLess(ts[1..], begin, end, begin', end', if i > 0 then i - 1 else |ts|);
    }
  }

  /** No smaller range includes the given one and is not reached out of. */
  ghost predicate IsLeast(ts: seq<Table>, begin: Option<UserKey>, end: Option<UserKey>, userBegin: Option<UserKey>, userEnd: Option<UserKey>)
    requires TablesOk(ts)
  {
    forall b, e :: Wider(begin, end, b, e) && Closed(ts, b, e) ==> Wider(userBegin, userEnd, b, e)
  }

  lemma LeastGrows(ts: seq<Table>, begin: Option<UserKey>, end: Option<UserKey>, userBegin: Option<UserKey>, userEnd: Option<UserKey>, t: Table)
    requires TablesOk(ts) && IsLeast(ts, begin, end, userBegin, userEnd) && t in ts
    ensures Overlaps(t, userBegin, userEnd) && userBegin.Some? && First(t).key < userBegin.value ==> IsLeast(ts, begin, end, Some(First(t).key), userEnd)
    ensures Overlaps(t, userBegin, userEnd) && userEnd.Some? && Last(t).key > userEnd.value ==> IsLeast(ts, begin, end, userBegin, Some(Last(t).key))
  {
    forall b, e | Wider(begin, end, b, e) && Closed(ts, b, e)
      ensures Wider(userBegin, userEnd, b, e) && (Overlaps(t, userBegin, userEnd) ==> Overlaps(t, b, e))
    {
    }
  }

  lemma NoTables(ts: seq<Table>, begin: Option<UserKey>, end: Option<UserKey>)
    requires TablesOk(ts)
    ensures Overlapping(ts[..0], begin, end) == [] && Closed(ts[..0], begin, end) && IsLeast(ts, begin, end, begin, end)
  {
  }

  lemma PrefixOneMore(ts: seq<Table>, i: nat, begin: Option<UserKey>, end: Option<UserKey>)
    requires TablesOk(ts) && i < |ts|
    ensures Overlapping(ts[..i + 1], begin, end) == Overlapping(ts[..i], begin, end) + if Overlaps(ts[i], begin, end) then [ts[i]] else []
    ensures Closed(ts[..i], begin, end) && !Overlaps(ts[i], begin, end) ==> Closed(ts[..i + 1], begin, end)
    ensures Closed(ts[..i], begin, end) && (begin.Some? ==> begin.value <= First(ts[i]).key) && (end.Some? ==> Last(ts[i]).key <= end.value)
        ==> Closed(ts[..i + 1], begin, end)
  {
    assert ts[..i + 1][..i] == ts[..i];
    assert ts[..i + 1] == ts[..i] + [ts[i]];
  }

  /** Below level 0 the tables that overlap a range are neighbours, and stay in order. */
  lemma OverlappingIsStretch(ts: seq<Table>, begin: Option<UserKey>, end: Option<UserKey>) returns (i: nat, j: nat)
    requires TablesOk(ts) && InOrder(ts)
    ensures i <= j <= |ts| && Overlapping(ts, begin, end) == ts[i..j]
  {
    i, j := StretchUpTo(ts, |ts|, begin, end);
    assert ts[..|ts|] == ts;
  }

  lemma {:induction false} StretchUpTo(ts: seq<Table>, n: nat, begin: Option<UserKey>, end: Option<UserKey>) returns (i: nat, j: nat)
    requires TablesOk(ts) && InOrder(ts) && n <= |ts|
    ensures i <= j <= n && Overlapping(ts[..n], begin, end) == ts[i..j]
  {
    hide Overlapping, Overlaps, InOrder, Closed;
    i, j := 0, 0;
    if n == 0 {
      NoTables(ts, begin, end);
    } else {
      i, j := StretchUpTo(ts, n - 1, begin, end);
      PrefixOneMore(ts, n - 1, begin, end);
      var before := Overlapping(ts[..n - 1], begin, end);
      if Overlaps(ts[n - 1], begin, end) {
        StretchReachesLast(ts, n - 1, i, j, begin, end);
        i, j := StretchGrows(ts, n - 1, i, j, before);
      } else {
        assert before + [] == before;
      }
    }
  }

  lemma StretchGrows(ts: seq<Table>, n: nat, i: nat, j: nat, before: seq<Table>) returns (i': nat, j': nat)
    requires i <= j <= n < |ts| && before == ts[i..j] && (i < j ==> j == n)
    ensures i' <= j' <= n + 1 && before + [ts[n]] == ts[i'..j']
  {
    i', j' := if i < j then i else n, n + 1;
  }

  lemma StretchReachesLast(ts: seq<Table>, n: nat, i: nat, j: nat, begin: Option<UserKey>, end: Option<UserKey>)
    requires TablesOk(ts) && InOrder(ts) && i <= j <= n < |ts| && Overlaps(ts[n], begin, end)
    requires Overlapping(ts[..n], begin, end) == ts[i..j]
    ensures i < j ==> j == n
  {
    hide Overlaps, InOrder;
    if i < j < n {
      assert ts[i..j][0] == ts[i];
      assert Overlaps(ts[i], begin, end);
      BetweenOverlaps(ts, i, n, begin, end, j);
      assert ts[..n][j] == ts[j];
      assert ts[j] in ts[i..j];
      var m :| i <= m < j && ts[m] == ts[j];
      DistinctInOrder(ts, m, j);
    }
  }

  lemma BetweenOverlaps(ts: seq<Table>, i: nat, n: nat, begin: Option<UserKey>, end: Option<UserKey>, j: nat)
    requires TablesOk(ts) && InOrder(ts) && i <= j <= n < |ts| && Overlaps(ts[i], begin, end) && Overlaps(ts[n], begin, end)
    ensures Overlaps(ts[j], begin, end)
  {
    FirstBeforeLast(ts[j]);
    if i < j { assert Before(Last(ts[i]), First(ts[j])); }
    if j < n { assert Before(Last(ts[j]), First(ts[n])); }
  }

  lemma FirstBeforeLast(t: Table)
    requires TableOk(t)
    ensures First(t) == Last(t) || Before(First(t), Last(t))
  {
  }

  lemma DistinctInOrder(ts: seq<Table>, i: nat, j: nat)
    requires TablesOk(ts) && InOrder(ts) && i < j < |ts|
    ensures ts[i] != ts[j]
  {
    FirstBeforeLast(ts[i]);
    assert Before(Last(ts[i]), First(ts[j]));
  }

  /** GetOverlappingInputs. At level 0, where tables may overlap each other, the range grows with each
      table that reaches out of it, and the search starts again: it ends with the least range that no
      overlapping table reaches out of. */
  method GetOverlappingInputs(ts: seq<Table>, level: nat, begin: Option<UserKey>, end: Option<UserKey>)
      returns (inputs: seq<Table>, userBegin: Option<UserKey>, userEnd: Option<UserKey>)
    requires TablesOk(ts)
    ensures inputs == Overlapping(ts, userBegin, userEnd) && Wider(begin, end, userBegin, userEnd)
    ensures level > 0 ==> userBegin == begin && userEnd == end
    ensures level == 0 ==> Closed(ts, userBegin, userEnd) && IsLeast(ts, begin, end, userBegin, userEnd)
  {
    hide Overlapping, Closed, IsLeast, Reaching;
    inputs, userBegin, userEnd := [], begin, end;
    var i := 0;
    NoTables(ts, begin, end);
    while i < |ts|
      invariant i <= |ts| && inputs == Overlapping(ts[..i], userBegin, userEnd) && Wider(begin, end, userBegin, userEnd)
      invariant level > 0 ==> userBegin == begin && userEnd == end
      invariant level == 0 ==> Closed(ts[..i], userBegin, userEnd)
      invariant IsLeast(ts, begin, end, userBegin, userEnd)
      decreases Reaching(ts, userBegin, userEnd), |ts| - i
    {
      var t := ts[i];
      PrefixOneMore(ts, i, userBegin, userEnd);
      LeastGrows(ts, begin, end, userBegin, userEnd, t);
      i := i + 1;
      if userBegin.Some? && Last(t).key < userBegin.value {
      } else if userEnd.Some? && First(t).key > userEnd.value {
      } else {
        inputs := inputs + [t];
        if level == 0 {
          if userBegin.Some? && First(t).key < userBegin.value {
            ReachingLess(ts, userBegin, userEnd, Some(First(t).key), userEnd, i - 1);
            userBegin := Some(First(t).key);
            inputs, i := [], 0;
            NoTables(ts, userBegin, userEnd);
          } else if userEnd.Some? && Last(t).key > userEnd.value {
            ReachingLess(ts, userBegin, userEnd, userBegin, Some(Last(t).key), i - 1);
            userEnd := Some(Last(t).key);
            inputs, i := [], 0;
            NoTables(ts, userBegin, userEnd);
          }
        }
      }
    }
    assert ts[..i] == ts;
  }

  /** All tables of level 0 that overlap the chosen ones are chosen. */
  ghost predicate Whole(v: seq<seq<Table>>, l: nat, in0: seq<Table>)
    requires Ordered(v) && l < |v|
  {
    && in0 != [] && (forall t :: t in in0 ==> t in v[l])
    && (l == 0 ==> forall t :: t in v[0] && Overlaps(t, Some(Least(in0)), Some(Greatest(in0))) ==> t in in0)
  }

  lemma {:induction false} HullInside(ts: seq<Table>, begin: Option<UserKey>, end: Option<UserKey>)
    requires TablesOk(ts) && ts != []
    requires forall t :: t in ts ==> (begin.Some? ==> begin.value <= First(t).key) && (end.Some? ==> Last(t).key <= end.value)
    ensures begin.Some? ==> begin.value <= Least(ts)
    ensures end.Some? ==> Greatest(ts) <= end.value
    decreases |ts|
  {
    if |ts| > 1 {
      HullInside(ts[1..], begin, end);
    }
  }

  lemma ClosedIsWhole(v: seq<seq<Table>>, l: nat, in0: seq<Table>, begin: Option<UserKey>, end: Option<UserKey>)
    requires Ordered(v) && l < |v| && in0 == Overlapping(v[l], begin, end) && in0 != [] && (l == 0 ==> Closed(v[l], begin, end))
    ensures Whole(v, l, in0)
  {
    if l == 0 {
      HullInside(in0, begin, end);
    }
  }

  /** The tables of a level in a range, as GetOverlappingInputs gives them. */
  ghost predicate Ranged(ts: seq<Table>, l: nat, begin: Option<UserKey>, end: Option<UserKey>, r: seq<Table>)
    requires TablesOk(ts)
  {
    if l > 0 then r == Overlapping(ts, begin, end)
    else exists b, e :: r == Overlapping(ts, b, e) && Wider(begin, end, b, e) && Closed(ts, b, e) && IsLeast(ts, begin, end, b, e)
  }

  /** There is only one such choice. */
  lemma RangedIsUnique(ts: seq<Table>, l: nat, begin: Option<UserKey>, end: Option<UserKey>, r: seq<Table>, r': seq<Table>)
    requires TablesOk(ts) && Ranged(ts, l, begin, end, r) && Ranged(ts, l, begin, end, r')
    ensures r == r'
  {
    hide Closed, Overlapping;
    if l == 0 {
      var b, e :| r == Overlapping(ts, b, e) && Wider(begin, end, b, e) && Closed(ts, b, e) && IsLeast(ts, begin, end, b, e);
      var b', e' :| r' == Overlapping(ts, b', e') && Wider(begin, end, b', e') && Closed(ts, b', e') && IsLeast(ts, begin, end, b', e');
      assert Wider(b, e, b', e') && Wider(b', e', b, e);
    }
  }

  /** It takes at least all tables that overlap the range, and none if there is none. */
  lemma RangedHas(ts: seq<Table>, l: nat, begin: Option<UserKey>, end: Option<UserKey>, r: seq<Table>)
    requires TablesOk(ts) && Ranged(ts, l, begin, end, r)
    ensures forall t :: t in ts && Overlaps(t, begin, end) ==> t in r
    ensures (forall t :: t in ts ==> !Overlaps(t, begin, end)) ==> r == []
  {
    hide Overlapping;
    if l == 0 {
      var b, e :| r == Overlapping(ts, b, e) && Wider(begin, end, b, e) && Closed(ts, b, e) && IsLeast(ts, begin, end, b, e);
      if forall t :: t in ts ==> !Overlaps(t, begin, end) {
        assert Wider(begin, end, begin, end) && Closed(ts, begin, end);
        assert Wider(b, e, begin, end);
      }
      if r != [] {
        assert r[0] in r;
      }
    } else if r != [] {
      assert r[0] in r;
    }
  }

  /** The first tables, if not all are to be taken. */
  function Limited(ts: seq<Table>, limit: nat): seq<Table> {
    if limit < |ts| then ts[..limit] else ts
  }

  /** What becomes of the tables picked: they alone, or all tables of their level within their range and
      that of the tables they overlap below, if that is more, allowed, and takes no further table below. */
  ghost predicate Grown(v: seq<seq<Table>>, l: nat, picked: seq<Table>, grow: bool, in0: seq<Table>)
    requires Ordered(v) && l + 1 < |v| && Whole(v, l, picked)
  {
    var below := Overlapping(v[l + 1], Some(Least(picked)), Some(Greatest(picked)));
    if below == [] || !grow then in0 == picked
    else exists wide :: Ranged(v[l], l, Some(Least(picked + below)), Some(Greatest(picked + below)), wide)
           && in0 == if Widens(v[l + 1], picked, below, wide) then wide else picked
  }

  predicate Widens(ts: seq<Table>, picked: seq<Table>, below: seq<Table>, wide: seq<Table>)
    requires TablesOk(ts)
  {
    && |wide| > |picked| && TablesOk(wide)
    && |Overlapping(ts, Some(Least(wide)), Some(Greatest(wide)))| == |below|
  }

  lemma WholeIsChosen(v: seq<seq<Table>>, l: nat, in0: seq<Table>, in1: seq<Table>)
    requires Ordered(v) && l + 1 < |v| && Whole(v, l, in0)
    requires in1 == Overlapping(v[l + 1], Some(Least(in0)), Some(Greatest(in0)))
    ensures Chosen(v, l, in0, in1)
  {
    hide NewerAbove, InOrder, UniqueNumbers, Overlapping, Overlaps, Least, Greatest;
  }

  lemma GrownTo(v: seq<seq<Table>>, l: nat, picked: seq<Table>, below: seq<Table>, wide: seq<Table>, in0: seq<Table>)
    requires Ordered(v) && l + 1 < |v| && Whole(v, l, picked) && below != []
    requires below == Overlapping(v[l + 1], Some(Least(picked)), Some(Greatest(picked)))
    requires Ranged(v[l], l, Some(Least(picked + below)), Some(Greatest(picked + below)), wide)
    requires in0 == if Widens(v[l + 1], picked, below, wide) then wide else picked
    ensures Grown(v, l, picked, true, in0)
  {
    hide NewerAbove, InOrder, UniqueNumbers, Overlapping, Overlaps, Least, Greatest, Ranged;
  }

  lemma NotGrown(v: seq<seq<Table>>, l: nat, picked: seq<Table>, grow: bool)
    requires Ordered(v) && l + 1 < |v| && Whole(v, l, picked)
    requires !grow || Overlapping(v[l + 1], Some(Least(picked)), Some(Greatest(picked))) == []
    ensures Grown(v, l, picked, grow, picked)
  {
    hide NewerAbove, InOrder, UniqueNumbers, Overlapping, Overlaps, Least, Greatest, Ranged;
  }

  lemma RangedIs(ts: seq<Table>, l: nat, begin: Option<UserKey>, end: Option<UserKey>, b: Option<UserKey>, e: Option<UserKey>)
    requires TablesOk(ts) && Wider(begin, end, b, e)
    requires l > 0 ==> b == begin && e == end
    requires l == 0 ==> Closed(ts, b, e) && IsLeast(ts, begin, end, b, e)
    ensures Ranged(ts, l, begin, end, Overlapping(ts, b, e))
  {
    hide Overlapping, Overlaps, Closed, IsLeast;
  }

  /** SetupOtherInputs. grow stands for the comparison of sizes. */
  method SetupOtherInputs(v: seq<seq<Table>>, l: nat, picked: seq<Table>, grow: bool) returns (in0: seq<Table>, in1: seq<Table>)
    requires Ordered(v) && l + 1 < |v| && Whole(v, l, picked)
    ensures Chosen(v, l, in0, in1) && forall t :: t in picked ==> t in in0
    ensures Grown(v, l, picked, grow, in0)
  {
    hide NewerAbove, InOrder, UniqueNumbers, Closed, IsLeast, Overlapping, Grown, Ranged, Chosen, Least, Greatest;
    var b, e;
    in0 := picked;
    in1, b, e := GetOverlappingInputs(v[l + 1], l + 1, Some(Least(in0)), Some(Greatest(in0)));
    WholeIsChosen(v, l, in0, in1);
    if in1 == [] || !grow {
      NotGrown(v, l, picked, grow);
    }
    if in1 != [] {
      var allStart, allLimit := Least(in0 + in1), Greatest(in0 + in1);
      var expanded0;
      expanded0, b, e := GetOverlappingInputs(v[l], l, Some(allStart), Some(allLimit));
      RangedIs(v[l], l, Some(allStart), Some(allLimit), b, e);
      ghost var below := in1;
      if |expanded0| > |in0| && grow {
        ClosedIsWhole(v, l, expanded0, b, e);
        var expanded1;
        expanded1, b, e := GetOverlappingInputs(v[l + 1], l + 1, Some(Least(expanded0)), Some(Greatest(expanded0)));
        if |expanded1| == |in1| {
          forall t | t in picked ensures t in expanded0 {
            InHull(in0 + in1, t, First(t));
            InHull(in0 + in1, t, Last(t));
          }
          in0, in1 := expanded0, expanded1;
          WholeIsChosen(v, l, in0, in1);
        }
      }
      if grow {
        GrownTo(v, l, picked, below, expanded0, in0);
      }
    }
  }

  /** PickCompaction, once the level and its first table are settled by sizes or by seeks. */
  method PickCompaction(v: seq<seq<Table>>, l: nat, first: nat, grow: bool) returns (in0: seq<Table>, in1: seq<Table>)
    requires Ordered(v) && l + 1 < |v| && first < |v[l]|
    ensures Chosen(v, l, in0, in1) && v[l][first] in in0
    ensures l > 0 ==> Whole(v, l, [v[l][first]]) && Grown(v, l, [v[l][first]], grow, in0)
    ensures l == 0 ==> var t := v[0][first];
      exists picked :: Ranged(v[0], 0, Some(First(t).key), Some(Last(t).key), picked) && Whole(v, 0, picked) && Grown(v, 0, picked, grow, in0)
  {
    hide NewerAbove, InOrder, UniqueNumbers, IsLeast;
    var t := v[l][first];
    InTable(t, First(t));
    var picked := [t];
    if l == 0 {
      var b, e;
      picked, b, e := GetOverlappingInputs(v[0], 0, Some(First(t).key), Some(Last(t).key));
      assert t in picked;
      assert Ranged(v[0], 0, Some(First(t).key), Some(Last(t).key), picked);
      ClosedIsWhole(v, 0, picked, b, e);
    }
    hide Closed, Overlapping, Grown, Ranged, Whole;
    in0, in1 := SetupOtherInputs(v, l, picked, grow);
  }

  /** CompactRange. Below level 0 only the first tables are taken, until their size exceeds a limit. */
  method CompactRange(v: seq<seq<Table>>, l: nat, begin: Option<UserKey>, end: Option<UserKey>, limit: nat, grow: bool)
      returns (found: bool, in0: seq<Table>, in1: seq<Table>)
    requires Ordered(v) && l + 1 < |v| && limit > 0
    ensures found <==> exists t :: t in v[l] && Overlaps(t, begin, end)
    ensures found ==> Chosen(v, l, in0, in1)
    ensures found && l > 0 ==> var picked := Limited(Overlapping(v[l], begin, end), limit);
      Whole(v, l, picked) && Grown(v, l, picked, grow, in0) && forall t :: t in picked ==> t in in0
    ensures found && l == 0 ==> exists picked :: Ranged(v[0], 0, begin, end, picked) && Whole(v, 0, picked) && Grown(v, 0, picked, grow, in0)
    ensures found && l == 0 ==> forall t :: t in v[0] && Overlaps(t, begin, end) ==> t in in0
  {
    hide NewerAbove, InOrder, UniqueNumbers, IsLeast, Closed, Overlapping, Overlaps, Grown, Ranged, Chosen;
    var b, e;
    in0, b, e := GetOverlappingInputs(v[l], l, begin, end);
    RangedIs(v[l], l, begin, end, b, e);
    RangedHas(v[l], l, begin, end, in0);
    in1 := [];
    found := in0 != [];
    if found {
      ghost var ranged := in0;
      ClosedIsWhole(v, l, in0, b, e);
      if l > 0 {
        RangedBelow(v[l], l, begin, end, in0);
        if limit < |in0| {
          in0 := in0[..limit];
          FirstIsWhole(v, l, ranged, limit);
        }
      }
      hide Whole;
      in0, in1 := SetupOtherInputs(v, l, in0, grow);
    }
  }

  lemma RangedBelow(ts: seq<Table>, l: nat, begin: Option<UserKey>, end: Option<UserKey>, r: seq<Table>)
    requires TablesOk(ts) && l > 0 && Ranged(ts, l, begin, end, r)
    ensures r == Overlapping(ts, begin, end) && forall t :: t in r ==> Overlaps(t, begin, end)
  {
    hide Overlapping;
  }

  lemma FirstIsWhole(v: seq<seq<Table>>, l: nat, ts: seq<Table>, n: nat)
    requires Ordered(v) && 0 < l < |v| && Whole(v, l, ts) && 0 < n <= |ts|
    ensures Whole(v, l, ts[..n])
  {
    hide NewerAbove, InOrder, UniqueNumbers;
  }
}
