/** Version::Get: levels are searched from the top, and below level 0 one table each. */
module VersionGet {
  import opened Keys
  import opened DatabaseMemory
  import opened DatabaseStorage
  import opened Levels

  // ---------- one table ----------

  /** The tag of the lookup key: the largest that a snapshot admits. */
  function SeekTag(s: nat): nat {
    s * 256 + 1
  }

  /** The index of the first entry that is not before the lookup key. */
  function SeekIndex(es: seq<Entry>, k: UserKey, s: nat): (i: nat)
    ensures i <= |es|
    ensures forall j :: 0 <= j < i ==> Precedes(es[j].key, Tag(es[j]), k, SeekTag(s))
    ensures i < |es| ==> !Precedes(es[i].key, Tag(es[i]), k, SeekTag(s))
    decreases |es|
  {
    if es == [] || !Precedes(es[0].key, Tag(es[0]), k, SeekTag(s)) then 0 else 1 + SeekIndex(es[1..], k, s)
  }

  /** table_cache_->Get with SaveValue: the entry found there, if it is of the key. */
  function TableGet(t: Table, k: UserKey, s: nat): Option<Entry> {
    var i := SeekIndex(t.entries, k, s);
    if i < |t.entries| && t.entries[i].key == k then Some(t.entries[i]) else None
  }

  lemma SeekDivides(e: Entry, k: UserKey, s: nat)
    ensures Visible(e, k, s) <==> e.key == k && !Precedes(e.key, Tag(e), k, SeekTag(s))
  {
  }

  lemma SortedIsDistinct(es: seq<Entry>)
    requires Sorted(es)
    ensures Distinct(Entries(es))
  {
    forall e, f | e in Entries(es) && f in Entries(es) && e.key == f.key && Tag(e) == Tag(f) ensures e == f {
      var i :| 0 <= i < |es| && es[i] == e;
      var j :| 0 <= j < |es| && es[j] == f;
      assert i == j;
    }
  }

  lemma TableGetIsNewest(t: Table, k: UserKey, s: nat)
    requires TableOk(t)
    ensures TableGet(t, k, s) == Newest(Entries(t.entries), k, s)
  {
    hide SeekIndex;
    var es := t.entries;
    var i := SeekIndex(es, k, s);
    SortedIsDistinct(es);
    forall e | e in Entries(es) && Visible(e, k, s)
      ensures i < |es| && es[i].key == k && Tag(e) <= Tag(es[i])
    {
      SeekDivides(e, k, s);
      var j :| 0 <= j < |es| && es[j] == e;
      assert i <= j;
      if i < j {
        assert Before(es[i], es[j]);
      }
    }
    if i < |es| && es[i].key == k {
      SeekDivides(es[i], k, s);
      assert IsNewest(Entries(es), k, s, es[i]);
      NewestIs(Entries(es), k, s, es[i]);
    } else {
      NewestIsNone(Entries(es), k, s);
    }
  }

  // ---------- one level ----------

  /** FindFile: binary search for the first table that does not end before the lookup key. */
  method FindFile(ts: seq<Table>, k: UserKey, s: nat) returns (index: nat)
    requires TablesOk(ts) && InOrder(ts)
    ensures index <= |ts|
    ensures forall i :: 0 <= i < index ==> Precedes(Last(ts[i]).key, Tag(Last(ts[i])), k, SeekTag(s))
    ensures index < |ts| ==> !Precedes(Last(ts[index]).key, Tag(Last(ts[index])), k, SeekTag(s))
  {
    var left, right := 0, |ts|;
    while left < right
      invariant 0 <= left <= right <= |ts|
      invariant forall i :: 0 <= i < left ==> Precedes(Last(ts[i]).key, Tag(Last(ts[i])), k, SeekTag(s))
      invariant right < |ts| ==> !Precedes(Last(ts[right]).key, Tag(Last(ts[right])), k, SeekTag(s))
    {
      var mid := (left + right) / 2;
      var f := ts[mid];
      if Precedes(Last(f).key, Tag(Last(f)), k, SeekTag(s)) {
        forall i | 0 <= i < mid ensures Precedes(Last(ts[i]).key, Tag(Last(ts[i])), k, SeekTag(s)) {
          LastsAscend(ts, i, mid);
        }
        left := mid + 1;
      } else {
        right := mid;
      }
    }
    index := right;
  }

  lemma LastsAscend(ts: seq<Table>, i: nat, j: nat)
    requires TablesOk(ts) && InOrder(ts) && i < j < |ts|
    ensures Before(Last(ts[i]), Last(ts[j]))
  {
    assert Before(Last(ts[i]), First(ts[j]));
    InTable(ts[j], Last(ts[j]));
  }

  /** What the level holds of the key that the snapshot sees begins in the table that FindFile gives. */
  lemma LevelIsOneTable(ts: seq<Table>, k: UserKey, s: nat, index: nat, e: Entry)
    requires TablesOk(ts) && InOrder(ts) && index <= |ts|
    requires forall i :: 0 <= i < index ==> Precedes(Last(ts[i]).key, Tag(Last(ts[i])), k, SeekTag(s))
    requires index < |ts| ==> !Precedes(Last(ts[index]).key, Tag(Last(ts[index])), k, SeekTag(s))
    requires e in Content(ts) && Visible(e, k, s)
    ensures index < |ts|
    ensures e in ts[index].entries || (Visible(Last(ts[index]), k, s) && Tag(e) <= Tag(Last(ts[index])))
  {
    SeekDivides(e, k, s);
    var t :| t in ts && e in t.entries;
    var j :| 0 <= j < |ts| && ts[j] == t;
    InTable(t, e);
    if j < index {
      assert false;
    } else if j > index {
      assert Before(Last(ts[index]), First(ts[j]));
      SeekDivides(Last(ts[index]), k, s);
    }
  }

  lemma LevelGetIsNewest(ts: seq<Table>, k: UserKey, s: nat, index: nat)
    requires TablesOk(ts) && InOrder(ts) && Distinct(Content(ts)) && index <= |ts|
    requires forall i :: 0 <= i < index ==> Precedes(Last(ts[i]).key, Tag(Last(ts[i])), k, SeekTag(s))
    requires index < |ts| ==> !Precedes(Last(ts[index]).key, Tag(Last(ts[index])), k, SeekTag(s))
    ensures index == |ts| || k < First(ts[index]).key ==> Newest(Content(ts), k, s) == None
    ensures index < |ts| ==> TableGet(ts[index], k, s) == Newest(Content(ts), k, s)
  {
    hide TableGet;
    if e :| e in Content(ts) && Visible(e, k, s) {
      LevelIsOneTable(ts, k, s, index, e);
      var t := ts[index];
      var there := if e in t.entries then e else Last(t);
      InTable(t, there);
      NewestExists(Entries(t.entries), k, s, there);
      var n :| IsNewest(Entries(t.entries), k, s, n);
      InContent(ts, t, n);
      forall f | f in Content(ts) && Visible(f, k, s) ensures Tag(f) <= Tag(n) {
        LevelIsOneTable(ts, k, s, index, f);
        assert Last(t) in Entries(t.entries);
      }
      assert IsNewest(Content(ts), k, s, n);
      NewestIs(Content(ts), k, s, n);
      SortedIsDistinct(t.entries);
      NewestIs(Entries(t.entries), k, s, n);
      TableGetIsNewest(t, k, s);
    } else {
      NewestIsNone(Content(ts), k, s);
      if index < |ts| {
        forall e | e in Entries(ts[index].entries) ensures !Visible(e, k, s) {
          InContent(ts, ts[index], e);
        }
        NewestIsNone(Entries(ts[index].entries), k, s);
        TableGetIsNewest(ts[index], k, s);
      }
    }
  }

  // ---------- one layer after another ----------

  ghost function All(layers: seq<set<Entry>>): set<Entry>
    decreases |layers|
  {
    if layers == [] then {} else All(layers[1..]) + layers[0]
  }

  /** Of entries of one key, those in earlier layers are the newer ones. */
  ghost predicate Layered(layers: seq<set<Entry>>)
    decreases |layers|
  {
    layers != [] ==>
      && Layered(layers[1..])
      && forall e, f :: e in All(layers[1..]) && f in layers[0] && e.key == f.key ==> e.sequence < f.sequence
  }

  /** The first layer that has a visible entry of the key answers. */
  ghost function FirstNewest(layers: seq<set<Entry>>, k: UserKey, s: nat): Option<Entry>
    decreases |layers|
  {
    if layers == [] then None
    else
      var e := Newest(layers[0], k, s);
      if e.Some? then e else FirstNewest(layers[1..], k, s)
  }

  lemma {:induction false} FirstNewestIsNewest(layers: seq<set<Entry>>, k: UserKey, s: nat)
    requires Layered(layers) && UniqueNumbers(All(layers))
    ensures FirstNewest(layers, k, s) == Newest(All(layers), k, s)
    decreases |layers|
  {
    hide Newest, IsNewest;
    if layers == [] {
      NewestIsNone({}, k, s);
    } else {
      FirstNewestIsNewest(layers[1..], k, s);
      ReadThroughLayer(All(layers[1..]), layers[0], k, s);
      if !(exists f :: f in layers[0] && Visible(f, k, s)) {
        NewestIsNone(layers[0], k, s);
      }
    }
  }

  lemma {:induction false} InAll(layers: seq<set<Entry>>, e: Entry)
    ensures e in All(layers) <==> exists i :: 0 <= i < |layers| && e in layers[i]
    decreases |layers|
  {
    if layers != [] {
      InAll(layers[1..], e);
      if i :| 0 <= i < |layers[1..]| && e in layers[1..][i] {
        assert e in layers[i + 1];
      }
      if i :| 0 < i < |layers| && e in layers[i] {
        assert e in layers[1..][i - 1];
      }
    }
  }

  lemma {:induction false} LayeredByIndex(layers: seq<set<Entry>>)
    requires forall i: nat, j: nat, e: Entry, f: Entry :: i < j < |layers| && e in layers[i] && f in layers[j] && e.key == f.key ==> e.sequence > f.sequence
    ensures Layered(layers)
    decreases |layers|
  {
    if layers != [] {
      var rest := layers[1..];
      forall i: nat, j: nat, e: Entry, f: Entry | i < j < |rest| && e in rest[i] && f in rest[j] && e.key == f.key ensures e.sequence > f.sequence {
        assert e in layers[i + 1] && f in layers[j + 1];
      }
      LayeredByIndex(rest);
      forall e, f | e in All(rest) && f in layers[0] && e.key == f.key ensures e.sequence < f.sequence {
        InAll(rest, e);
        var i :| 0 <= i < |rest| && e in rest[i];
        assert e in layers[i + 1];
      }
    }
  }

  // ---------- level 0 ----------

  predicate DistinctNumbers(ts: seq<Table>) {
    forall i, j :: 0 <= i < j < |ts| ==> ts[i].number != ts[j].number
  }

  /** A table with a larger number holds the newer entries. */
  ghost predicate NumberedByAge(ts: seq<Table>) {
    forall t, t', e, f :: t in ts && t' in ts && t.number > t'.number && e in t.entries && f in t'.entries && e.key == f.key
      ==> e.sequence > f.sequence
  }

  predicate Descending(ts: seq<Table>) {
    forall i, j :: 0 <= i < j < |ts| ==> ts[i].number > ts[j].number
  }

  function InsertByNumber(ts: seq<Table>, t: Table): (r: seq<Table>)
    requires Descending(ts) && forall u :: u in ts ==> u.number != t.number
    ensures Descending(r) && forall u :: u in r <==> u in ts || u == t
  {
    if ts == [] then [t]
    else if t.number > ts[0].number then [t] + ts
    else
      var rest := InsertByNumber(ts[1..], t);
      assert forall u :: u in rest ==> u.number < ts[0].number by {
        forall u | u in rest ensures u.number < ts[0].number {
          if u != t {
            var i :| 0 <= i < |ts[1..]| && ts[1..][i] == u;
            assert ts[i + 1] == u;
          }
        }
      }
      [ts[0]] + rest
  }

  /** std::sort with NewestFirst. */
  function NewestFirst(ts: seq<Table>): (r: seq<Table>)
    requires DistinctNumbers(ts)
    ensures Descending(r) && forall u :: u in r <==> u in ts
  {
    if ts == [] then []
    else
      assert forall u :: u in ts[1..] ==> u.number != ts[0].number;
      InsertByNumber(NewestFirst(ts[1..]), ts[0])
  }

  lemma {:induction false} OverlappingDistinct(ts: seq<Table>, begin: Option<UserKey>, end: Option<UserKey>)
    requires TablesOk(ts) && DistinctNumbers(ts)
    ensures DistinctNumbers(Overlapping(ts, begin, end))
    decreases |ts|
  {
    if ts != [] {
      var n := |ts| - 1;
      OverlappingDistinct(ts[..n], begin, end);
      forall u | u in Overlapping(ts[..n], begin, end) ensures u.number != ts[n].number {
        var i :| 0 <= i < n && ts[..n][i] == u;
      }
    }
  }

  function Contents(ts: seq<Table>): (layers: seq<set<Entry>>)
    ensures |layers| == |ts|
  {
    seq(|ts|, i requires 0 <= i < |ts| => Entries(ts[i].entries))
  }

  lemma ContentsAll(ts: seq<Table>)
    ensures All(Contents(ts)) == Content(ts)
  {
    forall e ensures e in All(Contents(ts)) <==> e in Content(ts) {
      InAll(Contents(ts), e);
      if t :| t in ts && e in t.entries {
        var i :| 0 <= i < |ts| && ts[i] == t;
        assert e in Contents(ts)[i];
      }
    }
  }

  /** The tables of level 0 that may hold the key, newest first, give the newest entry of the level. */
  lemma Level0IsNewest(ts: seq<Table>, k: UserKey, s: nat)
    requires TablesOk(ts) && DistinctNumbers(ts) && NumberedByAge(ts) && UniqueNumbers(Content(ts))
    ensures DistinctNumbers(Overlapping(ts, Some(k), Some(k)))
    ensures FirstNewest(Contents(NewestFirst(Overlapping(ts, Some(k), Some(k)))), k, s) == Newest(Content(ts), k, s)
  {
    hide Overlaps, FirstNewest;
    var some := Overlapping(ts, Some(k), Some(k));
    OverlappingDistinct(ts, Some(k), Some(k));
    var files := NewestFirst(some);
    var layers := Contents(files);
    forall i: nat, j: nat, e: Entry, f: Entry | i < j < |layers| && e in layers[i] && f in layers[j] && e.key == f.key ensures e.sequence > f.sequence {
      assert files[i] in ts && files[j] in ts && files[i].number > files[j].number;
    }
    LayeredByIndex(layers);
    ContentsAll(files);
    assert Content(files) <= Content(ts);
    FirstNewestIsNewest(layers, k, s);
    forall e | e in Content(ts) && Visible(e, k, s) ensures e in Content(files) {
      var t :| t in ts && e in t.entries;
      HoldsKey(t, e);
      InContent(files, t, e);
    }
    SameNewest(Content(files), Content(ts), k, s);
  }

  lemma HoldsKey(t: Table, e: Entry)
    requires TableOk(t) && e in t.entries
    ensures Overlaps(t, Some(e.key), Some(e.key))
  {
    InTable(t, e);
  }

  lemma SameNewest(a: set<Entry>, b: set<Entry>, k: UserKey, s: nat)
    requires a <= b && UniqueNumbers(b) && forall e :: e in b && Visible(e, k, s) ==> e in a
    ensures Newest(a, k, s) == Newest(b, k, s)
  {
    UniqueIsDistinct(b);
    if e :| e in a && Visible(e, k, s) {
      NewestExists(a, k, s, e);
      var n :| IsNewest(a, k, s, n);
      assert IsNewest(b, k, s, n);
      NewestIs(a, k, s, n);
      NewestIs(b, k, s, n);
    } else {
      NewestIsNone(a, k, s);
      NewestIsNone(b, k, s);
    }
  }

  // ---------- the code ----------

  method SearchFiles(files: seq<Table>, k: UserKey, s: nat) returns (hit: Option<Entry>)
    requires TablesOk(files)
    ensures hit == FirstNewest(Contents(files), k, s)
  {
    hide TableGet;
    var i := 0;
    while i < |files|
      invariant 0 <= i <= |files|
      invariant FirstNewest(Contents(files), k, s) == FirstNewest(Contents(files)[i..], k, s)
    {
      TableGetIsNewest(files[i], k, s);
      hit := TableGet(files[i], k, s);
      assert Contents(files)[i..][0] == Entries(files[i].entries) && Contents(files)[i..][1..] == Contents(files)[i + 1..];
      if hit.Some? {
        return;
      }
      i := i + 1;
    }
    hit := None;
  }

  function LevelContents(v: seq<seq<Table>>): (layers: seq<set<Entry>>)
    ensures |layers| == |v|
  {
    seq(|v|, l requires 0 <= l < |v| => Content(v[l]))
  }

  lemma {:induction false} LevelsAll(v: seq<seq<Table>>)
    ensures All(LevelContents(v)) == Content(AllTables(v))
  {
    forall e ensures e in All(LevelContents(v)) <==> e in Content(AllTables(v)) {
      InAll(LevelContents(v), e);
      if t :| t in AllTables(v) && e in t.entries {
        InAllTables(v, t);
        var l :| 0 <= l < |v| && t in v[l];
        assert e in LevelContents(v)[l];
      }
      if l :| 0 <= l < |v| && e in Content(v[l]) {
        var t :| t in v[l] && e in t.entries;
        InAllTables(v, t);
      }
    }
  }

  /** What the search relies on: level by level, not across levels. */
  ghost predicate Searchable(v: seq<seq<Table>>) {
    && (forall l :: 0 <= l < |v| ==> TablesOk(v[l]) && UniqueNumbers(Content(v[l])))
    && (forall l :: 0 < l < |v| ==> InOrder(v[l]))
    && (|v| > 0 ==> DistinctNumbers(v[0]) && NumberedByAge(v[0]))
  }

  lemma LevelUnique(v: seq<seq<Table>>, l: nat)
    requires Ordered(v) && l < |v|
    ensures UniqueNumbers(Content(v[l]))
  {
    forall e | e in Content(v[l]) ensures e in Content(AllTables(v)) {
      var t :| t in v[l] && e in t.entries;
      InAllTables(v, t);
    }
    hide AllTables, NewerAbove, InOrder;
  }

  lemma OrderedIsSearchable(v: seq<seq<Table>>)
    requires Ordered(v) && (|v| > 0 ==> DistinctNumbers(v[0]) && NumberedByAge(v[0]))
    ensures Searchable(v)
  {
    hide NewerAbove, InOrder, AllTables, UniqueNumbers, NumberedByAge;
    forall l | 0 <= l < |v| ensures UniqueNumbers(Content(v[l])) {
      LevelUnique(v, l);
    }
  }

  /** The search of one level. */
  method SearchLevel(v: seq<seq<Table>>, level: nat, k: UserKey, s: nat) returns (hit: Option<Entry>)
    requires Searchable(v) && level < |v|
    ensures hit == Newest(Content(v[level]), k, s)
  {
    var ts := v[level];
    hide FirstNewest, TableGet;
    if level == 0 {
      Level0IsNewest(ts, k, s);
      hit := SearchFiles(NewestFirst(Overlapping(ts, Some(k), Some(k))), k, s);
    } else {
      var index := FindFile(ts, k, s);
      UniqueIsDistinct(Content(ts));
      LevelGetIsNewest(ts, k, s, index);
      if index >= |ts| {
        hit := None;
      } else if k < First(ts[index]).key {
        hit := None;
      } else {
        hit := TableGet(ts[index], k, s);
      }
    }
  }

  /** A deletion marker answers like absence. */
  function ValueOf(e: Option<Entry>): Option<Value> {
    if e.Some? && e.value.kind == Put then Some(e.value.value) else None
  }

  /** Version::Get stops at the first level that has something the snapshot sees. On ordered levels that
      is the newest entry of all, since entries then never hop across levels. */
  method Get(v: seq<seq<Table>>, k: UserKey, s: nat) returns (value: Option<Value>)
    requires Searchable(v)
    ensures value == ValueOf(FirstNewest(LevelContents(v), k, s))
    ensures Ordered(v) ==> value == Read(Content(AllTables(v)), k, s)
  {
    hide Ordered, AllTables, Newest, All, Searchable;
    var level := 0;
    while level < |v|
      invariant 0 <= level <= |v|
      invariant FirstNewest(LevelContents(v), k, s) == FirstNewest(LevelContents(v)[level..], k, s)
    {
      var hit := SearchLevel(v, level, k, s);
      assert LevelContents(v)[level..][0] == Content(v[level]) && LevelContents(v)[level..][1..] == LevelContents(v)[level + 1..];
      if hit.Some? {
        SearchIsRead(v, k, s);
        return ValueOf(hit);
      }
      level := level + 1;
    }
    value := None;
    SearchIsRead(v, k, s);
  }

  lemma SearchIsNewest(v: seq<seq<Table>>, k: UserKey, s: nat)
    requires Ordered(v)
    ensures FirstNewest(LevelContents(v), k, s) == Newest(Content(AllTables(v)), k, s)
  {
    hide Ordered, AllTables, Newest, All;
    LevelsLayered(v);
    LevelsAll(v);
    FirstNewestIsNewest(LevelContents(v), k, s);
  }

  lemma SearchIsRead(v: seq<seq<Table>>, k: UserKey, s: nat)
    ensures Ordered(v) ==> ValueOf(FirstNewest(LevelContents(v), k, s)) == Read(Content(AllTables(v)), k, s)
  {
    hide Ordered, AllTables, Newest, FirstNewest;
    if Ordered(v) {
      SearchIsNewest(v, k, s);
    }
  }

  lemma LevelsLayered(v: seq<seq<Table>>)
    requires Ordered(v)
    ensures Layered(LevelContents(v)) && UniqueNumbers(All(LevelContents(v)))
  {
    LevelsAll(v);
    hide AllTables, InOrder;
    LayeredByIndex(LevelContents(v));
  }
}
