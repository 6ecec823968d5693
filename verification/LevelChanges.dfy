/** How flushes, compactions and moves change the levels: the order that Version::Get relies on is kept
    unless a level is split at a user key. */
module LevelChanges {
  import opened Keys
  import opened Compaction
  import opened Database
  import opened DatabaseMemory
  import opened DatabaseStorage
  import opened Levels
  import opened VersionGet

  /** VersionSet::Builder keeps the tables of a level sorted by their smallest keys. */
  predicate BySmallestKey(ts: seq<Table>)
    requires TablesOk(ts)
  {
    forall i, j :: 0 <= i < j < |ts| ==> Before(First(ts[i]), First(ts[j]))
  }

  predicate Apart(t: Table, t': Table)
    requires TableOk(t) && TableOk(t')
  {
    Before(Last(t), First(t')) || Before(Last(t'), First(t))
  }

  lemma FirstLast(t: Table)
    requires TableOk(t)
    ensures First(t) == Last(t) || Before(First(t), Last(t))
  {
  }

  /** Tables that do not overlap are in order when they are sorted by their smallest keys. */
  lemma ApartInOrder(ts: seq<Table>)
    requires TablesOk(ts) && BySmallestKey(ts) && forall t, t' :: t in ts && t' in ts && t != t' ==> Apart(t, t')
    ensures InOrder(ts)
  {
    forall i, j | 0 <= i < j < |ts| ensures Before(Last(ts[i]), First(ts[j])) {
      assert Before(First(ts[i]), First(ts[j]));
      FirstLast(ts[i]);
      FirstLast(ts[j]);
      assert Apart(ts[i], ts[j]);
    }
  }

  lemma InOrderApart(ts: seq<Table>, t: Table, t': Table)
    requires TablesOk(ts) && InOrder(ts) && t in ts && t' in ts && t != t'
    ensures Apart(t, t')
  {
    var i :| 0 <= i < |ts| && ts[i] == t;
    var j :| 0 <= j < |ts| && ts[j] == t';
  }

  /** What VersionSet::Builder makes of every level: each table once, sorted by smallest keys. */
  predicate Tidy(v: seq<seq<Table>>) {
    forall l :: 0 <= l < |v| ==> TablesOk(v[l]) && BySmallestKey(v[l]) && DistinctNumbers(v[l])
  }

  // ---------- compactions and moves ----------

  /** The outputs take the place of the inputs, one level further down. */
  ghost predicate Installed(v: seq<seq<Table>>, v': seq<seq<Table>>, l: nat, in0: seq<Table>, in1: seq<Table>, outputs: seq<Table>) {
    && l + 1 < |v| == |v'| && (forall i :: 0 <= i < |v| && i != l && i != l + 1 ==> v'[i] == v[i])
    && (forall t :: t in v'[l] <==> t in v[l] && t !in in0)
    && (forall t :: t in v'[l + 1] <==> (t in v[l + 1] && t !in in1) || t in outputs)
  }

  /** The outputs hold nothing but input, in order. */
  ghost predicate OutputsOf(outputs: seq<Table>, in0: seq<Table>, in1: seq<Table>) {
    TablesOk(outputs) && InOrder(outputs) && Content(outputs) <= Content(in0 + in1)
  }

  /** All the entries lie on one side of the table. */
  ghost predicate OneSide(t: Table, es: set<Entry>)
    requires TableOk(t)
  {
    (forall e :: e in es ==> Before(e, First(t))) || (forall e :: e in es ==> Before(Last(t), e))
  }

  /** What is left in the upper level is newer than what goes down, and no table that is left in the lower
      level lies amid the input. */
  ghost predicate Ready(v: seq<seq<Table>>, l: nat, in0: seq<Table>, in1: seq<Table>)
    requires Ordered(v)
  {
    && l + 1 < |v| && (forall t :: t in in0 ==> t in v[l]) && (forall t :: t in in1 ==> t in v[l + 1])
    && (forall t, e, f :: t in v[l] && t !in in0 && e in t.entries && f in Content(in0) && e.key == f.key ==> e.sequence > f.sequence)
    && (forall t :: t in v[l + 1] && t !in in1 ==> OneSide(t, Content(in0 + in1)))
  }

  lemma SideOf(v: seq<seq<Table>>, l: nat, in0: seq<Table>, in1: seq<Table>, t: Table, e: Entry)
    requires Ordered(v) && Chosen(v, l, in0, in1) && t in v[l + 1] && t !in in1 && e in Content(in0 + in1)
    ensures First(t).key > Greatest(in0) ==> Before(e, First(t))
    ensures Last(t).key < Least(in0) ==> Before(Last(t), e)
  {
    hide NewerAbove, UniqueNumbers;
    var t' :| t' in in0 + in1 && e in t'.entries;
    InTable(t, First(t));
    if t' in in0 {
      InHull(in0, t', e);
    } else {
      InTable(t', e);
      assert t' in v[l + 1] && Overlaps(t', Some(Least(in0)), Some(Greatest(in0)));
      var i :| 0 <= i < |v[l + 1]| && v[l + 1][i] == t;
      var j :| 0 <= j < |v[l + 1]| && v[l + 1][j] == t';
      assert i != j;
    }
  }

  lemma ChosenLeavesSides(v: seq<seq<Table>>, l: nat, in0: seq<Table>, in1: seq<Table>, t: Table)
    requires Ordered(v) && Chosen(v, l, in0, in1) && t in v[l + 1] && t !in in1
    ensures OneSide(t, Content(in0 + in1))
  {
    hide NewerAbove, UniqueNumbers, InOrder, Content;
    assert !Overlaps(t, Some(Least(in0)), Some(Greatest(in0)));
    forall e | e in Content(in0 + in1)
      ensures First(t).key > Greatest(in0) ==> Before(e, First(t))
      ensures Last(t).key < Least(in0) ==> Before(Last(t), e)
    {
      SideOf(v, l, in0, in1, t, e);
    }
  }

  lemma ChosenLeavesNewer(v: seq<seq<Table>>, l: nat, in0: seq<Table>, in1: seq<Table>, t: Table, e: Entry, f: Entry)
    requires Ordered(v) && Chosen(v, l, in0, in1) && (l > 0 ==> !Splits(v[l], in0, []))
    requires t in v[l] && t !in in0 && e in t.entries && f in Content(in0) && e.key == f.key
    ensures e.sequence > f.sequence
  {
    hide NewerAbove, InOrder, Splits;
    var t' :| t' in in0 && f in t'.entries;
    if l == 0 {
      SharesKey(in0, t, t', e, f);
      assert false;
    } else {
      InAllTables(v, t);
      InAllTables(v, t');
      InContent(AllTables(v), t, e);
      InContent(AllTables(v), t', f);
      var a :| 0 <= a < |v[l]| && v[l][a] == t;
      var b :| 0 <= b < |v[l]| && v[l][b] == t';
      if e.sequence < f.sequence {
        OlderIsSplit(v[l], in0, [], a, b, e, f);
      } else if e.sequence == f.sequence {
        assert e == f;
        InTwoTables(v[l], a, b, e);
      }
    }
  }

  lemma InTwoTables(ts: seq<Table>, a: nat, b: nat, e: Entry)
    requires TablesOk(ts) && InOrder(ts) && a < |ts| && b < |ts| && e in ts[a].entries && e in ts[b].entries
    ensures a == b
  {
    InTable(ts[a], e);
    InTable(ts[b], e);
  }

  /** The choice of inputs is ready to go down unless it splits a user key of the upper level. */
  lemma ChosenIsReady(v: seq<seq<Table>>, l: nat, in0: seq<Table>, in1: seq<Table>)
    requires Ordered(v) && Chosen(v, l, in0, in1) && (l > 0 ==> !Splits(v[l], in0, []))
    ensures Ready(v, l, in0, in1)
  {
    hide NewerAbove, InOrder, UniqueNumbers, Splits, OneSide, Overlaps;
    forall t, e, f | t in v[l] && t !in in0 && e in t.entries && f in Content(in0) && e.key == f.key ensures e.sequence > f.sequence {
      ChosenLeavesNewer(v, l, in0, in1, t, e, f);
    }
    forall t | t in v[l + 1] && t !in in1 ensures OneSide(t, Content(in0 + in1)) {
      ChosenLeavesSides(v, l, in0, in1, t);
    }
  }

  lemma OutputLevelInOrder(v: seq<seq<Table>>, v': seq<seq<Table>>, l: nat, in0: seq<Table>, in1: seq<Table>, outputs: seq<Table>)
    requires Ordered(v) && Ready(v, l, in0, in1) && OutputsOf(outputs, in0, in1) && Installed(v, v', l, in0, in1, outputs)
    requires TablesOk(v'[l + 1]) && BySmallestKey(v'[l + 1])
    ensures InOrder(v'[l + 1])
  {
    hide NewerAbove, UniqueNumbers;
    forall t, t' | t in v'[l + 1] && t' in v'[l + 1] && t != t' ensures Apart(t, t') {
      var out, out' := !(t in v[l + 1] && t !in in1), !(t' in v[l + 1] && t' !in in1);
      if !out && !out' {
        InOrderApart(v[l + 1], t, t');
      } else if out && out' {
        InOrderApart(outputs, t, t');
      } else {
        var left, o := if out then t' else t, if out then t else t';
        InContent(outputs, o, First(o));
        InContent(outputs, o, Last(o));
        assert OneSide(left, Content(in0 + in1));
      }
    }
    ApartInOrder(v'[l + 1]);
  }

  /** Exactly: the output level is in order when no output reaches over a table that is left there. */
  lemma OutputLevelInOrderIff(v: seq<seq<Table>>, v': seq<seq<Table>>, l: nat, in0: seq<Table>, in1: seq<Table>, outputs: seq<Table>)
    requires Ordered(v) && Installed(v, v', l, in0, in1, outputs) && TablesOk(outputs) && InOrder(outputs)
    requires TablesOk(v'[l + 1]) && BySmallestKey(v'[l + 1])
    ensures InOrder(v'[l + 1]) <==> forall t, o :: t in v[l + 1] && t !in in1 && o in outputs && t != o ==> Apart(t, o)
  {
    hide NewerAbove, UniqueNumbers;
    if InOrder(v'[l + 1]) {
      forall t, o | t in v[l + 1] && t !in in1 && o in outputs && t != o ensures Apart(t, o) {
        InOrderApart(v'[l + 1], t, o);
      }
    } else if forall t, o :: t in v[l + 1] && t !in in1 && o in outputs && t != o ==> Apart(t, o) {
      forall t, t' | t in v'[l + 1] && t' in v'[l + 1] && t != t' ensures Apart(t, t') {
        if t in v[l + 1] && t !in in1 && t' in v[l + 1] && t' !in in1 {
          InOrderApart(v[l + 1], t, t');
        } else if t in outputs && t' in outputs {
          InOrderApart(outputs, t, t');
        }
      }
      ApartInOrder(v'[l + 1]);
    }
  }

  lemma UpperLevelInOrder(ts: seq<Table>, ts': seq<Table>)
    requires TablesOk(ts) && InOrder(ts) && (forall t :: t in ts' ==> t in ts) && BySmallestKey(ts')
    ensures InOrder(ts')
  {
    forall t, t' | t in ts' && t' in ts' && t != t' ensures Apart(t, t') {
      InOrderApart(ts, t, t');
    }
    ApartInOrder(ts');
  }

  /** Where the entries of a level were before. */
  lemma ComesFrom(v: seq<seq<Table>>, v': seq<seq<Table>>, l: nat, in0: seq<Table>, in1: seq<Table>, outputs: seq<Table>, i: nat, e: Entry)
      returns (i': nat)
    requires Ordered(v) && Ready(v, l, in0, in1) && OutputsOf(outputs, in0, in1) && Installed(v, v', l, in0, in1, outputs)
    requires i < |v| && e in Content(v'[i])
    ensures i' < |v| && e in Content(v[i'])
    ensures i == i' || (i == l + 1 && i' == l && e in Content(in0))
    ensures i == l ==> exists t :: t in v[l] && t !in in0 && e in t.entries
  {
    hide NewerAbove, UniqueNumbers, InOrder, OneSide;
    var t :| t in v'[i] && e in t.entries;
    i' := i;
    if i == l + 1 && !(t in v[l + 1] && t !in in1) {
      InContent(outputs, t, e);
      var t' :| t' in in0 + in1 && e in t'.entries;
      if t' in in0 {
        i' := l;
        InContent(in0, t', e);
      }
      InContent(v[i'], t', e);
    } else {
      InContent(v[i], t, e);
    }
  }

  lemma StaysNewerAbove(v: seq<seq<Table>>, v': seq<seq<Table>>, l: nat, in0: seq<Table>, in1: seq<Table>, outputs: seq<Table>)
    requires Ordered(v) && Ready(v, l, in0, in1) && OutputsOf(outputs, in0, in1) && Installed(v, v', l, in0, in1, outputs)
    ensures NewerAbove(v')
  {
    assert |v'| == |v|;
    hide OutputsOf, Installed, UniqueNumbers, InOrder, OneSide;
    forall i, j, e, f | 0 <= i < j < |v'| && e in Content(v'[i]) && f in Content(v'[j]) && e.key == f.key ensures e.sequence > f.sequence {
      var i' := ComesFrom(v, v', l, in0, in1, outputs, i, e);
      var j' := ComesFrom(v, v', l, in0, in1, outputs, j, f);
      if i == l && j == l + 1 && j' == l {
        var t :| t in v[l] && t !in in0 && e in t.entries;
      } else {
        assert i' < j';
      }
    }
  }

  lemma StaysWithin(v: seq<seq<Table>>, v': seq<seq<Table>>, l: nat, in0: seq<Table>, in1: seq<Table>, outputs: seq<Table>)
    requires Installed(v, v', l, in0, in1, outputs) && Content(outputs) <= Content(in0 + in1)
    requires (forall t :: t in in0 ==> t in v[l]) && (forall t :: t in in1 ==> t in v[l + 1])
    ensures Content(AllTables(v')) <= Content(AllTables(v))
  {
    hide AllTables;
    forall e | e in Content(AllTables(v')) ensures e in Content(AllTables(v)) {
      var t :| t in AllTables(v') && e in t.entries;
      InAllTables(v', t);
      var i :| 0 <= i < |v'| && t in v'[i];
      if i == l + 1 && t in outputs {
        InContent(outputs, t, e);
        var t' :| t' in in0 + in1 && e in t'.entries;
        InAllTables(v, t');
        InContent(AllTables(v), t', e);
      } else {
        InAllTables(v, t);
        InContent(AllTables(v), t, e);
      }
    }
  }

  /** What is ready and goes down keeps the levels ordered. */
  lemma InstallKeepsOrdered(v: seq<seq<Table>>, v': seq<seq<Table>>, l: nat, in0: seq<Table>, in1: seq<Table>, outputs: seq<Table>)
    requires Ordered(v) && Ready(v, l, in0, in1) && OutputsOf(outputs, in0, in1) && Installed(v, v', l, in0, in1, outputs) && Tidy(v')
    ensures Ordered(v')
  {
    OutputLevelInOrder(v, v', l, in0, in1, outputs);
    if l > 0 {
      UpperLevelInOrder(v[l], v'[l]);
    }
    StaysNewerAbove(v, v', l, in0, in1, outputs);
    StaysWithin(v, v', l, in0, in1, outputs);
    SubsetUnique(Content(AllTables(v')), Content(AllTables(v)));
    hide Ready, OutputsOf, Splits, AllTables, InOrder, NewerAbove, UniqueNumbers, BySmallestKey, DistinctNumbers;
  }

  /** So a compaction or a move that splits no user key of its upper level keeps the levels ordered. */
  lemma CompactionKeepsOrdered(v: seq<seq<Table>>, v': seq<seq<Table>>, l: nat, in0: seq<Table>, in1: seq<Table>, outputs: seq<Table>)
    requires Ordered(v) && Chosen(v, l, in0, in1) && OutputsOf(outputs, in0, in1) && Installed(v, v', l, in0, in1, outputs) && Tidy(v')
    requires l > 0 ==> !Splits(v[l], in0, [])
    ensures Ordered(v')
  {
    hide Ordered, Chosen, OutputsOf, Installed, Tidy, Splits, Ready;
    ChosenIsReady(v, l, in0, in1);
    InstallKeepsOrdered(v, v', l, in0, in1, outputs);
  }

  // ---------- exactly when ----------

  /** A table that stays above an older part of a key that went down: no longer newer above. */
  lemma NotNewerAbove(v': seq<seq<Table>>, l: nat, t: Table, t': Table, e: Entry, f: Entry)
    requires l + 1 < |v'| && t in v'[l] && t' in v'[l + 1] && e in t.entries && f in t'.entries
    requires e.key == f.key && e.sequence <= f.sequence
    ensures !NewerAbove(v')
  {
    InContent(v'[l], t, e);
    InContent(v'[l + 1], t', f);
  }

  /** The search by levels finds, for every key at every number, the newest entry of all tables. */
  ghost predicate SearchRight(v: seq<seq<Table>>) {
    forall k: UserKey, s: nat :: FirstNewest(LevelContents(v), k, s) == Newest(Content(AllTables(v)), k, s)
  }

  lemma OrderedIsRight(v: seq<seq<Table>>)
    requires Ordered(v)
    ensures SearchRight(v)
  {
    hide Ordered, AllTables, Newest, FirstNewest;
    forall k: UserKey, s: nat ensures FirstNewest(LevelContents(v), k, s) == Newest(Content(AllTables(v)), k, s) {
      SearchIsNewest(v, k, s);
    }
  }

  lemma {:induction false} StopsAt(layers: seq<set<Entry>>, k: UserKey, s: nat, i: nat, e: Entry)
    requires i < |layers| && e in layers[i] && Visible(e, k, s)
    ensures FirstNewest(layers, k, s).Some? && exists l :: 0 <= l <= i && FirstNewest(layers, k, s).value in layers[l]
    decreases |layers|
  {
    var first := Newest(layers[0], k, s);
    if first.Some? {
      assert first.value in layers[0];
    } else if i == 0 {
      NewestExists(layers[0], k, s, e);
      assert false;
    } else {
      hide Newest;
      StopsAt(layers[1..], k, s, i - 1, e);
      var l :| 0 <= l <= i - 1 && FirstNewest(layers[1..], k, s).value in layers[1..][l];
      assert layers[l + 1] == layers[1..][l];
    }
  }

  /** An older entry above a newer one of its key that no level above holds: the search at that number
      stops too early. */
  lemma StopsTooEarly(v: seq<seq<Table>>, i: nat, j: nat, e: Entry, f: Entry)
    requires i < j < |v| && e in Content(v[i]) && f in Content(v[j]) && e.key == f.key && e.sequence < f.sequence
    requires UniqueNumbers(Content(AllTables(v))) && forall l :: 0 <= l <= i ==> f !in Content(v[l])
    ensures !SearchRight(v)
  {
    hide AllTables, Content, FirstNewest;
    var k, s := f.key, f.sequence;
    InLevels(v, j, f);
    UniqueIsDistinct(Content(AllTables(v)));
    assert IsNewest(Content(AllTables(v)), k, s, f);
    NewestIs(Content(AllTables(v)), k, s, f);
    StopsAt(LevelContents(v), k, s, i, e);
  }

  /** What was chosen is no longer in the upper levels. */
  lemma GoneFromAbove(v: seq<seq<Table>>, v': seq<seq<Table>>, l: nat, in0: seq<Table>, in1: seq<Table>, outputs: seq<Table>, f: Entry, i: nat)
    requires Ordered(v) && 0 < l && Chosen(v, l, in0, in1) && Installed(v, v', l, in0, in1, outputs)
    requires f in Content(in0) && i <= l
    ensures f !in Content(v'[i])
  {
    hide UniqueNumbers, AllTables, Overlapping;
    if f in Content(v'[i]) {
      var t :| t in v'[i] && f in t.entries;
      var t' :| t' in in0 && f in t'.entries;
      InContent(v[i], t, f);
      InContent(v[l], t', f);
      if i == l {
        hide NewerAbove;
        var a :| 0 <= a < |v[l]| && v[l][a] == t;
        var b :| 0 <= b < |v[l]| && v[l][b] == t';
        InTwoTables(v[l], a, b, f);
      }
    }
  }

  lemma SplitStopsTooEarly(v: seq<seq<Table>>, v': seq<seq<Table>>, l: nat, in0: seq<Table>, in1: seq<Table>, outputs: seq<Table>,
                           t: Table, o: Table, e: Entry, f: Entry)
    requires Ordered(v) && 0 < l && Chosen(v, l, in0, in1) && Installed(v, v', l, in0, in1, outputs)
    requires Content(outputs) <= Content(in0 + in1) && t in v[l] && t !in in0 && e in t.entries
    requires o in outputs && f in o.entries && f in Content(in0) && e.key == f.key && e.sequence < f.sequence
    ensures !NewerAbove(v') && !SearchRight(v')
  {
    hide Ordered, Chosen, SearchRight, AllTables, NewerAbove;
    assert t in v'[l] && o in v'[l + 1];
    NotNewerAbove(v', l, t, o, e, f);
    InContent(v'[l], t, e);
    InContent(v'[l + 1], o, f);
    forall i | 0 <= i <= l ensures f !in Content(v'[i]) {
      GoneFromAbove(v, v', l, in0, in1, outputs, f, i);
    }
    ChosenInLevels(v, l, in0, in1);
    StaysWithin(v, v', l, in0, in1, outputs);
    assert UniqueNumbers(Content(AllTables(v'))) by {
      OrderedIsUnique(v);
      SubsetUnique(Content(AllTables(v')), Content(AllTables(v)));
    }
    StopsTooEarly(v', l, l + 1, e, f);
  }

  lemma OrderedIsUnique(v: seq<seq<Table>>)
    requires Ordered(v)
    ensures UniqueNumbers(Content(AllTables(v)))
  {
    hide UniqueNumbers, NewerAbove, InOrder, AllTables;
  }

  lemma ChosenInLevels(v: seq<seq<Table>>, l: nat, in0: seq<Table>, in1: seq<Table>)
    requires Ordered(v) && Chosen(v, l, in0, in1)
    ensures (forall t :: t in in0 ==> t in v[l]) && (forall t :: t in in1 ==> t in v[l + 1])
  {
    hide Ordered, Overlaps;
  }

  /** After a move of a table the levels are in order, and Get finds the newest entry of every key at every
      number, if and only if the move splits no user key. */
  lemma MoveOrderedIff(v: seq<seq<Table>>, v': seq<seq<Table>>, l: nat, t: Table)
    requires Ordered(v) && 0 < l && Chosen(v, l, [t], []) && Installed(v, v', l, [t], [], [t]) && Tidy(v')
    ensures Ordered(v') <==> !Splits(v[l], [t], [])
    ensures SearchRight(v') <==> !Splits(v[l], [t], [])
  {
    MovedIsOutput(t);
    if Splits(v[l], [t], []) {
      hide NewerAbove, UniqueNumbers, InOrder, Splits, Chosen, Installed, SearchRight;
      var u, u' := SplitLeavesOlder(v, l, [t], []);
      InContent([t], u', Last(u'));
      SplitStopsTooEarly(v, v', l, [t], [], [t], u, u', First(u), Last(u'));
    } else {
      CompactionKeepsOrdered(v, v', l, [t], [], [t]);
      OrderedIsRight(v');
    }
  }

  lemma MovedIsOutput(t: Table)
    requires TableOk(t)
    ensures OutputsOf([t], [t], [])
  {
    assert [t] + [] == [t];
  }

  /** The tables' entries, one table after another. */
  function Laid(ts: seq<Table>): seq<Entry> {
    if ts == [] then [] else Laid(ts[..|ts| - 1]) + ts[|ts| - 1].entries
  }

  lemma {:induction false} LaidHas(ts: seq<Table>, e: Entry)
    ensures e in Laid(ts) <==> e in Content(ts)
    decreases |ts|
  {
    if ts != [] {
      var n := |ts| - 1;
      LaidHas(ts[..n], e);
      assert ts == ts[..n] + [ts[n]];
    }
  }

  /** Tables whose entries are sorted all in all are in order. */
  lemma {:induction false} LaidInOrder(ts: seq<Table>)
    requires TablesOk(ts) && Sorted(Laid(ts))
    ensures InOrder(ts)
    decreases |ts|
  {
    if ts != [] {
      var n := |ts| - 1;
      var before := Laid(ts[..n]);
      assert forall i :: 0 <= i < |before| ==> Laid(ts)[i] == before[i];
      assert Sorted(before);
      LaidInOrder(ts[..n]);
      forall i | 0 <= i < n ensures Before(Last(ts[i]), First(ts[n])) {
        assert ts[..n][i] == ts[i];
        InContent(ts[..n], ts[i], Last(ts[i]));
        LaidHas(ts[..n], Last(ts[i]));
        var j :| 0 <= j < |before| && before[j] == Last(ts[i]);
        assert Laid(ts)[j] == Last(ts[i]) && Laid(ts)[|before|] == First(ts[n]);
      }
      forall i, j | 0 <= i < j < n ensures Before(Last(ts[i]), First(ts[j])) {
        assert ts[..n][i] == ts[i] && ts[..n][j] == ts[j];
      }
    }
  }

  /** The outputs of the merge loop hold nothing but input, in order. */
  lemma KeptIsOutput(outputs: seq<Table>, input: seq<Entry>, smallest: nat, levels: seq<seq<FileRange>>, in0: seq<Table>, in1: seq<Table>)
    requires TablesOk(outputs) && Sorted(input) && Entries(input) == Content(in0 + in1)
    requires Laid(outputs) == Keep(input, smallest, levels, |input|)
    ensures OutputsOf(outputs, in0, in1)
  {
    KeepSorted(input, smallest, levels, |input|);
    hide Keep, Laid, Content;
    LaidInOrder(outputs);
    forall e | e in Content(outputs) ensures e in Content(in0 + in1) {
      LaidHas(outputs, e);
      assert e in Entries(input);
    }
  }

  /** The newest input entry of a key that deeper levels cover is always kept. */
  lemma NewestIsKept(input: seq<Entry>, smallest: nat, levels: seq<seq<FileRange>>, f: Entry) returns (g: Entry)
    requires Sorted(input) && f in input && smallest < MAX_SEQUENCE && !BaseLevel(levels, f.key)
    ensures g in Keep(input, smallest, levels, |input|) && g.key == f.key && g.sequence >= f.sequence
  {
    hide BaseLevel, Keep;
    var i :| 0 <= i < |input| && input[i] == f;
    while i > 0 && input[i - 1].key == f.key
      invariant 0 <= i < |input| && input[i].key == f.key && input[i].sequence >= f.sequence
    {
      assert Before(input[i - 1], input[i]);
      i := i - 1;
    }
    g := input[i];
    KeepIff(input, smallest, levels, |input|, g);
    assert !Dropped(input, smallest, levels, i);
  }

  /** No user key is divided between a table that is taken and the next one of its level: in the upper
      level none at all, in the lower level none without deeper entries. */
  predicate Unsplit(v: seq<seq<Table>>, l: nat, in0: seq<Table>, in1: seq<Table>)
    requires l + 1 < |v| && forall i :: 0 <= i < |v| ==> TablesOk(v[i])
  {
    (l > 0 ==> !Splits(v[l], in0, [])) && !Splits(v[l + 1], in1, RangesOf(v[l + 2..]))
  }

  lemma SplitsAnyway(ts: seq<Table>, chosen: seq<Table>, below: seq<seq<FileRange>>)
    requires TablesOk(ts) && Splits(ts, chosen, below)
    ensures Splits(ts, chosen, [])
  {
    hide BaseLevel;
    var j :| 0 < j < |ts| && ts[j] !in chosen && ts[j - 1] in chosen && First(ts[j]).key == Last(ts[j - 1]).key;
    NoLevels(First(ts[j]).key);
  }

  lemma UnsplitLeavesNothingOlder(v: seq<seq<Table>>, l: nat, in0: seq<Table>, in1: seq<Table>)
    requires Ordered(v) && l + 1 < |v| && Unsplit(v, l, in0, in1)
    ensures !LeavesOlder(v, l, in0, in1)
  {
    hide NewerAbove, UniqueNumbers, InOrder, Splits;
    if l > 0 && Splits(v[l], in0, RangesOf(v[l + 2..])) {
      SplitsAnyway(v[l], in0, RangesOf(v[l + 2..]));
    }
  }

  lemma NoLevels(k: UserKey)
    ensures BaseLevel([], k)
  {
  }

  /** A split whose key deeper levels cover. */
  lemma CoveredMeeting(v: seq<seq<Table>>, l: nat, chosen: seq<Table>, below: seq<seq<FileRange>>) returns (t: Table, t': Table)
    requires Ordered(v) && 0 < l < |v| && Splits(v[l], chosen, []) && !Splits(v[l], chosen, below)
    ensures t in v[l] && t !in chosen && t' in chosen && TableOk(t) && TableOk(t')
    ensures First(t).key == Last(t').key && First(t).sequence < Last(t').sequence && !BaseLevel(below, Last(t').key)
  {
    hide NewerAbove, UniqueNumbers, BaseLevel;
    var ts := v[l];
    var j :| 0 < j < |ts| && ts[j] !in chosen && ts[j - 1] in chosen && First(ts[j]).key == Last(ts[j - 1]).key;
    t, t' := ts[j], ts[j - 1];
    BeforeOfNext(ts, j);
    hide InOrder;
    NumbersDiffer(v, l, t, t', First(t), Last(t'));
  }

  lemma CoveredSplit(v: seq<seq<Table>>, v': seq<seq<Table>>, l: nat, in0: seq<Table>, in1: seq<Table>,
                     input: seq<Entry>, smallest: nat, outputs: seq<Table>)
    requires Ordered(v) && 0 < l && l + 1 < |v| && Chosen(v, l, in0, in1) && Content(outputs) <= Content(in0 + in1)
    requires Splits(v[l], in0, []) && !Splits(v[l], in0, RangesOf(v[l + 2..]))
    requires Sorted(input) && Entries(input) == Content(in0 + in1) && smallest < MAX_SEQUENCE
    requires Laid(outputs) == Keep(input, smallest, RangesOf(v[l + 2..]), |input|) && Installed(v, v', l, in0, in1, outputs)
    ensures !NewerAbove(v') && !SearchRight(v')
  {
    hide NewerAbove, UniqueNumbers, InOrder, BaseLevel, Keep, Laid, RangesOf, Splits, Sorted, AllTables, Chosen, SearchRight, Installed;
    var below := RangesOf(v[l + 2..]);
    var t, t' := CoveredMeeting(v, l, in0, below);
    InContent(in0, t', Last(t'));
    FirstIsContent(in0, in1);
    assert Last(t') in Entries(input);
    var g := NewestIsKept(input, smallest, below, Last(t'));
    LaidHas(outputs, g);
    var o :| o in outputs && g in o.entries;
    InContent(outputs, o, g);
    ChosenInLevels(v, l, in0, in1);
    NewestIsUpper(v, l, in0, in1, Last(t'), g);
    SplitStopsTooEarly(v, v', l, in0, in1, outputs, t, o, First(t), g);
  }

  lemma NewestIsUpper(v: seq<seq<Table>>, l: nat, in0: seq<Table>, in1: seq<Table>, f: Entry, g: Entry)
    requires Ordered(v) && l + 1 < |v| && (forall t :: t in in0 ==> t in v[l]) && (forall t :: t in in1 ==> t in v[l + 1])
    requires f in Content(in0) && g in Content(in0 + in1) && f.key == g.key && f.sequence <= g.sequence
    ensures g in Content(in0)
  {
    hide UniqueNumbers, InOrder;
    var t :| t in in0 && f in t.entries;
    var o :| o in in0 + in1 && g in o.entries;
    InContent(v[l], t, f);
    if o in in0 {
      InContent(in0, o, g);
    } else {
      InContent(v[l + 1], o, g);
    }
  }

  lemma BeforeOfNext(ts: seq<Table>, j: nat)
    requires TablesOk(ts) && InOrder(ts) && 0 < j < |ts|
    ensures Before(Last(ts[j - 1]), First(ts[j]))
  {
  }

  /** A compaction meets the contract that the state machine asks of it, and leaves the levels in order and
      Get finding the newest entry of every key at every number, if and only if its choice splits no key. */
  lemma MergeOrderedIff(f: Files, v: seq<seq<Table>>, v': seq<seq<Table>>, l: nat, in0: seq<Table>, in1: seq<Table>,
                        m: Merge, outputs: seq<Table>)
    requires Ordered(v) && Arranged(f, v) && Chosen(v, l, in0, in1)
    requires m.inputs == Numbers(in0 + in1) && m.levels == RangesOf(v[l + 2..]) && m.smallest < MAX_SEQUENCE
    requires Sorted(m.input) && Entries(m.input) == Content(in0 + in1)
    requires TablesOk(outputs) && Laid(outputs) == Keep(m.input, m.smallest, m.levels, |m.input|)
    requires Installed(v, v', l, in0, in1, outputs) && Tidy(v')
    ensures MergeInput(f, m) && Ordered(v') <==> Unsplit(v, l, in0, in1)
    ensures MergeInput(f, m) && SearchRight(v') <==> Unsplit(v, l, in0, in1)
  {
    MergeInputIff(f, v, l, in0, in1, m);
    KeptIsOutput(outputs, m.input, m.smallest, m.levels, in0, in1);
    if Unsplit(v, l, in0, in1) {
      UnsplitLeavesNothingOlder(v, l, in0, in1);
      hide MergeInput, Splits, Keep, Laid, Tidy, Installed, OutputsOf, SearchRight;
      CompactionKeepsOrdered(v, v', l, in0, in1, outputs);
      OrderedIsRight(v');
    } else if !LeavesOlder(v, l, in0, in1) {
      hide MergeInput, Splits, Keep, Laid, Tidy, NewerAbove, UniqueNumbers, InOrder, SearchRight;
      CoveredSplit(v, v', l, in0, in1, m.input, m.smallest, outputs);
    }
  }

  lemma FirstIsContent(in0: seq<Table>, in1: seq<Table>)
    ensures Content(in0) <= Content(in0 + in1)
  {
  }

  // ---------- what a split does to Get ----------

  lemma StaleInstalled(t: Table, t': Table, rest: seq<seq<Table>>, v: seq<seq<Table>>, v': seq<seq<Table>>)
    requires |t.entries| == 1 && |t'.entries| == 1 && t != t'
    requires v == [[], [t, t'], []] + rest && v' == [[], [t'], [t]] + rest
    ensures OutputsOf([t], [t], []) && Installed(v, v', 1, [t], [], [t])
  {
    MovedIsOutput(t);
    assert forall i :: 3 <= i < |v| ==> v'[i] == rest[i - 3] == v[i];
  }

  lemma StaleReads(deleted: Entry, kept: Entry, rest: seq<seq<Table>>, v: seq<seq<Table>>, v': seq<seq<Table>>, s: nat)
    requires kept.key == deleted.key && kept.sequence < deleted.sequence <= s
    requires var t, t' := Table(1, [deleted]), Table(2, [kept]);
      v == [[], [t, t'], []] + rest && v' == [[], [t'], [t]] + rest
    ensures FirstNewest(LevelContents(v), kept.key, s) == Some(deleted) && FirstNewest(LevelContents(v'), kept.key, s) == Some(kept)
  {
    var k := kept.key;
    var a, b := LevelContents(v)[1..], LevelContents(v')[1..];
    assert LevelContents(v)[0] == {} && LevelContents(v')[0] == {};
    NewestIsNone({}, k, s);
    var t, t' := Table(1, [deleted]), Table(2, [kept]);
    ContentOfTwo(t, t', deleted, kept);
    InContent([t'], t', kept);
    assert a[0] == Content([t, t']) == {deleted, kept} && b[0] == Content([t']) == {kept};
    assert IsNewest({deleted, kept}, k, s, deleted) && IsNewest({kept}, k, s, kept);
    NewestIs({deleted, kept}, k, s, deleted);
    NewestIs({kept}, k, s, kept);
  }

  lemma SingleSearchable(v: seq<seq<Table>>)
    requires v != [] && v[0] == [] && forall l :: 0 <= l < |v| ==> |v[l]| <= 1
    requires forall l, t :: 0 <= l < |v| && t in v[l] ==> TableOk(t) && UniqueNumbers(Entries(t.entries))
    ensures Searchable(v)
  {
    forall l | 0 <= l < |v| ensures UniqueNumbers(Content(v[l])) {
      if |v[l]| == 1 {
        assert v[l][0] in v[l];
        assert Content(v[l]) == Entries(v[l][0].entries);
      }
    }
  }

  /** If the upper level is split, the deletion that goes down is then beneath the value it deleted, and
      Get, which stops at the first level with a hit, answers with that value. A move does it. */
  lemma SplitMoveIsStale(k: UserKey, value: Value)
    ensures var deleted, kept := Entry(k, 10, Deletion, []), Entry(k, 5, Put, value);
      var t, t' := Table(1, [deleted]), Table(2, [kept]);
      var v, v' := [[], [t, t'], []], [[], [t'], [t]];
      && Ordered(v) && Chosen(v, 1, [t], []) && Installed(v, v', 1, [t], [], [t]) && Searchable(v')
      && forall s: nat :: s >= 10 ==> FirstNewest(LevelContents(v), k, s) == Some(deleted) && FirstNewest(LevelContents(v'), k, s) == Some(kept)
  {
    hide Ordered, Chosen, OutputsOf, Installed, Splits, LeavesOlder, Searchable;
    var deleted, kept := Entry(k, 10, Deletion, []), Entry(k, 5, Put, value);
    var t, t' := Table(1, [deleted]), Table(2, [kept]);
    var v, v' := [[], [t, t'], []], [[], [t'], [t]];
    SplitExample(t, t', v);
    assert v == v + [] && v' == v' + [];
    StaleInstalled(t, t', [], v, v');
    SingleSearchable(v');
    forall s: nat | s >= 10
      ensures FirstNewest(LevelContents(v), k, s) == Some(deleted) && FirstNewest(LevelContents(v'), k, s) == Some(kept)
    {
      StaleReads(deleted, kept, [], v, v', s);
    }
  }

  /** So does a compaction that splits a key, even where a deeper level covers that key and the deletion is
      therefore kept. */
  lemma CoveredSplitIsStale(k: UserKey, value: Value)
    ensures var deleted, kept := Entry(k, 10, Deletion, []), Entry(k, 5, Put, value);
      var t, t' := Table(1, [deleted]), Table(2, [kept]);
      var u := Table(3, [Entry(k - 1, 1, Put, []), Entry(k + 1, 2, Put, [])]);
      var v, v' := [[], [t, t'], [], [u]], [[], [t'], [t], [u]];
      && Ordered(v) && Chosen(v, 1, [t], []) && !LeavesOlder(v, 1, [t], [])
      && Keep([deleted], 10, RangesOf(v[3..]), 1) == Laid([t]) && Installed(v, v', 1, [t], [], [t]) && Searchable(v')
      && forall s: nat :: s >= 10 ==> FirstNewest(LevelContents(v), k, s) == Some(deleted) && FirstNewest(LevelContents(v'), k, s) == Some(kept)
  {
    hide Ordered, Chosen, OutputsOf, Installed, LeavesOlder, Searchable;
    var deleted, kept := Entry(k, 10, Deletion, []), Entry(k, 5, Put, value);
    var t, t' := Table(1, [deleted]), Table(2, [kept]);
    var u := Table(3, [Entry(k - 1, 1, Put, []), Entry(k + 1, 2, Put, [])]);
    var v, v' := [[], [t, t'], [], [u]], [[], [t'], [t], [u]];
    CoveredTablesOk(t, t', u, k);
    CoveredIsOrdered(t, t', u, v);
    CoveredIsChosen(t, t', u, v, k);
    CoveredIsKept(t, deleted, u, v);
    CoveredInstalled(t, t', u, v, v');
    hide BaseLevel, Keep, Laid, RangesOf, FirstNewest, LevelContents, Sorted;
    forall s: nat | s >= 10
      ensures FirstNewest(LevelContents(v), k, s) == Some(deleted) && FirstNewest(LevelContents(v'), k, s) == Some(kept)
    {
      CoveredReads(deleted, kept, u, v, v', s);
    }
  }

  lemma CoveredTablesOk(t: Table, t': Table, u: Table, k: UserKey)
    requires |t.entries| == 1 && |t'.entries| == 1
    requires u.entries == [Entry(k - 1, 1, Put, []), Entry(k + 1, 2, Put, [])]
    ensures TableOk(t) && TableOk(t') && TableOk(u) && First(u).key == k - 1 && Last(u).key == k + 1
  {
  }

  lemma CoveredReads(deleted: Entry, kept: Entry, u: Table, v: seq<seq<Table>>, v': seq<seq<Table>>, s: nat)
    requires kept.key == deleted.key && kept.sequence < deleted.sequence <= s
    requires var t, t' := Table(1, [deleted]), Table(2, [kept]);
      v == [[], [t, t'], [], [u]] && v' == [[], [t'], [t], [u]]
    ensures FirstNewest(LevelContents(v), kept.key, s) == Some(deleted) && FirstNewest(LevelContents(v'), kept.key, s) == Some(kept)
  {
    hide FirstNewest, LevelContents;
    var t, t' := Table(1, [deleted]), Table(2, [kept]);
    assert v == [[], [t, t'], []] + [[u]] && v' == [[], [t'], [t]] + [[u]];
    StaleReads(deleted, kept, [[u]], v, v', s);
  }

  lemma CoveredInstalled(t: Table, t': Table, u: Table, v: seq<seq<Table>>, v': seq<seq<Table>>)
    requires |t.entries| == 1 && |t'.entries| == 1 && t != t' && TableOk(t) && TableOk(t') && TableOk(u)
    requires |u.entries| == 2 && u.entries[0].sequence != u.entries[1].sequence
    requires v == [[], [t, t'], [], [u]] && v' == [[], [t'], [t], [u]]
    ensures Installed(v, v', 1, [t], [], [t]) && Searchable(v')
  {
    assert v == [[], [t, t'], []] + [[u]] && v' == [[], [t'], [t]] + [[u]];
    StaleInstalled(t, t', [[u]], v, v');
    hide Installed, OutputsOf;
    SingleSearchable(v');
  }

  lemma CoveredByLast(u: Table, v: seq<seq<Table>>, k: UserKey)
    requires |v| == 4 && TableOk(u) && v[3] == [u] && First(u).key <= k <= Last(u).key && forall l :: 0 <= l < |v| ==> TablesOk(v[l])
    ensures !BaseLevel(RangesOf(v[3..]), k)
  {
    var below := RangesOf(v[3..]);
    assert v[3..] == [[u]] && below[0] == [Range(u)] && InRange(below[0][0], k);
    assert LevelHas(below[0], k);
  }

  lemma CoveredIsKept(t: Table, deleted: Entry, u: Table, v: seq<seq<Table>>)
    requires |v| == 4 && TableOk(u) && v[3] == [u] && First(u).key <= deleted.key <= Last(u).key
    requires (forall l :: 0 <= l < |v| ==> TablesOk(v[l])) && t.entries == [deleted]
    ensures Keep([deleted], 10, RangesOf(v[3..]), 1) == Laid([t])
  {
    CoveredByLast(u, v, deleted.key);
    hide BaseLevel, RangesOf;
    assert [t][..0] == [] && Laid([]) == [];
    assert Laid([t]) == [] + [deleted];
    assert Keep([deleted], 10, RangesOf(v[3..]), 0) == [];
  }

  lemma CoveredTables(t: Table, t': Table, u: Table, v: seq<seq<Table>>)
    requires v == [[], [t, t'], [], [u]]
    ensures AllTables(v) == [t, t', u]
  {
    var none: seq<seq<Table>> := [];
    var last, third := [[u]], [[], [u]];
    assert v[1..] == [[t, t'], [], [u]] && v[1..][1..] == third && third[1..] == last && last[1..] == none;
    assert AllTables(last) == [u] + AllTables(none) == [u];
    assert AllTables(third) == [] + AllTables(last) == [u];
    assert AllTables(v[1..]) == [t, t'] + AllTables(third);
  }

  lemma CoveredContents(t: Table, t': Table, u: Table)
    ensures Content([t, t', u]) == Entries(t.entries + t'.entries + u.entries) && Content([]) == {}
    ensures forall e :: e in Content([t, t']) ==> e in t.entries + t'.entries
    ensures forall e :: e in Content([u]) ==> e in u.entries
  {
  }

  lemma CoveredNewerAbove(t: Table, t': Table, u: Table, v: seq<seq<Table>>)
    requires v == [[], [t, t'], [], [u]] && forall e, f :: e in t.entries + t'.entries && f in u.entries ==> e.key != f.key
    ensures NewerAbove(v)
  {
    CoveredContents(t, t', u);
    hide Content;
  }

  lemma CoveredIsOrdered(t: Table, t': Table, u: Table, v: seq<seq<Table>>)
    requires TableOk(t) && TableOk(t') && TableOk(u) && v == [[], [t, t'], [], [u]]
    requires Before(Last(t), First(t')) && (forall e, f :: e in t.entries + t'.entries && f in u.entries ==> e.key != f.key)
    requires UniqueNumbers(Entries(t.entries + t'.entries + u.entries))
    ensures Ordered(v)
  {
    CoveredTables(t, t', u, v);
    CoveredContents(t, t', u);
    CoveredNewerAbove(t, t', u, v);
    hide UniqueNumbers, Content, NewerAbove, AllTables;
  }

  lemma CoveredIsChosen(t: Table, t': Table, u: Table, v: seq<seq<Table>>, k: UserKey)
    requires v == [[], [t, t'], [], [u]] && Ordered(v) && t != t' && TableOk(t) && TableOk(t') && TableOk(u)
    requires First(t).key == Last(t).key == First(t').key == k && First(u).key <= k <= Last(u).key
    ensures Chosen(v, 1, [t], []) && !LeavesOlder(v, 1, [t], [])
  {
    hide NewerAbove, InOrder, UniqueNumbers, AllTables, BaseLevel, RangesOf;
    CoveredByLast(u, v, k);
    assert Overlapping(v[2], Some(Least([t])), Some(Greatest([t]))) == [];
  }

  // ---------- flushes ----------

  /** PickLevelForMemTableOutput; small stands for the test of the grandparents' sizes, level by level. */
  method PickLevelForMemTableOutput(v: seq<seq<Table>>, smallest: UserKey, largest: UserKey, small: seq<bool>) returns (level: nat)
    requires Ordered(v) && |v| > MAX_MEM_COMPACT_LEVEL && |small| == MAX_MEM_COMPACT_LEVEL
    ensures level <= MAX_MEM_COMPACT_LEVEL
    ensures level > 0 ==> forall l, t :: 0 <= l <= level && l < |v| && t in v[l] ==> !Overlaps(t, Some(smallest), Some(largest))
    ensures forall i :: 0 <= i < level ==> small[i]
    ensures level < MAX_MEM_COMPACT_LEVEL ==>
      OverlapInLevel(v[0], smallest, largest) || OverlapInLevel(v[level + 1], smallest, largest) || !small[level]
  {
    level := 0;
    if !OverlapInLevel(v[0], smallest, largest) {
      while level < MAX_MEM_COMPACT_LEVEL
        invariant level <= MAX_MEM_COMPACT_LEVEL && forall i :: 0 <= i < level ==> small[i]
        invariant forall l, t :: 0 <= l <= level && l < |v| && t in v[l] ==> !Overlaps(t, Some(smallest), Some(largest))
      {
        if OverlapInLevel(v[level + 1], smallest, largest) {
          break;
        }
        if !small[level] {
          break;
        }
        level := level + 1;
      }
    }
  }

  const MAX_MEM_COMPACT_LEVEL: nat := 2

  predicate OverlapInLevel(ts: seq<Table>, smallest: UserKey, largest: UserKey)
    requires TablesOk(ts)
  {
    exists t :: t in ts && Overlaps(t, Some(smallest), Some(largest))
  }

  /** The table of a flush enters a level. */
  ghost predicate Entered(v: seq<seq<Table>>, v': seq<seq<Table>>, level: nat, t: Table) {
    && level < |v| == |v'| && (forall i :: 0 <= i < |v| && i != level ==> v'[i] == v[i])
    && forall u :: u in v'[level] <==> u in v[level] || u == t
  }

  lemma EnteredFrom(v: seq<seq<Table>>, v': seq<seq<Table>>, level: nat, t: Table, i: nat, e: Entry)
    requires Entered(v, v', level, t) && i < |v| && e in Content(v'[i])
    ensures e in Content(v[i]) || (i == level && e in t.entries)
  {
    var u :| u in v'[i] && e in u.entries;
    if u in v[i] {
      InContent(v[i], u, e);
    }
  }

  /** A table that may enter a level: nothing down to there overlaps it, unless it is level 0. */
  ghost predicate MayEnter(v: seq<seq<Table>>, level: nat, t: Table)
    requires Ordered(v) && TableOk(t)
  {
    level > 0 ==> forall l, u :: 0 <= l <= level && l < |v| && u in v[l] ==> !Overlaps(u, Some(First(t).key), Some(Last(t).key))
  }

  lemma NotOverlapping(v: seq<seq<Table>>, level: nat, t: Table, i: nat, u: Table)
    requires Ordered(v) && TableOk(t) && MayEnter(v, level, t) && i <= level < |v| && level > 0 && u in v[i]
    ensures Last(u).key < First(t).key || First(u).key > Last(t).key
  {
    hide NewerAbove, UniqueNumbers, InOrder;
    assert !Overlaps(u, Some(First(t).key), Some(Last(t).key));
  }

  lemma EnteredInOrder(v: seq<seq<Table>>, v': seq<seq<Table>>, level: nat, t: Table)
    requires Ordered(v) && TableOk(t) && Entered(v, v', level, t) && MayEnter(v, level, t)
    requires level > 0 && TablesOk(v'[level]) && BySmallestKey(v'[level])
    ensures InOrder(v'[level])
  {
    hide NewerAbove, UniqueNumbers;
    forall u, u' | u in v'[level] && u' in v'[level] && u != u' ensures Apart(u, u') {
      if u in v[level] && u' in v[level] {
        InOrderApart(v[level], u, u');
      } else {
        NotOverlapping(v, level, t, level, if u in v[level] then u else u');
      }
    }
    ApartInOrder(v'[level]);
  }

  lemma EnteredNewerAbove(v: seq<seq<Table>>, v': seq<seq<Table>>, level: nat, t: Table)
    requires Ordered(v) && TableOk(t) && Entered(v, v', level, t) && MayEnter(v, level, t)
    requires forall e, f :: e in Content(AllTables(v)) && f in t.entries ==> e.sequence < f.sequence
    ensures NewerAbove(v')
  {
    hide AllTables, UniqueNumbers, InOrder;
    assert NewerAbove(v) && |v'| == |v|;
    forall i, j, e, f | 0 <= i < j < |v'| && e in Content(v'[i]) && f in Content(v'[j]) && e.key == f.key ensures e.sequence > f.sequence {
      EnteredFrom(v, v', level, t, i, e);
      EnteredFrom(v, v', level, t, j, f);
      hide Entered, MayEnter;
      if e !in Content(v[i]) {
        InLevels(v, j, f);
      } else if f !in Content(v[j]) {
        NotBeneath(v, level, t, i, e, f);
        assert false;
      }
    }
  }

  lemma NotBeneath(v: seq<seq<Table>>, level: nat, t: Table, i: nat, e: Entry, f: Entry)
    requires Ordered(v) && TableOk(t) && MayEnter(v, level, t) && i < level < |v|
    requires e in Content(v[i]) && f in t.entries
    ensures e.key != f.key
  {
    hide NewerAbove, UniqueNumbers, InOrder;
    var u :| u in v[i] && e in u.entries;
    InTable(u, e);
    InTable(t, f);
    NotOverlapping(v, level, t, i, u);
  }

  lemma EnteredUnique(v: seq<seq<Table>>, v': seq<seq<Table>>, level: nat, t: Table)
    requires Entered(v, v', level, t) && UniqueNumbers(Content(AllTables(v)) + Entries(t.entries))
    ensures UniqueNumbers(Content(AllTables(v')))
  {
    hide AllTables, UniqueNumbers;
    forall e | e in Content(AllTables(v')) ensures e in Content(AllTables(v)) + Entries(t.entries) {
      var u :| u in AllTables(v') && e in u.entries;
      InAllTables(v', u);
      var i :| 0 <= i < |v'| && u in v'[i];
      InContent(v'[i], u, e);
      EnteredFrom(v, v', level, t, i, e);
      if e in Content(v[i]) {
        InLevels(v, i, e);
      }
    }
    SubsetUnique(Content(AllTables(v')), Content(AllTables(v)) + Entries(t.entries));
  }

  /** A flush's entries are newer than all that is in tables; so its table may enter level 0, or a level
      down to which nothing overlaps it. */
  lemma FlushKeepsOrdered(v: seq<seq<Table>>, v': seq<seq<Table>>, level: nat, t: Table)
    requires Ordered(v) && TableOk(t) && Entered(v, v', level, t) && MayEnter(v, level, t)
    requires UniqueNumbers(Content(AllTables(v)) + Entries(t.entries))
    requires forall e, f :: e in Content(AllTables(v)) && f in t.entries ==> e.sequence < f.sequence
    requires Tidy(v')
    ensures Ordered(v')
  {
    if level > 0 {
      EnteredInOrder(v, v', level, t);
    }
    EnteredNewerAbove(v, v', level, t);
    EnteredUnique(v, v', level, t);
    hide AllTables, NewerAbove, UniqueNumbers, InOrder, BySmallestKey, MayEnter, DistinctNumbers;
  }

  /** Beside a compaction from level l: what it chose stays ready exactly if the table does not enter the
      output level amid the input. */
  lemma FlushKeepsReadyIff(v: seq<seq<Table>>, v': seq<seq<Table>>, level: nat, t: Table, l: nat, in0: seq<Table>, in1: seq<Table>)
    requires Ordered(v) && Ordered(v') && TableOk(t) && Entered(v, v', level, t) && Ready(v, l, in0, in1) && t !in in0 + in1
    requires forall e, f :: e in Content(AllTables(v)) && f in t.entries ==> e.sequence < f.sequence
    ensures Ready(v', l, in0, in1) <==> (level == l + 1 ==> OneSide(t, Content(in0 + in1)))
  {
    hide NewerAbove, UniqueNumbers, InOrder, OneSide, AllTables, Content;
    forall e, f | e in t.entries && f in Content(in0) ensures f.sequence < e.sequence {
      ContentInLevels(v, l, in0, f);
    }
    assert forall u :: u in v'[l + 1] && u !in in1 ==> (u in v[l + 1] && u !in in1) || (level == l + 1 && u == t);
    assert forall u :: u in v'[l] && u !in in0 ==> (u in v[l] && u !in in0) || (level == l && u == t);
  }

  lemma ContentInLevels(v: seq<seq<Table>>, l: nat, ts: seq<Table>, f: Entry)
    requires l < |v| && (forall t :: t in ts ==> t in v[l]) && f in Content(ts)
    ensures f in Content(AllTables(v))
  {
    var t :| t in ts && f in t.entries;
    InAllTables(v, t);
    InContent(AllTables(v), t, f);
  }

  /** The code has no such rule: a flush may enter a gap between two inputs, and an output then reach over
      its table. Get looks into the output, does not find the key, and does not look on. */
  lemma GapIsLost(k: UserKey, value: Value)
    ensures var a, b := Entry(k - 1, 1, Put, []), Entry(k + 1, 2, Put, []);
      var t, t', u := Table(1, [a]), Table(2, [b]), Table(3, [Entry(k, 3, Put, value)]);
      var output := Table(4, [a, b]);
      var v, v1, v2 := [[], [t, t'], []], [[], [t, t'], [u]], [[], [], [output, u]];
      && Ordered(v) && Chosen(v, 1, [t, t'], []) && MayEnter(v, 2, u) && Entered(v, v1, 2, u) && Ordered(v1)
      && Installed(v1, v2, 1, [t, t'], [], [output]) && Laid([output]) == [a, b] && Tidy(v2)
      && !OneSide(u, Content([t, t'])) && !InOrder(v2[2])
      && forall s: nat :: s >= 3 ==>
           && !Precedes(Last(output).key, Tag(Last(output)), k, SeekTag(s)) && TableGet(output, k, s) == None
           && Newest(Content(v2[2]), k, s) == Some(Entry(k, 3, Put, value))
  {
    var a, b, e := Entry(k - 1, 1, Put, []), Entry(k + 1, 2, Put, []), Entry(k, 3, Put, value);
    var t, t', u := Table(1, [a]), Table(2, [b]), Table(3, [e]);
    var output := Table(4, [a, b]);
    var v, v1, v2 := [[], [t, t'], []], [[], [t, t'], [u]], [[], [], [output, u]];
    GapLevels(t, t', u, v, v1);
    GapInstalled(t, t', u, output, v1, v2);
    GapSides(t, t', u, a, b);
    LaidOne(output);
    hide Ordered, Chosen, MayEnter, Entered, Installed, Laid, Tidy, OneSide, InOrder, TableGet, Newest, Content, Precedes;
    forall s: nat | s >= 3
      ensures !Precedes(Last(output).key, Tag(Last(output)), k, SeekTag(s)) && TableGet(output, k, s) == None
      ensures Newest(Content(v2[2]), k, s) == Some(e)
    {
      GapReads(output, u, a, b, e, s);
    }
  }

  lemma LaidOne(t: Table)
    ensures Laid([t]) == t.entries
  {
    assert [t][..0] == [] && Laid([]) == [];
    assert Laid([t]) == [] + t.entries;
  }

  lemma GapReads(output: Table, u: Table, a: Entry, b: Entry, e: Entry, s: nat)
    requires a.key < e.key < b.key && e.sequence <= s && output.entries == [a, b] && u.entries == [e]
    ensures !Precedes(b.key, Tag(b), e.key, SeekTag(s)) && TableGet(output, e.key, s) == None
    ensures Newest(Content([output, u]), e.key, s) == Some(e)
  {
    var es := [a, b];
    var i := SeekIndex(es, e.key, s);
    assert es[0] == a && es[1] == b;
    assert i == 1;
    InContent([output, u], u, e);
    GapContents(output, u, a, b, e);
    hide SeekIndex, Content;
    assert IsNewest({a, b, e}, e.key, s, e);
    NewestIs({a, b, e}, e.key, s, e);
  }

  lemma GapContents(output: Table, u: Table, a: Entry, b: Entry, e: Entry)
    requires output.entries == [a, b] && u.entries == [e]
    ensures Content([output, u]) == {a, b, e}
  {
    InContent([output, u], output, a);
    InContent([output, u], output, b);
    InContent([output, u], u, e);
  }

  lemma GapSides(t: Table, t': Table, u: Table, a: Entry, b: Entry)
    requires t.entries == [a] && t'.entries == [b] && TableOk(u) && a.key < First(u).key && Last(u).key < b.key
    ensures !OneSide(u, Content([t, t']))
  {
    InContent([t, t'], t, a);
    InContent([t, t'], t', b);
    InTable(u, First(u));
    hide Content;
  }

  lemma GapInstalled(t: Table, t': Table, u: Table, output: Table, v1: seq<seq<Table>>, v2: seq<seq<Table>>)
    requires TableOk(t) && TableOk(t') && TableOk(u) && TableOk(output) && u.number != output.number && u != t && u != t'
    requires Before(First(output), First(u)) && Before(First(u), Last(output))
    requires v1 == [[], [t, t'], [u]] && v2 == [[], [], [output, u]]
    ensures Installed(v1, v2, 1, [t, t'], [], [output]) && Tidy(v2) && !InOrder(v2[2])
  {
    var i, j := 0, 1;
    assert v2[2][i] == output && v2[2][j] == u;
    assert !Before(Last(output), First(u));
  }

  lemma GapTables(t: Table, t': Table, v: seq<seq<Table>>, last: seq<Table>)
    requires v == [[], [t, t'], last]
    ensures AllTables(v) == [t, t'] + last
  {
    var none: seq<seq<Table>> := [];
    var third := [last];
    assert v[1..] == [[t, t'], last] && v[1..][1..] == third && third[1..] == none;
    assert AllTables(third) == last + AllTables(none) == last;
    assert AllTables(v[1..]) == [t, t'] + AllTables(third);
  }

  lemma GapOrdered(t: Table, t': Table, v: seq<seq<Table>>, last: seq<Table>)
    requires TableOk(t) && TableOk(t') && TablesOk(last) && InOrder(last) && v == [[], [t, t'], last] && Before(Last(t), First(t'))
    requires forall e, f :: e in Content([t, t']) && f in Content(last) ==> e.key != f.key
    requires UniqueNumbers(Content([t, t'] + last))
    ensures Ordered(v)
  {
    GapTables(t, t', v, last);
    assert Content([]) == {};
    hide UniqueNumbers, Content, AllTables;
    assert NewerAbove(v);
  }

  lemma GapLevels(t: Table, t': Table, u: Table, v: seq<seq<Table>>, v1: seq<seq<Table>>)
    requires |t.entries| == 1 && |t'.entries| == 1 && |u.entries| == 1
    requires t.entries[0].key < u.entries[0].key < t'.entries[0].key
    requires t.entries[0].sequence < t'.entries[0].sequence < u.entries[0].sequence
    requires v == [[], [t, t'], []] && v1 == [[], [t, t'], [u]]
    ensures Ordered(v) && Ordered(v1) && Chosen(v, 1, [t, t'], []) && MayEnter(v, 2, u) && Entered(v, v1, 2, u)
  {
    var a, b, e := t.entries[0], t'.entries[0], u.entries[0];
    ThreeContents(t, t', u, a, b, e);
    hide Content;
    assert UniqueNumbers({a, b, e}) && UniqueNumbers({a, b});
    assert [t, t'] + [] == [t, t'];
    hide UniqueNumbers;
    GapOrdered(t, t', v, []);
    GapOrdered(t, t', v1, [u]);
    hide Ordered;
    GapChosen(t, t', u, v, v1);
  }

  lemma GapChosen(t: Table, t': Table, u: Table, v: seq<seq<Table>>, v1: seq<seq<Table>>)
    requires |t.entries| == 1 && |t'.entries| == 1 && |u.entries| == 1
    requires t.entries[0].key < u.entries[0].key < t'.entries[0].key
    requires v == [[], [t, t'], []] && v1 == [[], [t, t'], [u]] && Ordered(v)
    ensures Chosen(v, 1, [t, t'], []) && MayEnter(v, 2, u) && Entered(v, v1, 2, u)
  {
    hide NewerAbove, InOrder, AllTables, UniqueNumbers;
    assert Overlapping(v[2], Some(Least([t, t'])), Some(Greatest([t, t']))) == [];
  }

  lemma ThreeContents(t: Table, t': Table, u: Table, a: Entry, b: Entry, e: Entry)
    requires t.entries == [a] && t'.entries == [b] && u.entries == [e]
    ensures Content([]) == {} && Content([t, t']) == {a, b} && Content([u]) == {e} && Content([t, t'] + [u]) == {a, b, e}
  {
    ContentOfTwo(t, t', a, b);
    InContent([u], u, e);
    var all := [t, t'] + [u];
    assert all[0] == t && all[1] == t' && all[2] == u;
    InContent(all, t, a);
    InContent(all, t', b);
    InContent(all, u, e);
    assert forall x :: x in all ==> x == t || x == t' || x == u;
  }

  lemma SubsetUnique(a: set<Entry>, b: set<Entry>)
    requires UniqueNumbers(b) && a <= b
    ensures UniqueNumbers(a)
  {
  }

  lemma InLevels(v: seq<seq<Table>>, i: nat, e: Entry)
    requires i < |v| && e in Content(v[i])
    ensures e in Content(AllTables(v))
  {
    var u :| u in v[i] && e in u.entries;
    InAllTables(v, u);
    InContent(AllTables(v), u, e);
  }
}
