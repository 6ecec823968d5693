/** The skip list: one writer that links a node level by level from the bottom, and readers that
    search it meanwhile without any lock. Loads and stores of links are atomic steps. */
module SkipLists {
  import opened Keys

  const MAX_HEIGHT: nat := 12
  const HEAD: nat := 0
  const NIL: int := -1

  /** What the comparator sees of a key. */
  datatype Key = Key(user: UserKey, tag: nat)

  predicate Less(a: Key, b: Key) {
    Precedes(a.user, a.tag, b.user, b.tag)
  }

  // ---------- the list ----------

  /** Nodes are numbered as they are allocated, the head being 0. Node entering is being linked: it is
      reachable at the levels below published. */
  datatype List = List(keys: seq<Key>, next: seq<seq<int>>, maxHeight: nat, entering: int, published: nat)

  predicate WellFormed(s: List) {
    && 1 <= |s.keys| == |s.next| && |s.next[HEAD]| == MAX_HEIGHT
    && 1 <= s.maxHeight <= MAX_HEIGHT
    && (forall n :: 1 <= n < |s.next| ==> 1 <= |s.next[n]| <= s.maxHeight)
    && (forall n, i :: 0 <= n < |s.next| && 0 <= i < |s.next[n]| ==> NIL <= s.next[n][i] < |s.keys|)
    && (forall n, m :: 1 <= n < m < |s.keys| ==> s.keys[n] != s.keys[m])
  }

  /** Node n has been linked at the level. */
  predicate In(s: List, level: nat, n: int) {
    1 <= n < |s.keys| && n < |s.next| && level < |s.next[n]| && (n == s.entering ==> level < s.published)
  }

  predicate At(s: List, level: nat, n: int) {
    (n == HEAD && level < MAX_HEIGHT) || In(s, level, n)
  }

  predicate After(s: List, n: int, m: int)
    requires 0 <= n < |s.keys| && 0 <= m < |s.keys|
  {
    n == HEAD || Less(s.keys[n], s.keys[m])
  }

  /** m is the next node of its level after n. */
  ghost predicate Follows(s: List, level: nat, n: int, m: int)
    requires 0 <= n < |s.keys|
  {
    if m == NIL then forall k :: In(s, level, k) ==> !After(s, n, k)
    else
      && In(s, level, m) && After(s, n, m)
      && forall k :: In(s, level, k) && After(s, n, k) ==> k == m || Less(s.keys[m], s.keys[k])
  }

  ghost predicate Linked(s: List) {
    && WellFormed(s)
    && forall level: nat, n :: level < MAX_HEIGHT && At(s, level, n) ==> Follows(s, level, n, s.next[n][level])
  }

  /** What the list holds. */
  ghost function Contents(s: List): set<Key> {
    set n | 1 <= n < |s.keys| && In(s, 0, n) :: s.keys[n]
  }

  function Empty(): List {
    List([Key(0, 0)], [[NIL, NIL, NIL, NIL, NIL, NIL, NIL, NIL, NIL, NIL, NIL, NIL]], 1, NIL, 0)
  }

  // ---------- searching ----------

  /** A search for the first node at or after the target; without a target, for the end. */
  datatype Search =
    | Searching(target: Option<Key>, x: nat, level: nat)
    | Found(target: Option<Key>, before: nat, node: int)

  predicate Below(s: List, n: int, target: Option<Key>)
    requires 0 <= n < |s.keys|
  {
    target.None? || Less(s.keys[n], target.value)
  }

  ghost predicate SearchOk(s: List, r: Search) {
    r.Searching? ==> r.level < MAX_HEIGHT && At(s, r.level, r.x) && (r.x == HEAD || Below(s, r.x, r.target))
  }

  /** One load of a link and what the reader does with it. */
  function Load(s: List, r: Search): Search
    requires WellFormed(s) && r.Searching? && r.level < MAX_HEIGHT && At(s, r.level, r.x)
  {
    var next := s.next[r.x][r.level];
    if next != NIL && Below(s, next, r.target) then r.(x := next)
    else if r.level == 0 then Found(r.target, r.x, next)
    else r.(level := r.level - 1)
  }

  /** The node is the first at or after the target, the other one the last before it. */
  ghost predicate IsBound(s: List, target: Option<Key>, before: int, node: int) {
    && (if node == NIL then forall n :: In(s, 0, n) ==> Below(s, n, target)
        else In(s, 0, node) && !Below(s, node, target)
             && forall n :: In(s, 0, n) && !Below(s, n, target) ==> n == node || Less(s.keys[node], s.keys[n]))
    && (if before == HEAD then forall n :: In(s, 0, n) ==> !Below(s, n, target)
        else In(s, 0, before) && Below(s, before, target)
             && forall n :: In(s, 0, n) && Below(s, n, target) ==> n == before || Less(s.keys[n], s.keys[before]))
  }

  lemma LoadOk(s: List, r: Search)
    requires Linked(s) && r.Searching? && SearchOk(s, r)
    ensures SearchOk(s, Load(s, r))
    ensures Load(s, r).Found? ==> IsBound(s, r.target, Load(s, r).before, Load(s, r).node)
  {
    assert Follows(s, r.level, r.x, s.next[r.x][r.level]);
  }

  // ---------- linking a node ----------

  /** n is the last node of the level before key k. */
  ghost predicate IsPred(s: List, level: nat, k: Key, n: int) {
    && At(s, level, n) && (n == HEAD || Less(s.keys[n], k))
    && forall m :: In(s, level, m) && Less(s.keys[m], k) ==> m == n || (n != HEAD && Less(s.keys[m], s.keys[n])) 
  }

  /** max_height_ is raised first; the new node is not reachable yet. */
  function Allocate(s: List, k: Key, height: nat): List {
    List(s.keys + [k], s.next + [seq(height, i => NIL)], if height > s.maxHeight then height else s.maxHeight, |s.keys|, 0)
  }

  function SetNext(s: List, n: nat, level: nat, m: int): List
    requires n < |s.next| && level < |s.next[n]|
  {
    s.(next := s.next[n := s.next[n][level := m]])
  }

  /** The entering node takes over its predecessor's link at the level to be published next. */
  function CopyNext(s: List, prev: nat): List
    requires 0 <= s.entering < |s.next| && s.published < |s.next[s.entering]| && prev < |s.next| && s.published < |s.next[prev]|
  {
    SetNext(s, s.entering, s.published, s.next[prev][s.published])
  }

  /** Its predecessor is linked to it at that level, which makes it reachable there. */
  function Publish(s: List, prev: nat): List
    requires prev < |s.next| && s.published < |s.next[prev]|
  {
    SetNext(s, prev, s.published, s.entering).(published := s.published + 1)
  }

  lemma AllocateOk(s: List, k: Key, height: nat)
    requires Linked(s) && 1 <= height <= MAX_HEIGHT && (forall n :: 1 <= n < |s.keys| ==> s.keys[n] != k)
    requires s.entering == NIL || (0 < s.entering < |s.next| && s.published == |s.next[s.entering]|)
    ensures Linked(Allocate(s, k, height))
    ensures forall level: nat, n :: In(Allocate(s, k, height), level, n) <==> In(s, level, n)
    ensures forall level: nat, n :: IsPred(s, level, k, n) ==> IsPred(Allocate(s, k, height), level, k, n)
    ensures Contents(Allocate(s, k, height)) == Contents(s)
  {
    var t := Allocate(s, k, height);
    assert forall level: nat, n :: In(t, level, n) <==> In(s, level, n);
    forall level: nat, n | level < MAX_HEIGHT && At(t, level, n) ensures Follows(t, level, n, t.next[n][level]) {
      assert At(s, level, n) && Follows(s, level, n, s.next[n][level]);
    }
  }

  /** Links mean the same in two lists with the same nodes at the level. */
  lemma FollowsSame(s: List, t: List, level: nat, n: int, m: int)
    requires s.keys == t.keys && 0 <= n < |s.keys| && Follows(s, level, n, m)
    requires forall k :: In(s, level, k) <==> In(t, level, k)
    ensures Follows(t, level, n, m)
  {
  }

  lemma CopyOk(s: List, prev: nat)
    requires Linked(s) && 0 < s.entering < |s.next| && s.published < |s.next[s.entering]| && At(s, s.published, prev)
    ensures Linked(CopyNext(s, prev))
    ensures forall level: nat, n :: In(CopyNext(s, prev), level, n) <==> In(s, level, n)
    ensures Contents(CopyNext(s, prev)) == Contents(s)
  {
    var t := CopyNext(s, prev);
    assert forall level: nat, n :: In(t, level, n) <==> In(s, level, n);
    forall level: nat, n | level < MAX_HEIGHT && At(t, level, n) ensures Follows(t, level, n, t.next[n][level]) {
      assert At(s, level, n);
      FollowsSame(s, t, level, n, s.next[n][level]);
    }
  }

  /** Any other node that comes before k comes before k's predecessor, too. */
  lemma BeforePred(s: List, level: nat, k: Key, prev: int, n: int)
    requires WellFormed(s) && IsPred(s, level, k, prev) && At(s, level, n) && n != prev && (n == HEAD || Less(s.keys[n], k))
    ensures In(s, level, prev) && After(s, n, prev)
  {
  }

  /** The store that makes the new node reachable at one more level. */
  lemma PublishOk(s: List, prev: nat)
    requires Linked(s) && 0 < s.entering < |s.next| && s.published < |s.next[s.entering]|
    requires IsPred(s, s.published, s.keys[s.entering], prev) && s.next[s.entering][s.published] == s.next[prev][s.published]
    ensures Linked(Publish(s, prev))
    ensures forall level: nat, n :: In(Publish(s, prev), level, n) <==> In(s, level, n) || (level == s.published && n == s.entering)
  {
    var t := Publish(s, prev);
    assert forall level: nat, n :: In(t, level, n) <==> In(s, level, n) || (level == s.published && n == s.entering);
    forall level: nat, n | level < MAX_HEIGHT && At(t, level, n) ensures Follows(t, level, n, t.next[n][level]) {
      if level == s.published {
        PublishedFollows(s, t, level, prev, n);
      } else {
        assert At(s, level, n);
        FollowsSame(s, t, level, n, s.next[n][level]);
      }
    }
  }

  lemma PublishedFollows(s: List, t: List, level: nat, prev: nat, n: int)
    requires Linked(s) && 0 < s.entering < |s.next| && level == s.published < |s.next[s.entering]|
    requires IsPred(s, level, s.keys[s.entering], prev) && s.next[s.entering][level] == s.next[prev][level]
    requires t == Publish(s, prev) && At(t, level, n)
    requires forall m :: In(t, level, m) <==> In(s, level, m) || m == s.entering
    ensures Follows(t, level, n, t.next[n][level])
  {
    var x := s.entering;
    assert Follows(s, level, prev, s.next[prev][level]);
    if n == prev {
    } else if n == x {
    } else {
      var m := s.next[n][level];
      assert t.next[n][level] == m && At(s, level, n) && Follows(s, level, n, m);
      if After(s, n, x) {
        BeforePred(s, level, s.keys[x], prev, n);
      }
    }
  }

  // ---------- one writer and many readers, in any interleaving ----------

  datatype Machine = Machine(list: List, prev: seq<nat>, copied: bool, readers: map<nat, Search>)

  datatype Step =
    | BeginInsert(key: Key, height: nat, prev: seq<nat>)
    | Copy
    | PublishNext
    | BeginSearch(reader: nat, target: Option<Key>, height: nat)
    | LoadNext(reader: nat)

  predicate Linking(m: Machine) {
    0 < m.list.entering < |m.list.next| && m.list.published < |m.list.next[m.list.entering]|
  }

  ghost predicate Ok(m: Machine) {
    var s := m.list;
    && Linked(s) && (s.entering == NIL || (0 < s.entering < |s.next| && s.published <= |s.next[s.entering]|))
    && (Linking(m) ==>
          && |m.prev| == |s.next[s.entering]|
          && (forall level: nat :: s.published <= level < |m.prev| ==> IsPred(s, level, s.keys[s.entering], m.prev[level]))
          && (m.copied ==> s.next[s.entering][s.published] == s.next[m.prev[s.published]][s.published]))
    && (forall r :: r in m.readers ==> SearchOk(s, m.readers[r]))
  }

  /** A reader may have read any maximum height: it begins at some level of the head. */
  ghost predicate Enabled(m: Machine, a: Step) {
    match a
    case BeginInsert(k, height, prev) =>
      && !Linking(m) && 1 <= height == |prev| <= MAX_HEIGHT && (forall n :: 1 <= n < |m.list.keys| ==> m.list.keys[n] != k)
      && forall level: nat :: level < height ==> prev[level] < |m.list.keys| && IsPred(m.list, level, k, prev[level])
    case Copy => Linking(m) && !m.copied
    case PublishNext => Linking(m) && m.copied
    case BeginSearch(r, _, height) => 1 <= height <= MAX_HEIGHT
    case LoadNext(r) => r in m.readers && m.readers[r].Searching?
  }

  ghost function Do(m: Machine, a: Step): Machine
    requires Ok(m) && Enabled(m, a)
  {
    match a
    case BeginInsert(k, height, prev) => m.(list := Allocate(m.list, k, height), prev := prev, copied := false)
    case Copy => m.(list := CopyNext(m.list, m.prev[m.list.published]), copied := true)
    case PublishNext => m.(list := Publish(m.list, m.prev[m.list.published]), copied := false)
    case BeginSearch(r, target, height) => m.(readers := m.readers[r := Searching(target, HEAD, height - 1)])
    case LoadNext(r) => m.(readers := m.readers[r := Load(m.list, m.readers[r])])
  }

  /** Nodes stay where they were linked, so searches under way stay sound. */
  lemma SearchesStay(s: List, t: List, r: Search)
    requires SearchOk(s, r) && |s.keys| <= |t.keys| && s.keys == t.keys[..|s.keys|] && |s.next| == |s.keys|
    requires forall level: nat, n :: In(s, level, n) ==> In(t, level, n)
    ensures SearchOk(t, r)
  {
  }

  lemma PredStays(s: List, t: List, level: nat, k: Key, n: int)
    requires IsPred(s, level, k, n) && s.keys == t.keys && forall m :: In(s, level, m) <==> In(t, level, m)
    ensures IsPred(t, level, k, n)
  {
  }

  lemma CopyKeepsOk(m: Machine)
    requires Ok(m) && Enabled(m, Copy)
    ensures Ok(Do(m, Copy)) && Contents(Do(m, Copy).list) == Contents(m.list)
  {
    var s, t := m.list, Do(m, Copy).list;
    CopyOk(s, m.prev[s.published]);
    forall level: nat | s.published <= level < |m.prev| ensures IsPred(t, level, t.keys[t.entering], m.prev[level]) {
      PredStays(s, t, level, s.keys[s.entering], m.prev[level]);
    }
    hide Linked, Follows, IsPred;
    forall r | r in m.readers ensures SearchOk(t, m.readers[r]) {
      SearchesStay(s, t, m.readers[r]);
    }
  }

  lemma PublishKeepsOk(m: Machine)
    requires Ok(m) && Enabled(m, PublishNext)
    ensures Ok(Do(m, PublishNext))
    ensures Contents(Do(m, PublishNext).list) == Contents(m.list) + if m.list.published == 0 then {m.list.keys[m.list.entering]} else {}
  {
    var s, t := m.list, Do(m, PublishNext).list;
    PublishOk(s, m.prev[s.published]);
    hide Linked, Follows;
    forall level: nat | t.published <= level < |m.prev| ensures IsPred(t, level, t.keys[t.entering], m.prev[level]) {
      PredStays(s, t, level, s.keys[s.entering], m.prev[level]);
    }
    forall r | r in m.readers ensures SearchOk(t, m.readers[r]) {
      SearchesStay(s, t, m.readers[r]);
    }
    PublishedContents(s, t);
  }

  lemma PublishedContents(s: List, t: List)
    requires s.keys == t.keys && 0 < s.entering < |s.keys|
    requires forall level: nat, n :: In(t, level, n) <==> In(s, level, n) || (level == s.published && n == s.entering)
    ensures Contents(t) == Contents(s) + if s.published == 0 then {s.keys[s.entering]} else {}
  {
    assert forall n :: In(t, 0, n) <==> In(s, 0, n) || (0 == s.published && n == s.entering);
  }

  lemma BeginKeepsOk(m: Machine, k: Key, height: nat, prev: seq<nat>)
    requires Ok(m) && Enabled(m, BeginInsert(k, height, prev))
    ensures Ok(Do(m, BeginInsert(k, height, prev))) && Contents(Do(m, BeginInsert(k, height, prev)).list) == Contents(m.list)
  {
    var s, t := m.list, Do(m, BeginInsert(k, height, prev)).list;
    AllocateOk(s, k, height);
    hide Linked, Follows, IsPred, Contents;
    forall r | r in m.readers ensures SearchOk(t, m.readers[r]) {
      SearchesStay(s, t, m.readers[r]);
    }
  }

  /** Every step keeps the list linked and all searches sound; the set that the list holds changes at
      one step only, the store that links the new node at the lowest level. */
  lemma StepKeepsOk(m: Machine, a: Step)
    requires Ok(m) && Enabled(m, a)
    ensures Ok(Do(m, a))
    ensures Contents(Do(m, a).list) ==
      Contents(m.list) + if a.PublishNext? && m.list.published == 0 then {m.list.keys[m.list.entering]} else {}
  {
    match a {
      case BeginInsert(k, height, prev) => BeginKeepsOk(m, k, height, prev);
      case Copy => CopyKeepsOk(m);
      case PublishNext => PublishKeepsOk(m);
      case BeginSearch(r, target, height) => hide Linked, IsPred, Contents;
      case LoadNext(r) =>
        LoadOk(m.list, m.readers[r]);
        hide Linked, IsPred, Contents;
    }
  }

  ghost predicate Runs(m: Machine, steps: seq<Step>, m': Machine)
    requires Ok(m)
    decreases |steps|
  {
    if steps == [] then m' == m
    else Enabled(m, steps[0]) && (StepKeepsOk(m, steps[0]); Runs(Do(m, steps[0]), steps[1..], m'))
  }

  lemma {:induction false} RunKeepsOk(m: Machine, steps: seq<Step>, m': Machine)
    requires Ok(m) && Runs(m, steps, m')
    ensures Ok(m') && Contents(m.list) <= Contents(m'.list)
    decreases |steps|
  {
    hide Ok, Enabled, Do, Contents;
    if steps != [] {
      StepKeepsOk(m, steps[0]);
      RunKeepsOk(Do(m, steps[0]), steps[1..], m');
    }
  }

  ghost function Start(): (m: Machine)
    ensures Ok(m) && Contents(m.list) == {}
  {
    Machine(Empty(), [], false, map[])
  }

  /** The least key of the set that is not below the target. */
  ghost predicate IsLeastFrom(c: set<Key>, target: Key, answer: Option<Key>) {
    if answer.None? then forall k :: k in c ==> Less(k, target)
    else answer.value in c && !Less(answer.value, target)
         && forall k :: k in c && !Less(k, target) ==> k == answer.value || Less(answer.value, k)
  }

  /** Whatever the writer does meanwhile and whatever maximum height a search began with: when its last
      load, at the lowest level, ends it, its answer is right for the set held at that very instant. */
  lemma SearchIsLinearizable(steps: seq<Step>, m: Machine, r: nat)
    requires Runs(Start(), steps, m)
    requires Enabled(m, LoadNext(r)) && m.readers[r].target.Some?
    ensures Ok(m)
    ensures var found := Load(m.list, m.readers[r]);
      found.Found? ==>
        && (found.node == NIL || 0 < found.node < |m.list.keys|)
        && IsLeastFrom(Contents(m.list), m.readers[r].target.value, if found.node == NIL then None else Some(m.list.keys[found.node]))
  {
    RunKeepsOk(Start(), steps, m);
    LoadOk(m.list, m.readers[r]);
    hide Linked, Follows;
  }

  // ---------- the list as the code has it ----------

  /** The nodes that a search standing at x may still reach. */
  ghost function Ahead(s: List, x: int): set<int>
    requires 0 <= x < |s.keys|
  {
    set n | 1 <= n < |s.keys| && After(s, x, n)
  }

  lemma LoadMovesOn(s: List, r: Search)
    requires Linked(s) && r.Searching? && SearchOk(s, r) && Load(s, r).Searching? && Load(s, r).level == r.level
    ensures Ahead(s, Load(s, r).x) < Ahead(s, r.x)
  {
    var next := Load(s, r).x;
    assert Follows(s, r.level, r.x, next);
    assert next in Ahead(s, r.x) && next !in Ahead(s, next);
  }

  lemma LinkedIsWellFormed(s: List)
    requires Linked(s)
    ensures WellFormed(s)
  {
  }

  lemma NoneAbove(s: List, level: nat, key: Key)
    requires Linked(s) && s.maxHeight <= level < MAX_HEIGHT
    ensures IsPred(s, level, key, HEAD)
  {
  }

  /** The two stores at one level, with no reader in between. */
  lemma LevelLinked(s: List, prev: seq<nat>, height: nat)
    requires Linked(s) && 0 < s.entering < |s.next| && s.published < |s.next[s.entering]| == height <= |prev|
    requires forall level: nat :: s.published <= level < height ==> prev[level] < |s.keys| && IsPred(s, level, s.keys[s.entering], prev[level])
    ensures var p := prev[s.published]; p < |s.next| && s.published < |s.next[p]| && p != s.entering
    ensures var t := Publish(CopyNext(s, prev[s.published]), prev[s.published]);
      && Linked(t) && Contents(t) == Contents(s) + (if s.published == 0 then {s.keys[s.entering]} else {})
      && forall level: nat :: t.published <= level < height ==> IsPred(t, level, t.keys[t.entering], prev[level])
  {
    var m := Machine(s, prev[..height], false, map[]);
    CopyKeepsOk(m);
    PublishKeepsOk(Do(m, Copy));
  }

  lemma NotIn(s: List, key: Key)
    requires s.entering == NIL && WellFormed(s) && key !in Contents(s)
    ensures forall n :: 1 <= n < |s.keys| ==> s.keys[n] != key
  {
    forall n | 1 <= n < |s.keys| ensures s.keys[n] != key {
      assert In(s, 0, n);
    }
  }

  class SkipList {
    var keys: seq<Key>
    var next: seq<seq<int>>
    var maxHeight: nat
    ghost var entering: int
    ghost var published: nat

    ghost function Abs(): List
      reads this
    {
      List(keys, next, maxHeight, entering, published)
    }

    ghost predicate Valid()
      reads this
    {
      Linked(Abs()) && entering == NIL
    }

    ghost function Set(): set<Key>
      reads this
    {
      Contents(Abs())
    }

    constructor ()
      ensures Valid() && Set() == {} && |keys| == 1
    {
      keys, next, maxHeight := Empty().keys, Empty().next, 1;
      entering, published := NIL, 0;
    }

    predicate KeyIsAfterNode(key: Key, n: int)
      requires NIL <= n < |keys|
      reads this
    {
      n != NIL && Less(keys[n], key)
    }

    /** The first node at or after the key; and for each level in use the last node before it. */
    method FindGreaterOrEqual(key: Key) returns (node: int, prev: seq<nat>)
      requires Valid()
      ensures |prev| == maxHeight && IsBound(Abs(), Some(key), prev[0], node)
      ensures forall level: nat :: level < maxHeight ==> prev[level] < |keys| && IsPred(Abs(), level, key, prev[level])
    {
      ghost var s := Abs();
      var x: nat, level: nat := HEAD, maxHeight - 1;
      prev := seq(maxHeight, i => HEAD);
      while true
        invariant SearchOk(s, Searching(Some(key), x, level)) && level < maxHeight == |prev| && s == Abs()
        invariant forall i: nat :: level < i < maxHeight ==> prev[i] < |keys| && IsPred(s, i, key, prev[i])
        decreases level, Ahead(s, x)
      {
        ghost var r := Searching(Some(key), x, level);
        assert Follows(s, level, x, next[x][level]);
        var n := next[x][level];
        if KeyIsAfterNode(key, n) {
          LoadOk(s, r);
          LoadMovesOn(s, r);
          x := n;
        } else {
          LoadOk(s, r);
          prev := prev[level := x];
          if level == 0 {
            node := n;
            return;
          }
          level := level - 1;
        }
      }
    }

    method Contains(key: Key) returns (found: bool)
      requires Valid()
      ensures found <==> key in Set()
    {
      var x, _ := FindGreaterOrEqual(key);
      found := x != NIL && keys[x] == key;
    }

    /** The last node before the key, or the head. */
    method FindLessThan(key: Key) returns (before: nat)
      requires Valid()
      ensures exists node :: IsBound(Abs(), Some(key), before, node)
    {
      ghost var s := Abs();
      var level: nat;
      before, level := HEAD, maxHeight - 1;
      while true
        invariant SearchOk(s, Searching(Some(key), before, level)) && level < maxHeight && s == Abs()
        decreases level, Ahead(s, before)
      {
        ghost var r := Searching(Some(key), before, level);
        LoadOk(s, r);
        var n := next[before][level];
        if n == NIL || !Less(keys[n], key) {
          if level == 0 {
            return;
          }
          level := level - 1;
        } else {
          LoadMovesOn(s, r);
          before := n;
        }
      }
    }

    /** The last node of the list, or the head. */
    method FindLast() returns (last: nat)
      requires Valid()
      ensures IsBound(Abs(), None, last, NIL)
    {
      ghost var s := Abs();
      var level: nat;
      last, level := HEAD, maxHeight - 1;
      while true
        invariant SearchOk(s, Searching(None, last, level)) && level < maxHeight && s == Abs()
        decreases level, Ahead(s, last)
      {
        ghost var r := Searching(None, last, level);
        LoadOk(s, r);
        var n := next[last][level];
        if n == NIL {
          if level == 0 {
            return;
          }
          level := level - 1;
        } else {
          LoadMovesOn(s, r);
          last := n;
        }
      }
    }

    /** Links a new node at each of its levels, from the lowest up; the height is the random choice. */
    method Insert(key: Key, height: nat)
      requires Valid() && key !in Set() && 1 <= height <= MAX_HEIGHT
      modifies this
      ensures Valid() && Set() == old(Set()) + {key} && keys == old(keys) + [key]
    {
      hide Linked, IsPred, Follows, Contents;
      var _, prev := FindGreaterOrEqual(key);
      LinkedIsWellFormed(Abs());
      NotIn(Abs(), key);
      AllocateOk(Abs(), key, height);
      prev := prev + seq(if height > maxHeight then height - maxHeight else 0, i => HEAD);
      forall level: nat | level < height ensures prev[level] < |keys| && IsPred(Abs(), level, key, prev[level]) {
        if level >= maxHeight {
          NoneAbove(Abs(), level, key);
        }
      }
      if height > maxHeight {
        maxHeight := height;
      }
      entering, published := |keys|, 0;
      keys, next := keys + [key], next + [seq(height, i => NIL)];
      assert Abs() == Allocate(old(Abs()), key, height);
      LinkLevels(prev, height);
      DoneLinking(Abs());
      entering, published := NIL, 0;
    }

    method LinkLevels(prev: seq<nat>, height: nat)
      requires Linked(Abs()) && 0 < entering == |keys| - 1 == |next| - 1 && published == 0 < |next[entering]| == height <= |prev|
      requires forall level: nat :: level < height ==> prev[level] < |keys| && IsPred(Abs(), level, keys[entering], prev[level])
      modifies this`next, this`published
      ensures Linked(Abs()) && entering < |next| && published == |next[entering]|
      ensures Set() == old(Set()) + {keys[entering]}
    {
      hide Linked, IsPred, Follows, Contents;
      var x := |keys| - 1;
      LinkedIsWellFormed(Abs());
      for i := 0 to height
        invariant published == i && Linked(Abs()) && WellFormed(Abs()) && |next[entering]| == height
        invariant forall level: nat :: i <= level < height ==> prev[level] < |keys| && IsPred(Abs(), level, keys[entering], prev[level])
        invariant Set() == old(Set()) + if i > 0 then {keys[entering]} else {}
      {
        LevelLinked(Abs(), prev, height);
        ghost var s := Abs();
        var p := prev[i];
        next := next[x := next[x][i := next[p][i]]];
        next := next[p := next[p][i := x]];
        published := published + 1;
        assert Abs() == Publish(CopyNext(s, p), p);
        LinkedIsWellFormed(Abs());
      }
    }
  }

  /** A node that is linked at all its levels is a node like the others. */
  lemma DoneLinking(s: List)
    requires Linked(s) && 0 < s.entering < |s.next| && s.published == |s.next[s.entering]|
    ensures Linked(s.(entering := NIL, published := 0)) && Contents(s.(entering := NIL, published := 0)) == Contents(s)
  {
    var t := s.(entering := NIL, published := 0);
    assert forall level: nat, n :: In(t, level, n) <==> In(s, level, n);
    forall level: nat, n | level < MAX_HEIGHT && At(t, level, n) ensures Follows(t, level, n, t.next[n][level]) {
      assert At(s, level, n);
      FollowsSame(s, t, level, n, s.next[n][level]);
    }
  }

  // ---------- iteration ----------

  /** Nobody but m follows n, and m follows nobody but n. */
  lemma FollowsIsUnique(s: List, n: int, m: int, n': int, m': int)
    requires Linked(s) && At(s, 0, n) && At(s, 0, n') && Follows(s, 0, n, m) && Follows(s, 0, n', m')
    ensures n == n' ==> m == m'
    ensures m == m' ==> n == n'
  {
    if n != n' {
      if n' != HEAD && After(s, n, n') {
        FollowsSooner(s, n, m, n', m');
      } else {
        FollowsSooner(s, n', m', n, m);
      }
    }
  }

  lemma FollowsSooner(s: List, n: int, m: int, n': int, m': int)
    requires WellFormed(s) && At(s, 0, n) && In(s, 0, n') && After(s, n, n')
    requires Follows(s, 0, n, m) && Follows(s, 0, n', m')
    ensures m != m'
  {
  }

  class Iterator {
    const list: SkipList
    var node: int

    ghost predicate Valid()
      reads this, list
    {
      list.Valid() && (node == NIL || In(list.Abs(), 0, node))
    }

    constructor (list: SkipList)
      requires list.Valid()
      ensures Valid() && this.list == list && node == NIL
    {
      this.list := list;
      node := NIL;
    }

    method Seek(target: Key)
      requires Valid()
      modifies this
      ensures Valid() && exists before :: IsBound(list.Abs(), Some(target), before, node)
    {
      var found, prev := list.FindGreaterOrEqual(target);
      assert IsBound(list.Abs(), Some(target), prev[0], found);
      node := found;
    }

    method SeekToFirst()
      requires Valid()
      modifies this
      ensures Valid() && Follows(list.Abs(), 0, HEAD, node)
    {
      assert Follows(list.Abs(), 0, HEAD, list.next[HEAD][0]);
      node := list.next[HEAD][0];
    }

    method SeekToLast()
      requires Valid()
      modifies this
      ensures Valid() && if node == NIL then Follows(list.Abs(), 0, HEAD, NIL) else Follows(list.Abs(), 0, node, NIL)
    {
      node := list.FindLast();
      if node == HEAD {
        node := NIL;
      }
    }

    method Next()
      requires Valid() && node != NIL
      modifies this
      ensures Valid() && Follows(list.Abs(), 0, old(node), node)
    {
      assert Follows(list.Abs(), 0, node, list.next[node][0]);
      node := list.next[node][0];
    }

    /** The node of which the old one is the next; none if that is the head. */
    method Prev()
      requires Valid() && node != NIL
      modifies this
      ensures Valid() && Follows(list.Abs(), 0, if node == NIL then HEAD else node, old(node))
    {
      var key := list.keys[node];
      var before := list.FindLessThan(key);
      assert before != HEAD ==> In(list.Abs(), 0, before);
      node := before;
      if node == HEAD {
        node := NIL;
      }
    }
  }
}
