/** WriteBatch: the bytes of a group of updates, and their insertion into a memtable. */
module WriteBatches {
  import opened Keys
  import opened LogFormat
  import opened Coding

  const BATCH_HEADER: nat := 12

  /** An update as the caller gives it: the key is still a string. */
  datatype Update = Set(key: seq<byte>, value: seq<byte>) | Delete(key: seq<byte>)

  predicate Encodable(us: seq<Update>) {
    forall u :: u in us ==> |u.key| < TWO_32 && (u.Set? ==> |u.value| < TWO_32)
  }

  function UpdateBytes(u: Update): (b: seq<byte>)
    requires Encodable([u])
    ensures |b| > 0
  {
    assert u in [u];
    match u
    case Set(key, value) => [1] + VarString(key) + VarString(value)
    case Delete(key) => [0] + VarString(key)
  }

  function Body(us: seq<Update>): seq<byte>
    requires Encodable(us)
    decreases |us|
  {
    if us == [] then [] else UpdateBytes(us[0]) + Body(us[1..])
  }

  function Rep(first: nat, us: seq<Update>): (b: seq<byte>)
    requires first < TWO_64 && |us| < TWO_32 && Encodable(us)
    ensures |b| >= BATCH_HEADER
  {
    EncodeFixed64(first) + EncodeFixed32(|us|) + Body(us)
  }

  lemma {:induction false} BodyConcat(us: seq<Update>, vs: seq<Update>)
    requires Encodable(us) && Encodable(vs)
    ensures Encodable(us + vs) && Body(us + vs) == Body(us) + Body(vs)
    decreases |us|
  {
    hide UpdateBytes;
    if us == [] {
      assert us + vs == vs;
    } else {
      assert (us + vs)[1..] == us[1..] + vs;
      BodyConcat(us[1..], vs);
    }
  }

  // ---------- parsing ----------

  /** The updates read before the input ended or turned out malformed. */
  datatype Parsed = Parsed(updates: seq<Update>, ok: bool)

  function ParseUpdate(input: seq<byte>): (r: Option<(Update, nat)>)
    requires |input| > 0
    ensures r.Some? ==> 0 < r.value.1 <= |input|
  {
    if input[0] == 1 then
      var k := GetLengthPrefixedSlice(input[1..]);
      if k.None? then None
      else
        var v := GetLengthPrefixedSlice(input[1 + k.value.1..]);
        if v.None? then None else Some((Set(k.value.0, v.value.0), 1 + k.value.1 + v.value.1))
    else if input[0] == 0 then
      var k := GetLengthPrefixedSlice(input[1..]);
      if k.None? then None else Some((Delete(k.value.0), 1 + k.value.1))
    else None
  }

  function ParseBody(input: seq<byte>): Parsed
    decreases |input|
  {
    if input == [] then Parsed([], true)
    else
      var u := ParseUpdate(input);
      if u.None? then Parsed([], false)
      else
        var rest := ParseBody(input[u.value.1..]);
        Parsed([u.value.0] + rest.updates, rest.ok)
  }

  lemma ParseUpdateBytes(u: Update, rest: seq<byte>)
    requires Encodable([u])
    ensures ParseUpdate(UpdateBytes(u) + rest) == Some((u, |UpdateBytes(u)|))
  {
    hide GetLengthPrefixedSlice, VarString;
    assert u in [u];
    var input := UpdateBytes(u) + rest;
    if u.Set? {
      var k, v := VarString(u.key), VarString(u.value);
      SetParts(k, v, rest);
      GetVarString(u.key, v + rest);
      GetVarString(u.value, rest);
    } else {
      assert input[1..] == VarString(u.key) + rest;
      GetVarString(u.key, rest);
    }
  }

  lemma SetParts(k: seq<byte>, v: seq<byte>, rest: seq<byte>)
    ensures var input := [1] + k + v + rest; input[1..] == k + (v + rest) && input[1 + |k|..] == v + rest
  {
  }

  lemma {:induction false} ParseBodyOf(us: seq<Update>)
    requires Encodable(us)
    ensures ParseBody(Body(us)) == Parsed(us, true)
    decreases |us|
  {
    hide UpdateBytes, ParseUpdate;
    if us != [] {
      ParseUpdateBytes(us[0], Body(us[1..]));
      assert Body(us)[|UpdateBytes(us[0])|..] == Body(us[1..]);
      ParseBodyOf(us[1..]);
    }
  }

  // ---------- entries ----------

  /** The entry a memtable gets: keys enter by their rank in the comparator's order, and the tag
      keeps 56 bits of the sequence number. */
  function EntryOf(rank: seq<byte> -> UserKey, u: Update, number: nat): Entry {
    Entry(rank(u.key), number % (MAX_SEQUENCE + 1), if u.Set? then Put else Deletion, if u.Set? then u.value else [])
  }

  function EntriesOf(rank: seq<byte> -> UserKey, first: nat, us: seq<Update>): (es: seq<Entry>)
    ensures |es| == |us|
  {
    seq(|us|, i requires 0 <= i < |us| => EntryOf(rank, us[i], first + i))
  }

  lemma EntriesOfConcat(rank: seq<byte> -> UserKey, first: nat, us: seq<Update>, vs: seq<Update>)
    ensures EntriesOf(rank, first, us + vs) == EntriesOf(rank, first, us) + EntriesOf(rank, first + |us|, vs)
  {
  }

  /** WriteBatchInternal::InsertInto: what reaches the memtable, and whether the batch was sound. */
  datatype Inserted = Inserted(entries: seq<Entry>, ok: bool)

  function BatchSequence(contents: seq<byte>): nat
    requires |contents| >= BATCH_HEADER
  {
    DecodeFixed64(contents[..8])
  }

  /** The count field is read back as a signed int. */
  function BatchCount(contents: seq<byte>): int
    requires |contents| >= BATCH_HEADER
  {
    var n := DecodeFixed32(contents[8..12]);
    if n < 0x8000_0000 then n else n - TWO_32
  }

  function InsertAll(rank: seq<byte> -> UserKey, contents: seq<byte>): Inserted
    requires |contents| >= BATCH_HEADER
  {
    var p := ParseBody(contents[BATCH_HEADER..]);
    Inserted(EntriesOf(rank, BatchSequence(contents), p.updates), p.ok && |p.updates| == BatchCount(contents))
  }

  /** A batch is inserted as it was built: one entry an update, numbered from the batch's number. */
  lemma InsertAllOf(rank: seq<byte> -> UserKey, first: nat, us: seq<Update>)
    requires first < TWO_64 && |us| < 0x8000_0000 && Encodable(us)
    ensures InsertAll(rank, Rep(first, us)) == Inserted(EntriesOf(rank, first, us), true)
    ensures BatchSequence(Rep(first, us)) == first && BatchCount(Rep(first, us)) == |us|
  {
    hide EncodeFixed64, DecodeFixed64, EncodeFixed32, DecodeFixed32, Body;
    var r := Rep(first, us);
    assert r[..8] == EncodeFixed64(first);
    assert r[8..12] == EncodeFixed32(|us|);
    assert r[BATCH_HEADER..] == Body(us);
    DecodeEncodeFixed64(first);
    DecodeEncodeFixed32(|us|);
    ParseBodyOf(us);
  }

  /** A batch in numbers: eight bytes of sequence number, four of the count, and for each update its kind, its
      key and its value, each with its length before it. */
  lemma RepInNumbers()
    ensures Rep(7, [Set([0x61], [0x62, 0x63]), Delete([0x64])])
         == [7, 0, 0, 0, 0, 0, 0, 0] + [2, 0, 0, 0] + [1, 1, 0x61, 2, 0x62, 0x63, 0, 1, 0x64]
  {
    var set1, del: Update := Set([0x61], [0x62, 0x63]), Delete([0x64]);
    var us := [set1, del];
    assert us[1..] == [del] && [del][1..] == [];
    assert set1 in [set1] && del in [del];
    assert VarString([0x61]) == [1, 0x61] && VarString([0x62, 0x63]) == [2, 0x62, 0x63] && VarString([0x64]) == [1, 0x64];
    assert UpdateBytes(set1) == [1, 1, 0x61, 2, 0x62, 0x63] && UpdateBytes(del) == [0, 1, 0x64];
    assert Body([del]) == [0, 1, 0x64] + Body([]);
    assert Body(us) == UpdateBytes(set1) + Body([del]);
  }

  /** Batches that were appended to one another are inserted as one: the entries of the first, then those
      of the second under the numbers that follow. */
  lemma AppendedInsert(rank: seq<byte> -> UserKey, first: nat, us: seq<Update>, vs: seq<Update>)
    requires first < TWO_64 && |us| + |vs| < 0x8000_0000 && Encodable(us) && Encodable(vs)
    ensures Encodable(us + vs)
    ensures InsertAll(rank, Rep(first, us + vs)) == Inserted(EntriesOf(rank, first, us) + EntriesOf(rank, first + |us|, vs), true)
  {
    hide Rep, InsertAll, EntriesOf;
    BodyConcat(us, vs);
    InsertAllOf(rank, first, us + vs);
    EntriesOfConcat(rank, first, us, vs);
  }

  // ---------- batches that are not sound ----------

  /** The bytes of a varint without its last one are no varint. */
  lemma {:induction false} CutVarint(v: nat, i: nat, result: nat, input: seq<byte>)
    requires v < Limit(i) && i <= |input| < i + |Base128(v)| && input[i..] <= Base128(v)
    ensures GetVarint32From(input, i, result) == None
    decreases v
  {
    if i < |input| {
      var b := Base128(v);
      assert input[i..][0] == input[i] == b[0];
      assert v >= 0x80;
      assert b[1..] == Base128(v / 0x80);
      assert input[i + 1..] == input[i..][1..];
      CutVarint(v / 0x80, i + 1, result + Shifted(v % 0x80, i), input);
    }
  }

  lemma CutString(s: seq<byte>, n: nat)
    requires |s| < TWO_32 && n < |VarString(s)|
    ensures GetLengthPrefixedSlice(VarString(s)[..n]) == None
  {
    EncodeIsBase128(|s|);
    var length, input := EncodeVarint32(|s|), VarString(s)[..n];
    hide EncodeVarint32;
    if n < |length| {
      assert input == length[..n] && input[0..] == input;
      CutVarint(|s|, 0, 0, input);
    } else {
      assert input == length + s[..n - |length|];
      GetEncodedVarint32(|s|, s[..n - |length|]);
    }
  }

  lemma CutUpdate(u: Update, n: nat)
    requires Encodable([u]) && 0 < n < |UpdateBytes(u)|
    ensures ParseUpdate(UpdateBytes(u)[..n]) == None
  {
    hide GetLengthPrefixedSlice, VarString;
    assert u in [u];
    var input, k := UpdateBytes(u)[..n], VarString(u.key);
    if n < 1 + |k| {
      assert input[1..] == k[..n - 1];
      CutString(u.key, n - 1);
    } else {
      assert u.Set?;
      var v := VarString(u.value);
      SetParts(k, v, []);
      var m := n - 1 - |k|;
      assert UpdateBytes(u) == [1] + k + v;
      assert input == [1] + k + v[..m];
      SetParts(k, v[..m], []);
      assert input == [1] + k + v[..m] + [] && v[..m] + [] == v[..m];
      GetVarString(u.key, v[..m]);
      CutString(u.value, m);
    }
  }

  /** Of a body that is cut off anywhere the updates are read that are there as a whole, and it passes for
      complete only between two updates. */
  lemma {:induction false} ParseCutBody(us: seq<Update>, n: nat) returns (m: nat)
    requires Encodable(us) && n < |Body(us)|
    ensures m < |us| && ParseBody(Body(us)[..n]) == Parsed(us[..m], n == |Body(us[..m])|)
    ensures |Body(us[..m])| <= n < |Body(us[..m + 1])|
    decreases |us|
  {
    hide UpdateBytes, ParseUpdate;
    var first, rest := UpdateBytes(us[0]), Body(us[1..]);
    assert Body(us) == first + rest;
    var input := Body(us)[..n];
    if n < |first| {
      m := 0;
      assert us[..0] == [] && us[..1] == [us[0]] && [us[0]][1..] == [];
      assert input == first[..n];
      if n > 0 {
        CutUpdate(us[0], n);
      }
    } else {
      var l := n - |first|;
      assert input == first + rest[..l];
      ParseUpdateBytes(us[0], rest[..l]);
      assert input[|first|..] == rest[..l];
      var m' := ParseCutBody(us[1..], l);
      m := m' + 1;
      assert us[..m][1..] == us[1..][..m'] && us[..m + 1][1..] == us[1..][..m' + 1];
      assert us[..m] == [us[0]] + us[1..][..m'];
    }
  }

  /** A batch that is cut off anywhere behind its header is not sound; the updates that are whole are inserted
      all the same. */
  lemma CutBatch(rank: seq<byte> -> UserKey, first: nat, us: seq<Update>, n: nat) returns (m: nat)
    requires first < TWO_64 && |us| < 0x8000_0000 && Encodable(us) && BATCH_HEADER <= n < |Rep(first, us)|
    ensures m < |us| && InsertAll(rank, Rep(first, us)[..n]) == Inserted(EntriesOf(rank, first, us[..m]), false)
  {
    hide EncodeFixed64, DecodeFixed64, EncodeFixed32, DecodeFixed32, Body;
    var r := Rep(first, us);
    var c := r[..n];
    assert r[..8] == EncodeFixed64(first) == c[..8];
    assert r[8..12] == EncodeFixed32(|us|) == c[8..12];
    assert c[BATCH_HEADER..] == Body(us)[..n - BATCH_HEADER];
    DecodeEncodeFixed64(first);
    DecodeEncodeFixed32(|us|);
    m := ParseCutBody(us, n - BATCH_HEADER);
  }

  lemma BatchParts(number: seq<byte>, count: seq<byte>, body: seq<byte>)
    requires |number| == 8 && |count| == 4
    ensures var r := number + count + body; r[..8] == number && r[8..12] == count && r[BATCH_HEADER..] == body
  {
  }

  /** Nor is one with another number of updates than it says. */
  lemma MiscountedBatch(rank: seq<byte> -> UserKey, first: nat, count: nat, us: seq<Update>)
    requires first < TWO_64 && |us| < 0x8000_0000 && Encodable(us) && count < TWO_32
    ensures InsertAll(rank, EncodeFixed64(first) + EncodeFixed32(count) + Body(us)) == Inserted(EntriesOf(rank, first, us), count == |us|)
  {
    hide EncodeFixed64, DecodeFixed64, EncodeFixed32, DecodeFixed32, Body, ParseBody, EntriesOf;
    BatchParts(EncodeFixed64(first), EncodeFixed32(count), Body(us));
    DecodeEncodeFixed64(first);
    DecodeEncodeFixed32(count);
    ParseBodyOf(us);
  }

  /** Nor one that goes on with a byte that is no kind of update. */
  lemma {:induction false} UnknownKind(us: seq<Update>, rest: seq<byte>)
    requires Encodable(us) && rest != [] && rest[0] > 1
    ensures ParseBody(Body(us) + rest) == Parsed(us, false)
    decreases |us|
  {
    hide UpdateBytes, ParseUpdate;
    if us == [] {
      assert Body(us) + rest == rest;
      NoSuchKind(rest);
    } else {
      var first := UpdateBytes(us[0]);
      assert Body(us) + rest == first + (Body(us[1..]) + rest);
      ParseUpdateBytes(us[0], Body(us[1..]) + rest);
      assert (Body(us) + rest)[|first|..] == Body(us[1..]) + rest;
      UnknownKind(us[1..], rest);
    }
  }

  lemma NoSuchKind(input: seq<byte>)
    requires input != [] && input[0] > 1
    ensures ParseUpdate(input) == None
  {
  }

  // ---------- the code ----------

  class WriteBatch {
    var rep: seq<byte>
    ghost var first: nat
    ghost var updates: seq<Update>

    ghost predicate Valid()
      reads this
    {
      first < TWO_64 && |updates| < TWO_32 && Encodable(updates) && rep == Rep(first, updates)
    }

    constructor ()
      ensures Valid() && first == 0 && updates == []
    {
      rep := seq(BATCH_HEADER, _ => 0);
      first, updates := 0, [];
    }

    /** Overwrites the bytes from `at` on. */
    static function Patch(s: seq<byte>, at: nat, b: seq<byte>): seq<byte>
      requires at + |b| <= |s|
    {
      s[..at] + b + s[at + |b|..]
    }

    method SetSequence(number: nat)
      requires Valid() && number < TWO_64
      modifies this
      ensures Valid() && first == number && updates == old(updates)
    {
      hide EncodeFixed64, EncodeFixed32, Body;
      rep := Patch(rep, 0, EncodeFixed64(number));
      first := number;
    }

    method Count() returns (n: int)
      requires Valid()
      ensures |updates| < 0x8000_0000 ==> n == |updates|
    {
      hide Body;
      DecodeEncodeFixed32(|updates|);
      assert rep[8..12] == EncodeFixed32(|updates|);
      var raw := DecodeFixed32(rep[8..12]);
      n := if raw < 0x8000_0000 then raw else raw - TWO_32;
    }

    method SetCount(n: nat)
      requires |rep| >= BATCH_HEADER && n < TWO_32
      modifies this`rep
      ensures rep == old(rep)[..8] + EncodeFixed32(n) + old(rep)[12..]
    {
      rep := Patch(rep, 8, EncodeFixed32(n));
    }

    /** Put and Delete. */
    method Add(u: Update)
      requires Valid() && Encodable([u]) && |updates| < 0x7fff_ffff
      modifies this
      ensures Valid() && first == old(first) && updates == old(updates) + [u]
    {
      hide EncodeFixed64, EncodeFixed32, UpdateBytes, Body, VarString, Encodable;
      var n := Count();
      SetCount(n + 1);
      OneMoreUpdate(old(rep), rep, first, updates, u);
      UpdateBytesAre(u);
      match u {
        case Set(key, value) => rep := rep + ([1] + VarString(key) + VarString(value));
        case Delete(key) => rep := rep + ([0] + VarString(key));
      }
      updates := updates + [u];
    }

    static lemma OneMoreUpdate(was: seq<byte>, counted: seq<byte>, first: nat, us: seq<Update>, u: Update)
      requires first < TWO_64 && |us| < 0x7fff_ffff && Encodable(us) && Encodable([u]) && was == Rep(first, us)
      requires counted == was[..8] + EncodeFixed32(|us| + 1) + was[12..]
      ensures Encodable(us + [u]) && Rep(first, us + [u]) == counted + UpdateBytes(u)
    {
      hide EncodeFixed64, EncodeFixed32, UpdateBytes;
      assert was[..8] == EncodeFixed64(first) && was[12..] == Body(us);
      BodyConcat(us, [u]);
      assert [u][1..] == [] && Body([u]) == UpdateBytes(u) + Body([]);
      hide Body;
      assert UpdateBytes(u) + [] == UpdateBytes(u);
      var head := EncodeFixed64(first) + EncodeFixed32(|us| + 1);
      assert head + (Body(us) + UpdateBytes(u)) == (head + Body(us)) + UpdateBytes(u);
    }

    static lemma UpdateBytesAre(u: Update)
      requires Encodable([u])
      ensures |u.key| < TWO_32 && (u.Set? ==> |u.value| < TWO_32)
      ensures UpdateBytes(u) == if u.Set? then [1] + VarString(u.key) + VarString(u.value) else [0] + VarString(u.key)
    {
      assert u in [u];
    }

    /** WriteBatchInternal::Append: the other batch's updates follow this one's. */
    method Append(src: WriteBatch)
      requires Valid() && src.Valid() && src != this && |updates| + |src.updates| < 0x8000_0000
      modifies this
      ensures Valid() && first == old(first) && updates == old(updates) + src.updates
    {
      hide EncodeFixed64, EncodeFixed32, Body;
      assert rep[..8] == EncodeFixed64(first) && rep[12..] == Body(updates);
      assert src.rep[12..] == Body(src.updates);
      var n := Count();
      var m := src.Count();
      SetCount(n + m);
      BodyConcat(updates, src.updates);
      rep := rep + src.rep[BATCH_HEADER..];
      updates := updates + src.updates;
    }
  }

  /** The loop of WriteBatch::Iterate, feeding a MemTableInserter. */
  method InsertInto(rank: seq<byte> -> UserKey, contents: seq<byte>) returns (mem: seq<Entry>, ok: bool)
    requires |contents| >= BATCH_HEADER
    ensures Inserted(mem, ok) == InsertAll(rank, contents)
  {
    hide ParseUpdate, DecodeFixed64, DecodeFixed32;
    var input := contents[BATCH_HEADER..];
    var number := DecodeFixed64(contents[..8]);
    var found := 0;
    mem, ok := [], true;
    ghost var all := ParseBody(input);
    ghost var done: seq<Update> := [];
    while input != []
      invariant |done| == found && ok
      invariant all == Parsed(done + ParseBody(input).updates, ParseBody(input).ok)
      invariant mem == EntriesOf(rank, BatchSequence(contents), done)
      invariant number == BatchSequence(contents) + found
      decreases |input|
    {
      found := found + 1;
      var u := ParseUpdate(input);
      if u == None {
        assert all.updates == done;
        return mem, false;
      }
      mem := mem + [EntryOf(rank, u.value.0, number)];
      done := done + [u.value.0];
      number := number + 1;
      input := input[u.value.1..];
    }
    assert all == Parsed(done, true);
    ok := found == BatchCount(contents);
  }
}
