/** log::Writer: fragments records over blocks. */
module LogWriter {
  import opened Keys
  import opened LogFormat

  lemma LogBytesOne(fmt: Format, pos: nat, record: seq<byte>)
    requires Chain(fmt.blockSize, pos, Fragments(fmt.blockSize, pos, record, true))
    ensures LogBytes(fmt, pos, [record]) == Image(fmt, pos, Fragments(fmt.blockSize, pos, record, true))
  {
    var fs := Fragments(fmt.blockSize, pos, record, true);
    assert LogFragments(fmt.blockSize, EndOf(pos, fs), [record][1..]) == [];
    assert LogFragments(fmt.blockSize, pos, [record]) == fs + [];
    assert fs + [] == fs;
  }

  /** What reaches the file when fragment n cannot be appended: those before it, and the trailer. */
  function TornImage(fmt: Format, pos: nat, fs: seq<Fragment>, n: nat): seq<byte>
    requires Chain(fmt.blockSize, pos, fs) && n < |fs|
    decreases n
  {
    if n == 0 then Zeros(fs[0].start - pos) else FragmentBytes(fmt, pos, fs[0]) + TornImage(fmt, End(fs[0]), fs[1..], n - 1)
  }

  function TornBytes(fmt: Format, pos: nat, record: seq<byte>, n: nat): seq<byte>
    requires n < |Fragments(fmt.blockSize, pos, record, true)|
  {
    FragmentsChain(fmt.blockSize, pos, record, true);
    TornImage(fmt, pos, Fragments(fmt.blockSize, pos, record, true), n)
  }

  lemma {:induction false} TornImageIs(fmt: Format, pos: nat, fs: seq<Fragment>, n: nat)
    requires Chain(fmt.blockSize, pos, fs) && n < |fs|
    ensures Chain(fmt.blockSize, pos, fs[..n]) && fs[n].start >= EndOf(pos, fs[..n])
    ensures TornImage(fmt, pos, fs, n) == Image(fmt, pos, fs[..n]) + Zeros(fs[n].start - EndOf(pos, fs[..n]))
    decreases n
  {
    hide FragmentBytes, Zeros;
    if n == 0 {
      assert fs[..0] == [];
      assert Image(fmt, pos, []) + Zeros(fs[0].start - pos) == Zeros(fs[0].start - pos) by {
        NothingBefore(Zeros(fs[0].start - pos));
      }
    } else {
      TornImageIs(fmt, End(fs[0]), fs[1..], n - 1);
      assert fs[..n][1..] == fs[1..][..n - 1] && fs[..n][0] == fs[0] && fs[1..][n - 1] == fs[n];
      EndOfRest(pos, fs[..n]);
      Grouped(FragmentBytes(fmt, pos, fs[0]), Image(fmt, End(fs[0]), fs[1..][..n - 1]), Zeros(fs[n].start - EndOf(pos, fs[..n])));
    }
  }

  lemma NothingBefore(b: seq<byte>)
    ensures [] + b == b
  {
  }

  lemma Grouped(a: seq<byte>, b: seq<byte>, c: seq<byte>)
    ensures a + (b + c) == a + b + c
  {
  }

  lemma EndOfRest(pos: nat, fs: seq<Fragment>)
    requires fs != []
    ensures EndOf(pos, fs) == EndOf(End(fs[0]), fs[1..])
  {
  }

  // ---------- calls that fail ----------

  /** A call of AddRecord, and the fragment that could not be appended, if it failed. */
  datatype Attempt = Attempt(record: seq<byte>, lostAt: Option<nat>)

  function LostIndex(n: nat, count: nat): (i: nat)
    requires count > 0
    ensures i < count && (n < count ==> i == n)
  {
    if n < count then n else count - 1
  }

  /** The bytes that a call made at position `at` brings to the file. */
  function BytesOf(fmt: Format, at: nat, a: Attempt): seq<byte> {
    if a.lostAt.None? then LogBytes(fmt, at, [a.record])
    else TornBytes(fmt, at, a.record, LostIndex(a.lostAt.value, |Fragments(fmt.blockSize, at, a.record, true)|))
  }

  /** Where the writer takes itself to be after the call: the lost fragment counts. */
  function Next(B: BlockSize, at: nat, a: Attempt): nat {
    var fs := Fragments(B, at, a.record, true);
    if a.lostAt.None? then EndOf(at, fs) else End(fs[LostIndex(a.lostAt.value, |fs|)])
  }

  /** The bytes of a file after the given calls, the first of them made at position `at`. */
  function FileBytes(fmt: Format, at: nat, calls: seq<Attempt>): seq<byte>
    decreases |calls|
  {
    if calls == [] then [] else BytesOf(fmt, at, calls[0]) + FileBytes(fmt, Next(fmt.blockSize, at, calls[0]), calls[1..])
  }

  function PositionAfter(B: BlockSize, at: nat, calls: seq<Attempt>): nat
    decreases |calls|
  {
    if calls == [] then at else PositionAfter(B, Next(B, at, calls[0]), calls[1..])
  }

  lemma {:induction false} CallsConcat(fmt: Format, at: nat, calls: seq<Attempt>, more: seq<Attempt>)
    ensures PositionAfter(fmt.blockSize, at, calls + more)
         == PositionAfter(fmt.blockSize, PositionAfter(fmt.blockSize, at, calls), more)
    ensures FileBytes(fmt, at, calls + more)
         == FileBytes(fmt, at, calls) + FileBytes(fmt, PositionAfter(fmt.blockSize, at, calls), more)
    decreases |calls|
  {
    hide BytesOf, Next;
    if calls == [] {
      assert calls + more == more;
    } else {
      assert (calls + more)[1..] == calls[1..] + more;
      var next := Next(fmt.blockSize, at, calls[0]);
      CallsConcat(fmt, next, calls[1..], more);
      Grouped(BytesOf(fmt, at, calls[0]), FileBytes(fmt, next, calls[1..]),
              FileBytes(fmt, PositionAfter(fmt.blockSize, at, calls), more));
    }
  }

  lemma OneCall(fmt: Format, at: nat, a: Attempt)
    ensures FileBytes(fmt, at, [a]) == BytesOf(fmt, at, a) && PositionAfter(fmt.blockSize, at, [a]) == Next(fmt.blockSize, at, a)
  {
    hide BytesOf, Next;
    assert [a][1..] == [];
  }

  class Writer {
    const fmt: Format
    var dest: seq<byte>
    var blockOffset: nat
    ghost const given: seq<byte>     // the file when the writer was made
    ghost var calls: seq<Attempt>    // history: the calls of AddRecord since
    ghost var at: nat                // where in the file the writer takes itself to be

    /** The block offset is that of the position; a full block may count as B or as 0. */
    ghost predicate OffsetOk()
      reads this
    {
      blockOffset == Off(fmt.blockSize, at) || (blockOffset == fmt.blockSize && Off(fmt.blockSize, at) == 0)
    }

    /** The file holds what the calls brought to it. */
    ghost predicate Valid()
      reads this
    {
      && OffsetOk()
      && dest == given + FileBytes(fmt, |given|, calls)
      && at == PositionAfter(fmt.blockSize, |given|, calls)
    }

    constructor (fmt: Format)
      ensures Valid() && this.fmt == fmt && given == dest == [] && calls == []
    {
      this.fmt := fmt;
      dest, blockOffset := [], 0;
      given, calls, at := [], [], 0;
    }

    /** The constructor for a file of known length. */
    constructor Reopen(fmt: Format, contents: seq<byte>)
      ensures Valid() && this.fmt == fmt && given == dest == contents && calls == []
    {
      this.fmt := fmt;
      dest, blockOffset := contents, |contents| % fmt.blockSize;
      given, calls, at := contents, [], |contents|;
      OffIsMod(fmt.blockSize, |contents|);
    }

    /** AddRecord. The fragment numbered failAt cannot be appended to the file. The call succeeds unless
        it comes to that fragment; either way the file then holds what all calls so far bring to it. */
    method AddRecord(slice: seq<byte>, failAt: Option<nat>) returns (ok: bool)
      requires Valid()
      modifies this
      ensures Valid() && calls == old(calls) + [Attempt(slice, if ok then None else failAt)]
      ensures ok <==> failAt.None? || failAt.value >= |Fragments(fmt.blockSize, old(at), slice, true)|
      ensures ok ==> dest == old(dest) + LogBytes(fmt, old(at), [slice])
    {
      hide Fragments, LogBytes, Off, Start, FragmentBytes, Placed, FileBytes;
      ghost var pos := at;
      ghost var all := Fragments(fmt.blockSize, pos, slice, true);
      ok := WriteFragments(slice, failAt);
      ghost var a := Attempt(slice, if ok then None else failAt);
      calls := calls + [a];
      CallsConcat(fmt, |given|, old(calls), [a]);
      OneCall(fmt, pos, a);
      Grouped(given, FileBytes(fmt, |given|, old(calls)), BytesOf(fmt, pos, a));
    }

    /** The loop of AddRecord. */
    method WriteFragments(slice: seq<byte>, failAt: Option<nat>) returns (ok: bool)
      requires OffsetOk()
      modifies this`dest, this`blockOffset, this`at
      ensures OffsetOk()
      ensures ok <==> failAt.None? || failAt.value >= |Fragments(fmt.blockSize, old(at), slice, true)|
      ensures var a := Attempt(slice, if ok then None else failAt);
        dest == old(dest) + BytesOf(fmt, old(at), a) && at == Next(fmt.blockSize, old(at), a)
    {
      hide Fragments, LogBytes, Off, Start, FragmentBytes, Placed;
      ghost var pos := at;
      ghost var all := Fragments(fmt.blockSize, pos, slice, true);
      ghost var done: seq<Fragment> := [];
      FragmentsChain(fmt.blockSize, pos, slice, true);
      LogBytesOne(fmt, pos, slice);
      var left := slice;
      var begin := true;
      var n := 0;
      while begin || |left| > 0
        invariant OffsetOk() && Written(fmt, pos, old(dest), dest, at, done, all)
        invariant ToWrite(fmt, at, done, all, left, begin)
        invariant n == |done| && (failAt == None || failAt.value >= n)
        decreases |left|, begin, if Room(fmt.blockSize, Start(fmt.blockSize, at)) > HEADER then 0 else 1
      {
        ghost var f := Fragments(fmt.blockSize, at, left, begin)[0];
        Advance(fmt, pos, old(dest), dest, at, done, all, left, begin, f);
        TornHere(fmt, pos, old(dest), dest, at, done, all, f);
        done := done + [f];
        var fragmentLength;
        ok, fragmentLength := AddFragment(left, begin, failAt != Some(n));
        if !ok {
          return;
        }
        left := left[fragmentLength..];
        begin := false;
        n := n + 1;
      }
      assert all == done + [] == done;
      ok := true;
    }

    /** One turn of the loop: the trailer if the block is used up, then the next fragment. */
    method AddFragment(left: seq<byte>, begin: bool, appended: bool) returns (ok: bool, fragmentLength: nat)
      requires OffsetOk()
      requires Placed(fmt.blockSize, at, Fragments(fmt.blockSize, at, left, begin)[0])
      modifies this`dest, this`blockOffset, this`at
      ensures var f := Fragments(fmt.blockSize, old(at), left, begin)[0];
        && OffsetOk() && fragmentLength == |f.payload| <= |left|
        && ok == appended && at == End(f) && HEADER + |f.payload| <= fmt.blockSize
        && (ok ==> dest == old(dest) + FragmentBytes(fmt, old(at), f))
        && (!ok ==> dest == old(dest) + Zeros(f.start - old(at)))
    {
      ghost var here := at;
      SwitchBlock();
      ghost var start := at;
      var avail := fmt.blockSize - blockOffset - HEADER;
      fragmentLength := if |left| < avail then |left| else avail;
      var end := |left| == fragmentLength;
      OffAdd(fmt.blockSize, start, HEADER + fragmentLength);
      ghost var f := Fragment(start, FragmentKind(begin, end), left[..fragmentLength]);
      assert f == Fragments(fmt.blockSize, here, left, begin)[0];
      Regroup(old(dest), Zeros(start - here), Header(fmt, f.kind, f.payload), f.payload);
      assert FragmentBytes(fmt, here, f) == Zeros(start - here) + Header(fmt, f.kind, f.payload) + f.payload;
      hide Header, Fragments;
      ok := EmitPhysicalRecord(FragmentKind(begin, end), left[..fragmentLength], appended);
    }

    /** Fills the trailer of a block that has no room for a header. */
    method SwitchBlock()
      requires OffsetOk()
      modifies this`dest, this`blockOffset, this`at
      ensures at == Start(fmt.blockSize, old(at)) && dest == old(dest) + Zeros(at - old(at))
      ensures blockOffset == Off(fmt.blockSize, at) && blockOffset + HEADER <= fmt.blockSize
    {
      StartRoom(fmt.blockSize, at);
      var leftover := fmt.blockSize - blockOffset;
      if leftover < HEADER {
        if leftover > 0 {
          dest := dest + Zeros(leftover);
          OffAdd(fmt.blockSize, at, leftover);
          at := at + leftover;
        }
        blockOffset := 0;
      }
    }

    /** The offset moves on whether or not the record could be appended. */
    method EmitPhysicalRecord(kind: byte, payload: seq<byte>, appended: bool) returns (ok: bool)
      requires blockOffset + HEADER + |payload| <= fmt.blockSize
      modifies this`dest, this`blockOffset, this`at
      ensures ok == appended
      ensures blockOffset == old(blockOffset) + HEADER + |payload| && at == old(at) + HEADER + |payload|
      ensures dest == if appended then old(dest) + Header(fmt, kind, payload) + payload else old(dest)
    {
      ok := appended;
      if ok {
        dest := dest + Header(fmt, kind, payload) + payload;
      }
      blockOffset := blockOffset + HEADER + |payload|;
      at := at + HEADER + |payload|;
    }
  }

  ghost predicate Written(fmt: Format, pos: nat, base: seq<byte>, dest: seq<byte>, at: nat, done: seq<Fragment>, all: seq<Fragment>) {
    Chain(fmt.blockSize, pos, done) && done <= all && dest == base + Image(fmt, pos, done) && EndOf(pos, done) == at
  }

  ghost predicate ToWrite(fmt: Format, at: nat, done: seq<Fragment>, all: seq<Fragment>, left: seq<byte>, begin: bool) {
    all == done + if begin || |left| > 0 then Fragments(fmt.blockSize, at, left, begin) else []
  }

  lemma Advance(fmt: Format, pos: nat, base: seq<byte>, dest: seq<byte>, at: nat, done: seq<Fragment>, all: seq<Fragment>,
                left: seq<byte>, begin: bool, f: Fragment)
    requires Chain(fmt.blockSize, pos, all) && Written(fmt, pos, base, dest, at, done, all)
    requires ToWrite(fmt, at, done, all, left, begin) && (begin || |left| > 0)
    requires f == Fragments(fmt.blockSize, at, left, begin)[0]
    ensures Placed(fmt.blockSize, at, f) && |f.payload| <= |left|
    ensures Written(fmt, pos, base, dest + FragmentBytes(fmt, at, f), End(f), done + [f], all)
    ensures ToWrite(fmt, End(f), done + [f], all, left[|f.payload|..], false)
    ensures dest + Zeros(f.start - at) <= base + Image(fmt, pos, all)
    ensures |f.payload| == 0 && |left| > 0 ==>
              Room(fmt.blockSize, Start(fmt.blockSize, at)) == HEADER && Room(fmt.blockSize, Start(fmt.blockSize, End(f))) > HEADER
  {
    hide Fragments, Image, Chain, Off, Start, FragmentBytes;
    FragmentsSplit(fmt.blockSize, at, left, begin);
    ShiftFirst(done, Fragments(fmt.blockSize, at, left, begin));
    NextFragment(fmt, pos, base, dest, at, done, all, f);
  }

  lemma NextFragment(fmt: Format, pos: nat, base: seq<byte>, dest: seq<byte>, at: nat, done: seq<Fragment>, all: seq<Fragment>, f: Fragment)
    requires Chain(fmt.blockSize, pos, all) && done + [f] <= all && Written(fmt, pos, base, dest, at, done, all)
    ensures Placed(fmt.blockSize, at, f)
    ensures Written(fmt, pos, base, dest + FragmentBytes(fmt, at, f), End(f), done + [f], all)
    ensures dest + Zeros(f.start - at) <= base + Image(fmt, pos, all)
  {
    var rest := all[|done| + 1..];
    assert all == (done + [f]) + rest;
    ChainConcat(fmt.blockSize, pos, done + [f], rest);
    ImageSnoc(fmt, pos, done, f);
    ImageConcat(fmt, pos, done + [f], rest);
    TrailerPrefix(fmt, at, base, Image(fmt, pos, done), f, Image(fmt, End(f), rest));
  }

  lemma TornHere(fmt: Format, pos: nat, base: seq<byte>, dest: seq<byte>, at: nat, done: seq<Fragment>, all: seq<Fragment>, f: Fragment)
    requires Chain(fmt.blockSize, pos, all) && done + [f] <= all && Written(fmt, pos, base, dest, at, done, all) && f.start >= at
    ensures |done| < |all| && all[|done|] == f
    ensures dest + Zeros(f.start - at) == base + TornImage(fmt, pos, all, |done|)
  {
    hide Chain, Image, TornImage, EndOf;
    assert all[..|done|] == done && all[|done|] == (done + [f])[|done|];
    TornImageIs(fmt, pos, all, |done|);
    Grouped(base, Image(fmt, pos, done), Zeros(f.start - at));
  }

  lemma TrailerPrefix(fmt: Format, pos: nat, base: seq<byte>, done: seq<byte>, f: Fragment, rest: seq<byte>)
    requires Placed(fmt.blockSize, pos, f)
    ensures (base + done) + FragmentBytes(fmt, pos, f) == base + (done + FragmentBytes(fmt, pos, f))
    ensures (base + done) + Zeros(f.start - pos) <= base + ((done + FragmentBytes(fmt, pos, f)) + rest)
  {
    var z, h := Zeros(f.start - pos), Header(fmt, f.kind, f.payload);
    assert base + ((done + ((z + h) + f.payload)) + rest) == (base + done) + z + (h + f.payload + rest);
  }

  lemma ShiftFirst<T>(done: seq<T>, rest: seq<T>)
    requires |rest| > 0
    ensures (done + [rest[0]]) + rest[1..] == done + rest
  {
  }

  lemma Regroup(a: seq<byte>, z: seq<byte>, h: seq<byte>, p: seq<byte>)
    ensures ((a + z) + h) + p == a + ((z + h) + p)
  {
  }

  lemma ImageSnoc(fmt: Format, pos: nat, done: seq<Fragment>, f: Fragment)
    requires Chain(fmt.blockSize, pos, done + [f])
    ensures Chain(fmt.blockSize, pos, done) && Placed(fmt.blockSize, EndOf(pos, done), f)
    ensures Image(fmt, pos, done + [f]) == Image(fmt, pos, done) + FragmentBytes(fmt, EndOf(pos, done), f)
  {
    ChainConcat(fmt.blockSize, pos, done, [f]);
    ImageConcat(fmt, pos, done, [f]);
    ghost var at := EndOf(pos, done);
    assert [f][1..] == [];
    assert Image(fmt, at, [f]) == FragmentBytes(fmt, at, f) + Image(fmt, End(f), []);
  }
}
