/** Logs to which some appends failed: what a reader still gets, and what it does not. The writer
    counts a fragment that did not reach the file, so from then on it is ahead of the file; what it
    appends later is read back as long as it still comes to lie where a reader looks for it. */
module LogDamage {
  import opened Keys
  import opened LogFormat
  import opened LogReader
  import opened LogRecovery
  import opened LogWriter

  // ---------- where the fragments land ----------

  /** Fragments `shift` bytes from where the writer takes them to be. */
  function Shift(fs: seq<Fragment>, shift: int): (gs: seq<Fragment>)
    ensures |gs| == |fs|
  {
    seq(|fs|, i requires 0 <= i < |fs| =>
      Fragment(if fs[i].start + shift >= 0 then fs[i].start + shift else 0, fs[i].kind, fs[i].payload))
  }

  /** The fragments of a call that reach the file. */
  function Pieces(B: BlockSize, at: nat, a: Attempt): seq<Fragment> {
    var fs := Fragments(B, at, a.record, true);
    if a.lostAt.None? then fs else fs[..LostIndex(a.lostAt.value, |fs|)]
  }

  /** The bytes of the fragment that does not. */
  function LostBytes(B: BlockSize, at: nat, a: Attempt): nat {
    var fs := Fragments(B, at, a.record, true);
    if a.lostAt.None? then 0 else HEADER + |fs[LostIndex(a.lostAt.value, |fs|)].payload|
  }

  /** All fragments in the file at their real places; the writer is at `at`, the end of the file at
      at + shift. */
  function Landed(B: BlockSize, at: nat, shift: int, calls: seq<Attempt>): seq<Fragment>
    decreases |calls|
  {
    if calls == [] then []
    else
      Shift(Pieces(B, at, calls[0]), shift)
      + Landed(B, Next(B, at, calls[0]), shift - LostBytes(B, at, calls[0]), calls[1..])
  }

  /** How far the writer is ahead of the file. */
  function Lag(B: BlockSize, at: nat, calls: seq<Attempt>): (lag: int)
    ensures lag >= 0
    decreases |calls|
  {
    if calls == [] then 0 else LostBytes(B, at, calls[0]) + Lag(B, Next(B, at, calls[0]), calls[1..])
  }

  /** Position p is where the fragments end, or in the trailer behind them. */
  predicate Ends(B: BlockSize, pos: nat, fs: seq<Fragment>, p: int) {
    EndOf(pos, fs) <= p <= Start(B, EndOf(pos, fs))
  }

  /** Every fragment the calls bring to the file lies where a reader looks for it. */
  predicate InStepFrom(B: BlockSize, at: nat, shift: int, calls: seq<Attempt>) {
    && at + shift >= 0
    && Chain(B, at + shift, Landed(B, at, shift, calls))
    && Ends(B, at + shift, Landed(B, at, shift, calls), PositionAfter(B, at, calls) + shift - Lag(B, at, calls))
  }

  predicate InStep(B: BlockSize, calls: seq<Attempt>) {
    InStepFrom(B, 0, 0, calls)
  }

  // ---------- their bytes ----------

  lemma ShiftRest(fs: seq<Fragment>, shift: int)
    requires fs != []
    ensures Shift(fs, shift)[1..] == Shift(fs[1..], shift)
  {
  }

  /** Fragments that are placed here and there have the same bytes here and there. */
  lemma {:induction false} ShiftImage(fmt: Format, pos: nat, shift: int, fs: seq<Fragment>)
    requires Chain(fmt.blockSize, pos, fs) && pos + shift >= 0 && Chain(fmt.blockSize, pos + shift, Shift(fs, shift))
    ensures Image(fmt, pos, fs) == Image(fmt, pos + shift, Shift(fs, shift))
    ensures EndOf(pos + shift, Shift(fs, shift)) == EndOf(pos, fs) + shift
    decreases |fs|
  {
    hide Header, Off, Start;
    if fs != [] {
      ShiftRest(fs, shift);
      StartIsAfter(fmt.blockSize, pos);
      ShiftImage(fmt, End(fs[0]), shift, fs[1..]);
    }
  }

  lemma StartIsAfter(B: BlockSize, pos: nat)
    ensures pos <= Start(B, pos) < pos + HEADER
  {
  }

  /** Within a trailer it does not matter where one stands. */
  lemma StartBetween(B: BlockSize, e: nat, p: nat)
    requires e <= p <= Start(B, e)
    ensures Start(B, p) == Start(B, e)
  {
    StartRoom(B, e);
    if e < p < Start(B, e) {
      OffAdd(B, e, p - e);
    }
  }

  lemma ChainBetween(B: BlockSize, e: nat, p: nat, fs: seq<Fragment>)
    requires Chain(B, e, fs) && e <= p && (fs != [] ==> p <= fs[0].start)
    ensures Chain(B, p, fs)
  {
    if fs != [] {
      StartBetween(B, e, p);
    }
  }

  lemma ImageBetween(fmt: Format, e: nat, p: nat, fs: seq<Fragment>)
    requires fs != [] && Chain(fmt.blockSize, e, fs) && e <= p <= fs[0].start
    ensures Chain(fmt.blockSize, p, fs) && Image(fmt, e, fs) == Zeros(p - e) + Image(fmt, p, fs)
  {
    hide Header, FragmentBytes, Start, Zeros;
    ChainBetween(fmt.blockSize, e, p, fs);
    BytesBetween(fmt, e, p, fs[0]);
    Grouped(Zeros(p - e), FragmentBytes(fmt, p, fs[0]), Image(fmt, End(fs[0]), fs[1..]));
  }

  lemma BytesBetween(fmt: Format, e: nat, p: nat, f: Fragment)
    requires Placed(fmt.blockSize, e, f) && Placed(fmt.blockSize, p, f) && e <= p
    ensures FragmentBytes(fmt, e, f) == Zeros(p - e) + FragmentBytes(fmt, p, f)
  {
    hide Header, Off;
    var h := Header(fmt, f.kind, f.payload);
    assert Zeros(f.start - e) == Zeros(p - e) + Zeros(f.start - p);
    assert ((Zeros(p - e) + Zeros(f.start - p)) + h) + f.payload == Zeros(p - e) + ((Zeros(f.start - p) + h) + f.payload);
  }

  /** What one call brings to the file, and where it leaves the end of the file. */
  lemma CallBytes(fmt: Format, at: nat, a: Attempt) returns (z: nat)
    ensures Chain(fmt.blockSize, at, Pieces(fmt.blockSize, at, a))
    ensures BytesOf(fmt, at, a) == Image(fmt, at, Pieces(fmt.blockSize, at, a)) + Zeros(z)
    ensures EndOf(at, Pieces(fmt.blockSize, at, a)) + z + LostBytes(fmt.blockSize, at, a) == Next(fmt.blockSize, at, a)
    ensures a.lostAt.None? ==> z == 0
  {
    hide Fragments, Image, Chain, TornImage, EndOf;
    var B := fmt.blockSize;
    var fs := Fragments(B, at, a.record, true);
    FragmentsChain(B, at, a.record, true);
    if a.lostAt.None? {
      LogBytesOne(fmt, at, a.record);
      z := 0;
      assert Image(fmt, at, fs) + Zeros(0) == Image(fmt, at, fs);
    } else {
      var n := LostIndex(a.lostAt.value, |fs|);
      TornImageIs(fmt, at, fs, n);
      z := fs[n].start - EndOf(at, fs[..n]);
    }
  }

  lemma {:induction false} LandedLater(B: BlockSize, at: nat, shift: int, calls: seq<Attempt>)
    requires at + shift >= 0
    ensures Landed(B, at, shift, calls) != [] ==> Landed(B, at, shift, calls)[0].start >= at + shift
    ensures at + shift <= PositionAfter(B, at, calls) + shift - Lag(B, at, calls)
    decreases |calls|
  {
    hide Fragments, Off, Start, Next, Pieces, LostBytes;
    if calls != [] {
      var a := calls[0];
      FirstPiece(B, at, a);
      LandedLater(B, Next(B, at, a), shift - LostBytes(B, at, a), calls[1..]);
    }
  }

  lemma FirstPiece(B: BlockSize, at: nat, a: Attempt)
    ensures Pieces(B, at, a) != [] ==> Pieces(B, at, a)[0].start == Start(B, at) >= at
    ensures at <= Next(B, at, a) - LostBytes(B, at, a)
  {
    hide Off, Start;
    var fs := Fragments(B, at, a.record, true);
    FragmentsSplit(B, at, a.record, true);
    FragmentsChain(B, at, a.record, true);
    StartIsAfter(B, at);
    hide Fragments;
    ChainAscends(B, at, fs, |fs| - 1);
    if a.lostAt.Some? {
      ChainAscends(B, at, fs, LostIndex(a.lostAt.value, |fs|));
    }
  }

  lemma {:induction false} ChainAscends(B: BlockSize, pos: nat, fs: seq<Fragment>, i: nat)
    requires Chain(B, pos, fs) && i < |fs|
    ensures fs[i].start >= pos
    decreases i
  {
    StartIsAfter(B, pos);
    hide Off, Start;
    if i > 0 {
      ChainAscends(B, End(fs[0]), fs[1..], i - 1);
    }
  }

  /** In step, the file is the image of its fragments, and perhaps a trailer. */
  lemma {:induction false} LandedBytes(fmt: Format, at: nat, shift: int, calls: seq<Attempt>) returns (z: nat)
    requires at + shift >= 0 && Chain(fmt.blockSize, at + shift, Landed(fmt.blockSize, at, shift, calls))
    ensures FileBytes(fmt, at, calls) == Image(fmt, at + shift, Landed(fmt.blockSize, at, shift, calls)) + Zeros(z)
    ensures EndOf(at + shift, Landed(fmt.blockSize, at, shift, calls)) + z
         == PositionAfter(fmt.blockSize, at, calls) + shift - Lag(fmt.blockSize, at, calls)
    decreases |calls|
  {
    hide Image, Chain, BytesOf, Next, Pieces, LostBytes, EndOf, Shift, FileBytes, Landed, PositionAfter, Lag, Zeros;
    var B := fmt.blockSize;
    z := 0;
    if calls == [] {
      NothingWritten(fmt, at, shift);
    } else {
      var a := calls[0];
      FirstCall(fmt, at, calls);
      FirstLanded(B, at, shift, calls);
      var pieces, next, shift' := Shift(Pieces(B, at, a), shift), Next(B, at, a), shift - LostBytes(B, at, a);
      var rest := Landed(B, next, shift', calls[1..]);
      var y := CallBytes(fmt, at, a);
      ChainConcat(B, at + shift, pieces, rest);
      ShiftImage(fmt, at, shift, Pieces(B, at, a));
      var e, p := EndOf(at + shift, pieces), next + shift';
      assert p == e + y;
      LandedLater(B, next, shift', calls[1..]);
      ChainBetween(B, e, p, rest);
      var z' := LandedBytes(fmt, next, shift', calls[1..]);
      ImageConcat(fmt, at + shift, pieces, rest);
      z := if rest == [] then y + z' else z';
      EndsWith(at + shift, pieces, rest, p);
      Glue(fmt, at + shift, pieces, rest, e, p, z');
    }
  }

  lemma FirstCall(fmt: Format, at: nat, calls: seq<Attempt>)
    requires calls != []
    ensures FileBytes(fmt, at, calls)
         == BytesOf(fmt, at, calls[0]) + FileBytes(fmt, Next(fmt.blockSize, at, calls[0]), calls[1..])
  {
    hide Next, BytesOf;
  }

  lemma FirstLanded(B: BlockSize, at: nat, shift: int, calls: seq<Attempt>)
    requires calls != []
    ensures var a := calls[0];
      var next, shift' := Next(B, at, a), shift - LostBytes(B, at, a);
      && Landed(B, at, shift, calls) == Shift(Pieces(B, at, a), shift) + Landed(B, next, shift', calls[1..])
      && PositionAfter(B, at, calls) == PositionAfter(B, next, calls[1..])
      && Lag(B, at, calls) == LostBytes(B, at, a) + Lag(B, next, calls[1..])
  {
    hide Next, LostBytes, Pieces;
  }

  lemma NothingWritten(fmt: Format, at: nat, shift: int)
    requires at + shift >= 0
    ensures FileBytes(fmt, at, []) == [] && Landed(fmt.blockSize, at, shift, []) == [] && PositionAfter(fmt.blockSize, at, []) == at
    ensures Image(fmt, at + shift, []) == [] && EndOf(at + shift, []) == at + shift && Zeros(0) == [] && Lag(fmt.blockSize, at, []) == 0
  {
  }

  lemma EndsWith(pos: nat, fs: seq<Fragment>, gs: seq<Fragment>, p: nat)
    ensures EndOf(pos, fs + gs) == if gs == [] then EndOf(pos, fs) else EndOf(p, gs)
    ensures EndOf(p, []) == p
  {
    if gs == [] {
      assert fs + gs == fs;
    }
  }

  lemma Glue(fmt: Format, p0: nat, pieces: seq<Fragment>, rest: seq<Fragment>, e: nat, p: nat, z: nat)
    requires Chain(fmt.blockSize, p0, pieces) && Chain(fmt.blockSize, e, rest) && e <= p && (rest != [] ==> p <= rest[0].start)
    requires Chain(fmt.blockSize, p, rest)
    ensures (Image(fmt, p0, pieces) + Zeros(p - e)) + (Image(fmt, p, rest) + Zeros(z))
         == (Image(fmt, p0, pieces) + Image(fmt, e, rest)) + Zeros(if rest == [] then p - e + z else z)
  {
    hide Zeros, Chain;
    var before := Image(fmt, p0, pieces);
    if rest == [] {
      NoneAfter(fmt, p);
      NoneAfter(fmt, e);
      ZerosAdd(p - e, z);
      hide Image;
      assert (before + Zeros(p - e)) + ([] + Zeros(z)) == (before + []) + (Zeros(p - e) + Zeros(z));
    } else {
      ImageBetween(fmt, e, p, rest);
      hide Image;
      var after := Image(fmt, p, rest);
      assert (before + Zeros(p - e)) + (after + Zeros(z)) == (before + (Zeros(p - e) + after)) + Zeros(z);
    }
  }

  lemma NoneAfter(fmt: Format, p: nat)
    ensures Image(fmt, p, []) == []
  {
  }

  lemma ZerosAdd(m: nat, n: nat)
    ensures Zeros(m) + Zeros(n) == Zeros(m + n)
  {
  }

  // ---------- reading them ----------

  function Texts(found: seq<Found>): (texts: seq<seq<byte>>)
    ensures |texts| == |found|
  {
    seq(|found|, i requires 0 <= i < |found| => found[i].record)
  }

  /** The records whose calls succeeded. */
  function Successes(calls: seq<Attempt>): seq<seq<byte>>
    decreases |calls|
  {
    if calls == [] then [] else (if calls[0].lostAt.None? then [calls[0].record] else []) + Successes(calls[1..])
  }

  lemma ConsumeShifted(c: Setup, fs: seq<Fragment>, k: nat, shift: int, gs: seq<Fragment>, st: Partial) returns (f: Fragment)
    requires 0 < k <= |fs| && c.initialOffset == 0
    ensures f.kind == fs[0].kind && f.payload == fs[0].payload
    ensures Consume(c, Shift(fs[..k], shift) + gs, st)
         == ConsumeAfter(c, Step(c, st, Physical(f.kind, f.payload, End(f), [])), Shift(fs[1..][..k - 1], shift) + gs)
  {
    f := Shift(fs[..k], shift)[0];
    ShiftRest(fs[..k], shift);
    assert fs[..k][1..] == fs[1..][..k - 1];
    var rest := Shift(fs[1..][..k - 1], shift) + gs;
    assert Shift(fs[..k], shift) + gs == [f] + rest;
    hide Shift, Consume;
    ConsumeFirst(c, f, rest, st);
  }

  /** Wherever they lie, the fragments of a record after the first complete it, */
  lemma {:induction false} LandedTail(c: Setup, pos: nat, shift: int, data: seq<byte>, gs: seq<Fragment>, st: Partial)
    requires st.inFragmented && !st.resyncing && c.initialOffset == 0
    ensures Consume(c, Shift(Fragments(c.fmt.blockSize, pos, data, false), shift) + gs, st)
         == Prepend([Found(st.scratch + data, st.offset)], [], Consume(c, gs, NoRecord))
    decreases |data|, if Room(c.fmt.blockSize, Start(c.fmt.blockSize, pos)) > HEADER then 0 else 1
  {
    hide Fragments, Off, Start, Report, Consume, Prepend, Shift;
    var B := c.fmt.blockSize;
    var fs := Fragments(B, pos, data, false);
    FragmentsSplit(B, pos, data, false);
    StartAfter(B, pos, fs[0]);
    var n := |fs[0].payload|;
    assert fs[..|fs|] == fs && fs[1..][..|fs| - 1] == fs[1..];
    var f := ConsumeShifted(c, fs, |fs|, shift, gs, st);
    if |fs| == 1 {
      NoShift(shift);
      assert [] + gs == gs && data[..n] == data;
    } else {
      LandedTail(c, End(fs[0]), shift, data[n..], gs, st.(scratch := st.scratch + data[..n]));
      assert (st.scratch + data[..n]) + data[n..] == st.scratch + data;
      PrependNothing(Prepend([Found(st.scratch + data, st.offset)], [], Consume(c, gs, NoRecord)));
    }
  }

  lemma NoShift(shift: int)
    ensures Shift([], shift) == []
  {
  }

  lemma NothingFound(reports: seq<nat>, rest: Reading)
    ensures Prepend([], reports, rest).records == rest.records
    ensures reports == [] ==> Prepend([], reports, rest) == rest
  {
  }

  lemma OneFound(f: Found, reports: seq<nat>, rest: Reading)
    ensures Texts(Prepend([f], reports, rest).records) == [f.record] + Texts(rest.records)
    ensures reports == [] ==> Prepend([f], reports, rest).reports == rest.reports
  {
  }

  /** and all of them give the record. Fragments of a record that was not completed make no more than a
      report. */
  lemma LandedRecord(c: Setup, pos: nat, shift: int, data: seq<byte>, gs: seq<Fragment>, st: Partial)
    requires !st.resyncing && c.initialOffset == 0
    ensures var r := Consume(c, Shift(Fragments(c.fmt.blockSize, pos, data, true), shift) + gs, st);
      && Texts(r.records) == [data] + Texts(Consume(c, gs, NoRecord).records)
      && (!st.inFragmented ==> r.reports == Consume(c, gs, NoRecord).reports)
  {
    hide Fragments, Off, Start, Report, Consume, Shift, Texts;
    var B := c.fmt.blockSize;
    var fs := Fragments(B, pos, data, true);
    FragmentsSplit(B, pos, data, true);
    var n := |fs[0].payload|;
    assert fs[..|fs|] == fs && fs[1..][..|fs| - 1] == fs[1..];
    var f := ConsumeShifted(c, fs, |fs|, shift, gs, st);
    var rest := Consume(c, gs, NoRecord);
    var discard := Discard(c, st, End(f));
    assert !st.inFragmented ==> discard == [];
    hide Prepend;
    if |fs| == 1 {
      NoShift(shift);
      assert [] + gs == gs && data[..n] == data;
      OneFound(Found(data, f.start), discard, rest);
    } else {
      LandedTail(c, End(fs[0]), shift, data[n..], gs, Partial(false, true, data[..n], f.start));
      assert data[..n] + data[n..] == data;
      NothingFound(discard, Prepend([Found(data, f.start)], [], rest));
      OneFound(Found(data, f.start), [], rest);
    }
  }

  /** The first k fragments of a record, without the last one, deliver nothing. */
  lemma {:induction false} LandedPart(c: Setup, pos: nat, shift: int, data: seq<byte>, begin: bool, k: nat, gs: seq<Fragment>, st: Partial)
      returns (st': Partial)
    requires !st.resyncing && c.initialOffset == 0 && (begin || st.inFragmented)
    requires k < |Fragments(c.fmt.blockSize, pos, data, begin)|
    ensures !st'.resyncing && (k == 0 ==> st' == st)
    ensures var r := Consume(c, Shift(Fragments(c.fmt.blockSize, pos, data, begin)[..k], shift) + gs, st);
      && r.records == Consume(c, gs, st').records
      && (k == 0 || !begin || !st.inFragmented ==> r.reports == Consume(c, gs, st').reports)
    decreases k
  {
    hide Fragments, Off, Start, Report, Consume, Shift;
    var B := c.fmt.blockSize;
    var fs := Fragments(B, pos, data, begin);
    FragmentsSplit(B, pos, data, begin);
    st' := st;
    if k == 0 {
      NoShift(shift);
      assert fs[..0] == [] && [] + gs == gs;
    } else {
      var n := |fs[0].payload|;
      var f := ConsumeShifted(c, fs, k, shift, gs, st);
      var o := Step(c, st, Physical(f.kind, f.payload, End(f), []));
      st' := LandedPart(c, End(fs[0]), shift, data[n..], false, k - 1, gs, o.state);
      NothingFound(o.reports, Consume(c, Shift(fs[1..][..k - 1], shift) + gs, o.state));
    }
  }

  lemma ShiftPrefix(fs: seq<Fragment>, shift: int, k: nat)
    requires k <= |fs|
    ensures Shift(fs, shift)[..k] == Shift(fs[..k], shift)
  {
  }

  lemma WholeLater(B: BlockSize, p: nat, fs: seq<Fragment>, n: nat)
    requires Chain(B, p, fs) && n < p
    ensures Whole(fs, n) == []
  {
    StartIsAfter(B, p);
  }

  /** Of the fragments of one call, cut at n: the call's bytes end at p. */
  lemma CallCut(fmt: Format, at: nat, shift: int, a: Attempt, rest: seq<Fragment>, p: nat, n: nat) returns (k: nat)
    requires var pieces := Shift(Pieces(fmt.blockSize, at, a), shift);
      && at + shift >= 0 && Chain(fmt.blockSize, at + shift, pieces) && Chain(fmt.blockSize, EndOf(at + shift, pieces), rest)
      && (rest != [] ==> p <= rest[0].start) && p + LostBytes(fmt.blockSize, at, a) == Next(fmt.blockSize, at, a) + shift
    ensures var pieces := Shift(Pieces(fmt.blockSize, at, a), shift);
      var fs := Fragments(fmt.blockSize, at, a.record, true);
      && (p <= n ==> Whole(pieces + rest, n) == pieces + Whole(rest, n))
      && (p > n ==> k < |fs| && Whole(pieces + rest, n) == Shift(fs[..k], shift))
  {
    hide Fragments, Chain, Off, Start, Image, Shift, EndOf, BytesOf;
    var B := fmt.blockSize;
    var fs, pieces := Fragments(B, at, a.record, true), Shift(Pieces(B, at, a), shift);
    var z := CallBytes(fmt, at, a);
    ShiftImage(fmt, at, shift, Pieces(B, at, a));
    var e := EndOf(at + shift, pieces);
    k := WholeConcat(B, at + shift, pieces, rest, n);
    if p > n {
      if e <= n {
        ChainBetween(B, e, p, rest);
        WholeLater(B, p, rest, n);
        k := |pieces|;
        assert pieces + [] == pieces && pieces[..k] == pieces;
      }
      ShiftPrefix(Pieces(B, at, a), shift, k);
      assert Pieces(B, at, a)[..k] == fs[..k];
    }
  }

  /** A call that failed lost its first fragment. */
  predicate LostAtOnce(calls: seq<Attempt>) {
    forall a :: a in calls && a.lostAt.Some? ==> a.lostAt.value == 0
  }

  lemma {:induction false} LandedConsumed(c: Setup, at: nat, shift: int, calls: seq<Attempt>, n: nat, st: Partial) returns (m: nat)
    requires 0 <= at + shift <= n && Chain(c.fmt.blockSize, at + shift, Landed(c.fmt.blockSize, at, shift, calls))
    requires !st.resyncing && c.initialOffset == 0
    ensures m <= |calls|
    ensures at + shift + |FileBytes(c.fmt, at, calls[..m])| <= n
    ensures m < |calls| ==> at + shift + |FileBytes(c.fmt, at, calls[..m + 1])| > n
    ensures var r := Consume(c, Whole(Landed(c.fmt.blockSize, at, shift, calls), n), st);
      && Texts(r.records) == Successes(calls[..m])
      && (LostAtOnce(calls) && !st.inFragmented ==> r.reports == [])
    decreases |calls|
  {
    hide Fragments, Chain, Off, Start, Image, Shift, EndOf, BytesOf, Consume, Whole, Texts, FileBytes, Landed, Next, LostBytes;
    var B := c.fmt.blockSize;
    m := 0;
    if calls == [] {
      NothingRead(c, at, shift, n, st);
      assert calls[..0] == [];
    } else {
      var a := calls[0];
      var next, shift' := Next(B, at, a), shift - LostBytes(B, at, a);
      var rest := Landed(B, next, shift', calls[1..]);
      var p := CallEnds(c.fmt, at, shift, calls);
      var k := CallCut(c.fmt, at, shift, a, rest, p, n);
      if p <= n {
        var st' := AfterCall(c, at, shift, a, Whole(rest, n), st);
        m := LandedConsumed(c, next, shift', calls[1..], n, st');
        FirstCalls(c.fmt, at, calls, m);
        if m + 1 < |calls| {
          FirstCalls(c.fmt, at, calls, m + 1);
        }
        m := m + 1;
      } else {
        var st' := LandedPart(c, at, shift, a.record, true, k, [], st);
        NothingRead(c, at, shift, n, st');
        PlusNothing(Shift(Fragments(B, at, a.record, true)[..k], shift));
        FirstCalls(c.fmt, at, calls, 0);
        assert calls[..0] == [];
      }
    }
  }

  lemma PlusNothing(fs: seq<Fragment>)
    ensures fs + [] == fs
  {
  }

  lemma NothingRead(c: Setup, at: nat, shift: int, n: nat, st: Partial)
    ensures Landed(c.fmt.blockSize, at, shift, []) == [] && Whole([], n) == [] && FileBytes(c.fmt, at, []) == []
    ensures Consume(c, [], st) == Reading([], []) && Texts([]) == Successes([]) == []
  {
  }

  /** The bytes of the first m + 1 calls are those of the first and of m more. */
  lemma FirstCalls(fmt: Format, at: nat, calls: seq<Attempt>, m: nat)
    requires m < |calls|
    ensures |FileBytes(fmt, at, calls[..m + 1])|
         == |BytesOf(fmt, at, calls[0])| + |FileBytes(fmt, Next(fmt.blockSize, at, calls[0]), calls[1..][..m])|
    ensures FileBytes(fmt, at, calls[..0]) == [] && FileBytes(fmt, at, calls[1..][..0]) == []
    ensures Successes(calls[..m + 1]) == (if calls[0].lostAt.None? then [calls[0].record] else []) + Successes(calls[1..][..m])
  {
    hide BytesOf, Next;
    assert calls[..m + 1][1..] == calls[1..][..m];
  }

  /** The chain divides at the end of the first call's bytes. */
  lemma CallEnds(fmt: Format, at: nat, shift: int, calls: seq<Attempt>) returns (p: nat)
    requires calls != [] && at + shift >= 0 && Chain(fmt.blockSize, at + shift, Landed(fmt.blockSize, at, shift, calls))
    ensures var B, a := fmt.blockSize, calls[0];
      var next, shift' := Next(B, at, a), shift - LostBytes(B, at, a);
      var pieces, rest := Shift(Pieces(B, at, a), shift), Landed(B, next, shift', calls[1..]);
      && Landed(B, at, shift, calls) == pieces + rest
      && p == next + shift' == at + shift + |BytesOf(fmt, at, a)|
      && Chain(B, at + shift, pieces) && Chain(B, EndOf(at + shift, pieces), rest) && (rest != [] ==> p <= rest[0].start)
      && Chain(B, p, rest)
  {
    hide Chain, Off, Start, Image, Shift, EndOf, BytesOf, FileBytes, Landed, Next, LostBytes, Pieces;
    var B, a := fmt.blockSize, calls[0];
    var next, shift' := Next(B, at, a), shift - LostBytes(B, at, a);
    var pieces, rest := Shift(Pieces(B, at, a), shift), Landed(B, next, shift', calls[1..]);
    FirstLanded(B, at, shift, calls);
    ChainConcat(B, at + shift, pieces, rest);
    var z := CallBytes(fmt, at, a);
    ImageLength(fmt, at, Pieces(B, at, a));
    ShiftImage(fmt, at, shift, Pieces(B, at, a));
    p := next + shift';
    LandedLater(B, next, shift', calls[1..]);
    ChainBetween(B, EndOf(at + shift, pieces), p, rest);
  }

  lemma AfterCall(c: Setup, at: nat, shift: int, a: Attempt, gs: seq<Fragment>, st: Partial) returns (st': Partial)
    requires !st.resyncing && c.initialOffset == 0
    ensures !st'.resyncing
    ensures var r := Consume(c, Shift(Pieces(c.fmt.blockSize, at, a), shift) + gs, st);
      && Texts(r.records) == (if a.lostAt.None? then [a.record] else []) + Texts(Consume(c, gs, st').records)
      && (LostAtOnce([a]) && !st.inFragmented ==> r.reports == Consume(c, gs, st').reports && !st'.inFragmented)
  {
    hide Fragments, Shift, Consume, Texts;
    if a.lostAt.None? {
      LandedRecord(c, at, shift, a.record, gs, st);
      st' := NoRecord;
    } else {
      assert a in [a];
      st' := LandedPart(c, at, shift, a.record, true, LostIndex(a.lostAt.value, |Fragments(c.fmt.blockSize, at, a.record, true)|), gs, st);
      NoneBefore(Texts(Consume(c, gs, st').records));
    }
  }

  lemma NoneBefore(texts: seq<seq<byte>>)
    ensures [] + texts == texts
  {
  }

  lemma {:induction false} WholeExtra(fs: seq<Fragment>, f: Fragment, n: nat)
    requires End(f) > n
    ensures Whole(fs + [f], n) == Whole(fs, n)
    decreases |fs|
  {
    if fs == [] {
      assert fs + [f] == [f];
    } else {
      assert (fs + [f])[1..] == fs[1..] + [f];
      WholeExtra(fs[1..], f, n);
    }
  }

  /** A file in step begins a chain that goes on behind it. */
  lemma FileBegins(fmt: Format, calls: seq<Attempt>) returns (f: Fragment)
    requires InStep(fmt.blockSize, calls)
    ensures var fs := Landed(fmt.blockSize, 0, 0, calls);
      && Chain(fmt.blockSize, 0, fs + [f]) && FileBytes(fmt, 0, calls) <= Image(fmt, 0, fs + [f])
      && End(f) > |FileBytes(fmt, 0, calls)|
  {
    hide Landed, FileBytes, Image, PositionAfter, Lag, FragmentBytes, Zeros;
    var B := fmt.blockSize;
    var fs := Landed(B, 0, 0, calls);
    var z := LandedBytes(fmt, 0, 0, calls);
    var e := EndOf(0, fs);
    f := Fragment(Start(B, e), FULL, []);
    StartRoom(B, e);
    assert [f][1..] == [];
    ImageLength(fmt, 0, fs);
    ImageConcat(fmt, 0, fs, [f]);
    hide Chain, EndOf, Start;
    TrailerBegins(fmt, e, f, z);
    assert FileBytes(fmt, 0, calls) <= Image(fmt, 0, fs) + Image(fmt, e, [f]);
  }

  lemma TrailerBegins(fmt: Format, e: nat, f: Fragment, z: nat)
    requires Chain(fmt.blockSize, e, [f]) && e + z <= f.start
    ensures Zeros(z) <= Image(fmt, e, [f])
  {
    hide Header, Start;
  }

  /** Cut such a file anywhere: the reader delivers the records of the calls that succeeded and whose
      bytes lie wholly in what is kept, and reports nothing unless a call lost a later fragment than
      its first. */
  lemma InStepReads(c: Setup, calls: seq<Attempt>, n: nat) returns (m: nat)
    requires c.initialOffset == 0 && InStep(c.fmt.blockSize, calls) && n <= |FileBytes(c.fmt, 0, calls)|
    ensures m <= |calls| && |FileBytes(c.fmt, 0, calls[..m])| <= n
    ensures m < |calls| ==> |FileBytes(c.fmt, 0, calls[..m + 1])| > n
    ensures var r := ReadLog(c, FileBytes(c.fmt, 0, calls)[..n]);
      && Texts(r.records) == Successes(calls[..m])
      && (LostAtOnce(calls) ==> r.reports == [])
  {
    hide Landed, FileBytes, Image, Chain, ReadAll, Consume, LostAtOnce, Successes, Texts;
    var fs := Landed(c.fmt.blockSize, 0, 0, calls);
    var file := FileBytes(c.fmt, 0, calls)[..n];
    var f := FileBegins(c.fmt, calls);
    assert file[0..] == file;
    ReadAllConsumes(c, file, 0, fs + [f], NoRecord);
    WholeExtra(fs, f, n);
    m := LandedConsumed(c, 0, 0, calls, n, NoRecord);
  }

  // ---------- what comes before is not touched by what comes after ----------

  lemma {:induction false} ReadsOn(c: Setup, file: seq<byte>, p: nat, fs: seq<Fragment>, st: Partial)
    requires Chain(c.fmt.blockSize, p, fs) && p <= |file| && Image(c.fmt, p, fs) <= file[p..]
    ensures Consume(c, fs, st).records <= ReadAll(c, file, p, st).records
    decreases |fs|
  {
    hide FragmentBytes, ReadPhysical, Off;
    if fs != [] {
      var f := fs[0];
      PrefixCovers(file[p..], FragmentBytes(c.fmt, p, f), Image(c.fmt, End(f), fs[1..]));
      assert file[p..][..End(f) - p] == file[p..End(f)];
      assert file[p..][End(f) - p..] == file[End(f)..];
      IntactFragment(c, file, p, f);
      ReadOn(c, file, p, st, ReadPhysical(c, file, p));
      hide Image, ReadAll;
      var o := Step(c, st, Seen(c, f));
      match o {
        case Stop =>
        case Continue(st', reports) => ReadsOn(c, file, End(f), fs[1..], st');
        case Done(_, _, _) => ReadsOn(c, file, End(f), fs[1..], NoRecord);
      }
    }
  }

  lemma PrefixCovers(a: seq<byte>, b: seq<byte>, rest: seq<byte>)
    requires b + rest <= a
    ensures |b| <= |a| && a[..|b|] == b && rest <= a[|b|..]
  {
    assert forall i :: 0 <= i < |b| ==> a[i] == (b + rest)[i];
  }

  /** The records of calls in step are delivered first, whatever later calls bring to the file. */
  lemma InStepPrefix(c: Setup, calls: seq<Attempt>, file: seq<byte>)
    requires c.initialOffset == 0 && InStep(c.fmt.blockSize, calls) && FileBytes(c.fmt, 0, calls) <= file
    ensures Successes(calls) <= Texts(ReadLog(c, file).records)
  {
    hide Landed, FileBytes, Image, Chain, ReadAll, Consume, Successes, Whole, Lag, PositionAfter;
    var B := c.fmt.blockSize;
    var fs := Landed(B, 0, 0, calls);
    var z := LandedBytes(c.fmt, 0, 0, calls);
    var n := |FileBytes(c.fmt, 0, calls)|;
    ImageLength(c.fmt, 0, fs);
    assert file[0..] == file;
    ReadsOn(c, file, 0, fs, NoRecord);
    WholeAll(B, 0, fs, n);
    var m := LandedConsumed(c, 0, 0, calls, n, NoRecord);
    AllCalls(c.fmt, calls, m);
    TextsPrefix(Consume(c, fs, NoRecord).records, ReadAll(c, file, 0, NoRecord).records);
  }

  lemma TextsPrefix(a: seq<Found>, b: seq<Found>)
    requires a <= b
    ensures Texts(a) <= Texts(b)
  {
  }

  lemma AllCalls(fmt: Format, calls: seq<Attempt>, m: nat)
    requires m <= |calls| && (m < |calls| ==> |FileBytes(fmt, 0, calls[..m + 1])| > |FileBytes(fmt, 0, calls)|)
    ensures m == |calls| && calls[..m] == calls
  {
    hide FileBytes;
    if m < |calls| {
      assert calls == calls[..m + 1] + calls[m + 1..];
      CallsConcat(fmt, 0, calls[..m + 1], calls[m + 1..]);
    }
  }

  lemma {:induction false} WholeAll(B: BlockSize, pos: nat, fs: seq<Fragment>, n: nat)
    requires Chain(B, pos, fs) && EndOf(pos, fs) <= n
    ensures Whole(fs, n) == fs
    decreases |fs|
  {
    if fs != [] {
      EndMonotone(B, End(fs[0]), fs[1..]);
      WholeAll(B, End(fs[0]), fs[1..], n);
    }
  }

  // ---------- when files are in step ----------

  lemma {:induction false} LandedConcat(B: BlockSize, at: nat, shift: int, calls: seq<Attempt>, more: seq<Attempt>)
    ensures Landed(B, at, shift, calls + more)
         == Landed(B, at, shift, calls) + Landed(B, PositionAfter(B, at, calls), shift - Lag(B, at, calls), more)
    ensures Lag(B, at, calls + more) == Lag(B, at, calls) + Lag(B, PositionAfter(B, at, calls), more)
    ensures PositionAfter(B, at, calls + more) == PositionAfter(B, PositionAfter(B, at, calls), more)
    decreases |calls|
  {
    hide Next, LostBytes, Pieces, Shift;
    if calls == [] {
      assert calls + more == more;
      assert Landed(B, at, shift, calls) == [];
    } else {
      assert (calls + more)[1..] == calls[1..] + more;
      LandedConcat(B, Next(B, at, calls[0]), shift - LostBytes(B, at, calls[0]), calls[1..], more);
    }
  }

  /** Calls in step, followed by calls that are in step from there on. */
  lemma InStepConcat(B: BlockSize, calls: seq<Attempt>, more: seq<Attempt>)
    requires InStep(B, calls) && InStepFrom(B, PositionAfter(B, 0, calls), -Lag(B, 0, calls), more)
    ensures InStep(B, calls + more)
  {
    hide Landed, Lag, PositionAfter, Off;
    var at, shift := PositionAfter(B, 0, calls), -Lag(B, 0, calls);
    var fs, gs := Landed(B, 0, 0, calls), Landed(B, at, shift, more);
    LandedConcat(B, 0, 0, calls, more);
    LandedLater(B, at, shift, more);
    var e := EndOf(0, fs);
    hide Start;
    StartBetween(B, e, at + shift);
    ChainFrom(B, e, at + shift, gs);
    ChainConcat(B, 0, fs, gs);
    EndsWith(0, fs, gs, at + shift);
    assert fs + gs == Landed(B, 0, 0, calls + more);
  }

  lemma ChainFrom(B: BlockSize, e: nat, p: nat, fs: seq<Fragment>)
    requires Chain(B, p, fs) && Start(B, p) == Start(B, e)
    ensures Chain(B, e, fs)
  {
  }

  /** A chain keeps its form when it is moved to a position with the same offset in its block. */
  lemma {:induction false} AlignedChain(B: BlockSize, pos: nat, shift: int, fs: seq<Fragment>)
    requires Chain(B, pos, fs) && pos + shift >= 0 && Off(B, pos) == Off(B, pos + shift)
    ensures Chain(B, pos + shift, Shift(fs, shift))
    ensures EndOf(pos + shift, Shift(fs, shift)) == EndOf(pos, fs) + shift && EndOf(pos, fs) + shift >= 0
    ensures Off(B, EndOf(pos, fs)) == Off(B, EndOf(pos, fs) + shift)
    decreases |fs|
  {
    hide Placed, Off, Start;
    if fs != [] {
      var f := fs[0];
      ShiftRest(fs, shift);
      AlignedFragment(B, pos, shift, f);
      AlignedChain(B, End(f), shift, fs[1..]);
    }
  }

  lemma AlignedFragment(B: BlockSize, pos: nat, shift: int, f: Fragment)
    requires Placed(B, pos, f) && pos + shift >= 0 && Off(B, pos) == Off(B, pos + shift)
    ensures f.start + shift >= 0 && Placed(B, pos + shift, Fragment(f.start + shift, f.kind, f.payload))
    ensures Off(B, End(f)) == Off(B, End(f) + shift)
  {
    hide Off;
    OffAdd(B, pos, f.start - pos);
    OffAdd(B, pos + shift, f.start - pos);
    OffAdd(B, f.start, HEADER + |f.payload|);
    OffAdd(B, f.start + shift, HEADER + |f.payload|);
  }

  predicate NoneLost(calls: seq<Attempt>) {
    forall a :: a in calls ==> a.lostAt.None?
  }

  lemma {:induction false} AlignedCalls(B: BlockSize, at: nat, shift: int, calls: seq<Attempt>)
    requires NoneLost(calls) && at + shift >= 0 && Off(B, at) == Off(B, at + shift)
    ensures InStepFrom(B, at, shift, calls) && Lag(B, at, calls) == 0
    ensures PositionAfter(B, at, calls) + shift == EndOf(at + shift, Landed(B, at, shift, calls))
    decreases |calls|
  {
    hide Fragments, Shift, Off, Chain;
    if calls == [] {
      NothingLanded(B, at, shift);
    } else {
      var a := calls[0];
      var fs := Fragments(B, at, a.record, true);
      FragmentsChain(B, at, a.record, true);
      AlignedChain(B, at, shift, fs);
      AlignedCalls(B, Next(B, at, a), shift, calls[1..]);
      hide Pieces, LostBytes, Next;
      var rest := Landed(B, EndOf(at, fs), shift, calls[1..]);
      ChainConcat(B, at + shift, Shift(fs, shift), rest);
      EndsWith(at + shift, Shift(fs, shift), rest, EndOf(at, fs) + shift);
      NotLost(B, at, a);
      StartIsAfter(B, EndOf(at + shift, Landed(B, at, shift, calls)));
    }
  }

  lemma NotLost(B: BlockSize, at: nat, a: Attempt)
    requires a.lostAt.None?
    ensures Pieces(B, at, a) == Fragments(B, at, a.record, true) && LostBytes(B, at, a) == 0
    ensures Next(B, at, a) == EndOf(at, Fragments(B, at, a.record, true))
  {
  }

  lemma NothingLanded(B: BlockSize, at: nat, shift: int)
    requires at + shift >= 0
    ensures InStepFrom(B, at, shift, [])
    ensures PositionAfter(B, at, []) + shift - Lag(B, at, []) == EndOf(at + shift, Landed(B, at, shift, []))
  {
    StartIsAfter(B, at + shift);
  }

  /** A file without failed calls is in step. */
  lemma UndamagedInStep(B: BlockSize, calls: seq<Attempt>)
    requires NoneLost(calls)
    ensures InStep(B, calls)
  {
    AlignedCalls(B, 0, 0, calls);
  }

  /** If what was lost so far comes to whole blocks, the writer is right about its offset, and what it
      appends then is in step. */
  lemma WholeBlocksLost(B: BlockSize, calls: seq<Attempt>, more: seq<Attempt>)
    requires InStep(B, calls) && NoneLost(more) && Lag(B, 0, calls) % B == 0
    ensures InStep(B, calls + more)
  {
    hide Off, Landed, Chain, PositionAfter, Lag;
    var at, lag := PositionAfter(B, 0, calls), Lag(B, 0, calls);
    LandedLater(B, 0, 0, calls);
    OffIsMod(B, at);
    OffIsMod(B, at - lag);
    WholeBlocks(at, lag, B);
    AlignedCalls(B, at, -lag, more);
    InStepConcat(B, calls, more);
  }

  lemma WholeBlocks(x: nat, lag: nat, B: nat)
    requires B > 0 && lag <= x && lag % B == 0
    ensures (x - lag) % B == x % B
  {
    var q, d := x / B, lag / B;
    assert x == q * B + x % B && lag == d * B;
    MulDistributes(q, d, B);
    if q < d {
      MulAtLeast(d - q, B);
      MulDistributes(d, q, B);
    }
    ModIs(x - lag, B, q - d, x % B);
  }

  function Sizes(calls: seq<Attempt>): nat
    decreases |calls|
  {
    if calls == [] then 0 else HEADER + |calls[0].record| + Sizes(calls[1..])
  }

  lemma {:induction false} SameBlockCalls(B: BlockSize, at: nat, shift: int, calls: seq<Attempt>)
    requires shift <= 0 <= at + shift && Off(B, at) == Off(B, at + shift) - shift && Sizes(calls) <= Room(B, at)
    ensures InStepFrom(B, at, shift, calls)
    ensures PositionAfter(B, at, calls) + shift - Lag(B, at, calls) == EndOf(at + shift, Landed(B, at, shift, calls))
    decreases |calls|
  {
    hide Shift, Chain, Off, Pieces, LostBytes, Next, Fragments, Start, Landed, Lag, PositionAfter, EndOf;
    if calls == [] {
      NothingLanded(B, at, shift);
    } else {
      var a := calls[0];
      FirstLanded(B, at, shift, calls);
      var size := HEADER + |a.record|;
      var shift' := if a.lostAt.None? then shift else shift - size;
      var pieces := Shift(Pieces(B, at, a), shift);
      var rest := Landed(B, at + size, shift', calls[1..]);
      OneFragmentCall(B, at, shift, a);
      OffAdd(B, at, size);
      OffAdd(B, at + shift, size);
      if calls[1..] == [] {
        NothingLanded(B, at + size, shift');
      } else {
        assert Sizes(calls[1..]) > 0;
        SameBlockCalls(B, at + size, shift', calls[1..]);
      }
      ChainConcat(B, at + shift, pieces, rest);
      EndsWith(at + shift, pieces, rest, at + size + shift');
      StartIsAfter(B, EndOf(at + shift, pieces + rest));
    }
  }

  lemma OneFragmentCall(B: BlockSize, at: nat, shift: int, a: Attempt)
    requires HEADER + |a.record| <= Room(B, at) && 0 <= at + shift && Room(B, at) <= Room(B, at + shift)
    ensures Next(B, at, a) == at + HEADER + |a.record|
    ensures LostBytes(B, at, a) == if a.lostAt.None? then 0 else HEADER + |a.record|
    ensures Shift(Pieces(B, at, a), shift) == if a.lostAt.None? then [Fragment(at + shift, FULL, a.record)] else []
    ensures Chain(B, at + shift, Shift(Pieces(B, at, a), shift))
    ensures EndOf(at + shift, Shift(Pieces(B, at, a), shift)) == at + shift + HEADER + |a.record| - LostBytes(B, at, a)
  {
    hide Off;
    assert Fragments(B, at, a.record, true) == [Fragment(at, FULL, a.record)];
  }

  /** As long as the writer is in the block in which the file ends, what it appends is in step. */
  lemma SameBlock(B: BlockSize, calls: seq<Attempt>, more: seq<Attempt>)
    requires InStep(B, calls)
    requires var at, lag := PositionAfter(B, 0, calls), Lag(B, 0, calls);
      && lag <= at && Off(B, at) == Off(B, at - lag) + lag && Sizes(more) <= Room(B, at)
    ensures InStep(B, calls + more)
  {
    hide Off, Landed, Chain, PositionAfter, Lag;
    SameBlockCalls(B, PositionAfter(B, 0, calls), -Lag(B, 0, calls), more);
    InStepConcat(B, calls, more);
  }

  // ---------- when they are not ----------

  /** A fragment where the reader looks for the next one is returned if and only if it fits in the
      block there. One that does not is dropped, with the rest of the block. */
  lemma FragmentReadIff(c: Setup, file: seq<byte>, p: nat, f: Fragment)
    requires c.initialOffset == 0 && FULL <= f.kind <= LAST && |f.payload| <= 0xFFFF
    requires f.start == Start(c.fmt.blockSize, p) && End(f) <= |file|
    requires file[f.start..End(f)] == Header(c.fmt, f.kind, f.payload) + f.payload
    ensures ReadPhysical(c, file, p) == Physical(f.kind, f.payload, End(f), [])
       <==> HEADER + |f.payload| <= Room(c.fmt.blockSize, f.start)
    ensures HEADER + |f.payload| > Room(c.fmt.blockSize, f.start) ==>
      var room := Room(c.fmt.blockSize, f.start);
      ReadPhysical(c, file, p) == Physical(BAD, [], f.start + room, [room])
  {
    hide Off, Header, Checksum, Unmask, DecodeFixed32;
    var B := c.fmt.blockSize;
    StartRoom(B, p);
    HeaderParts(c.fmt, f.kind, f.payload);
    var room := Room(B, f.start);
    var b := file[f.start..End(f)];
    assert b[4] == file[f.start + 4] && b[5] == file[f.start + 5];
    ReadsAtStart(c, file, p);
    if HEADER + |f.payload| <= room {
      assert Zeros(0) == [];
      hide Start, Room;
      assert FragmentBytes(c.fmt, f.start, f) == [] + Header(c.fmt, f.kind, f.payload) + f.payload;
      assert [] + Header(c.fmt, f.kind, f.payload) == Header(c.fmt, f.kind, f.payload);
      IntactFragment(c, file, f.start, f);
    }
  }

  lemma ReadsAtStart(c: Setup, file: seq<byte>, p: nat)
    ensures ReadPhysical(c, file, p) == ReadPhysical(c, file, Start(c.fmt.blockSize, p))
  {
    StartRoom(c.fmt.blockSize, p);
    hide ParsePhysical, Off;
  }

  /** A fragment that lies anywhere is what the reader gets from p if and only if it is placed after p. */
  lemma FragmentTakenIff(c: Setup, file: seq<byte>, p: nat, f: Fragment)
    requires c.initialOffset == 0 && FULL <= f.kind <= LAST && |f.payload| <= 0xFFFF && End(f) <= |file|
    requires file[f.start..End(f)] == Header(c.fmt, f.kind, f.payload) + f.payload
    ensures ReadPhysical(c, file, p) == Physical(f.kind, f.payload, End(f), []) <==> Placed(c.fmt.blockSize, p, f)
  {
    if f.start == Start(c.fmt.blockSize, p) {
      FragmentReadIff(c, file, p, f);
    } else {
      hide Header, Checksum, Unmask, DecodeFixed32, Off;
    }
  }

  /** The reader, from p on, gets the fragments one after another. */
  predicate Taken(c: Setup, file: seq<byte>, p: nat, fs: seq<Fragment>)
    decreases |fs|
  {
    fs == [] || (ReadPhysical(c, file, p) == Physical(fs[0].kind, fs[0].payload, End(fs[0]), []) && Taken(c, file, End(fs[0]), fs[1..]))
  }

  ghost predicate InFile(fmt: Format, file: seq<byte>, fs: seq<Fragment>) {
    forall f :: f in fs ==>
      && FULL <= f.kind <= LAST && |f.payload| <= 0xFFFF && End(f) <= |file|
      && file[f.start..End(f)] == Header(fmt, f.kind, f.payload) + f.payload
  }

  lemma {:induction false} TakenIff(c: Setup, file: seq<byte>, p: nat, fs: seq<Fragment>)
    requires c.initialOffset == 0 && InFile(c.fmt, file, fs)
    ensures Taken(c, file, p, fs) <==> Chain(c.fmt.blockSize, p, fs)
    decreases |fs|
  {
    hide ReadPhysical, Header, Placed;
    if fs != [] {
      FragmentTakenIff(c, file, p, fs[0]);
      TakenIff(c, file, End(fs[0]), fs[1..]);
    }
  }

  lemma {:induction false} WrittenInFile(fmt: Format, at: nat, fs: seq<Fragment>, file: seq<byte>, p: nat)
    requires Chain(fmt.blockSize, at, fs) && p <= |file| && Image(fmt, at, fs) <= file[p..]
    ensures InFile(fmt, file, Shift(fs, p - at))
    decreases |fs|
  {
    hide Header, Off, Start, Shift, FragmentBytes;
    if fs == [] {
      NoShift(p - at);
    } else {
      var f := fs[0];
      var g := Shift(fs, p - at)[0];
      var next := p + End(f) - at;
      StartIsAfter(fmt.blockSize, at);
      ShiftRest(fs, p - at);
      ShiftFirst'(fs, p - at);
      PrefixCovers(file[p..], FragmentBytes(fmt, at, f), Image(fmt, End(f), fs[1..]));
      assert file[p..][End(f) - at..] == file[next..];
      FirstInFile(fmt, at, f, file, p);
      WrittenInFile(fmt, End(f), fs[1..], file, next);
      assert Shift(fs, p - at) == [g] + Shift(fs, p - at)[1..];
    }
  }

  lemma ShiftFirst'(fs: seq<Fragment>, shift: int)
    requires fs != [] && fs[0].start + shift >= 0
    ensures Shift(fs, shift)[0] == Fragment(fs[0].start + shift, fs[0].kind, fs[0].payload)
  {
  }

  lemma FirstInFile(fmt: Format, at: nat, f: Fragment, file: seq<byte>, p: nat)
    requires Placed(fmt.blockSize, at, f) && at <= f.start && p + End(f) - at <= |file|
    requires file[p..][..End(f) - at] == FragmentBytes(fmt, at, f)
    ensures var g := Fragment(p + f.start - at, f.kind, f.payload);
      |g.payload| <= 0xFFFF && file[g.start..End(g)] == Header(fmt, g.kind, g.payload) + g.payload
  {
    hide Header, Off, Start;
    var z, h := Zeros(f.start - at), Header(fmt, f.kind, f.payload);
    var b := file[p..p + End(f) - at];
    assert b == file[p..][..End(f) - at];
    assert b[|z|..] == h + f.payload;
    assert file[p + |z|..p + End(f) - at] == b[|z|..];
  }

  /** Where the next record's fragments come to lie. */
  function Ahead(fmt: Format, calls: seq<Attempt>, a: Attempt): seq<Fragment> {
    var at := PositionAfter(fmt.blockSize, 0, calls);
    Shift(Fragments(fmt.blockSize, at, a.record, true), |FileBytes(fmt, 0, calls)| - at)
  }

  lemma FileEnds(fmt: Format, calls: seq<Attempt>)
    requires InStep(fmt.blockSize, calls)
    ensures |FileBytes(fmt, 0, calls)| == PositionAfter(fmt.blockSize, 0, calls) - Lag(fmt.blockSize, 0, calls)
    ensures Ends(fmt.blockSize, 0, Landed(fmt.blockSize, 0, 0, calls), |FileBytes(fmt, 0, calls)|)
  {
    hide Landed, FileBytes, Image, PositionAfter, Lag, Chain, Start;
    var z := LandedBytes(fmt, 0, 0, calls);
    ImageLength(fmt, 0, Landed(fmt.blockSize, 0, 0, calls));
  }

  /** A call in step with those before it: its fragments chain up where they come to lie. */
  lemma NextInStepIff(fmt: Format, calls: seq<Attempt>, a: Attempt)
    requires InStep(fmt.blockSize, calls) && a.lostAt.None?
    ensures InStep(fmt.blockSize, calls + [a]) <==> Chain(fmt.blockSize, |FileBytes(fmt, 0, calls)|, Ahead(fmt, calls, a))
  {
    hide Landed, FileBytes, Image, PositionAfter, Lag, Chain, Start, Off, Shift, Fragments;
    var B := fmt.blockSize;
    var at, p := PositionAfter(B, 0, calls), |FileBytes(fmt, 0, calls)|;
    var shift, ls, fs := p - at, Landed(B, 0, 0, calls), Ahead(fmt, calls, a);
    FileEnds(fmt, calls);
    OneLanded(B, at, shift, a);
    LandedConcat(B, 0, 0, calls, [a]);
    FirstPiece(B, at, a);
    LandedLater(B, at, shift, [a]);
    if Chain(B, p, fs) {
      StartIsAfter(B, EndOf(p, fs));
      FragmentsChain(B, at, a.record, true);
      ShiftEnds(B, at, shift, Fragments(B, at, a.record, true));
      InStepConcat(B, calls, [a]);
    }
    if InStep(B, calls + [a]) {
      ChainConcat(B, 0, ls, fs);
      ChainBetween(B, EndOf(0, ls), p, fs);
    }
  }

  lemma ShiftEnds(B: BlockSize, at: nat, shift: int, fs: seq<Fragment>)
    requires fs != [] && Chain(B, at, fs) && at + shift >= 0
    ensures EndOf(at + shift, Shift(fs, shift)) == EndOf(at, fs) + shift
  {
    ChainAscends(B, at, fs, |fs| - 1);
  }

  lemma OneLanded(B: BlockSize, at: nat, shift: int, a: Attempt)
    requires a.lostAt.None?
    ensures Landed(B, at, shift, [a]) == Shift(Fragments(B, at, a.record, true), shift)
    ensures Lag(B, at, [a]) == 0 && PositionAfter(B, at, [a]) == EndOf(at, Fragments(B, at, a.record, true))
  {
    hide Fragments, Shift;
    assert [a][1..] == [];
    var fs := Shift(Fragments(B, at, a.record, true), shift);
    assert fs + [] == fs;
  }

  /** After calls in step, the reader takes a record from its own place if and only if each of its
      fragments fits where it comes to lie; and then the record is delivered next. So the first record that
      is out of step is not read from its place. */
  lemma RecordTakenIff(c: Setup, calls: seq<Attempt>, a: Attempt, file: seq<byte>)
    requires c.initialOffset == 0 && InStep(c.fmt.blockSize, calls) && a.lostAt.None?
    requires FileBytes(c.fmt, 0, calls + [a]) <= file
    ensures Taken(c, file, |FileBytes(c.fmt, 0, calls)|, Ahead(c.fmt, calls, a)) <==> InStep(c.fmt.blockSize, calls + [a])
    ensures InStep(c.fmt.blockSize, calls + [a]) ==> Successes(calls + [a]) <= Texts(ReadLog(c, file).records)
  {
    hide Landed, FileBytes, Image, PositionAfter, Lag, Chain, ReadAll, Taken, Successes, Texts, InStep, Fragments, Shift, BytesOf;
    var fmt := c.fmt;
    var at, p := PositionAfter(fmt.blockSize, 0, calls), |FileBytes(fmt, 0, calls)|;
    FragmentsChain(fmt.blockSize, at, a.record, true);
    CallsConcat(fmt, 0, calls, [a]);
    OneCall(fmt, at, a);
    var z := CallBytes(fmt, at, a);
    NotLost(fmt.blockSize, at, a);
    FromMiddle(file, FileBytes(fmt, 0, calls), BytesOf(fmt, at, a));
    assert BytesOf(fmt, at, a) == Image(fmt, at, Fragments(fmt.blockSize, at, a.record, true)) + [];
    WrittenInFile(fmt, at, Fragments(fmt.blockSize, at, a.record, true), file, p);
    TakenIff(c, file, p, Ahead(fmt, calls, a));
    NextInStepIff(fmt, calls, a);
    if InStep(fmt.blockSize, calls + [a]) {
      InStepPrefix(c, calls + [a], file);
    }
  }

  lemma FromMiddle(file: seq<byte>, before: seq<byte>, b: seq<byte>)
    requires before + b <= file
    ensures |before| <= |file| && b <= file[|before|..]
  {
    assert (before + b)[|before|..] == b;
  }

  /** Three calls, the first of which fails, while the records of the first two would just have filled
      a block. */
  function Unlucky(lost: seq<byte>, kept: seq<byte>, last: seq<byte>): seq<Attempt> {
    [Attempt(lost, Some(0)), Attempt(kept, None), Attempt(last, None)]
  }

  lemma OneFragmentBytes(fmt: Format, at: nat, a: Attempt)
    requires HEADER + |a.record| <= Room(fmt.blockSize, at)
    ensures Next(fmt.blockSize, at, a) == at + HEADER + |a.record|
    ensures a.lostAt.None? ==> |a.record| <= 0xFFFF && BytesOf(fmt, at, a) == Header(fmt, FULL, a.record) + a.record
    ensures a.lostAt.Some? ==> BytesOf(fmt, at, a) == []
  {
    hide Off, Header;
    var f := Fragment(at, FULL, a.record);
    FragmentsChain(fmt.blockSize, at, a.record, true);
    assert Fragments(fmt.blockSize, at, a.record, true) == [f];
    LogBytesOne(fmt, at, a.record);
    assert Zeros(0) == [];
    if a.lostAt.None? {
      assert [] + Header(fmt, FULL, a.record) + a.record == Header(fmt, FULL, a.record) + a.record;
      assert [f][1..] == [];
      assert Image(fmt, at, [f]) == FragmentBytes(fmt, at, f) + Image(fmt, End(f), []);
    }
  }

  lemma UnluckyFile(fmt: Format, lost: seq<byte>, kept: seq<byte>, last: seq<byte>)
    requires HEADER + |lost| + HEADER + |kept| == fmt.blockSize && HEADER + |last| <= fmt.blockSize
    ensures |kept| <= 0xFFFF && |last| <= 0xFFFF
    ensures FileBytes(fmt, 0, Unlucky(lost, kept, last)) == (Header(fmt, FULL, kept) + kept) + (Header(fmt, FULL, last) + last)
  {
    hide BytesOf, Next, Header;
    var B := fmt.blockSize;
    var calls := Unlucky(lost, kept, last);
    OneFragmentBytes(fmt, 0, calls[0]);
    OneFragmentBytes(fmt, HEADER + |lost|, calls[1]);
    assert Off(B, B) == 0;
    OneFragmentBytes(fmt, B, calls[2]);
    assert calls[1..] == [calls[1], calls[2]] && calls[1..][1..] == [calls[2]];
    OneCall(fmt, B, calls[2]);
    assert [] + (BytesOf(fmt, HEADER + |lost|, calls[1]) + BytesOf(fmt, B, calls[2]))
        == BytesOf(fmt, HEADER + |lost|, calls[1]) + BytesOf(fmt, B, calls[2]);
  }

  /** The second record is delivered. The third no longer fits where the reader finds it; the reader
      drops the rest of the block and goes on at the next one, wherever in the third record that is. */
  lemma UnluckyReads(fmt: Format, lost: seq<byte>, kept: seq<byte>, last: seq<byte>)
    requires HEADER + |lost| + HEADER + |kept| == fmt.blockSize && HEADER + |last| <= fmt.blockSize && |last| > |lost|
    ensures var c, file := Setup(fmt, true, 0), FileBytes(fmt, 0, Unlucky(lost, kept, last));
      ReadLog(c, file) == Prepend([Found(kept, 0)], [HEADER + |lost|], ReadAll(c, file, fmt.blockSize, NoRecord))
  {
    hide Header, FileBytes, ReadAll;
    var c := Setup(fmt, true, 0);
    var file := FileBytes(fmt, 0, Unlucky(lost, kept, last));
    UnluckyFile(fmt, lost, kept, last);
    var f, g := Fragment(0, FULL, kept), Fragment(HEADER + |kept|, FULL, last);
    assert file[0..End(f)] == Header(fmt, FULL, kept) + kept;
    assert file[g.start..End(g)] == Header(fmt, FULL, last) + last;
    FragmentReadIff(c, file, 0, f);
    FragmentReadIff(c, file, End(f), g);
    hide ReadPhysical, Off;
    ReadOn(c, file, 0, NoRecord, ReadPhysical(c, file, 0));
    ReadOn(c, file, End(f), NoRecord, ReadPhysical(c, file, End(f)));
    var rest := ReadAll(c, file, fmt.blockSize, NoRecord);
    OneThenNone(Found(kept, 0), [HEADER + |lost|], rest);
  }

  lemma OneThenNone(f: Found, reports: seq<nat>, rest: Reading)
    ensures Prepend([f], [] + [], Prepend([], reports + [], rest)) == Prepend([f], reports, rest)
    ensures Prepend([f], [], Prepend([], reports, rest)) == Prepend([f], reports, rest)
  {
    assert [f] + ([] + rest.records) == [f] + rest.records;
    assert [] + (reports + rest.reports) == reports + rest.reports;
  }

  /** A record slightly longer than the lost one is not delivered at all, though its call succeeded. */
  lemma RecordIsLost(fmt: Format, lost: seq<byte>, kept: seq<byte>, last: seq<byte>)
    requires HEADER + |lost| + HEADER + |kept| == fmt.blockSize && |lost| < |last| < |lost| + HEADER
    requires HEADER + |last| <= fmt.blockSize
    ensures ReadLog(Setup(fmt, true, 0), FileBytes(fmt, 0, Unlucky(lost, kept, last))) == Reading([Found(kept, 0)], [HEADER + |lost|])
  {
    hide Header, FileBytes, Off;
    UnluckyReads(fmt, lost, kept, last);
    UnluckyFile(fmt, lost, kept, last);
    var c, file := Setup(fmt, true, 0), FileBytes(fmt, 0, Unlucky(lost, kept, last));
    assert |file| < fmt.blockSize + HEADER;
    ShortTail(c, file);
    assert [Found(kept, 0)] + [] == [Found(kept, 0)];
  }

  lemma ShortTail(c: Setup, file: seq<byte>)
    requires |file| < c.fmt.blockSize + HEADER
    ensures ReadAll(c, file, c.fmt.blockSize, NoRecord) == Reading([], [])
  {
    assert Off(c.fmt.blockSize, c.fmt.blockSize) == 0;
    hide ParsePhysical;
  }

  /** A record whose payload holds something like a log record at the right place is not delivered
      either, but what it holds is: a record that nobody appended. */
  lemma RecordIsForged(fmt: Format, lost: seq<byte>, kept: seq<byte>, before: seq<byte>, forged: seq<byte>)
    requires HEADER + |lost| + HEADER + |kept| == fmt.blockSize && |before| == |lost|
    requires HEADER + |before| + HEADER + |forged| <= fmt.blockSize
    ensures |forged| <= 0xFFFF
    ensures var last := before + (Header(fmt, FULL, forged) + forged);
      Texts(ReadLog(Setup(fmt, true, 0), FileBytes(fmt, 0, Unlucky(lost, kept, last))).records) == [kept, forged]
  {
    hide Header, FileBytes, ReadAll, Off;
    var last := before + (Header(fmt, FULL, forged) + forged);
    UnluckyReads(fmt, lost, kept, last);
    UnluckyFile(fmt, lost, kept, last);
    var c, file := Setup(fmt, true, 0), FileBytes(fmt, 0, Unlucky(lost, kept, last));
    var B := fmt.blockSize;
    var f := Fragment(B, FULL, forged);
    assert file[B..] == Header(fmt, FULL, forged) + forged;
    assert file[B..End(f)] == file[B..];
    assert Off(B, B) == 0 by { OffIsMod(B, B); }
    FragmentReadIff(c, file, B, f);
    ReadOn(c, file, B, NoRecord, ReadPhysical(c, file, B));
    AtEnd(c, file, End(f), NoRecord);
    hide ReadPhysical;
    assert ReadAll(c, file, B, NoRecord) == Prepend([Found(forged, B)], [], Reading([], []));
  }
}
