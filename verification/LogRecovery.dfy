/** What a reader makes of a log that was written whole, cut short, or is read from the middle. */
module LogRecovery {
  import opened Keys
  import opened LogFormat
  import opened LogReader

  // ---------- one physical record ----------

  /** What ReadPhysicalRecord returns for a fragment that is wholly in the file. */
  function Seen(c: Setup, f: Fragment): Physical {
    if f.start < c.initialOffset then Physical(BAD, [], End(f), []) else Physical(f.kind, f.payload, End(f), [])
  }

  lemma HeaderParts(fmt: Format, kind: byte, payload: seq<byte>)
    requires |payload| <= 0xFFFF
    ensures var h := Header(fmt, kind, payload);
      && h[6] == kind
      && (h[4] as int) + (h[5] as int) * 0x100 == |payload|
      && Unmask(DecodeFixed32(h[..4])) == Checksum(fmt, [kind] + payload)
  {
    var crc := Checksum(fmt, [kind] + payload);
    assert Header(fmt, kind, payload)[..4] == EncodeFixed32(Mask(crc));
    DecodeEncodeFixed32(Mask(crc));
    UnmaskMask(crc);
  }

  lemma FragmentInFile(fmt: Format, p: nat, f: Fragment, file: seq<byte>)
    requires Placed(fmt.blockSize, p, f) && End(f) <= |file|
    requires file[p..End(f)] == FragmentBytes(fmt, p, f)
    ensures var h := Header(fmt, f.kind, f.payload);
      && file[f.start..f.start + HEADER] == h
      && file[f.start..f.start + 4] == h[..4] && file[f.start + 4] == h[4] && file[f.start + 5] == h[5] && file[f.start + 6] == h[6]
      && file[f.start + HEADER..End(f)] == f.payload
      && file[f.start + 6..End(f)] == [f.kind] + f.payload
  {
    hide Header, Zeros, Start, Off;
    Slices(file, p, Zeros(f.start - p), Header(fmt, f.kind, f.payload), f.payload);
    var h := Header(fmt, f.kind, f.payload);
    assert forall i :: 0 <= i < HEADER ==> file[f.start + i] == h[i];
    assert h[6] == f.kind by { HeaderParts(fmt, f.kind, f.payload); }
    assert file[f.start + 6..End(f)] == [file[f.start + 6]] + file[f.start + HEADER..End(f)];
  }

  lemma Slices(file: seq<byte>, p: nat, z: seq<byte>, h: seq<byte>, d: seq<byte>)
    requires p + |z| + |h| + |d| <= |file| && file[p..p + |z| + |h| + |d|] == z + h + d
    ensures file[p + |z|..p + |z| + |h|] == h
    ensures file[p + |z| + |h|..p + |z| + |h| + |d|] == d
    ensures forall i :: 0 <= i < |h| ==> file[p + |z| + i] == h[i]
    ensures forall i :: 0 <= i <= |h| ==> file[p + |z|..p + |z| + i] == h[..i]
  {
    var b := file[p..p + |z| + |h| + |d|];
    assert b[|z|..|z| + |h|] == h;
    assert b[|z| + |h|..] == d;
    assert forall i :: 0 <= i < |h| ==> b[|z| + i] == h[i];
  }

  lemma IntactFragment(c: Setup, file: seq<byte>, p: nat, f: Fragment)
    requires Placed(c.fmt.blockSize, p, f) && End(f) <= |file|
    requires file[p..End(f)] == FragmentBytes(c.fmt, p, f)
    ensures ReadPhysical(c, file, p) == Seen(c, f)
  {
    hide Mask, Checksum, EncodeFixed32, DecodeFixed32, Unmask, Off;
    FragmentInFile(c.fmt, p, f, file);
    HeaderParts(c.fmt, f.kind, f.payload);
  }

  /** A fragment cut short by the end of the file reads as the end of the log, without a report. */
  lemma TornFragment(c: Setup, file: seq<byte>, p: nat, f: Fragment)
    requires Placed(c.fmt.blockSize, p, f) && p <= |file| < End(f)
    requires file[p..] <= FragmentBytes(c.fmt, p, f)
    ensures ReadPhysical(c, file, p).kind == EOF && ReadPhysical(c, file, p).reports == []
  {
    hide Mask, Checksum, EncodeFixed32, DecodeFixed32, Unmask, Off;
    if f.start + HEADER <= |file| {
      var b, h := FragmentBytes(c.fmt, p, f), Header(c.fmt, f.kind, f.payload);
      HeaderParts(c.fmt, f.kind, f.payload);
      var z := f.start - p;
      assert forall i :: 0 <= i < HEADER ==> b[z + i] == h[i];
      assert file[p..][z + 4] == h[4] && file[p..][z + 5] == h[5];
      assert file[f.start + 4] == h[4] && file[f.start + 5] == h[5];
    }
  }

  // ---------- reading a list of fragments ----------

  /** What is delivered and reported when the fragments are read one after another. */
  function Consume(c: Setup, fs: seq<Fragment>, st: Partial): Reading
    decreases |fs|
  {
    if fs == [] then Reading([], [])
    else
      var r := Seen(c, fs[0]);
      match Step(c, st, r)
      case Stop => Reading([], [])
      case Continue(st', reports) => Prepend([], reports, Consume(c, fs[1..], st'))
      case Done(record, offset, reports) => Prepend([Found(record, offset)], reports, Consume(c, fs[1..], NoRecord))
  }

  function ConsumeAfter(c: Setup, o: Outcome, fs: seq<Fragment>): Reading {
    match o
    case Stop => Reading([], [])
    case Continue(st', reports) => Prepend([], reports, Consume(c, fs, st'))
    case Done(record, offset, reports) => Prepend([Found(record, offset)], reports, Consume(c, fs, NoRecord))
  }

  lemma ConsumeFirst(c: Setup, f: Fragment, fs: seq<Fragment>, st: Partial)
    ensures Consume(c, [f] + fs, st) == ConsumeAfter(c, Step(c, st, Seen(c, f)), fs)
  {
    assert ([f] + fs)[1..] == fs;
  }

  lemma PrependNothing(r: Reading)
    ensures Prepend([], [], r) == r
  {
  }

  /** The leading fragments that end within the first n bytes. */
  function Whole(fs: seq<Fragment>, n: nat): seq<Fragment>
    decreases |fs|
  {
    if fs != [] && End(fs[0]) <= n then [fs[0]] + Whole(fs[1..], n) else []
  }

  /** The file holds, from p on, a prefix of the chain's bytes. */
  ghost predicate Holds(c: Setup, file: seq<byte>, p: nat, fs: seq<Fragment>) {
    Chain(c.fmt.blockSize, p, fs) && (p <= |file| ==> file[p..] <= Image(c.fmt, p, fs)) && (|file| < p ==> Whole(fs, |file|) == [])
  }

  lemma PrefixSplit(a: seq<byte>, b: seq<byte>, rest: seq<byte>)
    requires a <= b + rest
    ensures |a| >= |b| ==> a[..|b|] == b && a[|b|..] <= rest
    ensures |a| < |b| ==> a <= b
  {
    if |a| >= |b| {
      assert forall i :: 0 <= i < |b| ==> a[i] == (b + rest)[i];
      assert forall i :: |b| <= i < |a| ==> a[i] == (b + rest)[i];
    }
  }

  lemma AtEnd(c: Setup, file: seq<byte>, p: nat, st: Partial)
    requires |file| <= p
    ensures ReadAll(c, file, p, st) == Reading([], [])
  {
  }

  lemma {:induction false} ReadAllConsumes(c: Setup, file: seq<byte>, p: nat, fs: seq<Fragment>, st: Partial)
    requires Holds(c, file, p, fs)
    ensures ReadAll(c, file, p, st) == Consume(c, Whole(fs, |file|), st)
    decreases |fs|
  {
    hide FragmentBytes, ReadPhysical, Off;
    if |file| <= p {
      WholeNone(c.fmt.blockSize, p, fs, |file|);
      AtEnd(c, file, p, st);
    } else if fs != [] {
      var f := fs[0];
      PrefixSplit(file[p..], FragmentBytes(c.fmt, p, f), Image(c.fmt, End(f), fs[1..]));
      ReadOn(c, file, p, st, ReadPhysical(c, file, p));
      if End(f) <= |file| {
        assert file[p..][..End(f) - p] == file[p..End(f)];
        assert file[p..][End(f) - p..] == file[End(f)..];
        IntactFragment(c, file, p, f);
        assert Holds(c, file, End(f), fs[1..]);
        ConsumeOn(c, file, p, fs, st);
      } else {
        TornFragment(c, file, p, f);
      }
    }
  }

  lemma WholeNone(B: BlockSize, p: nat, fs: seq<Fragment>, n: nat)
    requires Chain(B, p, fs) && n <= p
    ensures Whole(fs, n) == []
  {
  }

  lemma ConsumeOn(c: Setup, file: seq<byte>, p: nat, fs: seq<Fragment>, st: Partial)
    requires fs != [] && Holds(c, file, End(fs[0]), fs[1..]) && End(fs[0]) <= |file|
    requires ReadPhysical(c, file, p) == Seen(c, fs[0])
    requires FULL <= fs[0].kind <= LAST
    ensures After(c, file, End(fs[0]), Step(c, st, Seen(c, fs[0])), []) == Consume(c, Whole(fs, |file|), st)
    decreases |fs|, 0
  {
    hide ReadPhysical, ReadAll, Image, Off, Step, Seen;
    var w := Whole(fs, |file|);
    assert w[0] == fs[0] && w[1..] == Whole(fs[1..], |file|);
    hide Whole, Chain;
    match Step(c, st, Seen(c, fs[0])) {
      case Stop =>
      case Continue(st', reports) =>
        assert [] + reports == reports;
        ReadAllConsumes(c, file, End(fs[0]), fs[1..], st');
      case Done(record, offset, reports) =>
        assert [] + reports == reports;
        ReadAllConsumes(c, file, End(fs[0]), fs[1..], NoRecord);
    }
  }

  // ---------- reading whole records ----------

  predicate Proper(fs: seq<Fragment>) {
    forall f :: f in fs ==> FULL <= f.kind <= LAST
  }

  /** Between records it does not matter whether the reader is still resynchronizing: only its
      reports differ. */
  lemma {:induction false} IdleStatesAgree(c: Setup, fs: seq<Fragment>, s1: Partial, s2: Partial)
    requires Proper(fs) && !s1.inFragmented && !s2.inFragmented
    ensures Consume(c, fs, s1).records == Consume(c, fs, s2).records
    decreases |fs|
  {
    if fs != [] {
      var o1, o2 := Step(c, s1, Seen(c, fs[0])), Step(c, s2, Seen(c, fs[0]));
      if o1.Continue? && !o1.state.inFragmented {
        IdleStatesAgree(c, fs[1..], o1.state, o2.state);
      }
    }
  }

  /** Without a final fragment nothing is delivered. */
  lemma {:induction false} NoFinalNothing(c: Setup, fs: seq<Fragment>, st: Partial)
    requires forall f :: f in fs ==> f.kind == FIRST || f.kind == MIDDLE
    ensures Consume(c, fs, st).records == []
    decreases |fs|
  {
    if fs != [] {
      var o := Step(c, st, Seen(c, fs[0]));
      NoFinalNothing(c, fs[1..], o.state);
    }
  }

  lemma {:induction false} FragmentKinds(B: BlockSize, pos: nat, data: seq<byte>, begin: bool)
    ensures var fs := Fragments(B, pos, data, begin);
      && fs[0].start == Start(B, pos) && Proper(fs)
      && (forall i :: 0 <= i < |fs| - 1 ==> fs[i].kind == if i == 0 && begin then FIRST else MIDDLE)
    decreases |data|, if Room(B, Start(B, pos)) > HEADER then 0 else 1
  {
    hide Fragments, Off, Start;
    FragmentsSplit(B, pos, data, begin);
    var fs := Fragments(B, pos, data, begin);
    if |fs| > 1 {
      FragmentKinds(B, End(fs[0]), data[|fs[0].payload|..], false);
      assert forall i :: 1 <= i < |fs| ==> fs[i] == fs[1..][i - 1];
    }
    assert fs == [fs[0]] + fs[1..];
  }

  lemma StartAfter(B: BlockSize, pos: nat, f: Fragment)
    requires f.start == Start(B, pos)
    ensures pos <= Start(B, pos) < Start(B, End(f))
  {
    hide Off;
  }

  /** The rest of a record whose first fragment has been taken. */
  lemma {:induction false} TailAssembled(c: Setup, pos: nat, data: seq<byte>, gs: seq<Fragment>, st: Partial)
    requires st.inFragmented && !st.resyncing && Start(c.fmt.blockSize, pos) >= c.initialOffset
    ensures Consume(c, Fragments(c.fmt.blockSize, pos, data, false) + gs, st)
         == Prepend([Found(st.scratch + data, st.offset)], [], Consume(c, gs, NoRecord))
    decreases |data|, if Room(c.fmt.blockSize, Start(c.fmt.blockSize, pos)) > HEADER then 0 else 1
  {
    hide Fragments, Off, Start, Report, Consume, Prepend;
    var B := c.fmt.blockSize;
    var fs := Fragments(B, pos, data, false);
    FragmentsSplit(B, pos, data, false);
    StartAfter(B, pos, fs[0]);
    var n := |fs[0].payload|;
    assert fs + gs == [fs[0]] + (fs[1..] + gs);
    ConsumeFirst(c, fs[0], fs[1..] + gs, st);
    if |fs| == 1 {
      assert fs[1..] + gs == gs && data[..n] == data;
    } else {
      TailAssembled(c, End(fs[0]), data[n..], gs, st.(scratch := st.scratch + data[..n]));
      assert (st.scratch + data[..n]) + data[n..] == st.scratch + data;
      PrependNothing(Prepend([Found(st.scratch + data, st.offset)], [], Consume(c, gs, NoRecord)));
    }
  }

  lemma RecordAssembled(c: Setup, pos: nat, data: seq<byte>, gs: seq<Fragment>, st: Partial)
    requires !st.inFragmented && Start(c.fmt.blockSize, pos) >= c.initialOffset
    ensures Consume(c, Fragments(c.fmt.blockSize, pos, data, true) + gs, st)
         == Prepend([Found(data, Start(c.fmt.blockSize, pos))], [], Consume(c, gs, NoRecord))
  {
    hide Fragments, Off, Start, Report, Consume, Prepend;
    var B := c.fmt.blockSize;
    var fs := Fragments(B, pos, data, true);
    FragmentsSplit(B, pos, data, true);
    StartAfter(B, pos, fs[0]);
    var n := |fs[0].payload|;
    assert fs + gs == [fs[0]] + (fs[1..] + gs);
    ConsumeFirst(c, fs[0], fs[1..] + gs, st);
    if |fs| == 1 {
      assert fs[1..] + gs == gs && data[..n] == data;
    } else {
      TailAssembled(c, End(fs[0]), data[n..], gs, Partial(false, true, data[..n], fs[0].start));
      assert data[..n] + data[n..] == data;
      PrependNothing(Prepend([Found(data, fs[0].start)], [], Consume(c, gs, NoRecord)));
    }
  }

  /** A record that began before the initial offset, or whose beginning was skipped, is passed over. */
  lemma {:induction false} RecordSkipped(c: Setup, pos: nat, data: seq<byte>, begin: bool, gs: seq<Fragment>, st: Partial)
    requires !st.inFragmented && Proper(gs) && (begin ==> Start(c.fmt.blockSize, pos) < c.initialOffset)
    ensures Consume(c, Fragments(c.fmt.blockSize, pos, data, begin) + gs, st).records == Consume(c, gs, NoRecord).records
    decreases |data|, if Room(c.fmt.blockSize, Start(c.fmt.blockSize, pos)) > HEADER then 0 else 1
  {
    hide Fragments, Off, Start, Report;
    var B := c.fmt.blockSize;
    var fs := Fragments(B, pos, data, begin);
    FragmentsSplit(B, pos, data, begin);
    StartAfter(B, pos, fs[0]);
    var st' := Step(c, st, Seen(c, fs[0])).state;
    if |fs| == 1 {
      assert (fs + gs)[0] == fs[0] && (fs + gs)[1..] == gs;
      IdleStatesAgree(c, gs, st', NoRecord);
    } else {
      var n := |fs[0].payload|;
      assert (fs + gs)[0] == fs[0] && (fs + gs)[1..] == fs[1..] + gs;
      RecordSkipped(c, End(fs[0]), data[n..], false, gs, st');
    }
  }

  /** The first k fragments of a record, without the last one, are dropped silently. */
  lemma {:induction false} TornRecordQuiet(c: Setup, pos: nat, data: seq<byte>, begin: bool, k: nat, st: Partial)
    requires Start(c.fmt.blockSize, pos) >= c.initialOffset && !st.resyncing && st.inFragmented == !begin
    requires k < |Fragments(c.fmt.blockSize, pos, data, begin)|
    ensures Consume(c, Fragments(c.fmt.blockSize, pos, data, begin)[..k], st) == Reading([], [])
    decreases k
  {
    hide Fragments, Off, Start, Report;
    var B := c.fmt.blockSize;
    var fs := Fragments(B, pos, data, begin);
    FragmentsSplit(B, pos, data, begin);
    StartAfter(B, pos, fs[0]);
    if k > 0 {
      var n := |fs[0].payload|;
      assert fs[..k][0] == fs[0] && fs[..k][1..] == fs[1..][..k - 1];
      TornRecordQuiet(c, End(fs[0]), data[n..], false, k - 1, Step(c, st, Seen(c, fs[0])).state);
    }
  }

  // ---------- reading a log ----------

  /** The records of a log, written from pos on, that begin at or after the initial offset and end
      within the first n bytes of the file. */
  function Delivered(c: Setup, pos: nat, records: seq<seq<byte>>, n: nat): seq<Found>
    decreases |records|
  {
    if records == [] then []
    else
      var fs := Fragments(c.fmt.blockSize, pos, records[0], true);
      if EndOf(pos, fs) > n then []
      else
        (if fs[0].start >= c.initialOffset then [Found(records[0], fs[0].start)] else [])
        + Delivered(c, EndOf(pos, fs), records[1..], n)
  }

  lemma {:induction false} EndMonotone(B: BlockSize, pos: nat, fs: seq<Fragment>)
    requires Chain(B, pos, fs)
    ensures pos <= EndOf(pos, fs)
    decreases |fs|
  {
    if fs != [] {
      EndMonotone(B, End(fs[0]), fs[1..]);
    }
  }

  lemma {:induction false} WholeConcat(B: BlockSize, pos: nat, fs: seq<Fragment>, gs: seq<Fragment>, n: nat) returns (k: nat)
    requires Chain(B, pos, fs) && Chain(B, EndOf(pos, fs), gs)
    ensures EndOf(pos, fs) <= n ==> Whole(fs + gs, n) == fs + Whole(gs, n)
    ensures EndOf(pos, fs) > n ==> k <= |fs| && Whole(fs + gs, n) == fs[..k] && (fs != [] ==> k < |fs|)
    decreases |fs|
  {
    hide Placed, Off, Start;
    k := 0;
    if fs == [] {
      assert fs + gs == gs;
      WholeNone'(B, pos, gs, n);
    } else {
      assert (fs + gs)[0] == fs[0] && (fs + gs)[1..] == fs[1..] + gs;
      EndMonotone(B, End(fs[0]), fs[1..]);
      var k' := WholeConcat(B, End(fs[0]), fs[1..], gs, n);
      k := if End(fs[0]) <= n then k' + 1 else 0;
    }
  }

  lemma WholeNone'(B: BlockSize, p: nat, fs: seq<Fragment>, n: nat)
    requires Chain(B, p, fs)
    ensures n < p ==> Whole(fs, n) == []
  {
  }

  lemma {:induction false} WholeProper(fs: seq<Fragment>, n: nat)
    requires Proper(fs)
    ensures Proper(Whole(fs, n))
    decreases |fs|
  {
    if fs != [] {
      WholeProper(fs[1..], n);
    }
  }

  lemma {:induction false} LogFragmentsProper(B: BlockSize, pos: nat, records: seq<seq<byte>>)
    ensures Proper(LogFragments(B, pos, records))
    decreases |records|
  {
    if records != [] {
      FragmentKinds(B, pos, records[0], true);
      LogFragmentsProper(B, EndOf(pos, Fragments(B, pos, records[0], true)), records[1..]);
    }
  }

  lemma {:induction false} LogConsumed(c: Setup, pos: nat, records: seq<seq<byte>>, n: nat, st: Partial)
    requires !st.inFragmented
    ensures var r := Consume(c, Whole(LogFragments(c.fmt.blockSize, pos, records), n), st);
      && r.records == Delivered(c, pos, records, n)
      && (c.initialOffset == 0 && !st.resyncing ==> r.reports == [])
    decreases |records|
  {
    if records != [] {
      hide Fragments, Off, Start;
      var B := c.fmt.blockSize;
      var fs := Fragments(B, pos, records[0], true);
      var next := EndOf(pos, fs);
      var gs := LogFragments(B, next, records[1..]);
      FragmentsChain(B, pos, records[0], true);
      LogFragmentsChain(B, next, records[1..]);
      LogFragmentsProper(B, next, records[1..]);
      FragmentKinds(B, pos, records[0], true);
      var k := WholeConcat(B, pos, fs, gs, n);
      LogConsumed(c, next, records[1..], n, NoRecord);
      WholeProper(gs, n);
      if next <= n {
        if fs[0].start >= c.initialOffset {
          RecordAssembled(c, pos, records[0], Whole(gs, n), st);
        } else {
          RecordSkipped(c, pos, records[0], true, Whole(gs, n), st);
        }
      } else {
        NoFinalNothing(c, fs[..k], st);
        if c.initialOffset == 0 && !st.resyncing {
          TornRecordQuiet(c, pos, records[0], true, k, st);
        }
      }
    }
  }

  // ---------- starting in the middle ----------

  lemma BoundaryAhead(B: BlockSize, p: nat, q: nat)
    requires p < q && Off(B, q) == 0
    ensures p + Room(B, p) <= q
  {
    if q < p + Room(B, p) {
      OffAdd(B, p, q - p);
    }
  }

  /** The fragments that start before a block boundary end there at the latest, and the next one
      starts exactly there. */
  lemma {:induction false} SplitAtBoundary(B: BlockSize, p: nat, fs: seq<Fragment>, q: nat) returns (k: nat)
    requires Chain(B, p, fs) && p <= q && Off(B, q) == 0
    ensures k <= |fs| && forall i :: 0 <= i < k ==> fs[i].start + HEADER <= q
    ensures Chain(B, p, fs[..k]) && EndOf(p, fs[..k]) <= q && Chain(B, EndOf(p, fs[..k]), fs[k..])
    ensures k < |fs| ==> fs[k].start == q
    decreases |fs|
  {
    k := 0;
    if p < q {
      BoundaryAhead(B, p, q);
    }
    if fs != [] && fs[0].start < q {
      BoundaryAhead(B, fs[0].start, q);
      var k' := SplitAtBoundary(B, End(fs[0]), fs[1..], q);
      k := k' + 1;
      assert fs[..k][1..] == fs[1..][..k'] && fs[k..] == fs[1..][k'..];
      assert forall i :: 1 <= i < k ==> fs[i] == fs[1..][i - 1];
    } else {
      assert fs[..0] == [] && fs[0..] == fs;
    }
  }

  /** Fragments before the initial offset leave no trace. */
  lemma {:induction false} SkipBefore(c: Setup, p: nat, fs: seq<Fragment>, k: nat, n: nat)
    requires Chain(c.fmt.blockSize, p, fs) && k <= |fs|
    requires forall i :: 0 <= i < k ==> fs[i].start < c.initialOffset
    ensures Consume(c, Whole(fs, n), NoRecord).records == Consume(c, Whole(fs[k..], n), NoRecord).records
    decreases k
  {
    hide Off, Start;
    if k == 0 {
      assert fs[0..] == fs;
    } else {
      assert fs[1..][k - 1..] == fs[k..];
      assert forall i :: 0 <= i < k - 1 ==> fs[1..][i] == fs[i + 1];
      SkipBefore(c, End(fs[0]), fs[1..], k - 1, n);
      if End(fs[0]) <= n {
        assert Whole(fs, n)[1..] == Whole(fs[1..], n);
        ConsumeFirst(c, fs[0], Whole(fs[1..], n), NoRecord);
      } else {
        WholeNone(c.fmt.blockSize, End(fs[0]), fs[1..], n);
      }
    }
  }

  lemma InitialBlockIsBoundary(B: BlockSize, initialOffset: nat)
    ensures Off(B, InitialBlock(B, initialOffset)) == 0
    ensures InitialBlock(B, initialOffset) < initialOffset + HEADER
  {
    OffBoundary(B, initialOffset);
  }

  /** A file that is a prefix of a log holds, from a block boundary on, the fragments that start there. */
  lemma HoldsFrom(c: Setup, file: seq<byte>, fs: seq<Fragment>, k: nat, q: nat)
    requires Chain(c.fmt.blockSize, 0, fs) && k <= |fs| && file <= Image(c.fmt, 0, fs)
    requires Chain(c.fmt.blockSize, 0, fs[..k]) && EndOf(0, fs[..k]) <= q && Chain(c.fmt.blockSize, EndOf(0, fs[..k]), fs[k..])
    requires Off(c.fmt.blockSize, q) == 0 && (k < |fs| ==> fs[k].start == q)
    ensures Holds(c, file, q, fs[k..])
  {
    hide FragmentBytes, Off, Image, Chain;
    var e, gs := EndOf(0, fs[..k]), fs[k..];
    FirstPlaced(c.fmt.blockSize, e, q, gs);
    assert fs[..k] + gs == fs;
    ImageConcat(c.fmt, 0, fs[..k], gs);
    ImageLength(c.fmt, 0, fs[..k]);
    if |file| < q {
      WholeNone(c.fmt.blockSize, q, gs, |file|);
    } else if gs == [] {
      NoImage(c.fmt, e);
      assert file[q..] == [];
    } else {
      FromBoundary(c.fmt, e, q, gs);
      assert Image(c.fmt, 0, fs)[q..] == Image(c.fmt, q, gs);
    }
  }

  lemma NoImage(fmt: Format, e: nat)
    ensures Image(fmt, e, []) == []
  {
  }

  lemma FirstPlaced(B: BlockSize, e: nat, q: nat, gs: seq<Fragment>)
    requires Chain(B, e, gs) && Off(B, q) == 0 && (gs != [] ==> gs[0].start == q)
    ensures Chain(B, q, gs)
  {
  }

  lemma FromBoundary(fmt: Format, e: nat, q: nat, gs: seq<Fragment>)
    requires gs != [] && Chain(fmt.blockSize, e, gs) && gs[0].start == q && e <= q && Off(fmt.blockSize, q) == 0
    ensures Chain(fmt.blockSize, q, gs)
    ensures Image(fmt, e, gs) == Zeros(q - e) + Image(fmt, q, gs)
  {
    hide Header;
    var h := Header(fmt, gs[0].kind, gs[0].payload);
    assert Zeros(q - e) + h + gs[0].payload == Zeros(q - e) + (Zeros(0) + h + gs[0].payload);
  }

  /** A log cut at any byte, read from any offset: exactly the records that begin at or after the
      offset and lie wholly in the bytes kept. Read from the start, nothing is reported. */
  lemma ReadLogDelivers(c: Setup, records: seq<seq<byte>>, n: nat)
    requires n <= |LogBytes(c.fmt, 0, records)|
    ensures ReadLog(c, LogBytes(c.fmt, 0, records)[..n]).records == Delivered(c, 0, records, n)
    ensures c.initialOffset == 0 ==> ReadLog(c, LogBytes(c.fmt, 0, records)[..n]).reports == []
  {
    hide ReadAll, Image, Consume;
    var B := c.fmt.blockSize;
    var fs := LogFragments(B, 0, records);
    var file := LogBytes(c.fmt, 0, records)[..n];
    LogFragmentsChain(B, 0, records);
    LogFragmentsProper(B, 0, records);
    LogConsumed(c, 0, records, n, NoRecord);
    if c.initialOffset == 0 {
      assert file[0..] == file;
      ReadAllConsumes(c, file, 0, fs, NoRecord);
    } else {
      var q := InitialBlock(B, c.initialOffset);
      InitialBlockIsBoundary(B, c.initialOffset);
      var k := SplitAtBoundary(B, 0, fs, q);
      SkipBefore(c, 0, fs, k, n);
      HoldsFrom(c, file, fs, k, q);
      ReadAllConsumes(c, file, q, fs[k..], NoRecord.(resyncing := true));
      WholeProper(fs[k..], n);
      IdleStatesAgree(c, Whole(fs[k..], n), NoRecord.(resyncing := true), NoRecord);
    }
  }

  /** The position after the records. */
  function LogEnd(B: BlockSize, pos: nat, records: seq<seq<byte>>): nat
    decreases |records|
  {
    if records == [] then pos else LogEnd(B, EndOf(pos, Fragments(B, pos, records[0], true)), records[1..])
  }

  lemma {:induction false} LogEndIs(fmt: Format, pos: nat, records: seq<seq<byte>>)
    ensures LogEnd(fmt.blockSize, pos, records) == pos + |LogBytes(fmt, pos, records)|
    ensures LogEnd(fmt.blockSize, pos, records) == EndOf(pos, LogFragments(fmt.blockSize, pos, records))
    decreases |records|
  {
    hide Fragments, Off, Image, Chain;
    LogFragmentsChain(fmt.blockSize, pos, records);
    ImageLength(fmt, pos, LogFragments(fmt.blockSize, pos, records));
    if records != [] {
      var fs := Fragments(fmt.blockSize, pos, records[0], true);
      ChainConcat(fmt.blockSize, pos, fs, LogFragments(fmt.blockSize, EndOf(pos, fs), records[1..]));
      LogEndIs(fmt, EndOf(pos, fs), records[1..]);
    }
  }

  lemma LogEndFirst(B: BlockSize, pos: nat, records: seq<seq<byte>>, m: nat)
    requires m < |records|
    ensures LogEnd(B, pos, records[..m + 1]) == LogEnd(B, EndOf(pos, Fragments(B, pos, records[0], true)), records[1..][..m])
  {
    hide Fragments;
    assert records[..m + 1][1..] == records[1..][..m];
  }

  lemma {:induction false} DeliveredUpTo(c: Setup, pos: nat, records: seq<seq<byte>>, n: nat) returns (m: nat)
    requires c.initialOffset == 0 && pos <= n
    ensures m <= |records|
    ensures LogEnd(c.fmt.blockSize, pos, records[..m]) <= n
    ensures m < |records| ==> LogEnd(c.fmt.blockSize, pos, records[..m + 1]) > n
    ensures var d := Delivered(c, pos, records, n); |d| == m && forall i :: 0 <= i < m ==> d[i].record == records[i]
    decreases |records|
  {
    hide Fragments, LogEnd;
    m := 0;
    assert LogEnd(c.fmt.blockSize, pos, records[..0]) == pos by { LogEndNothing(c.fmt.blockSize, pos); }
    if records != [] {
      var next := EndOf(pos, Fragments(c.fmt.blockSize, pos, records[0], true));
      LogEndNothing(c.fmt.blockSize, next);
      if next <= n {
        var m' := DeliveredUpTo(c, next, records[1..], n);
        m := m' + 1;
        LogEndFirst(c.fmt.blockSize, pos, records, m');
        if m < |records| {
          LogEndFirst(c.fmt.blockSize, pos, records, m);
        }
      } else {
        LogEndFirst(c.fmt.blockSize, pos, records, 0);
      }
    }
  }

  lemma LogEndNothing(B: BlockSize, pos: nat)
    ensures LogEnd(B, pos, []) == pos
  {
  }

  /** What is delivered from the start of a log is the longest run of records that fits. */
  lemma DeliveredIsPrefix(c: Setup, records: seq<seq<byte>>, n: nat) returns (m: nat)
    requires c.initialOffset == 0
    ensures m <= |records|
    ensures |LogBytes(c.fmt, 0, records[..m])| <= n
    ensures m < |records| ==> |LogBytes(c.fmt, 0, records[..m + 1])| > n
    ensures var d := Delivered(c, 0, records, n); |d| == m && forall i :: 0 <= i < m ==> d[i].record == records[i]
  {
    hide LogEnd, LogBytes, Delivered;
    m := DeliveredUpTo(c, 0, records, n);
    LogEndIs(c.fmt, 0, records[..m]);
    if m < |records| {
      LogEndIs(c.fmt, 0, records[..m + 1]);
    }
  }

  /** Written whole and read from the start, a log gives back its records. */
  lemma RoundTrip(c: Setup, records: seq<seq<byte>>)
    requires c.initialOffset == 0
    ensures var r := ReadLog(c, LogBytes(c.fmt, 0, records));
      && |r.records| == |records| && (forall i :: 0 <= i < |records| ==> r.records[i].record == records[i])
      && r.reports == []
  {
    hide LogBytes, Delivered, ReadLog;
    var bytes := LogBytes(c.fmt, 0, records);
    ReadLogDelivers(c, records, |bytes|);
    assert bytes[..|bytes|] == bytes;
    var m := DeliveredIsPrefix(c, records, |bytes|);
    if m < |records| {
      assert records == records[..m + 1] + records[m + 1..];
      LogBytesConcat(c.fmt, 0, records[..m + 1], records[m + 1..]);
    }
  }
}
