/** log::Reader: reads physical records block by block and reassembles logical ones. */
module LogReader {
  import opened Keys
  import opened LogFormat

  /** What a reader is set up with: framing, whether to verify checksums, the offset to start at. */
  datatype Setup = Setup(fmt: Format, checksum: bool, initialOffset: nat)

  /** One result of ReadPhysicalRecord: its type, its payload, the position reached, and the sizes
      of the drops it reported. */
  datatype Physical = Physical(kind: byte, payload: seq<byte>, next: nat, reports: seq<nat>)

  /** ReportDrop: a drop that began before the initial offset is not reported. */
  function Report(c: Setup, next: nat, bytes: nat): seq<nat> {
    if next - bytes >= c.initialOffset then [bytes] else []
  }

  /** The end of the part of the block holding position q that is in the file. */
  function BufferEnd(c: Setup, file: seq<byte>, q: nat): nat {
    var e := q + Room(c.fmt.blockSize, q);
    if |file| < e then |file| else e
  }

  function ReadPhysical(c: Setup, file: seq<byte>, p: nat): (r: Physical)
    ensures r.kind != EOF ==> p + |r.payload| < r.next <= |file|
    ensures FULL <= r.kind <= LAST ==> r.next - HEADER - |r.payload| >= c.initialOffset
  {
    var q := Start(c.fmt.blockSize, p);
    var e := BufferEnd(c, file, q);
    if e < q + HEADER then Physical(EOF, [], e, [])
    else ParsePhysical(c, file, q, e)
  }

  /** Parses the physical record at q; e is the end of what the buffer holds. */
  function ParsePhysical(c: Setup, file: seq<byte>, q: nat, e: nat): (r: Physical)
    requires q + HEADER <= e <= |file|
    ensures r.kind != EOF ==> q + |r.payload| < r.next <= e
    ensures FULL <= r.kind <= LAST ==> r.next - HEADER - |r.payload| >= c.initialOffset
  {
    var length: nat := (file[q + 4] as int) + (file[q + 5] as int) * 0x100;
    var kind := file[q + 6];
    if q + HEADER + length > e then
      if e == q + Room(c.fmt.blockSize, q) then Physical(BAD, [], e, Report(c, e, e - q))
      else Physical(EOF, [], e, [])
    else if kind == ZERO && length == 0 then Physical(BAD, [], e, [])
    else
      var next := q + HEADER + length;
      if c.checksum && Checksum(c.fmt, file[q + 6..next]) != Unmask(DecodeFixed32(file[q..q + 4])) then
        Physical(BAD, [], e, Report(c, e, e - q))
      else if q < c.initialOffset then Physical(BAD, [], next, [])
      else Physical(kind, file[q + HEADER..next], next, [])
  }

  // ---------- reassembly ----------

  datatype Partial = Partial(resyncing: bool, inFragmented: bool, scratch: seq<byte>, offset: nat)

  datatype Outcome =
    | Continue(state: Partial, reports: seq<nat>)
    | Done(record: seq<byte>, offset: nat, reports: seq<nat>)
    | Stop

  function Discard(c: Setup, st: Partial, next: nat): seq<nat> {
    if st.inFragmented && st.scratch != [] then Report(c, next, |st.scratch|) else []
  }

  /** What ReadRecord does with one physical record. */
  function Step(c: Setup, st0: Partial, r: Physical): Outcome {
    if st0.resyncing && r.kind == MIDDLE then Continue(st0, [])
    else if st0.resyncing && r.kind == LAST then Continue(st0.(resyncing := false), [])
    else
      var st := st0.(resyncing := false);
      var at := if r.next >= HEADER + |r.payload| then r.next - HEADER - |r.payload| else 0;
      if r.kind == FULL then Done(r.payload, at, Discard(c, st, r.next))
      else if r.kind == FIRST then Continue(Partial(false, true, r.payload, at), Discard(c, st, r.next))
      else if r.kind == MIDDLE then
        if st.inFragmented then Continue(st.(scratch := st.scratch + r.payload), [])
        else Continue(st, Report(c, r.next, |r.payload|))
      else if r.kind == LAST then
        if st.inFragmented then Done(st.scratch + r.payload, st.offset, [])
        else Continue(st, Report(c, r.next, |r.payload|))
      else if r.kind == EOF then Stop
      else if r.kind == BAD then
        if st.inFragmented then Continue(st.(inFragmented := false, scratch := []), Report(c, r.next, |st.scratch|))
        else Continue(st, [])
      else
        Continue(st.(inFragmented := false, scratch := []),
                 Report(c, r.next, |r.payload| + if st.inFragmented then |st.scratch| else 0))
  }

  const NoRecord := Partial(false, false, [], 0)

  datatype Found = Found(record: seq<byte>, offset: nat)
  datatype Reading = Reading(records: seq<Found>, reports: seq<nat>)

  function Prepend(records: seq<Found>, reports: seq<nat>, rest: Reading): Reading {
    Reading(records + rest.records, reports + rest.reports)
  }

  /** All that repeated calls of ReadRecord deliver and report from position p on. */
  function ReadAll(c: Setup, file: seq<byte>, p: nat, st: Partial): Reading
    decreases if p <= |file| then |file| - p else 0
  {
    var r := ReadPhysical(c, file, p);
    match Step(c, st, r)
    case Stop => Reading([], r.reports)
    case Continue(st', reports) =>
      if r.kind == EOF then Reading([], r.reports)
      else Prepend([], r.reports + reports, ReadAll(c, file, r.next, st'))
    case Done(record, offset, reports) =>
      Prepend([Found(record, offset)], r.reports + reports, ReadAll(c, file, r.next, NoRecord))
  }

  lemma PrependTwice(soFar: seq<nat>, records: seq<Found>, reports: seq<nat>, rest: Reading)
    ensures Prepend([], soFar, Prepend(records, reports, rest)) == Prepend(records, soFar + reports, rest)
  {
    assert soFar + (reports + rest.reports) == (soFar + reports) + rest.reports;
  }

  /** What is read when an outcome is reached at position next after the given reports. */
  function After(c: Setup, file: seq<byte>, next: nat, o: Outcome, soFar: seq<nat>): Reading {
    match o
    case Stop => Reading([], soFar)
    case Continue(st, reports) => Prepend([], soFar + reports, ReadAll(c, file, next, st))
    case Done(record, offset, reports) => Prepend([Found(record, offset)], soFar + reports, ReadAll(c, file, next, NoRecord))
  }

  lemma ReadOn(c: Setup, file: seq<byte>, p: nat, st: Partial, r: Physical)
    requires r == ReadPhysical(c, file, p)
    ensures ReadAll(c, file, p, st) == After(c, file, r.next, Step(c, st, r), r.reports)
  {
  }

  /** The block SkipToInitialBlock starts at. */
  function InitialBlock(B: BlockSize, initialOffset: nat): nat {
    var offsetInBlock := Off(B, initialOffset);
    initialOffset - offsetInBlock + if offsetInBlock > B - 6 then B else 0
  }

  /** All that a fresh reader delivers and reports. */
  function ReadLog(c: Setup, file: seq<byte>): Reading {
    if c.initialOffset == 0 then ReadAll(c, file, 0, NoRecord)
    else ReadAll(c, file, InitialBlock(c.fmt.blockSize, c.initialOffset), NoRecord.(resyncing := true))
  }

  // ---------- the code ----------

  lemma OffBoundary(B: BlockSize, pos: nat)
    ensures Off(B, pos - Off(B, pos)) == 0
    ensures Off(B, pos - Off(B, pos) + B) == 0
    decreases pos
  {
    if pos >= B {
      OffBoundary(B, pos - B);
    }
  }

  class Reader {
    const setup: Setup
    const file: seq<byte>
    var filePos: nat             // the SequentialFile's position
    var buffer: seq<byte>
    var eof: bool
    var lastRecordOffset: nat
    var endOfBufferOffset: nat
    var resyncing: bool
    var reports: seq<nat>        // sizes passed to the reporter

    /** The position of the next unread byte. */
    ghost function Pos(): int
      reads this
    {
      endOfBufferOffset - |buffer|
    }

    /** Either the buffer is the rest of its block in the file, or it is used up. */
    ghost predicate Valid()
      reads this
    {
      && filePos == endOfBufferOffset
      && |buffer| <= endOfBufferOffset
      && (|buffer| > 0 ==> endOfBufferOffset <= |file| && buffer == file[Pos()..endOfBufferOffset])
      && (|buffer| > 0 ==> endOfBufferOffset == BufferEnd(setup, file, Pos()))
      && (|buffer| > 0 ==> (eof <==> endOfBufferOffset < Pos() + Room(setup.fmt.blockSize, Pos())))
      && (!eof ==> Off(setup.fmt.blockSize, endOfBufferOffset) == 0)
      && (eof ==> endOfBufferOffset >= |file|)
    }

    constructor (setup: Setup, file: seq<byte>)
      ensures Valid() && this.setup == setup && this.file == file
      ensures buffer == [] && !eof && lastRecordOffset == 0 && endOfBufferOffset == 0 && reports == []
      ensures resyncing == (setup.initialOffset > 0)
    {
      this.setup, this.file := setup, file;
      filePos, buffer, eof, lastRecordOffset, endOfBufferOffset, reports := 0, [], false, 0, 0, [];
      resyncing := setup.initialOffset > 0;
    }

    method SkipToInitialBlock()
      requires filePos == 0 && buffer == [] && !eof
      modifies this
      ensures Valid() && Pos() == InitialBlock(setup.fmt.blockSize, setup.initialOffset)
      ensures buffer == [] && lastRecordOffset == old(lastRecordOffset)
      ensures resyncing == old(resyncing) && reports == old(reports)
    {
      var offsetInBlock := setup.initialOffset % setup.fmt.blockSize;
      OffIsMod(setup.fmt.blockSize, setup.initialOffset);
      OffBoundary(setup.fmt.blockSize, setup.initialOffset);
      var blockStart := setup.initialOffset - offsetInBlock;
      if offsetInBlock > setup.fmt.blockSize - 6 {
        blockStart := blockStart + setup.fmt.blockSize;
      }
      endOfBufferOffset := blockStart;
      if blockStart > 0 {
        filePos := blockStart;   // file_->Skip
      }
    }

    /** file_->Read(kBlockSize, &buffer_). */
    method ReadBlock()
      requires Valid() && !eof && |buffer| == 0
      modifies this
      ensures Valid()
      ensures old(filePos) >= |file| ==> |buffer| == 0 && eof && endOfBufferOffset == old(endOfBufferOffset)
      ensures old(filePos) < |file| ==> |buffer| > 0 && Pos() == old(Pos())
      ensures eof <==> |file| < old(filePos) + setup.fmt.blockSize
      ensures lastRecordOffset == old(lastRecordOffset) && resyncing == old(resyncing) && reports == old(reports)
    {
      var to := if filePos + setup.fmt.blockSize <= |file| then filePos + setup.fmt.blockSize else if filePos <= |file| then |file| else filePos;
      buffer := if filePos < to then file[filePos..to] else [];
      OffAdd(setup.fmt.blockSize, filePos, Room(setup.fmt.blockSize, filePos));
      filePos := to;
      endOfBufferOffset := endOfBufferOffset + |buffer|;
      if |buffer| < setup.fmt.blockSize {
        eof := true;
      }
    }

    method ReportDrop(bytes: nat)
      requires bytes <= Pos()
      modifies this`reports
      ensures reports == old(reports) + Report(setup, Pos(), bytes)
    {
      if endOfBufferOffset - |buffer| - bytes >= setup.initialOffset {
        reports := reports + [bytes];
      }
    }

    method ReadPhysicalRecord() returns (kind: byte, fragment: seq<byte>)
      requires Valid() && Pos() >= 0
      modifies this
      ensures Valid() && lastRecordOffset == old(lastRecordOffset) && resyncing == old(resyncing)
      ensures var r := ReadPhysical(setup, file, old(Pos()));
        && kind == r.kind && fragment == r.payload
        && reports == old(reports) + r.reports
        && (kind != EOF ==> Pos() == r.next)
    {
      hide ParsePhysical, Off;
      ghost var p := Pos();
      StartRoom(setup.fmt.blockSize, p);
      while |buffer| < HEADER
        invariant Valid() && Pos() >= 0
        invariant Start(setup.fmt.blockSize, Pos()) == Start(setup.fmt.blockSize, p)
        invariant lastRecordOffset == old(lastRecordOffset) && resyncing == old(resyncing) && reports == old(reports)
        decreases !eof, HEADER - |buffer|
      {
        if !eof {
          buffer := [];
          ReadBlock();
        } else {
          buffer := [];
          return EOF, [];
        }
      }
      kind, fragment := ParseHeader();
    }

    method ParseHeader() returns (kind: byte, fragment: seq<byte>)
      requires Valid() && |buffer| >= HEADER
      modifies this
      ensures Valid() && lastRecordOffset == old(lastRecordOffset) && resyncing == old(resyncing)
      ensures var r := ParsePhysical(setup, file, old(Pos()), old(endOfBufferOffset));
        && kind == r.kind && fragment == r.payload
        && reports == old(reports) + r.reports
        && Pos() == r.next
    {
      hide Off, Mask, Unmask, DecodeFixed32, Checksum;
      var header := buffer;
      assert forall i :: 0 <= i < |header| ==> header[i] == file[Pos() + i];
      var length: nat := (header[4] as int) + (header[5] as int) * 0x100;
      if HEADER + length > |buffer| {
        if !eof {
          DropBuffer(true);
          return BAD, [];
        }
        DropBuffer(false);
        return EOF, [];
      }
      if header[6] == ZERO && length == 0 {
        DropBuffer(false);
        return BAD, [];
      }
      assert header[6..HEADER + length] == file[Pos() + 6..Pos() + HEADER + length];
      assert header[..4] == file[Pos()..Pos() + 4];
      if setup.checksum {
        var expected := Unmask(DecodeFixed32(header[..4]));
        var actual := Checksum(setup.fmt, header[6..HEADER + length]);
        if actual != expected {
          DropBuffer(true);
          return BAD, [];
        }
      }
      RemovePrefix(HEADER + length);
      if endOfBufferOffset - |buffer| - HEADER - length < setup.initialOffset {
        return BAD, [];
      }
      return header[6], header[HEADER..HEADER + length];
    }

    /** Clears the buffer, reporting its size or not. */
    method DropBuffer(report: bool)
      requires Valid() && |buffer| > 0
      modifies this`buffer, this`reports
      ensures Valid() && buffer == []
      ensures reports == old(reports) + if report then Report(setup, endOfBufferOffset, |old(buffer)|) else []
    {
      var dropSize := |buffer|;
      OffAdd(setup.fmt.blockSize, Pos(), |buffer|);
      buffer := [];
      if report {
        ReportDrop(dropSize);
      }
    }

    method RemovePrefix(n: nat)
      requires Valid() && n <= |buffer|
      modifies this`buffer
      ensures Valid() && Pos() == old(Pos()) + n
    {
      if |buffer| > 0 {
        OffAdd(setup.fmt.blockSize, Pos(), n);
      }
      buffer := buffer[n..];
    }

    /** All that is still to be delivered and reported. */
    ghost function Rest(): Reading
      requires Pos() >= 0
      reads this
    {
      ReadAll(setup, file,
        if lastRecordOffset < setup.initialOffset then InitialBlock(setup.fmt.blockSize, setup.initialOffset) else Pos(),
        NoRecord.(resyncing := resyncing))
    }

    /** May be called until it fails. */
    ghost predicate Ready()
      reads this
    {
      Valid() && (lastRecordOffset < setup.initialOffset ==> filePos == 0 && buffer == [] && !eof)
    }

    method ReadRecord() returns (found: bool, record: seq<byte>)
      requires Ready()
      modifies this
      ensures Valid() && old(reports) <= reports
      ensures found ==> Ready() && old(Rest()) == Prepend([Found(record, lastRecordOffset)], reports[|old(reports)|..], Rest())
      ensures !found ==> old(Rest()) == Reading([], reports[|old(reports)|..])
      ensures found ==> old(Pos()) < Pos() <= |file|
    {
      hide ReadAll, ReadPhysical;
      ghost var all, start, p0 := Rest(), reports, Pos();
      if lastRecordOffset < setup.initialOffset {
        SkipToInitialBlock();
      }
      record := [];
      var st := Partial(resyncing, false, [], 0);
      while true
        invariant Valid() && p0 <= Pos() && |st.scratch| <= Pos() && st.resyncing == resyncing
        invariant st.inFragmented ==> st.offset >= setup.initialOffset
        invariant start <= reports
        invariant all == Prepend([], reports[|start|..], ReadAll(setup, file, Pos(), st))
        decreases |file| - Pos()
      {
        ghost var before := reports;
        var next;
        found, next, record, st := ReadFragment(st);
        ghost var added := reports[|before|..];
        assert reports[|start|..] == before[|start|..] + added;
        PrependTwice(before[|start|..], if found then [Found(record, lastRecordOffset)] else [], added,
          if found then ReadAll(setup, file, Pos(), NoRecord) else if next then ReadAll(setup, file, Pos(), st) else Reading([], []));
        if !next {
          return;
        }
      }
    }

    /** One turn of ReadRecord's loop. */
    method ReadFragment(st0: Partial) returns (found: bool, next: bool, record: seq<byte>, st: Partial)
      requires Valid() && Pos() >= 0 && |st0.scratch| <= Pos() && st0.resyncing == resyncing
      requires st0.inFragmented ==> st0.offset >= setup.initialOffset
      modifies this
      ensures Valid() && old(reports) <= reports && !(found && next)
      ensures next ==> st.resyncing == resyncing && |st.scratch| <= Pos() && (st.inFragmented ==> st.offset >= setup.initialOffset)
      ensures found || next ==> old(Pos()) < Pos() <= |file|
      ensures found ==> lastRecordOffset >= setup.initialOffset && !resyncing
      ensures old(ReadAll(setup, file, Pos(), st0)) ==
        Prepend(if found then [Found(record, lastRecordOffset)] else [], reports[|old(reports)|..],
          if found then ReadAll(setup, file, Pos(), NoRecord) else if next then ReadAll(setup, file, Pos(), st) else Reading([], []))
    {
      hide ReadAll, ReadPhysical;
      ghost var p := Pos();
      ghost var r := ReadPhysical(setup, file, p);
      ReadOn(setup, file, p, st0, r);
      var kind, fragment := ReadPhysicalRecord();
      found, next, record, st := Assemble(st0, kind, fragment, r);
    }

    /** The part of ReadRecord's loop after the call of ReadPhysicalRecord. The loop's locals
        in_fragmented_record, scratch and prospective_record_offset are in st. */
    method Assemble(st0: Partial, kind: byte, fragment: seq<byte>, ghost r: Physical)
      returns (found: bool, next: bool, record: seq<byte>, st: Partial)
      requires st0.resyncing == resyncing && kind == r.kind && fragment == r.payload
      requires kind != EOF ==> Pos() == r.next && |st0.scratch| + |fragment| < Pos()
      requires FULL <= kind <= LAST ==> Pos() - HEADER - |fragment| >= setup.initialOffset
      requires st0.inFragmented ==> st0.offset >= setup.initialOffset
      modifies this`resyncing, this`lastRecordOffset, this`reports
      ensures match Step(setup, st0, r) {
        case Stop => !found && !next && reports == old(reports)
        case Continue(st', reports') => !found && next && st == st' && reports == old(reports) + reports'
        case Done(record', offset, reports') =>
          found && !next && record == record' && lastRecordOffset == offset && !resyncing && reports == old(reports) + reports'
      }
      ensures next ==> st.resyncing == resyncing && |st.scratch| <= Pos() && lastRecordOffset == old(lastRecordOffset)
      ensures next ==> kind != EOF && (st.inFragmented ==> st.offset >= setup.initialOffset)
      ensures found ==> lastRecordOffset >= setup.initialOffset && kind != EOF
    {
      var inFragmented, scratch, prospective := st0.inFragmented, st0.scratch, st0.offset;
      found, next, record, st := false, true, [], st0;
      if resyncing {
        if kind == MIDDLE {
          return;
        } else if kind == LAST {
          resyncing := false;
          st := st0.(resyncing := false);
          return;
        } else {
          resyncing := false;
        }
      }
      if kind == FULL {
        if inFragmented && scratch != [] {
          ReportDrop(|scratch|);
        }
        lastRecordOffset := endOfBufferOffset - |buffer| - HEADER - |fragment|;
        found, next, record := true, false, fragment;
      } else if kind == FIRST {
        if inFragmented && scratch != [] {
          ReportDrop(|scratch|);
        }
        prospective := endOfBufferOffset - |buffer| - HEADER - |fragment|;
        scratch := fragment;
        inFragmented := true;
      } else if kind == MIDDLE {
        if !inFragmented {
          ReportDrop(|fragment|);
        } else {
          scratch := scratch + fragment;
        }
      } else if kind == LAST {
        if !inFragmented {
          ReportDrop(|fragment|);
        } else {
          scratch := scratch + fragment;
          lastRecordOffset := prospective;
          found, next, record := true, false, scratch;
        }
      } else if kind == EOF {
        next := false;
      } else if kind == BAD {
        if inFragmented {
          ReportDrop(|scratch|);
          inFragmented, scratch := false, [];
        }
      } else {
        ReportDrop(|fragment| + if inFragmented then |scratch| else 0);
        inFragmented, scratch := false, [];
      }
      st := Partial(false, inFragmented, scratch, prospective);
    }
  }
}
