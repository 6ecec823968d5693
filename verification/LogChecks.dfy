/** What the checksum is for: with it, a reader delivers of any file only what a writer would have written
    at that place, and reports the rest. */
module LogChecks {
  import opened Keys
  import opened LogFormat
  import opened LogReader

  lemma MaskUnmask(m: nat)
    requires m < TWO_32
    ensures Unmask(m) < TWO_32 && Mask(Unmask(m)) == m
  {
    var rot := (m + TWO_32 - 0xa282ead8) % TWO_32;
    var hi, lo := rot / 0x2_0000, rot % 0x2_0000;
    assert hi < 0x8000 && rot == hi * 0x2_0000 + lo;
    var crc := hi + lo * 0x8000;
    assert crc / 0x8000 == lo && crc % 0x8000 == hi;
    WrapForward(m, 0xa282ead8);
  }

  lemma WrapForward(m: nat, delta: nat)
    requires m < TWO_32 && delta < TWO_32
    ensures ((m + TWO_32 - delta) % TWO_32 + delta) % TWO_32 == m
  {
    if m >= delta {
      assert (m + TWO_32 - delta) % TWO_32 == m - delta;
    }
  }

  lemma EncodeDecodeFixed32(b: seq<byte>)
    requires |b| == 4
    ensures EncodeFixed32(DecodeFixed32(b)) == b
  {
    var b0: int, b1: int, b2: int, b3: int := b[0], b[1], b[2], b[3];
    var n := DecodeFixed32(b);
    assert n / 0x100_0000 == b3;
    assert n / 0x1_0000 == b2 + b3 * 0x100 && n / 0x1_0000 % 0x100 == b2;
    assert n / 0x100 == b1 + b2 * 0x100 + b3 * 0x1_0000 && n / 0x100 % 0x100 == b1;
  }

  // ---------- one fragment ----------

  /** The bytes at a position are those of a fragment as a writer makes it. */
  predicate Genuine(fmt: Format, file: seq<byte>, at: nat, kind: byte, payload: seq<byte>) {
    && |payload| < 0x1_0000 && at + HEADER + |payload| <= |file|
    && file[at..at + HEADER + |payload|] == Header(fmt, kind, payload) + payload
  }

  /** The sum that is stored is the fragment's, if and only if the bytes are what a writer makes of it. */
  lemma SumTellsGenuine(fmt: Format, file: seq<byte>, q: nat, next: nat)
    requires q + HEADER <= next <= |file|
    requires next - q - HEADER == (file[q + 4] as int) + (file[q + 5] as int) * 0x100
    ensures Checksum(fmt, file[q + 6..next]) == Unmask(DecodeFixed32(file[q..q + 4])) <==>
      Genuine(fmt, file, q, file[q + 6], file[q + HEADER..next])
  {
    hide Checksum, Mask, Unmask, DecodeFixed32, EncodeFixed32;
    var kind, payload := file[q + 6], file[q + HEADER..next];
    var stored := file[q..q + 4];
    assert file[q + 6..next] == [kind] + payload;
    EncodeDecodeFixed32(stored);
    MaskUnmask(DecodeFixed32(stored));
    var sum := Checksum(fmt, [kind] + payload);
    DecodeEncodeFixed32(Mask(sum));
    UnmaskMask(sum);
    HeaderParts(fmt, kind, payload, file[q..next]);
    assert file[q..next][..4] == stored;
  }

  lemma HeaderParts(fmt: Format, kind: byte, payload: seq<byte>, bytes: seq<byte>)
    requires |payload| < 0x1_0000 && |bytes| == HEADER + |payload| && bytes[HEADER..] == payload && bytes[6] == kind
    requires |payload| == (bytes[4] as int) + (bytes[5] as int) * 0x100
    ensures bytes == Header(fmt, kind, payload) + payload <==> bytes[..4] == EncodeFixed32(Mask(Checksum(fmt, [kind] + payload)))
  {
    hide Checksum, Mask, EncodeFixed32;
    var h := Header(fmt, kind, payload);
    assert h[4] == bytes[4] && h[5] == bytes[5] && h[6] == bytes[6];
    if bytes[..4] == h[..4] {
      assert bytes == bytes[..4] + [bytes[4], bytes[5], bytes[6]] + bytes[HEADER..];
    }
    if bytes == h + payload {
      assert bytes[..4] == h[..4];
    }
  }

  /** Whatever the file: a fragment that is returned is genuine, at its place after p, and in one block. */
  lemma TakenIsGenuine(c: Setup, file: seq<byte>, p: nat)
    requires c.checksum
    ensures var r := ReadPhysical(c, file, p);
      FULL <= r.kind <= LAST ==>
        var at := r.next - HEADER - |r.payload|;
        && at == Start(c.fmt.blockSize, p) && r.next <= at + Room(c.fmt.blockSize, at)
        && Genuine(c.fmt, file, at, r.kind, r.payload)
  {
    hide Off, Checksum, Unmask, DecodeFixed32, Genuine;
    var q := Start(c.fmt.blockSize, p);
    var e := BufferEnd(c, file, q);
    var r := ReadPhysical(c, file, p);
    if FULL <= r.kind <= LAST {
      SumTellsGenuine(c.fmt, file, q, r.next);
    }
  }

  /** The place of the next fragment, if what its header says is all in the buffer. */
  predicate Complete(c: Setup, file: seq<byte>, p: nat, next: nat) {
    var q := Start(c.fmt.blockSize, p);
    && q + HEADER <= next <= BufferEnd(c, file, q)
    && next == q + HEADER + (file[q + 4] as int) + (file[q + 5] as int) * 0x100
  }

  /** A complete fragment is returned if and only if it is genuine; otherwise the rest of the block is
      dropped with it, and reported. */
  lemma GenuineIsTakenIff(c: Setup, file: seq<byte>, p: nat, next: nat)
    requires c.checksum && Start(c.fmt.blockSize, p) >= c.initialOffset && Complete(c, file, p, next)
    requires FULL <= file[Start(c.fmt.blockSize, p) + 6] <= LAST
    ensures var q := Start(c.fmt.blockSize, p);
      var e, kind, payload := BufferEnd(c, file, q), file[q + 6], file[q + HEADER..next];
      ReadPhysical(c, file, p) ==
        if Genuine(c.fmt, file, q, kind, payload) then Physical(kind, payload, next, []) else Physical(BAD, [], e, [e - q])
  {
    hide Off, Checksum, Unmask, DecodeFixed32, Genuine;
    SumTellsGenuine(c.fmt, file, Start(c.fmt.blockSize, p), next);
  }

  /** So a fragment some of whose payload was altered is never returned, if the checksum tells the two
      apart. */
  lemma AlteredIsDropped(c: Setup, file: seq<byte>, p: nat, kind: byte, written: seq<byte>, found: seq<byte>)
    requires var q := Start(c.fmt.blockSize, p);
      && c.checksum && q >= c.initialOffset && |written| == |found| < 0x1_0000 && FULL <= kind <= LAST
      && q + HEADER + |found| <= BufferEnd(c, file, q)
      && file[q..q + HEADER + |found|] == Header(c.fmt, kind, written) + found
    requires Checksum(c.fmt, [kind] + written) != Checksum(c.fmt, [kind] + found)
    ensures var q := Start(c.fmt.blockSize, p);
      var e := BufferEnd(c, file, q);
      ReadPhysical(c, file, p) == Physical(BAD, [], e, [e - q])
  {
    var q := Start(c.fmt.blockSize, p);
    BufferInFile(c, file, q);
    AlteredParts(c.fmt, file, q, kind, written, found);
    AlteredIsNotGenuine(c.fmt, file, q, kind, written, found);
    hide Start, BufferEnd, Genuine, ReadPhysical, Header, Checksum, Report;
    GenuineIsTakenIff(c, file, p, q + HEADER + |found|);
  }

  lemma AlteredParts(fmt: Format, file: seq<byte>, at: nat, kind: byte, written: seq<byte>, found: seq<byte>)
    requires |written| == |found| < 0x1_0000 && at + HEADER + |found| <= |file|
    requires file[at..at + HEADER + |found|] == Header(fmt, kind, written) + found
    ensures file[at + 4] as int + file[at + 5] as int * 0x100 == |found| && file[at + 6] == kind
    ensures file[at + HEADER..at + HEADER + |found|] == found
  {
    HeaderInNumbers(fmt, kind, written);
    hide Header, Checksum, Mask, DecodeFixed32;
    var bytes := file[at..at + HEADER + |found|];
    assert bytes[4] == file[at + 4] && bytes[5] == file[at + 5] && bytes[6] == file[at + 6];
    assert bytes[HEADER..] == found;
    assert file[at + HEADER..at + HEADER + |found|] == bytes[HEADER..];
  }

  lemma AlteredIsNotGenuine(fmt: Format, file: seq<byte>, at: nat, kind: byte, written: seq<byte>, found: seq<byte>)
    requires |written| == |found| < 0x1_0000 && at + HEADER + |found| <= |file|
    requires file[at..at + HEADER + |found|] == Header(fmt, kind, written) + found
    requires Checksum(fmt, [kind] + written) != Checksum(fmt, [kind] + found)
    ensures !Genuine(fmt, file, at, kind, found)
  {
    OtherHeader(fmt, kind, written, found);
    hide Checksum, Header;
    assert (Header(fmt, kind, written) + found)[..HEADER] == Header(fmt, kind, written);
    assert (Header(fmt, kind, found) + found)[..HEADER] == Header(fmt, kind, found);
  }

  lemma BufferInFile(c: Setup, file: seq<byte>, q: nat)
    ensures BufferEnd(c, file, q) <= |file|
  {
    hide Off;
  }

  lemma OtherHeader(fmt: Format, kind: byte, a: seq<byte>, b: seq<byte>)
    requires |a| == |b| < 0x1_0000 && Checksum(fmt, [kind] + a) != Checksum(fmt, [kind] + b)
    ensures Header(fmt, kind, a) != Header(fmt, kind, b)
  {
    hide Checksum, Mask, Unmask, EncodeFixed32, DecodeFixed32;
    var x, y := Checksum(fmt, [kind] + a), Checksum(fmt, [kind] + b);
    UnmaskMask(x);
    UnmaskMask(y);
    DecodeEncodeFixed32(Mask(x));
    DecodeEncodeFixed32(Mask(y));
    assert Header(fmt, kind, a)[..4] == EncodeFixed32(Mask(x)) && Header(fmt, kind, b)[..4] == EncodeFixed32(Mask(y));
  }

  // ---------- records ----------

  datatype Piece = Piece(at: nat, kind: byte, payload: seq<byte>)

  function EndOf(piece: Piece): nat {
    piece.at + HEADER + |piece.payload|
  }

  function Joined(pieces: seq<Piece>): seq<byte> {
    if pieces == [] then [] else Joined(pieces[..|pieces| - 1]) + pieces[|pieces| - 1].payload
  }

  /** Genuine fragments, each right behind the one before, that begin a record: a first one and middle ones. */
  ghost predicate Begun(fmt: Format, file: seq<byte>, pieces: seq<Piece>) {
    && pieces != [] && pieces[0].kind == FIRST
    && (forall i :: 0 < i < |pieces| ==> pieces[i].kind == MIDDLE && pieces[i].at == Start(fmt.blockSize, EndOf(pieces[i - 1])))
    && forall i :: 0 <= i < |pieces| ==> Genuine(fmt, file, pieces[i].at, pieces[i].kind, pieces[i].payload)
  }

  /** All of a record: one full fragment, or a begun record and a last one. */
  ghost predicate Ended(fmt: Format, file: seq<byte>, pieces: seq<Piece>) {
    pieces != [] &&
    var n := |pieces| - 1;
    && Genuine(fmt, file, pieces[n].at, pieces[n].kind, pieces[n].payload)
    && if n == 0 then pieces[0].kind == FULL
       else pieces[n].kind == LAST && pieces[n].at == Start(fmt.blockSize, EndOf(pieces[n - 1])) && Begun(fmt, file, pieces[..n])
  }

  ghost predicate MadeOf(fmt: Format, file: seq<byte>, pieces: seq<Piece>, record: Found) {
    Ended(fmt, file, pieces) && record.record == Joined(pieces) && record.offset == pieces[0].at
  }

  ghost predicate Vouched(fmt: Format, file: seq<byte>, record: Found) {
    exists pieces :: MadeOf(fmt, file, pieces, record)
  }

  /** What a reader has gathered is what the pieces hold. */
  ghost predicate Gathered(c: Setup, file: seq<byte>, p: nat, st: Partial, pieces: seq<Piece>) {
    st.inFragmented ==>
      && !st.resyncing && Begun(c.fmt, file, pieces) && EndOf(pieces[|pieces| - 1]) == p
      && st.scratch == Joined(pieces) && st.offset == pieces[0].at
  }

  lemma OnePieceMore(pieces: seq<Piece>, piece: Piece)
    ensures Joined(pieces + [piece]) == Joined(pieces) + piece.payload
  {
    assert (pieces + [piece])[..|pieces|] == pieces;
  }

  lemma OnePiece(piece: Piece)
    ensures Joined([piece]) == piece.payload
  {
    assert [piece][..0] == [];
  }

  lemma BegunGrows(fmt: Format, file: seq<byte>, pieces: seq<Piece>, piece: Piece)
    requires Begun(fmt, file, pieces) && piece.at == Start(fmt.blockSize, EndOf(pieces[|pieces| - 1]))
    requires Genuine(fmt, file, piece.at, piece.kind, piece.payload)
    ensures piece.kind == MIDDLE ==> Begun(fmt, file, pieces + [piece])
    ensures piece.kind == LAST ==> Ended(fmt, file, pieces + [piece])
  {
    hide Genuine;
    assert (pieces + [piece])[..|pieces|] == pieces;
  }

  /** One physical record takes a reader that has gathered genuine pieces to another such state, or to a
      record made of such. */
  lemma StepIsGenuine(c: Setup, file: seq<byte>, p: nat, st: Partial, pieces: seq<Piece>) returns (pieces': seq<Piece>)
    requires c.checksum && Gathered(c, file, p, st, pieces)
    ensures StepsTo(c, file, ReadPhysical(c, file, p), st, pieces')
  {
    var r := ReadPhysical(c, file, p);
    TakenIsGenuine(c, file, p);
    hide ReadPhysical, Genuine, Start, Room;
    if FULL <= r.kind <= LAST {
      var piece := Piece(r.next - HEADER - |r.payload|, r.kind, r.payload);
      hide Gathered, StepsTo;
      if r.kind == FULL || r.kind == FIRST {
        pieces' := [piece];
        Restarts(c, file, r, st, piece);
      } else if st.inFragmented {
        pieces' := pieces + [piece];
        GoesOn(c, file, p, r, st, pieces, piece);
      } else {
        pieces' := pieces;
        Ignored(c, file, r, st, pieces);
      }
    } else {
      pieces' := pieces;
      StaysBehind(c, file, p, r, st, pieces);
    }
  }

  ghost predicate StepsTo(c: Setup, file: seq<byte>, r: Physical, st: Partial, pieces': seq<Piece>) {
    match Step(c, st, r)
    case Stop => true
    case Continue(st', _) => r.kind != EOF ==> Gathered(c, file, r.next, st', pieces')
    case Done(record, offset, _) => MadeOf(c.fmt, file, pieces', Found(record, offset))
  }

  lemma Restarts(c: Setup, file: seq<byte>, r: Physical, st: Partial, piece: Piece)
    requires (r.kind == FULL || r.kind == FIRST) && r.next >= HEADER + |r.payload|
    requires piece == Piece(r.next - HEADER - |r.payload|, r.kind, r.payload)
    requires Genuine(c.fmt, file, piece.at, piece.kind, piece.payload)
    ensures StepsTo(c, file, r, st, [piece])
  {
    hide Genuine, Joined, Begun, Report;
    OnePiece(piece);
    BegunAlone(c.fmt, file, piece);
  }

  lemma GoesOn(c: Setup, file: seq<byte>, p: nat, r: Physical, st: Partial, pieces: seq<Piece>, piece: Piece)
    requires (r.kind == MIDDLE || r.kind == LAST) && r.next >= HEADER + |r.payload|
    requires piece == Piece(r.next - HEADER - |r.payload|, r.kind, r.payload)
    requires Genuine(c.fmt, file, piece.at, piece.kind, piece.payload) && piece.at == Start(c.fmt.blockSize, p)
    requires st.inFragmented && Gathered(c, file, p, st, pieces) && !st.resyncing
    ensures StepsTo(c, file, r, st, pieces + [piece])
  {
    hide Genuine, Joined, Report;
    OnePieceMore(pieces, piece);
    BegunGrows(c.fmt, file, pieces, piece);
    hide Begun, Ended;
  }

  lemma Ignored(c: Setup, file: seq<byte>, r: Physical, st: Partial, pieces: seq<Piece>)
    requires (r.kind == MIDDLE || r.kind == LAST) && !st.inFragmented
    ensures StepsTo(c, file, r, st, pieces)
  {
    hide Report, Begun, Joined;
  }

  lemma StaysBehind(c: Setup, file: seq<byte>, p: nat, r: Physical, st: Partial, pieces: seq<Piece>)
    requires Gathered(c, file, p, st, pieces) && !(FULL <= r.kind <= LAST)
    ensures StepsTo(c, file, r, st, pieces)
  {
    hide Report, Begun, Joined;
  }

  lemma BegunAlone(fmt: Format, file: seq<byte>, piece: Piece)
    requires Genuine(fmt, file, piece.at, piece.kind, piece.payload)
    ensures piece.kind == FIRST ==> Begun(fmt, file, [piece])
  {
  }

  lemma {:induction false} AllVouched(c: Setup, file: seq<byte>, p: nat, st: Partial, pieces: seq<Piece>)
    requires c.checksum && Gathered(c, file, p, st, pieces)
    ensures forall record :: record in ReadAll(c, file, p, st).records ==> Vouched(c.fmt, file, record)
    decreases if p <= |file| then |file| - p else 0
  {
    var r := ReadPhysical(c, file, p);
    var pieces' := StepIsGenuine(c, file, p, st, pieces);
    ReadOn(c, file, p, st, r);
    hide ReadPhysical, Gathered, ReadAll, MadeOf;
    match Step(c, st, r) {
      case Stop =>
      case Continue(st', _) => if r.kind != EOF { AllVouched(c, file, r.next, st', pieces'); }
      case Done(record, offset, _) =>
        NothingGathered(c, file, r.next);
        AllVouched(c, file, r.next, NoRecord, []);
    }
  }

  lemma NothingGathered(c: Setup, file: seq<byte>, p: nat)
    ensures Gathered(c, file, p, NoRecord, []) && Gathered(c, file, p, NoRecord.(resyncing := true), [])
  {
  }

  /** With checksums on, every record that is delivered, of any file and from any offset, is made of fragments
      that stand in the file byte for byte as a writer makes them. */
  lemma DeliveredIsGenuine(c: Setup, file: seq<byte>)
    requires c.checksum
    ensures forall record :: record in ReadLog(c, file).records ==> Vouched(c.fmt, file, record)
  {
    hide ReadAll, Gathered, Vouched, InitialBlock;
    var start := if c.initialOffset == 0 then 0 else InitialBlock(c.fmt.blockSize, c.initialOffset);
    var st := if c.initialOffset == 0 then NoRecord else NoRecord.(resyncing := true);
    NothingGathered(c, file, start);
    AllVouched(c, file, start, st, []);
  }
}
