/** The write-ahead log's framing: blocks, physical records, and the bytes of a log. */
module LogFormat {
  import opened Keys

  const HEADER: nat := 7

  // A fragment's length must fit in two bytes, and a block must hold more than a header.
  type BlockSize = b: nat | HEADER < b <= 0xFFFF + HEADER witness 32768

  const ZERO: byte := 0
  const FULL: byte := 1
  const FIRST: byte := 2
  const MIDDLE: byte := 3
  const LAST: byte := 4
  const EOF: byte := 5   // kMaxRecordType + 1
  const BAD: byte := 6   // kMaxRecordType + 2

  /** The block size, and an arbitrary checksum. */
  datatype Format = Format(blockSize: BlockSize, crc: seq<byte> -> nat)

  const TWO_32: nat := 0x1_0000_0000

  function Checksum(f: Format, data: seq<byte>): (c: nat)
    ensures c < TWO_32
  {
    (f.crc)(data) % TWO_32
  }

  /** crc32c::Mask: rotate right by 15 bits and add a constant. */
  function Mask(crc: nat): (m: nat)
    requires crc < TWO_32
    ensures m < TWO_32
  {
    (crc / 0x8000 + crc % 0x8000 * 0x2_0000 + 0xa282ead8) % TWO_32
  }

  function Unmask(masked: nat): nat
    requires masked < TWO_32
  {
    var rot := (masked + TWO_32 - 0xa282ead8) % TWO_32;
    rot / 0x2_0000 + rot % 0x2_0000 * 0x8000
  }

  lemma UnmaskMask(crc: nat)
    requires crc < TWO_32
    ensures Unmask(Mask(crc)) == crc
  {
    var hi, lo := crc / 0x8000, crc % 0x8000;
    var rot := hi + lo * 0x2_0000;
    assert rot < TWO_32;
    WrapBack(rot, 0xa282ead8);
    assert rot / 0x2_0000 == lo && rot % 0x2_0000 == hi;
  }

  lemma WrapBack(x: nat, delta: nat)
    requires x < TWO_32 && delta < TWO_32
    ensures ((x + delta) % TWO_32 + TWO_32 - delta) % TWO_32 == x
  {
    if x + delta < TWO_32 {
    } else {
      assert (x + delta) % TWO_32 == x + delta - TWO_32;
    }
  }

  function EncodeFixed32(n: nat): (b: seq<byte>)
    requires n < TWO_32
    ensures |b| == 4
  {
    [n % 0x100, n / 0x100 % 0x100, n / 0x1_0000 % 0x100, n / 0x100_0000]
  }

  function DecodeFixed32(b: seq<byte>): (n: nat)
    requires |b| == 4
    ensures n < TWO_32
  {
    var b0: int, b1: int, b2: int, b3: int := b[0], b[1], b[2], b[3];
    b0 + b1 * 0x100 + b2 * 0x1_0000 + b3 * 0x100_0000
  }

  lemma DecodeEncodeFixed32(n: nat)
    requires n < TWO_32
    ensures DecodeFixed32(EncodeFixed32(n)) == n
  {
    var a, b := n / 0x100, n / 0x1_0000;
    assert a / 0x100 == b && b / 0x100 == n / 0x100_0000;
    assert n == n % 0x100 + a * 0x100;
    assert a == a % 0x100 + b * 0x100;
    assert b == b % 0x100 + n / 0x100_0000 * 0x100;
  }

  // ---------- positions and blocks ----------

  /** The offset of a file position in its block. */
  function Off(B: BlockSize, pos: nat): (off: nat)
    ensures off < B
  {
    if pos < B then pos else Off(B, pos - B)
  }

  function Room(B: BlockSize, pos: nat): nat {
    B - Off(B, pos)
  }

  /** Where the next physical record goes: after the trailer when no header fits in the block. */
  function Start(B: BlockSize, pos: nat): nat {
    if Room(B, pos) < HEADER then pos + Room(B, pos) else pos
  }

  lemma {:induction false} OffAdd(B: BlockSize, pos: nat, n: nat)
    requires n <= Room(B, pos)
    ensures Off(B, pos + n) == if n == Room(B, pos) then 0 else Off(B, pos) + n
  {
    if pos >= B {
      OffAdd(B, pos - B, n);
    }
  }

  lemma {:induction false} OffQuotient(B: BlockSize, pos: nat) returns (q: nat)
    ensures pos == q * B + Off(B, pos)
  {
    q := 0;
    if pos >= B {
      var q' := OffQuotient(B, pos - B);
      q := q' + 1;
    }
  }

  lemma MulDistributes(q: int, d: int, B: int)
    ensures (q - d) * B == q * B - d * B
  {
  }

  lemma MulAtLeast(n: int, B: int)
    requires n >= 1 && B >= 0
    ensures n * B >= B
  {
  }

  lemma QuotientUnique(B: nat, q: nat, r: nat, d: nat, r': nat)
    requires q * B + r == d * B + r' && r < B && r' < B
    ensures q == d && r == r'
  {
    MulDistributes(q, d, B);
    MulDistributes(d, q, B);
    if q > d {
      MulAtLeast(q - d, B);
    } else if d > q {
      MulAtLeast(d - q, B);
    }
  }

  lemma ModIs(x: nat, B: nat, q: nat, r: nat)
    requires B > 0 && x == q * B + r && r < B
    ensures x % B == r
  {
    QuotientUnique(B, q, r, x / B, x % B);
  }

  lemma OffIsMod(B: BlockSize, pos: nat)
    ensures Off(B, pos) == pos % B
  {
    var q := OffQuotient(B, pos);
    ModIs(pos, B, q, Off(B, pos));
  }

  lemma StartRoom(B: BlockSize, pos: nat)
    ensures Room(B, Start(B, pos)) >= HEADER
    ensures Start(B, Start(B, pos)) == Start(B, pos)
  {
    if Room(B, pos) < HEADER {
      OffAdd(B, pos, Room(B, pos));
    }
  }

  // ---------- physical records ----------

  datatype Fragment = Fragment(start: nat, kind: byte, payload: seq<byte>)

  function End(f: Fragment): nat {
    f.start + HEADER + |f.payload|
  }

  function Header(fmt: Format, kind: byte, payload: seq<byte>): (b: seq<byte>)
    requires |payload| <= 0xFFFF
    ensures |b| == HEADER
  {
    EncodeFixed32(Mask(Checksum(fmt, [kind] + payload))) + [|payload| % 0x100, |payload| / 0x100, kind]
  }

  /** A header in numbers: four bytes of the masked sum over kind and payload, two of the length, lowest byte
      first, and the kind, 1 for all of a record, 2 for its first part, 3 for a middle one and 4 for the last. */
  lemma HeaderInNumbers(fmt: Format, kind: byte, payload: seq<byte>)
    requires |payload| <= 0xFFFF
    ensures var h := Header(fmt, kind, payload);
      && h[4] as int + h[5] as int * 256 == |payload| && h[6] == kind
      && DecodeFixed32(h[..4]) == Mask(Checksum(fmt, [kind] + payload))
    ensures FULL == 1 && FIRST == 2 && MIDDLE == 3 && LAST == 4
  {
    hide Checksum, Mask, EncodeFixed32, DecodeFixed32;
    var sum := Mask(Checksum(fmt, [kind] + payload));
    DecodeEncodeFixed32(sum);
    assert Header(fmt, kind, payload)[..4] == EncodeFixed32(sum);
  }

  /** A fragment sits at its place after pos, inside one block. */
  predicate Placed(B: BlockSize, pos: nat, f: Fragment) {
    && f.start == Start(B, pos)
    && HEADER + |f.payload| <= Room(B, f.start)
    && FULL <= f.kind <= LAST
  }

  predicate Chain(B: BlockSize, pos: nat, fs: seq<Fragment>)
    decreases |fs|
  {
    fs == [] || (Placed(B, pos, fs[0]) && Chain(B, End(fs[0]), fs[1..]))
  }

  function Zeros(n: nat): (z: seq<byte>)
    ensures |z| == n
  {
    seq(n, _ => 0)
  }

  function FragmentBytes(fmt: Format, pos: nat, f: Fragment): (b: seq<byte>)
    requires Placed(fmt.blockSize, pos, f)
    ensures |b| == End(f) - pos
  {
    Zeros(f.start - pos) + Header(fmt, f.kind, f.payload) + f.payload
  }

  /** The bytes of a chain of fragments written from position pos on. */
  function Image(fmt: Format, pos: nat, fs: seq<Fragment>): seq<byte>
    requires Chain(fmt.blockSize, pos, fs)
    decreases |fs|
  {
    if fs == [] then [] else FragmentBytes(fmt, pos, fs[0]) + Image(fmt, End(fs[0]), fs[1..])
  }

  function EndOf(pos: nat, fs: seq<Fragment>): nat {
    if fs == [] then pos else End(fs[|fs| - 1])
  }

  lemma {:induction false} ImageLength(fmt: Format, pos: nat, fs: seq<Fragment>)
    requires Chain(fmt.blockSize, pos, fs)
    ensures |Image(fmt, pos, fs)| == EndOf(pos, fs) - pos
    decreases |fs|
  {
    if fs != [] {
      ImageLength(fmt, End(fs[0]), fs[1..]);
    }
  }

  lemma {:induction false} ChainConcat(B: BlockSize, pos: nat, fs: seq<Fragment>, gs: seq<Fragment>)
    ensures Chain(B, pos, fs + gs) <==> Chain(B, pos, fs) && Chain(B, EndOf(pos, fs), gs)
    ensures EndOf(pos, fs + gs) == EndOf(EndOf(pos, fs), gs)
    decreases |fs|
  {
    if fs == [] {
      assert fs + gs == gs;
    } else {
      assert (fs + gs)[1..] == fs[1..] + gs;
      ChainConcat(B, End(fs[0]), fs[1..], gs);
    }
  }

  lemma {:induction false} ImageConcat(fmt: Format, pos: nat, fs: seq<Fragment>, gs: seq<Fragment>)
    requires Chain(fmt.blockSize, pos, fs) && Chain(fmt.blockSize, EndOf(pos, fs), gs)
    ensures Chain(fmt.blockSize, pos, fs + gs)
    ensures Image(fmt, pos, fs + gs) == Image(fmt, pos, fs) + Image(fmt, EndOf(pos, fs), gs)
    decreases |fs|
  {
    ChainConcat(fmt.blockSize, pos, fs, gs);
    hide FragmentBytes, Placed;
    if fs == [] {
      assert fs + gs == gs;
    } else {
      assert (fs + gs)[1..] == fs[1..] + gs;
      ImageConcat(fmt, End(fs[0]), fs[1..], gs);
    }
  }

  // ---------- logical records ----------

  function FragmentKind(begin: bool, end: bool): byte {
    if begin && end then FULL else if begin then FIRST else if end then LAST else MIDDLE
  }

  /** How a record written at pos is split. A block that has room for a header only gets an
      empty fragment. */
  function Fragments(B: BlockSize, pos: nat, data: seq<byte>, begin: bool): (fs: seq<Fragment>)
    ensures |fs| > 0
    decreases |data|, if Room(B, Start(B, pos)) > HEADER then 0 else 1
  {
    StartRoom(B, pos);
    var start := Start(B, pos);
    var avail := Room(B, start) - HEADER;
    if |data| <= avail then
      [Fragment(start, FragmentKind(begin, true), data)]
    else
      var f := Fragment(start, FragmentKind(begin, false), data[..avail]);
      OffAdd(B, start, HEADER + avail);
      [f] + Fragments(B, End(f), data[avail..], false)
  }

  /** The first fragment of a record, and what follows it. It is empty exactly when there is no data or
      the block has room for a header only. */
  lemma FragmentsSplit(B: BlockSize, pos: nat, data: seq<byte>, begin: bool)
    ensures var fs := Fragments(B, pos, data, begin);
      var n := |fs[0].payload|;
      && n <= |data|
      && fs[0] == Fragment(Start(B, pos), FragmentKind(begin, |fs| == 1), data[..n])
      && fs[1..] == (if n < |data| then Fragments(B, End(fs[0]), data[n..], false) else [])
      && (|fs| == 1 <==> n == |data|)
      && (n == 0 <==> data == [] || Room(B, Start(B, pos)) == HEADER)
      && (n == 0 && |data| > 0 ==> Room(B, Start(B, End(fs[0]))) > HEADER)
  {
    StartRoom(B, pos);
    var fs := Fragments(B, pos, data, begin);
    OffAdd(B, fs[0].start, HEADER + |fs[0].payload|);
  }

  function LogFragments(B: BlockSize, pos: nat, records: seq<seq<byte>>): seq<Fragment>
    decreases |records|
  {
    if records == [] then []
    else
      var fs := Fragments(B, pos, records[0], true);
      fs + LogFragments(B, EndOf(pos, fs), records[1..])
  }

  lemma {:induction false} FragmentsChain(B: BlockSize, pos: nat, data: seq<byte>, begin: bool)
    ensures Chain(B, pos, Fragments(B, pos, data, begin))
    decreases |data|, if Room(B, Start(B, pos)) > HEADER then 0 else 1
  {
    StartRoom(B, pos);
    var start := Start(B, pos);
    var avail := Room(B, start) - HEADER;
    var fs := Fragments(B, pos, data, begin);
    if |data| <= avail {
      assert fs[1..] == [];
    } else {
      OffAdd(B, start, HEADER + avail);
      FragmentsChain(B, End(fs[0]), data[avail..], false);
      assert fs[1..] == Fragments(B, End(fs[0]), data[avail..], false);
    }
  }

  lemma {:induction false} LogFragmentsChain(B: BlockSize, pos: nat, records: seq<seq<byte>>)
    ensures Chain(B, pos, LogFragments(B, pos, records))
    decreases |records|
  {
    if records != [] {
      var fs := Fragments(B, pos, records[0], true);
      FragmentsChain(B, pos, records[0], true);
      LogFragmentsChain(B, EndOf(pos, fs), records[1..]);
      ChainConcat(B, pos, fs, LogFragments(B, EndOf(pos, fs), records[1..]));
    }
  }

  /** The bytes a log gains when the records are written from position pos on. */
  function LogBytes(fmt: Format, pos: nat, records: seq<seq<byte>>): seq<byte> {
    LogFragmentsChain(fmt.blockSize, pos, records);
    Image(fmt, pos, LogFragments(fmt.blockSize, pos, records))
  }

  lemma {:induction false} LogFragmentsConcat(B: BlockSize, pos: nat, rs: seq<seq<byte>>, ss: seq<seq<byte>>)
    ensures LogFragments(B, pos, rs + ss) == LogFragments(B, pos, rs) + LogFragments(B, EndOf(pos, LogFragments(B, pos, rs)), ss)
    decreases |rs|
  {
    if rs == [] {
      assert rs + ss == ss;
    } else {
      assert (rs + ss)[1..] == rs[1..] + ss;
      var fs := Fragments(B, pos, rs[0], true);
      LogFragmentsConcat(B, EndOf(pos, fs), rs[1..], ss);
      ChainConcat(B, pos, fs, LogFragments(B, EndOf(pos, fs), rs[1..]));
    }
  }

  /** A log written in two sittings has the bytes of one written in one. */
  lemma LogBytesConcat(fmt: Format, pos: nat, rs: seq<seq<byte>>, ss: seq<seq<byte>>)
    ensures LogBytes(fmt, pos, rs + ss) == LogBytes(fmt, pos, rs) + LogBytes(fmt, pos + |LogBytes(fmt, pos, rs)|, ss)
  {
    hide Image, Chain, LogFragments;
    var B := fmt.blockSize;
    LogFragmentsConcat(B, pos, rs, ss);
    LogFragmentsChain(B, pos, rs);
    var fs := LogFragments(B, pos, rs);
    ImageLength(fmt, pos, fs);
    LogFragmentsChain(B, EndOf(pos, fs), ss);
    ImageConcat(fmt, pos, fs, LogFragments(B, EndOf(pos, fs), ss));
  }
}
