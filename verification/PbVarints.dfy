/** nanopb: base 128 varints and zigzag, as the encoder writes them and the decoder's loops read them
    (Protocol Buffers Encoding, "Base 128 Varints" and "Signed Integers"). */
module PbVarints {
  import opened Keys
  import opened LogFormat
  import opened Coding

  const TWO_31: nat := 0x8000_0000
  const TWO_35: nat := 0x8_0000_0000
  const TWO_63: nat := 0x8000_0000_0000_0000

  /** A value read, and the bytes that are left. */
  type Read<T> = Option<(T, seq<byte>)>

  function Power128(i: nat): (p: nat)
    ensures p > 0
  {
    if i == 0 then 1 else 128 * Power128(i - 1)
  }

  // ---------- 64-bit varints ----------

  /** pb_decode_varint after i bytes; the shift drops what does not fit into 64 bits. */
  function VarintFrom(s: seq<byte>, i: nat, result: nat): (r: Read<nat>)
    ensures r.Some? ==> |r.value.1| < |s| && r.value.1 == s[|s| - |r.value.1|..]
    decreases |s|
  {
    if 7 * i >= 64 || s == [] then None
    else
      var sum := result + s[0] % 128 * Power128(i) % TWO_64;
      if s[0] >= 128 then VarintFrom(s[1..], i + 1, sum) else Some((sum, s[1..]))
  }

  function DecodeVarint(s: seq<byte>): (r: Read<nat>)
    ensures r.Some? ==> |r.value.1| < |s| && r.value.1 == s[|s| - |r.value.1|..]
  {
    VarintFrom(s, 0, 0)
  }

  lemma {:induction false} Base128Length(v: nat, i: nat)
    requires i > 0 && v < Power128(i)
    ensures |Base128(v)| <= i
    decreases i
  {
    if v >= 128 {
      Base128Length(v / 128, i - 1);
    }
  }

  lemma Power128At9()
    ensures Power128(9) == TWO_63 && Power128(10) == 64 * TWO_64
  {
    assert Power128(3) == 0x20_0000;
    assert Power128(6) == 0x400_0000_0000;
  }

  /** At most ten bytes for 64 bits. */
  lemma VarintLength(v: nat)
    requires v < TWO_64
    ensures |Base128(v)| <= 10
  {
    Power128At9();
    Base128Length(v, 10);
  }

  /** The first byte of an encoding, and what follows it. */
  lemma FirstByte(v: nat, rest: seq<byte>)
    ensures var s := Base128(v) + rest;
      && s != [] && s[0] == (if v < 128 then v else v % 128 + 128)
      && s[1..] == if v < 128 then rest else Base128(v / 128) + rest
  {
    var s := Base128(v) + rest;
    if v < 128 {
      assert s[1..] == rest;
    } else {
      assert s[1..] == Base128(v / 128) + rest;
    }
  }

  lemma SplitProduct(v: nat, p: nat)
    ensures v * p == v % 128 * p + v / 128 * (128 * p)
    ensures v % 128 * p <= v * p && v / 128 * (128 * p) <= v * p
  {
    assert v == v % 128 + v / 128 * 128;
  }

  lemma {:induction false} VarintFromBase128(v: nat, rest: seq<byte>, i: nat, result: nat)
    requires i < 10 && v * Power128(i) < TWO_64
    ensures VarintFrom(Base128(v) + rest, i, result) == Some((result + v * Power128(i), rest))
    decreases v
  {
    hide Base128;
    FirstByte(v, rest);
    if v >= 128 {
      SplitProduct(v, Power128(i));
      if i == 9 {
        Power128At9();
        NineIsLast(v);
      }
      VarintFromBase128(v / 128, rest, i + 1, result + v % 128 * Power128(i));
    }
  }

  lemma NineIsLast(v: nat)
    requires v * TWO_63 < TWO_64
    ensures v < 128
  {
  }

  /** Decoding inverts encoding for all 64-bit values. */
  lemma DecodeEncodedVarint(v: nat, rest: seq<byte>)
    requires v < TWO_64
    ensures DecodeVarint(Base128(v) + rest) == Some((v, rest))
  {
    VarintFromBase128(v, rest, 0, 0);
  }

  lemma {:induction false} PowerBound(i: nat, j: nat)
    requires i <= j
    ensures Power128(i) <= Power128(j)
    decreases j
  {
    if i < j {
      PowerBound(i, j - 1);
    }
  }

  lemma {:induction false} VarintFromFits(s: seq<byte>, i: nat, result: nat)
    requires i < 10 ==> result < Power128(i)
    ensures VarintFrom(s, i, result).Some? ==> VarintFrom(s, i, result).value.0 < TWO_64
    decreases |s|
  {
    if s != [] && i < 10 {
      hide Power128;
      PowerStep(i);
      SumFits(result, s[0] % 128, i);
      VarintFromFits(s[1..], i + 1, result + s[0] % 128 * Power128(i) % TWO_64);
    }
  }

  lemma PowerStep(i: nat)
    ensures Power128(i + 1) == 128 * Power128(i)
  {
  }

  lemma SumFits(result: nat, x: nat, i: nat)
    requires i < 10 && result < Power128(i) && x < 128
    ensures result + x * Power128(i) % TWO_64 < TWO_64
    ensures i < 9 ==> result + x * Power128(i) % TWO_64 < 128 * Power128(i)
  {
    hide Power128;
    Power128At9();
    if i < 9 {
      PowerStep(i);
      PowerBound(i + 1, 9);
      LowSum(result, x, Power128(i));
    } else {
      OddOrEven(x);
    }
  }

  lemma LowSum(result: nat, x: nat, p: nat)
    requires result < p && x < 128 && 128 * p <= TWO_63
    ensures result + x * p % TWO_64 < 128 * p
  {
    AtMost(x, p);
  }

  lemma AtMost(x: nat, p: nat)
    requires x < 128
    ensures x * p <= 127 * p
  {
  }

  lemma OddOrEven(x: nat)
    ensures x * TWO_63 % TWO_64 <= TWO_63
  {
    assert x * TWO_63 == x / 2 * TWO_64 + x % 2 * TWO_63;
  }

  /** What is read has 64 bits. */
  lemma VarintFits(s: seq<byte>)
    ensures DecodeVarint(s).Some? ==> DecodeVarint(s).value.0 < TWO_64
  {
    VarintFromFits(s, 0, 0);
  }

  // ---------- zigzag ----------

  predicate IsInt64(v: int) {
    -0x8000_0000_0000_0000 <= v < 0x8000_0000_0000_0000
  }

  /** The cast from signed to unsigned. */
  function Unsigned(v: int): (u: nat)
    requires IsInt64(v)
    ensures u < TWO_64
  {
    if v < 0 then v + TWO_64 else v
  }

  function Signed(u: nat): (v: int)
    requires u < TWO_64
    ensures IsInt64(v)
  {
    u - (if u < TWO_63 then 0 else TWO_64)
  }

  function Complement(u: nat): (c: nat)
    requires u < TWO_64
    ensures c < TWO_64
  {
    TWO_64 - 1 - u
  }

  function ZigZag(v: int): (u: nat)
    requires IsInt64(v)
    ensures u < TWO_64
  {
    if v < 0 then Complement(Unsigned(v) * 2 % TWO_64) else Unsigned(v) * 2 % TWO_64
  }

  function UnZigZag(u: nat): (v: int)
    requires u < TWO_64
    ensures IsInt64(v)
  {
    if u % 2 == 1 then Signed(Complement(u / 2)) else Signed(u / 2)
  }

  /** Zigzag is a bijection that keeps numbers of small magnitude small. */
  lemma ZigZagInverts(v: int)
    requires IsInt64(v)
    ensures UnZigZag(ZigZag(v)) == v
    ensures ZigZag(v) == if v < 0 then -2 * v - 1 else 2 * v
  {
  }

  lemma UnZigZagInverts(u: nat)
    requires u < TWO_64
    ensures ZigZag(UnZigZag(u)) == u
  {
  }

  // ---------- 32-bit varints ----------

  function Or(a: nat, b: nat): nat {
    if a == 0 then b else if b == 0 then a
    else (if a % 2 == 1 || b % 2 == 1 then 1 else 0) + 2 * Or(a / 2, b / 2)
  }

  function Power2(k: nat): (p: nat)
    ensures p > 0
  {
    if k == 0 then 1 else 2 * Power2(k - 1)
  }

  lemma {:induction false} OrDisjoint(a: nat, m: nat, k: nat)
    requires a < Power2(k)
    ensures Or(a, m * Power2(k)) == a + m * Power2(k)
    decreases k
  {
    if k > 0 && a > 0 && m > 0 {
      var half := m * Power2(k - 1);
      assert m * Power2(k) == 2 * half;
      OrDisjoint(a / 2, m, k - 1);
    }
  }

  /** The loop of pb_decode_varint32_eof: bitpos has eight bits, and bits at 32 and above are only
      compared with a sign extension. */
  function Varint32From(s: seq<byte>, bitpos: nat, result: nat): (r: Read<nat>)
    ensures r.Some? ==> |r.value.1| < |s| && r.value.1 == s[|s| - |r.value.1|..]
    decreases |s|
  {
    if s == [] then None
    else
      var b := s[0];
      if bitpos >= 32 && b % 128 != 0 && (result / TWO_31 == 0 || b != if bitpos < 63 then 0xFF else 0x01) then None
      else
        var sum := if bitpos >= 32 then result else Or(result, b % 128 * Power2(bitpos) % TWO_32);
        var next := (bitpos + 7) % 256;
        if b >= 128 then Varint32From(s[1..], next, sum)
        else if next == 35 && b / 16 % 8 != 0 then None
        else Some((sum, s[1..]))
  }

  function DecodeVarint32(s: seq<byte>): (r: Read<nat>)
    ensures r.Some? ==> |r.value.1| < |s| && r.value.1 == s[|s| - |r.value.1|..]
  {
    if s == [] then None
    else if s[0] < 128 then Some((s[0], s[1..]))
    else Varint32From(s[1..], 7, s[0] % 128)
  }

  /** The n groups from here on are all zeros or all ones, and the last bit is set. */
  predicate LooksSigned(w: nat, n: nat) {
    if n == 0 then w == 1 else (w % 128 == 0 || w % 128 == 127) && LooksSigned(w / 128, n - 1)
  }

  lemma {:induction false} Varint32Tail(w: nat, rest: seq<byte>, n: nat, result: nat)
    requires n <= 4 && 0 < w < 2 * Power128(n)
    ensures Varint32From(Base128(w) + rest, 63 - 7 * n, result) ==
      if result / TWO_31 != 0 && LooksSigned(w, n) then Some((result, rest)) else None
    decreases n
  {
    hide Base128, Or, Power2;
    FirstByte(w, rest);
    if w < 128 {
      if n > 0 {
        NotSigned(n - 1);
      }
    } else {
      Varint32Tail(w / 128, rest, n - 1, result);
    }
  }

  lemma NotSigned(n: nat)
    ensures !LooksSigned(0, n)
  {
  }

  lemma Powers()
    ensures Power2(7) == 128 && Power2(14) == 0x4000 && Power2(21) == 0x20_0000 && Power2(28) == 0x1000_0000
    ensures Power128(4) == 0x1000_0000
  {
    assert Power2(10) == 1024;
    assert Power2(18) == 0x4_0000;
    assert Power2(24) == 0x100_0000;
  }

  lemma Varint32Step(s: seq<byte>, bitpos: nat, result: nat)
    requires s != [] && bitpos <= 28
    ensures var sum := Or(result, s[0] % 128 * Power2(bitpos) % TWO_32);
      Varint32From(s, bitpos, result) ==
        if s[0] >= 128 then Varint32From(s[1..], bitpos + 7, sum)
        else if bitpos == 28 && s[0] / 16 % 8 != 0 then None
        else Some((sum, s[1..]))
  {
    hide Or, Power2;
  }

  /** A byte whose bits lie below bit 28. */
  lemma Varint32Head(w: nat, rest: seq<byte>, bitpos: nat, result: nat)
    requires bitpos == 7 || bitpos == 14 || bitpos == 21
    requires result < Power2(bitpos)
    ensures Varint32From(Base128(w) + rest, bitpos, result) ==
      if w < 128 then Some((result + w * Power2(bitpos), rest))
      else Varint32From(Base128(w / 128) + rest, bitpos + 7, result + w % 128 * Power2(bitpos))
  {
    hide Base128, Or, Power2, Varint32From;
    FirstByte(w, rest);
    Varint32Step(Base128(w) + rest, bitpos, result);
    OrDisjoint(result, w % 128, bitpos);
    SmallShift(w % 128, bitpos);
    LowBits7(w);
  }

  lemma LowBits7(w: nat)
    ensures (w % 128 + 128) % 128 == w % 128
    ensures w < 128 ==> w % 128 == w
  {
  }

  lemma SmallShift(x: nat, bitpos: nat)
    requires x < 128 && (bitpos == 7 || bitpos == 14 || bitpos == 21)
    ensures x * Power2(bitpos) % TWO_32 == x * Power2(bitpos)
  {
    Powers();
    if bitpos == 7 {
      assert x * 128 < TWO_32;
    } else if bitpos == 14 {
      assert x * 0x4000 < TWO_32;
    } else {
      assert x * 0x20_0000 < TWO_32;
    }
  }

  /** The byte at bit 28, of which four bits fit. */
  lemma Varint32Middle(w: nat, rest: seq<byte>, result: nat)
    requires result < Power2(28)
    ensures Varint32From(Base128(w) + rest, 28, result) ==
      if w < 16 then Some((result + w * Power2(28), rest))
      else if w < 128 then None
      else Varint32From(Base128(w / 128) + rest, 35, result + w % 16 * Power2(28))
  {
    hide Base128, Or, Power2, Varint32From;
    FirstByte(w, rest);
    Varint32Step(Base128(w) + rest, 28, result);
    Powers();
    OrDisjoint(result, w % 16, 28);
    FourBits(w % 128, (Base128(w) + rest)[0]);
    LowBits7(w);
    Mod16(w);
    SixteenTimes(w % 128);
  }

  /** Four of a byte's seven bits fit above bit 28. */
  lemma FourBits(x: nat, b: nat)
    requires x < 128 && (b == x || b == x + 128)
    ensures b % 128 == x && (b / 16 % 8 == 0 <==> x < 16)
  {
  }

  lemma Mod16(w: nat)
    ensures w % 128 % 16 == w % 16
    ensures w < 16 ==> w % 16 == w
  {
  }

  lemma SixteenTimes(x: nat)
    requires x < 128
    ensures x * 0x1000_0000 % TWO_32 == x % 16 * 0x1000_0000
  {
    assert x * 0x1000_0000 == x / 16 * TWO_32 + x % 16 * 0x1000_0000;
  }

  /** Which values the 32-bit reader takes from an encoding: those of 32 bits; and, as their lowest 32
      bits, those that look like a negative 32-bit number that was extended to 64. The three bits from
      32 on are dropped unseen. */
  lemma Varint32Exact(v: nat, rest: seq<byte>)
    requires v < TWO_64
    ensures DecodeVarint32(Base128(v) + rest) ==
      if v < TWO_32 || (v / TWO_31 % 2 == 1 && LooksSigned(v / TWO_35, 4)) then Some((v % TWO_32, rest)) else None
  {
    hide Base128, Varint32From, Power128, Power2, LooksSigned;
    FirstByte(v, rest);
    SmallNumbers(v);
    if v >= 128 {
      Varint32Rest(v, rest);
    }
    NotSigned(4);
  }

  lemma SmallNumbers(v: nat)
    ensures v < TWO_32 ==> v % TWO_32 == v
    ensures v < TWO_35 ==> v / TWO_35 == 0
    ensures (v % 128 + 128) % 128 == v % 128
  {
  }

  // One more digit of a number in base 128.

  lemma Digit7(v: nat)
    ensures v / 128 / 128 == v / 0x4000 && v % 0x4000 == v % 128 + v / 128 % 128 * 128
  {
  }

  lemma Digit14(v: nat)
    ensures v / 0x4000 / 128 == v / 0x20_0000 && v % 0x20_0000 == v % 0x4000 + v / 0x4000 % 128 * 0x4000
  {
  }

  lemma Digit21(v: nat)
    ensures v / 0x20_0000 / 128 == v / 0x1000_0000 && v % 0x1000_0000 == v % 0x20_0000 + v / 0x20_0000 % 128 * 0x20_0000
  {
  }

  lemma Digit28(v: nat)
    ensures v / 0x1000_0000 / 128 == v / TWO_35 && v % TWO_35 == v % 0x1000_0000 + v / 0x1000_0000 % 128 * 0x1000_0000
  {
  }

  lemma FourBits28(v: nat)
    ensures v / 0x1000_0000 / 16 == v / TWO_32 && v % TWO_32 == v % 0x1000_0000 + v / 0x1000_0000 % 16 * 0x1000_0000
  {
  }

  lemma Bit31(v: nat)
    ensures v / TWO_31 / 2 == v / TWO_32 && v % TWO_32 == v % TWO_31 + v / TWO_31 % 2 * TWO_31
  {
  }

  lemma Digits(v: nat)
    ensures v / 128 / 128 == v / 0x4000 && v / 0x4000 / 128 == v / 0x20_0000 && v / 0x20_0000 / 128 == v / 0x1000_0000
    ensures v / 0x1000_0000 / 128 == v / TWO_35
    ensures v % 0x4000 == v % 128 + v / 128 % 128 * 128
    ensures v % 0x20_0000 == v % 0x4000 + v / 0x4000 % 128 * 0x4000
    ensures v % 0x1000_0000 == v % 0x20_0000 + v / 0x20_0000 % 128 * 0x20_0000
    ensures v % TWO_32 == v % 0x1000_0000 + v / 0x1000_0000 % 16 * 0x1000_0000
    ensures v % TWO_32 / TWO_31 == v / TWO_31 % 2
  {
    Digit7(v);
    Digit14(v);
    Digit21(v);
    Digit28(v);
    FourBits28(v);
    Bit31(v);
  }

  lemma Varint32Rest(v: nat, rest: seq<byte>)
    requires 128 <= v < TWO_64
    ensures Varint32From(Base128(v / 128) + rest, 7, v % 128) ==
      if v < TWO_32 then Some((v, rest))
      else if v >= TWO_35 && v / TWO_31 % 2 == 1 && LooksSigned(v / TWO_35, 4) then Some((v % TWO_32, rest)) else None
  {
    hide Base128, Varint32From, Power128, Power2, LooksSigned;
    Powers();
    Digits(v);
    Varint32Head(v / 128, rest, 7, v % 128);
    if v >= 0x4000 {
      Varint32Head(v / 0x4000, rest, 14, v % 0x4000);
      if v >= 0x20_0000 {
        Varint32Head(v / 0x20_0000, rest, 21, v % 0x20_0000);
        if v >= 0x1000_0000 {
          Varint32High(v, rest);
        }
      }
    }
  }

  lemma Varint32High(v: nat, rest: seq<byte>)
    requires 0x1000_0000 <= v < TWO_64
    ensures Varint32From(Base128(v / 0x1000_0000) + rest, 28, v % 0x1000_0000) ==
      if v < TWO_32 then Some((v, rest))
      else if v >= TWO_35 && v / TWO_31 % 2 == 1 && LooksSigned(v / TWO_35, 4) then Some((v % TWO_32, rest)) else None
  {
    hide Base128, Varint32From, Power128, Power2, LooksSigned;
    Powers();
    Digits(v);
    Varint32Middle(v / 0x1000_0000, rest, v % 0x1000_0000);
    if v >= TWO_35 {
      Varint32Tail(v / TWO_35, rest, 4, v % TWO_32);
    }
  }

  /** A negative 32-bit number, extended to 64 bits, is taken as the same 32 bits. */
  lemma SignExtendedIsTaken(v: nat, rest: seq<byte>)
    requires TWO_64 - TWO_31 <= v < TWO_64
    ensures DecodeVarint32(Base128(v) + rest) == Some((v % TWO_32, rest))
  {
    hide DecodeVarint32, Base128;
    Varint32Exact(v, rest);
    assert v / TWO_35 == 0x1FFF_FFFF;
    assert LooksSigned(0x1FFF_FFFF, 4);
  }

  /** A number of 33 to 63 bits is refused. */
  lemma TooLargeIsRefused(v: nat, rest: seq<byte>)
    requires TWO_32 <= v < TWO_63
    ensures DecodeVarint32(Base128(v) + rest) == None
  {
    hide DecodeVarint32, Base128;
    Varint32Exact(v, rest);
    if v / TWO_35 == 0 {
      NotSigned(4);
    } else {
      SmallIsNotSigned(v / TWO_35, 4);
    }
  }

  lemma {:induction false} SmallIsNotSigned(w: nat, n: nat)
    requires w < Power128(n)
    ensures !LooksSigned(w, n)
    decreases n
  {
    if n > 0 {
      SmallIsNotSigned(w / 128, n - 1);
    }
  }

  /** The reader is not exact: it takes this number of 64 bits as 2^31. */
  lemma NotEveryOverflowIsRefused(rest: seq<byte>)
    ensures DecodeVarint32(Base128(TWO_63 + TWO_31) + rest) == Some((TWO_31, rest))
  {
    hide DecodeVarint32, Base128;
    Varint32Exact(TWO_63 + TWO_31, rest);
    assert (TWO_63 + TWO_31) / TWO_35 == 0x1000_0000;
    assert LooksSigned(0x1000_0000, 4);
  }
}
