/** util/coding: fixed-width and variable-length integers, and length-prefixed strings. */
module Coding {
  import opened Keys
  import opened LogFormat

  const TWO_64: nat := 0x1_0000_0000_0000_0000

  function EncodeFixed64(n: nat): (b: seq<byte>)
    requires n < TWO_64
    ensures |b| == 8
  {
    EncodeFixed32(n % TWO_32) + EncodeFixed32(n / TWO_32)
  }

  function DecodeFixed64(b: seq<byte>): (n: nat)
    requires |b| == 8
    ensures n < TWO_64
  {
    DecodeFixed32(b[..4]) + DecodeFixed32(b[4..]) * TWO_32
  }

  lemma DecodeEncodeFixed64(n: nat)
    requires n < TWO_64
    ensures DecodeFixed64(EncodeFixed64(n)) == n
  {
    hide EncodeFixed32, DecodeFixed32;
    DecodeEncodeFixed32(n % TWO_32);
    DecodeEncodeFixed32(n / TWO_32);
    assert EncodeFixed64(n)[..4] == EncodeFixed32(n % TWO_32);
    assert EncodeFixed64(n)[4..] == EncodeFixed32(n / TWO_32);
  }

  /** EncodeVarint32: seven bits a byte, lowest first, the top bit set on all but the last. */
  function EncodeVarint32(v: nat): (b: seq<byte>)
    requires v < TWO_32
    ensures 1 <= |b| <= 5
  {
    if v < 0x80 then [v]
    else if v < 0x4000 then [v % 0x80 + 0x80, v / 0x80]
    else if v < 0x20_0000 then [v % 0x80 + 0x80, v / 0x80 % 0x80 + 0x80, v / 0x4000]
    else if v < 0x1000_0000 then [v % 0x80 + 0x80, v / 0x80 % 0x80 + 0x80, v / 0x4000 % 0x80 + 0x80, v / 0x20_0000]
    else [v % 0x80 + 0x80, v / 0x80 % 0x80 + 0x80, v / 0x4000 % 0x80 + 0x80, v / 0x20_0000 % 0x80 + 0x80, v / 0x1000_0000]
  }

  function Shifted(b: nat, i: nat): nat {
    if i == 0 then b
    else if i == 1 then b * 0x80
    else if i == 2 then b * 0x4000
    else if i == 3 then b * 0x20_0000
    else b * 0x1000_0000 % TWO_32
  }

  /** GetVarint32Ptr from byte i on; result holds the bits gathered so far. The last shift drops
      the bits that do not fit. */
  function GetVarint32From(input: seq<byte>, i: nat, result: nat): (r: Option<(nat, nat)>)
    ensures r.Some? ==> i < r.value.1 <= |input| && r.value.1 <= 5
    decreases 5 - i
  {
    if i > 4 || i >= |input| then None
    else
      var b: nat := input[i];
      if b >= 0x80 then GetVarint32From(input, i + 1, result + Shifted(b - 0x80, i))
      else Some((result + Shifted(b, i), i + 1))
  }

  /** The value and the number of bytes read. */
  function GetVarint32(input: seq<byte>): (r: Option<(nat, nat)>)
    ensures r.Some? ==> 0 < r.value.1 <= |input|
  {
    GetVarint32From(input, 0, 0)
  }

  /** Fixed numbers are written with their lowest byte first. */
  lemma FixedInNumbers()
    ensures EncodeFixed32(0x0403_0201) == [1, 2, 3, 4] && EncodeFixed64(0x0807_0605_0403_0201) == [1, 2, 3, 4, 5, 6, 7, 8]
  {
  }

  /** The base-128 form of a number, whatever its size. */
  function Base128(v: nat): (b: seq<byte>)
    ensures |b| > 0
  {
    if v < 0x80 then [v] else [v % 0x80 + 0x80] + Base128(v / 0x80)
  }

  lemma EncodeIsBase128(v: nat)
    requires v < TWO_32
    ensures EncodeVarint32(v) == Base128(v)
  {
    var a := v / 0x80;
    var b := a / 0x80;
    var c := b / 0x80;
    assert v / 0x4000 == b && v / 0x20_0000 == c && v / 0x1000_0000 == c / 0x80;
    if v >= 0x80 {
      assert Base128(v) == [v % 0x80 + 0x80] + Base128(a);
      if a >= 0x80 {
        assert Base128(a) == [a % 0x80 + 0x80] + Base128(b);
        if b >= 0x80 {
          assert Base128(b) == [b % 0x80 + 0x80] + Base128(c);
          if c >= 0x80 {
            assert Base128(c) == [c % 0x80 + 0x80] + Base128(c / 0x80);
          }
        }
      }
    }
  }

  function Limit(i: nat): nat {
    if i == 0 then TWO_32 else if i == 1 then 0x200_0000 else if i == 2 then 0x4_0000 else if i == 3 then 0x800 else if i == 4 then 0x10 else 0
  }

  lemma {:induction false} GetBase128(input: seq<byte>, i: nat, result: nat, v: nat)
    requires v < Limit(i) && i <= |input| && Base128(v) <= input[i..]
    ensures GetVarint32From(input, i, result) == Some((result + Shifted(v, i), i + |Base128(v)|))
    decreases v
  {
    assert input[i..][0] == input[i];
    if v >= 0x80 {
      assert input[i] == v % 0x80 + 0x80;
      assert Base128(v / 0x80) <= input[i + 1..] by {
        assert Base128(v)[1..] == Base128(v / 0x80);
        assert input[i..][1..] == input[i + 1..];
      }
      GetBase128(input, i + 1, result + Shifted(v % 0x80, i), v / 0x80);
    }
  }

  lemma GetEncodedVarint32(v: nat, rest: seq<byte>)
    requires v < TWO_32
    ensures GetVarint32(EncodeVarint32(v) + rest) == Some((v, |EncodeVarint32(v)|))
  {
    EncodeIsBase128(v);
    var input := EncodeVarint32(v) + rest;
    assert input[0..] == input;
    GetBase128(input, 0, 0, v);
  }

  function VarString(s: seq<byte>): seq<byte>
    requires |s| < TWO_32
  {
    EncodeVarint32(|s|) + s
  }

  /** GetLengthPrefixedSlice: the string and the number of bytes it took. */
  function GetLengthPrefixedSlice(input: seq<byte>): (r: Option<(seq<byte>, nat)>)
    ensures r.Some? ==> 0 < r.value.1 <= |input| && |r.value.0| < r.value.1
  {
    var l := GetVarint32(input);
    if l.None? then None
    else
      var (len, used) := l.value;
      if |input| - used >= len then Some((input[used..used + len], used + len)) else None
  }

  lemma GetVarString(s: seq<byte>, rest: seq<byte>)
    requires |s| < TWO_32
    ensures GetLengthPrefixedSlice(VarString(s) + rest) == Some((s, |VarString(s)|))
  {
    GetEncodedVarint32(|s|, s + rest);
    assert VarString(s) + rest == EncodeVarint32(|s|) + (s + rest);
  }
}
