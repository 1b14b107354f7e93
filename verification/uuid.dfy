/** The user-agent segment of `makeUUID` (the `UA()` helper of src/uuid.ts):
    the UTF-16 code units of the user agent are cut into groups of four, each
    group's low bytes are packed into a 32-bit integer with the first code
    unit in the most significant byte, the groups are XORed together, and the
    signed 32-bit result is printed in hexadecimal. JavaScript's bitwise
    operators work on 32-bit two's complement integers, so the values here
    are `bv32` and are read as signed only when printed. */
module Uuid {
  import opened JsValue

  type CodeUnit = u: int | 0 <= u < 0x1_0000

  /** `s.charCodeAt(i)` for every `i`: characters above U+FFFF are two
      surrogate code units. */
  function CodeUnits(s: string): (r: seq<CodeUnit>)
    ensures |r| >= |s|
  {
    if s == [] then []
    else
      var c := s[0] as int;
      var head: seq<CodeUnit> :=
        if c < 0x1_0000 then [c]
        else [0xD800 + (c - 0x1_0000) / 0x400, 0xDC00 + (c - 0x1_0000) % 0x400];
      head + CodeUnits(s[1..])
  }

  /** `ch & 0xff`: for a non-negative code unit, its remainder modulo 256. */
  function LowByte(u: CodeUnit): (b: bv32)
    ensures b <= 0xFF
  {
    (u % 256) as bv32
  }

  /** Every entry fits in a byte. */
  predicate Bytes(bs: seq<bv32>) {
    forall i :: 0 <= i < |bs| ==> bs[i] <= 0xFF
  }

  function LowBytes(units: seq<CodeUnit>): (r: seq<bv32>)
    ensures |r| == |units|
    ensures forall i :: 0 <= i < |r| ==> r[i] == LowByte(units[i])
  {
    if units == [] then [] else [LowByte(units[0])] + LowBytes(units[1..])
  }

  // ---------------------------------------------------------------------
  // The reference: groups packed big-endian and XORed

  /** The bytes of a group as one integer, the first byte most significant. */
  function Pack(bs: seq<bv32>): bv32 {
    if bs == [] then 0 else (Pack(bs[..|bs| - 1]) << 8) | bs[|bs| - 1]
  }

  /** Every full group of four and a final shorter group, packed and XORed. */
  function Fold(bs: seq<bv32>): bv32
    decreases |bs|
  {
    if |bs| < 4 then Pack(bs) else Pack(bs[..4]) ^ Fold(bs[4..])
  }

  // ---------------------------------------------------------------------
  // The code as written

  /** `x << (i * 8)`: JavaScript takes the shift count modulo 32, so the
      count is 0, 8, 16 or 24. */
  function ShiftBytes(x: bv32, i: nat): bv32 {
    var k := i % 4;
    if k == 0 then x else if k == 1 then x << 8 else if k == 2 then x << 16 else x << 24
  }

  /** The `tmp` of the inner `xor` helper: `tmp |= buffer[i] << (i * 8)` for
      the first `n` entries. */
  function Spread(buffer: seq<bv32>, n: nat): bv32
    requires n <= |buffer|
  {
    if n == 0 then 0 else Spread(buffer, n - 1) | ShiftBytes(buffer[n - 1], n - 1)
  }

  /** `xor(result, buffer)`. */
  function Xor(result: bv32, buffer: seq<bv32>): bv32 {
    result ^ Spread(buffer, |buffer|)
  }

  function Reverse(bs: seq<bv32>): (r: seq<bv32>)
    ensures |r| == |bs|
  {
    if bs == [] then [] else Reverse(bs[1..]) + [bs[0]]
  }

  lemma ShiftCounts(x: bv32)
    ensures ShiftBytes(x, 0) == x && ShiftBytes(x, 1) == x << 8
    ensures ShiftBytes(x, 2) == x << 16 && ShiftBytes(x, 3) == x << 24
  {
  }

  lemma SpreadNext(buffer: seq<bv32>, n: nat)
    requires n < |buffer|
    ensures Spread(buffer, n + 1) == Spread(buffer, n) | ShiftBytes(buffer[n], n)
  {
  }

  lemma PackOne(a: bv32)
    ensures Pack([a]) == a
  {
    assert [a][..0] == [];
  }

  lemma PackTwo(a: bv32, b: bv32)
    ensures Pack([a, b]) == (a << 8) | b
  {
    assert [a, b][..1] == [a];
    PackOne(a);
  }

  lemma PackThree(a: bv32, b: bv32, c: bv32)
    ensures Pack([a, b, c]) == (((a << 8) | b) << 8) | c
  {
    assert [a, b, c][..2] == [a, b];
    PackTwo(a, b);
  }

  lemma PackFour(a: bv32, b: bv32, c: bv32, d: bv32)
    ensures Pack([a, b, c, d]) == (((((a << 8) | b) << 8) | c) << 8) | d
  {
    assert [a, b, c, d][..3] == [a, b, c];
    PackThree(a, b, c);
  }

  /** Spreading a whole buffer of up to four entries, position by position. */
  lemma SpreadAll(buffer: seq<bv32>)
    requires 1 <= |buffer| <= 4
    ensures |buffer| == 1 ==> Spread(buffer, 1) == buffer[0]
    ensures |buffer| == 2 ==> Spread(buffer, 2) == buffer[0] | (buffer[1] << 8)
    ensures |buffer| == 3 ==> Spread(buffer, 3) == buffer[0] | (buffer[1] << 8) | (buffer[2] << 16)
    ensures |buffer| == 4 ==>
      Spread(buffer, 4) == buffer[0] | (buffer[1] << 8) | (buffer[2] << 16) | (buffer[3] << 24)
  {
    SpreadNext(buffer, 0);
    ShiftCounts(buffer[0]);
    if |buffer| >= 2 {
      SpreadNext(buffer, 1);
      ShiftCounts(buffer[1]);
    }
    if |buffer| >= 3 {
      SpreadNext(buffer, 2);
      ShiftCounts(buffer[2]);
    }
    if |buffer| >= 4 {
      SpreadNext(buffer, 3);
      ShiftCounts(buffer[3]);
    }
  }

  lemma SpreadTwo(a: bv32, b: bv32)
    requires a <= 0xFF && b <= 0xFF
    ensures Spread([b, a], 2) == Pack([a, b])
  {
    SpreadAll([b, a]);
    PackTwo(a, b);
  }

  lemma SpreadThree(a: bv32, b: bv32, c: bv32)
    requires a <= 0xFF && b <= 0xFF && c <= 0xFF
    ensures Spread([c, b, a], 3) == Pack([a, b, c])
  {
    SpreadAll([c, b, a]);
    PackThree(a, b, c);
  }

  lemma SpreadFour(a: bv32, b: bv32, c: bv32, d: bv32)
    requires a <= 0xFF && b <= 0xFF && c <= 0xFF && d <= 0xFF
    ensures Spread([d, c, b, a], 4) == Pack([a, b, c, d])
  {
    SpreadAll([d, c, b, a]);
    PackFour(a, b, c, d);
  }

  lemma ReverseOne(bs: seq<bv32>)
    requires |bs| == 1
    ensures Reverse(bs) == bs
  {
  }

  lemma ReverseTwo(bs: seq<bv32>)
    requires |bs| == 2
    ensures Reverse(bs) == [bs[1], bs[0]]
  {
    ReverseOne(bs[1..]);
  }

  lemma ReverseThree(bs: seq<bv32>)
    requires |bs| == 3
    ensures Reverse(bs) == [bs[2], bs[1], bs[0]]
  {
    ReverseTwo(bs[1..]);
  }

  lemma ReverseFour(bs: seq<bv32>)
    requires |bs| == 4
    ensures Reverse(bs) == [bs[3], bs[2], bs[1], bs[0]]
  {
    ReverseThree(bs[1..]);
  }

  lemma SpreadReversedOne(bs: seq<bv32>)
    requires |bs| == 1
    ensures Spread(Reverse(bs), 1) == Pack(bs)
  {
    ReverseOne(bs);
    PackOne(bs[0]);
    assert bs == [bs[0]];
    SpreadAll(bs);
  }

  lemma SpreadReversedTwo(bs: seq<bv32>)
    requires |bs| == 2 && bs[0] <= 0xFF && bs[1] <= 0xFF
    ensures Spread(Reverse(bs), 2) == Pack(bs)
  {
    ReverseTwo(bs);
    assert bs == [bs[0], bs[1]];
    SpreadTwo(bs[0], bs[1]);
  }

  lemma SpreadReversedThree(bs: seq<bv32>)
    requires |bs| == 3 && bs[0] <= 0xFF && bs[1] <= 0xFF && bs[2] <= 0xFF
    ensures Spread(Reverse(bs), 3) == Pack(bs)
  {
    ReverseThree(bs);
    assert bs == [bs[0], bs[1], bs[2]];
    SpreadThree(bs[0], bs[1], bs[2]);
  }

  lemma SpreadReversedFour(bs: seq<bv32>)
    requires |bs| == 4 && bs[0] <= 0xFF && bs[1] <= 0xFF && bs[2] <= 0xFF && bs[3] <= 0xFF
    ensures Spread(Reverse(bs), 4) == Pack(bs)
  {
    ReverseFour(bs);
    assert bs == [bs[0], bs[1], bs[2], bs[3]];
    SpreadFour(bs[0], bs[1], bs[2], bs[3]);
  }

  /** The buffer the code builds with `unshift` holds the group backwards, so
      spreading it puts the first byte highest: it is the group packed. */
  lemma SpreadReversed(bs: seq<bv32>)
    requires |bs| <= 4
    requires Bytes(bs)
    ensures Spread(Reverse(bs), |bs|) == Pack(bs)
  {
    if |bs| == 1 {
      SpreadReversedOne(bs);
    } else if |bs| == 2 {
      SpreadReversedTwo(bs);
    } else if |bs| == 3 {
      SpreadReversedThree(bs);
    } else if |bs| == 4 {
      SpreadReversedFour(bs);
    }
  }

  /** The `UA()` loop: every code unit's low byte is unshifted onto the
      buffer; four buffered bytes are XORed into the result and the buffer
      emptied; a non-empty remainder is XORed in at the end. */
  method UserAgentHash(ua: string) returns (ret: bv32)
    ensures ret == Fold(LowBytes(CodeUnits(ua)))
  {
    var bytes := LowBytes(CodeUnits(ua));
    ret := HashBytes(bytes);
  }

  method HashBytes(bytes: seq<bv32>) returns (ret: bv32)
    requires Bytes(bytes)
    ensures ret == Fold(bytes)
  {
    var buffer: seq<bv32> := [];
    ret := 0;
    ConsumedNothing(bytes);
    var i := 0;
    ghost var k := 0;
    while i < |bytes|
      invariant 0 <= k <= i <= |bytes| && i - k < 4
      invariant buffer == Reverse(bytes[k..i])
      invariant Consumed(bytes, k, ret)
    {
      BufferGrows(bytes, k, i, buffer);
      buffer := [bytes[i]] + buffer;
      if |buffer| >= 4 {
        GroupDone(bytes, k, i, ret);
        ret := Xor(ret, buffer);
        buffer := [];
        k := i + 1;
      }
      i := i + 1;
    }
    Remainder(bytes, k, ret);
    if |buffer| > 0 {
      ret := Xor(ret, buffer);
    } else {
      XorEmpty(ret);
    }
  }

  predicate Consumed(bytes: seq<bv32>, k: nat, ret: bv32)
    requires k <= |bytes|
  {
    ret ^ Fold(bytes[k..]) == Fold(bytes)
  }

  lemma BufferGrows(bytes: seq<bv32>, k: nat, i: nat, buffer: seq<bv32>)
    requires k <= i < |bytes|
    requires buffer == Reverse(bytes[k..i])
    ensures [bytes[i]] + buffer == Reverse(bytes[k..i + 1])
  {
    assert bytes[k..i + 1] == bytes[k..i] + [bytes[i]];
    ReverseSnoc(bytes[k..i], bytes[i]);
  }

  lemma ConsumedNothing(bytes: seq<bv32>)
    ensures Consumed(bytes, 0, 0)
  {
    assert bytes[0..] == bytes;
  }

  lemma XorEmpty(r: bv32)
    ensures Xor(r, []) == r
  {
  }

  lemma XorRegroup(r: bv32, p: bv32, f: bv32)
    ensures r ^ (p ^ f) == (r ^ p) ^ f
  {
  }

  lemma FoldLong(s: seq<bv32>)
    requires |s| >= 4
    ensures Fold(s) == Pack(s[..4]) ^ Fold(s[4..])
  {
  }

  lemma FoldShort(s: seq<bv32>)
    requires |s| < 4
    ensures Fold(s) == Pack(s)
  {
  }

  /** A full buffer is XORed in: the group is consumed from the rest. */
  lemma GroupDone(bytes: seq<bv32>, k: nat, i: nat, ret: bv32)
    requires k <= i < |bytes| && i + 1 - k == 4
    requires Bytes(bytes)
    requires Consumed(bytes, k, ret)
    ensures Consumed(bytes, i + 1, Xor(ret, Reverse(bytes[k..i + 1])))
  {
    var s := bytes[k..];
    var group := bytes[k..i + 1];
    var rest := bytes[i + 1..];
    assert s[..4] == group;
    assert s[4..] == rest;
    FoldLong(s);
    assert Bytes(group);
    SpreadReversed(group);
    XorRegroup(ret, Pack(group), Fold(rest));
  }

  /** The bytes left in the buffer at the end form the last, short group. */
  lemma Remainder(bytes: seq<bv32>, k: nat, ret: bv32)
    requires k <= |bytes| && |bytes| - k < 4
    requires Bytes(bytes)
    requires Consumed(bytes, k, ret)
    ensures Xor(ret, Reverse(bytes[k..|bytes|])) == Fold(bytes)
  {
    var s := bytes[k..];
    assert bytes[k..|bytes|] == s;
    FoldShort(s);
    assert Bytes(s);
    SpreadReversed(s);
  }

  lemma {:induction false} ReverseSnoc(bs: seq<bv32>, b: bv32)
    ensures Reverse(bs + [b]) == [b] + Reverse(bs)
  {
    if bs != [] {
      ReverseSnoc(bs[1..], b);
      assert (bs + [b])[1..] == bs[1..] + [b];
    }
  }

  // ---------------------------------------------------------------------
  // Printing: `ret.toString(16)`

  /** The signed value JavaScript sees. */
  function Int32(x: bv32): (r: int)
    ensures -0x8000_0000 <= r < 0x8000_0000
    ensures r < 0 <==> x as int >= 0x8000_0000
    ensures r % 0x1_0000_0000 == x as int
  {
    var n := x as int;
    if n < 0x8000_0000 then n else n - 0x1_0000_0000
  }

  function HexDigitChar(n: nat): (c: char)
    requires n < 16
    ensures HexValue(c) == Some(n)
    ensures '0' <= c <= '9' || 'a' <= c <= 'f'
  {
    if n < 10 then (('0' as int) + n) as char else (('a' as int) + (n - 10)) as char
  }

  /** `n.toString(16)` for `n >= 0`: lower-case digits, no leading zeros. */
  function HexText(n: nat): (r: string)
    ensures |r| >= 1
    ensures forall i :: 0 <= i < |r| ==> '0' <= r[i] <= '9' || 'a' <= r[i] <= 'f'
    decreases n
  {
    if n < 16 then [HexDigitChar(n)] else HexText(n / 16) + [HexDigitChar(n % 16)]
  }

  /** `n.toString(16)`: a minus sign and the magnitude for negative `n`. */
  function JsHex(n: int): string {
    if n < 0 then "-" + HexText(-n) else HexText(n)
  }

  /** The value of hexadecimal digits, `None` if some character is not one. */
  function HexTextValue(s: string): Option<nat>
    decreases |s|
  {
    if s == [] then Some(0)
    else match (HexTextValue(s[..|s| - 1]), HexValue(s[|s| - 1]))
      case (Some(hi), Some(lo)) => Some(hi * 16 + lo)
      case _ => None
  }

  /** Reading the digits back gives the number; there is no leading zero. */
  lemma {:induction false} HexTextRoundTrip(n: nat)
    ensures HexTextValue(HexText(n)) == Some(n)
    ensures HexText(n)[0] != '0' || n == 0
    decreases n
  {
    if n >= 16 {
      HexTextRoundTrip(n / 16);
      var t := HexText(n);
      assert t[..|t| - 1] == HexText(n / 16);
    }
  }

  /** `UA()`: the hash of the user agent in signed hexadecimal. */
  method UserAgentEntropy(ua: string) returns (hex: string)
    ensures hex == JsHex(Int32(Fold(LowBytes(CodeUnits(ua)))))
  {
    var ret := UserAgentHash(ua);
    hex := JsHex(Int32(ret));
  }

  /** The printed hash reads back as the signed value, with a minus sign
      exactly when the top bit of the XOR is set. */
  lemma JsHexRoundTrip(x: bv32)
    ensures var t := JsHex(Int32(x));
      (t[0] == '-' <==> x as int >= 0x8000_0000) &&
      (x as int < 0x8000_0000 ==> HexTextValue(t) == Some(x as int)) &&
      (x as int >= 0x8000_0000 ==> HexTextValue(t[1..]) == Some(0x1_0000_0000 - x as int))
  {
    var n := Int32(x);
    if n < 0 {
      HexTextRoundTrip(-n);
      assert JsHex(n)[1..] == HexText(-n);
    } else {
      HexTextRoundTrip(n);
    }
  }

  // ---------------------------------------------------------------------
  // Properties of the hash

  /** Groups XOR independently: a prefix of whole groups contributes its own
      hash. */
  lemma {:induction false} FoldSplits(a: seq<bv32>, b: seq<bv32>)
    requires |a| % 4 == 0
    ensures Fold(a + b) == Fold(a) ^ Fold(b)
    decreases |a|
  {
    if a == [] {
      assert a + b == b;
      assert Fold(a) == 0;
    } else {
      FoldSplits(a[4..], b);
      assert (a + b)[..4] == a[..4];
      assert (a + b)[4..] == a[4..] + b;
    }
  }

  /** Only the low byte of each code unit matters. */
  lemma {:induction false} LowBytesOnly(u: seq<CodeUnit>, v: seq<CodeUnit>)
    requires |u| == |v|
    requires forall i :: 0 <= i < |u| ==> u[i] % 256 == v[i] % 256
    ensures LowBytes(u) == LowBytes(v)
  {
    if u != [] {
      LowBytesOnly(u[1..], v[1..]);
    }
  }

  /** The empty user agent hashes to `0`. */
  lemma EmptyHash()
    ensures Fold(LowBytes(CodeUnits(""))) == 0
  {
  }

  lemma LowByteA() ensures LowByte(0x61) == 0x61 {}
  lemma LowByteB() ensures LowByte(0x62) == 0x62 {}
  lemma LowByteC() ensures LowByte(0x63) == 0x63 {}
  lemma LowByteD() ensures LowByte(0x64) == 0x64 {}

  lemma LowBytesFour(a: CodeUnit, b: CodeUnit, c: CodeUnit, d: CodeUnit)
    ensures LowBytes([a, b, c, d]) == [LowByte(a), LowByte(b), LowByte(c), LowByte(d)]
  {
  }

  lemma FourLetterBytes()
    ensures LowBytes(CodeUnits("abcd")) == [0x61, 0x62, 0x63, 0x64]
  {
    assert CodeUnits("d") == [0x64];
    assert CodeUnits("cd") == [0x63, 0x64];
    assert CodeUnits("bcd") == [0x62, 0x63, 0x64];
    assert CodeUnits("abcd") == [0x61, 0x62, 0x63, 0x64];
    LowByteA();
    LowByteB();
    LowByteC();
    LowByteD();
    LowBytesFour(0x61, 0x62, 0x63, 0x64);
  }

  lemma FourLetterFold()
    ensures Fold([0x61, 0x62, 0x63, 0x64]) == 0x6162_6364
  {
    var bs: seq<bv32> := [0x61, 0x62, 0x63, 0x64];
    assert bs[..4] == bs && bs[4..] == [];
    PackFour(0x61, 0x62, 0x63, 0x64);
  }

  /** Four ASCII characters hash to their codes in order, most significant
      first. */
  lemma FourLetterHash()
    ensures Fold(LowBytes(CodeUnits("abcd"))) == 0x6162_6364
  {
    FourLetterBytes();
    FourLetterFold();
  }

  /** A clear top bit prints as the plain hexadecimal digits. */
  lemma PrintPositive()
    ensures JsHex(Int32(0x6162_6364)) == "61626364"
  {
    assert Int32(0x6162_6364) == 0x6162_6364;
    assert HexText(0x6) == "6";
    assert HexText(0x61) == "61";
    assert HexText(0x616) == "616";
    assert HexText(0x6162) == "6162";
    assert HexText(0x61626) == "61626";
    assert HexText(0x616263) == "616263";
    assert HexText(0x6162636) == "6162636";
  }

  /** A set top bit prints as a negative number. */
  lemma PrintNegative()
    ensures JsHex(Int32(0x8000_0000)) == "-80000000"
  {
    assert Int32(0x8000_0000) == -0x8000_0000;
    assert HexText(0x8) == "8";
    assert HexText(0x80) == "80";
    assert HexText(0x800) == "800";
    assert HexText(0x8000) == "8000";
    assert HexText(0x80000) == "80000";
    assert HexText(0x800000) == "800000";
    assert HexText(0x8000000) == "8000000";
  }

  lemma PrintZero()
    ensures JsHex(Int32(0)) == "0"
  {
  }
}
