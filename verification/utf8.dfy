/** UTF-8 (RFC 3629). The library's `base64` helper first turns its text into
    UTF-8 bytes (`unescape(encodeURIComponent(input))` yields one Latin-1
    character per UTF-8 byte) and `encodeURIComponent` percent-encodes the
    UTF-8 bytes of every character it escapes. A Dafny `char` is a Unicode
    scalar value, so every string has a UTF-8 form. */
module Utf8 {
  import opened JsValue

  type byte = b: int | 0 <= b < 256

  /** The one to four bytes RFC 3629 assigns to a scalar value. */
  function EncodeChar(c: char): (bs: seq<byte>)
    ensures 1 <= |bs| <= 4
    ensures |bs| == 1 <==> (c as int) < 0x80
  {
    var cp := c as int;
    if cp < 0x80 then [cp]
    else if cp < 0x800 then [0xC0 + cp / 64, 0x80 + cp % 64]
    else if cp < 0x10000 then [0xE0 + cp / 4096, 0x80 + (cp / 64) % 64, 0x80 + cp % 64]
    else [0xF0 + cp / 262144, 0x80 + (cp / 4096) % 64, 0x80 + (cp / 64) % 64, 0x80 + cp % 64]
  }

  function Encode(s: string): seq<byte> {
    if s == [] then [] else EncodeChar(s[0]) + Encode(s[1..])
  }

  predicate IsCont(b: byte) {
    0x80 <= b < 0xC0
  }

  predicate IsScalar(cp: int) {
    (0 <= cp < 0xD800) || (0xE000 <= cp < 0x11_0000)
  }

  /** Decodes the scalar value at the front of `bs` and says how many bytes it
      took. Truncated sequences, stray continuation bytes, overlong forms,
      surrogates and values above U+10FFFF are rejected. */
  function DecodeChar(bs: seq<byte>): (r: Option<(char, nat)>)
    ensures r.Some? ==> 1 <= r.value.1 <= |bs|
  {
    if |bs| == 0 then None
    else
      var b0 := bs[0] as int;
      if b0 < 0x80 then Some((b0 as char, 1))
      else if 0xC2 <= b0 < 0xE0 then
        if |bs| >= 2 && IsCont(bs[1]) then
          Some((((b0 - 0xC0) * 64 + (bs[1] as int - 0x80)) as char, 2))
        else None
      else if 0xE0 <= b0 < 0xF0 then
        if |bs| >= 3 && IsCont(bs[1]) && IsCont(bs[2]) then
          var cp := (b0 - 0xE0) * 4096 + (bs[1] as int - 0x80) * 64 + (bs[2] as int - 0x80);
          if 0x800 <= cp && IsScalar(cp) then Some((cp as char, 3)) else None
        else None
      else if 0xF0 <= b0 < 0xF5 then
        if |bs| >= 4 && IsCont(bs[1]) && IsCont(bs[2]) && IsCont(bs[3]) then
          var cp := (b0 - 0xF0) * 262144 + (bs[1] as int - 0x80) * 4096 + (bs[2] as int - 0x80) * 64 + (bs[3] as int - 0x80);
          if 0x1_0000 <= cp < 0x11_0000 then Some((cp as char, 4)) else None
        else None
      else None
  }

  /** Decodes a whole byte sequence, failing on the first malformed sequence. */
  function Decode(bs: seq<byte>): Option<string>
    decreases |bs|
  {
    if bs == [] then Some([])
    else match DecodeChar(bs)
      case None => None
      case Some((c, n)) =>
        match Decode(bs[n..])
        case None => None
        case Some(s) => Some([c] + s)
  }

  lemma TwoByteArith(cp: int)
    requires 0x80 <= cp < 0x800
    ensures 0xC2 <= 0xC0 + cp / 64 < 0xE0
    ensures 0 <= cp % 64 < 64
    ensures (cp / 64) * 64 + cp % 64 == cp
  {
  }

  lemma ThreeByteArith(cp: int)
    requires 0x800 <= cp < 0x10000
    ensures 0xE0 <= 0xE0 + cp / 4096 < 0xF0
    ensures 0 <= (cp / 64) % 64 < 64 && 0 <= cp % 64 < 64
    ensures (cp / 4096) * 4096 + ((cp / 64) % 64) * 64 + cp % 64 == cp
  {
  }

  lemma FourByteArith(cp: int)
    requires 0x1_0000 <= cp < 0x11_0000
    ensures 0xF0 <= 0xF0 + cp / 262144 < 0xF5
    ensures 0 <= (cp / 4096) % 64 < 64 && 0 <= (cp / 64) % 64 < 64 && 0 <= cp % 64 < 64
    ensures (cp / 262144) * 262144 + ((cp / 4096) % 64) * 4096 + ((cp / 64) % 64) * 64 + cp % 64 == cp
  {
    var a := cp / 262144;
    var r := cp % 262144;
    assert cp == a * 262144 + r && 0 <= r < 262144;
    var b := r / 4096;
    var r2 := r % 4096;
    assert r == b * 4096 + r2 && 0 <= r2 < 4096;
    assert cp / 4096 == a * 64 + b;
    assert (cp / 4096) % 64 == b;
    var c := r2 / 64;
    var d := r2 % 64;
    assert r2 == c * 64 + d && 0 <= d < 64;
    assert cp / 64 == a * 4096 + b * 64 + c;
    assert (cp / 64) % 64 == c;
    assert cp % 64 == d;
  }

  lemma DecodeEncodeChar(c: char, rest: seq<byte>)
    ensures DecodeChar(EncodeChar(c) + rest) == Some((c, |EncodeChar(c)|))
  {
    var cp := c as int;
    var bs := EncodeChar(c) + rest;
    if cp < 0x80 {
    } else if cp < 0x800 {
      TwoByteArith(cp);
      assert bs[0] as int - 0xC0 == cp / 64 && bs[1] as int - 0x80 == cp % 64;
    } else if cp < 0x10000 {
      ThreeByteArith(cp);
      assert bs[0] as int - 0xE0 == cp / 4096;
      assert bs[1] as int - 0x80 == (cp / 64) % 64;
      assert bs[2] as int - 0x80 == cp % 64;
    } else {
      FourByteArith(cp);
      assert bs[0] as int - 0xF0 == cp / 262144;
      assert bs[1] as int - 0x80 == (cp / 4096) % 64;
      assert bs[2] as int - 0x80 == (cp / 64) % 64;
      assert bs[3] as int - 0x80 == cp % 64;
    }
  }

  /** Decoding undoes encoding. */
  lemma {:induction false} DecodeEncode(s: string)
    ensures Decode(Encode(s)) == Some(s)
  {
    if s != [] {
      var e := EncodeChar(s[0]);
      assert Encode(s) == e + Encode(s[1..]);
      DecodeEncodeChar(s[0], Encode(s[1..]));
      assert Encode(s)[|e|..] == Encode(s[1..]);
      DecodeEncode(s[1..]);
      assert [s[0]] + s[1..] == s;
    }
  }

  predicate IsAscii(s: string) {
    forall i :: 0 <= i < |s| ==> (s[i] as int) < 0x80
  }

  /** An ASCII string encodes to its character codes, one byte each. */
  lemma {:induction false} EncodeAscii(s: string)
    requires IsAscii(s)
    ensures |Encode(s)| == |s|
    ensures forall i :: 0 <= i < |s| ==> Encode(s)[i] == s[i] as int
  {
    if s != [] {
      EncodeAscii(s[1..]);
      assert Encode(s) == [s[0] as int] + Encode(s[1..]);
    }
  }
}
