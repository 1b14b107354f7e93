/** Base 64 encoding with the standard alphabet and `=` padding (section 4 of
    RFC 4648), as `btoa` produces it, and the matching decoder. */
module Base64 {
  import opened JsValue
  import opened Utf8

  /** Table 1 of RFC 4648: the character for each 6-bit value. */
  function SextetChar(n: nat): (c: char)
    requires n < 64
  {
    if n < 26 then (('A' as int) + n) as char
    else if n < 52 then (('a' as int) + (n - 26)) as char
    else if n < 62 then (('0' as int) + (n - 52)) as char
    else if n == 62 then '+'
    else '/'
  }

  /** The 6-bit value of an alphabet character; `None` for anything else. */
  function CharSextet(c: char): (r: Option<nat>)
    ensures r.Some? ==> r.value < 64
  {
    if 'A' <= c <= 'Z' then Some((c as int) - ('A' as int))
    else if 'a' <= c <= 'z' then Some((c as int) - ('a' as int) + 26)
    else if '0' <= c <= '9' then Some((c as int) - ('0' as int) + 52)
    else if c == '+' then Some(62)
    else if c == '/' then Some(63)
    else None
  }

  predicate InAlphabet(c: char) {
    CharSextet(c).Some?
  }

  /** A final group of one byte: two characters and `==`. */
  function Group1(b0: byte): string {
    [SextetChar(b0 / 4), SextetChar((b0 % 4) * 16), '=', '=']
  }

  /** A final group of two bytes: three characters and `=`. */
  function Group2(b0: byte, b1: byte): string {
    [SextetChar(b0 / 4), SextetChar((b0 % 4) * 16 + b1 / 16), SextetChar((b1 % 16) * 4), '=']
  }

  /** A full group: 24 bits as four 6-bit values, most significant first. */
  function Group3(b0: byte, b1: byte, b2: byte): string {
    [SextetChar(b0 / 4), SextetChar((b0 % 4) * 16 + b1 / 16),
     SextetChar((b1 % 16) * 4 + b2 / 64), SextetChar(b2 % 64)]
  }

  /** Every 3 input bytes become 4 characters; a final group of 1 or 2 bytes
      is padded with `==` or `=`. */
  function Encode(bs: seq<byte>): string
    decreases |bs|
  {
    if |bs| == 0 then ""
    else if |bs| == 1 then Group1(bs[0])
    else if |bs| == 2 then Group2(bs[0], bs[1])
    else Group3(bs[0], bs[1], bs[2]) + Encode(bs[3..])
  }

  /** Reverses `Encode`: four characters at a time, padding only in the last
      group. Anything that is not well-formed base 64 gives `None`. */
  function Decode(s: string): Option<seq<byte>>
    decreases |s|
  {
    if |s| == 0 then Some([])
    else if |s| < 4 then None
    else
      var c0, c1, c2, c3 := CharSextet(s[0]), CharSextet(s[1]), CharSextet(s[2]), CharSextet(s[3]);
      if c0.None? || c1.None? then None
      else if |s| == 4 && s[2] == '=' && s[3] == '=' then
        Some([c0.value * 4 + c1.value / 16])
      else if c2.None? then None
      else if |s| == 4 && s[3] == '=' then
        Some([c0.value * 4 + c1.value / 16, (c1.value % 16) * 16 + c2.value / 4])
      else if c3.None? then None
      else
        match Decode(s[4..])
        case None => None
        case Some(rest) =>
          Some([c0.value * 4 + c1.value / 16, (c1.value % 16) * 16 + c2.value / 4,
                (c2.value % 4) * 64 + c3.value] + rest)
  }

  lemma SextetRoundTrip(n: nat)
    requires n < 64
    ensures CharSextet(SextetChar(n)) == Some(n)
  {
  }

  lemma GroupArith(b0: byte, b1: byte, b2: byte)
    ensures (b0 / 4) * 4 + ((b0 % 4) * 16 + b1 / 16) / 16 == b0
    ensures (((b0 % 4) * 16 + b1 / 16) % 16) * 16 + ((b1 % 16) * 4 + b2 / 64) / 4 == b1
    ensures (((b1 % 16) * 4 + b2 / 64) % 4) * 64 + b2 % 64 == b2
  {
  }

  lemma DecodeOneByte(b0: byte)
    ensures Decode(Group1(b0)) == Some([b0])
  {
    SextetRoundTrip(b0 / 4);
    SextetRoundTrip((b0 % 4) * 16);
    GroupArith(b0, 0, 0);
  }

  lemma DecodeTwoBytes(b0: byte, b1: byte)
    ensures Decode(Group2(b0, b1)) == Some([b0, b1])
  {
    SextetRoundTrip(b0 / 4);
    SextetRoundTrip((b0 % 4) * 16 + b1 / 16);
    SextetRoundTrip((b1 % 16) * 4);
    GroupArith(b0, b1, 0);
  }

  lemma DecodeThreeBytes(b0: byte, b1: byte, b2: byte, t: string, rest: seq<byte>)
    requires Decode(t) == Some(rest)
    ensures Decode(Group3(b0, b1, b2) + t) == Some([b0, b1, b2] + rest)
  {
    var s := Group3(b0, b1, b2) + t;
    SextetRoundTrip(b0 / 4);
    SextetRoundTrip((b0 % 4) * 16 + b1 / 16);
    SextetRoundTrip((b1 % 16) * 4 + b2 / 64);
    SextetRoundTrip(b2 % 64);
    GroupArith(b0, b1, b2);
    assert s[2] != '=' && s[3] != '=';
    assert s[4..] == t;
  }

  /** Decoding undoes encoding. */
  lemma {:induction false} DecodeEncode(bs: seq<byte>)
    ensures Decode(Encode(bs)) == Some(bs)
    decreases |bs|
  {
    if |bs| == 1 {
      DecodeOneByte(bs[0]);
      assert bs == [bs[0]];
    } else if |bs| == 2 {
      DecodeTwoBytes(bs[0], bs[1]);
      assert bs == [bs[0], bs[1]];
    } else if |bs| >= 3 {
      DecodeEncode(bs[3..]);
      DecodeThreeBytes(bs[0], bs[1], bs[2], Encode(bs[3..]), bs[3..]);
      assert bs == [bs[0], bs[1], bs[2]] + bs[3..];
    }
  }

  lemma GroupShape(b0: byte, b1: byte, b2: byte)
    ensures forall i :: 0 <= i < 4 ==> InAlphabet(Group3(b0, b1, b2)[i])
    ensures forall i :: 0 <= i < 3 ==> InAlphabet(Group2(b0, b1)[i])
    ensures forall i :: 0 <= i < 2 ==> InAlphabet(Group1(b0)[i])
  {
    SextetRoundTrip(b0 / 4);
    SextetRoundTrip((b0 % 4) * 16 + b1 / 16);
    SextetRoundTrip((b1 % 16) * 4 + b2 / 64);
    SextetRoundTrip(b2 % 64);
    SextetRoundTrip((b0 % 4) * 16);
    SextetRoundTrip((b1 % 16) * 4);
  }

  /** The output is four characters per started group of three bytes, each an
      alphabet character or the padding `=`, with padding only at the end. */
  lemma {:induction false} EncodeShape(bs: seq<byte>)
    ensures |Encode(bs)| == 4 * ((|bs| + 2) / 3)
    ensures forall i :: 0 <= i < |Encode(bs)| ==> InAlphabet(Encode(bs)[i]) || Encode(bs)[i] == '='
    ensures forall i :: 0 <= i < |Encode(bs)| && Encode(bs)[i] == '=' ==> i >= |Encode(bs)| - 2
    decreases |bs|
  {
    if |bs| >= 3 {
      EncodeShape(bs[3..]);
      GroupShape(bs[0], bs[1], bs[2]);
      var g := Group3(bs[0], bs[1], bs[2]);
      var t := Encode(bs[3..]);
      assert Encode(bs) == g + t;
      forall i | 0 <= i < |g + t|
        ensures InAlphabet((g + t)[i]) || (g + t)[i] == '='
        ensures (g + t)[i] == '=' ==> i >= |g + t| - 2
      {
        if i >= 4 {
          assert (g + t)[i] == t[i - 4];
        }
      }
    } else if |bs| == 2 {
      GroupShape(bs[0], bs[1], 0);
    } else if |bs| == 1 {
      GroupShape(bs[0], 0, 0);
    }
  }
}
