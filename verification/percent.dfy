/** Percent-encoding (section 2.1 of RFC 3986) as `encodeURIComponent` applies
    it: every UTF-8 byte of a character outside the unescaped set becomes `%`
    followed by two upper-case hexadecimal digits. */
module Percent {
  import opened JsValue
  import opened Utf8

  /** The characters `encodeURIComponent` leaves alone: ASCII letters and
      digits and `- _ . ! ~ * ' ( )`. */
  predicate Unescaped(c: char) {
    ('A' <= c <= 'Z') || ('a' <= c <= 'z') || ('0' <= c <= '9') || c in "-_.!~*'()"
  }

  function HexDigit(n: nat): (c: char)
    requires n < 16
    ensures Unescaped(c)
  {
    if n < 10 then (('0' as int) + n) as char else (('A' as int) + (n - 10)) as char
  }

  /** One byte: kept as its character when that character is unescaped,
      otherwise `%XX`. */
  function EncodeByte(b: byte): string {
    if b < 0x80 && Unescaped(b as char) then [b as char]
    else ['%', HexDigit(b / 16), HexDigit(b % 16)]
  }

  function EncodeBytes(bs: seq<byte>): string {
    if bs == [] then "" else EncodeByte(bs[0]) + EncodeBytes(bs[1..])
  }

  /** `encodeURIComponent(s)`. */
  function EncodeURIComponent(s: string): string {
    EncodeBytes(Utf8.Encode(s))
  }

  /** The bytes an escaped text stands for: `%XX` is one byte, any other ASCII
      character stands for itself; a bad escape or a non-ASCII character gives
      `None`. */
  function DecodeBytes(s: string): Option<seq<byte>>
    decreases |s|
  {
    if s == [] then Some([])
    else if s[0] == '%' then
      if |s| < 3 then None
      else match (HexValue(s[1]), HexValue(s[2]))
        case (Some(hi), Some(lo)) =>
          (match DecodeBytes(s[3..])
           case None => None
           case Some(rest) => Some([hi * 16 + lo] + rest))
        case _ => None
    else if (s[0] as int) < 0x80 then
      match DecodeBytes(s[1..])
      case None => None
      case Some(rest) => Some([s[0] as int] + rest)
    else None
  }

  /** `decodeURIComponent(s)` for texts whose unescaped characters are ASCII. */
  function DecodeURIComponent(s: string): Option<string> {
    match DecodeBytes(s)
    case None => None
    case Some(bs) => Utf8.Decode(bs)
  }

  lemma DecodeEncodeByte(b: byte, t: string, rest: seq<byte>)
    requires DecodeBytes(t) == Some(rest)
    ensures DecodeBytes(EncodeByte(b) + t) == Some([b] + rest)
  {
    var s := EncodeByte(b) + t;
    if b < 0x80 && Unescaped(b as char) {
      assert s[0] != '%';
      assert s[1..] == t;
    } else {
      assert s[3..] == t;
      assert HexValue(s[1]) == Some(b / 16);
      assert HexValue(s[2]) == Some(b % 16);
    }
  }

  lemma {:induction false} DecodeEncodeBytes(bs: seq<byte>)
    ensures DecodeBytes(EncodeBytes(bs)) == Some(bs)
  {
    if bs != [] {
      DecodeEncodeBytes(bs[1..]);
      DecodeEncodeByte(bs[0], EncodeBytes(bs[1..]), bs[1..]);
      assert [bs[0]] + bs[1..] == bs;
    }
  }

  /** `decodeURIComponent(encodeURIComponent(s)) == s`. */
  lemma DecodeEncode(s: string)
    ensures DecodeURIComponent(EncodeURIComponent(s)) == Some(s)
  {
    DecodeEncodeBytes(Utf8.Encode(s));
    Utf8.DecodeEncode(s);
  }

  /** The encoded text uses only unescaped characters and `%`, so it never
      contains a query-string delimiter such as `&`, `=` or `#`. */
  lemma {:induction false} EncodeBytesAlphabet(bs: seq<byte>)
    ensures forall i :: 0 <= i < |EncodeBytes(bs)| ==>
      Unescaped(EncodeBytes(bs)[i]) || EncodeBytes(bs)[i] == '%'
  {
    if bs != [] {
      EncodeBytesAlphabet(bs[1..]);
      var e := EncodeByte(bs[0]);
      var t := EncodeBytes(bs[1..]);
      forall i | 0 <= i < |e + t|
        ensures Unescaped((e + t)[i]) || (e + t)[i] == '%'
      {
        if i >= |e| {
          assert (e + t)[i] == t[i - |e|];
        }
      }
    }
  }
}
