/** A JSON reader (RFC 8259 without insignificant whitespace and with integer
    numbers only) and the proof that it reads back what `Json.Stringify`
    writes: `JSON.parse(JSON.stringify(v, replacer))` is `Clean(v)`. */
module JsonParse {
  import opened JsValue
  import opened Json

  /** The length of the run of decimal digits at the front of `s`. */
  function DigitRun(s: string): (n: nat)
    ensures n <= |s|
    ensures forall i :: 0 <= i < n ==> IsDigit(s[i])
    ensures n < |s| ==> !IsDigit(s[n])
  {
    if s == [] || !IsDigit(s[0]) then 0 else 1 + DigitRun(s[1..])
  }

  /** An unsigned JSON integer: a digit run without a leading zero. */
  function ParseNat(s: string): (r: Option<(nat, string)>)
    ensures r.Some? ==> |r.value.1| < |s|
  {
    var d := DigitRun(s);
    if d == 0 then None
    else if s[0] == '0' && d > 1 then None
    else Some((DigitsValue(s[..d]), s[d..]))
  }

  /** The character a two-character escape `\e` stands for. */
  function SimpleEscape(e: char): Option<char> {
    if e == '"' then Some('"')
    else if e == '\\' then Some('\\')
    else if e == '/' then Some('/')
    else if e == 'b' then Some(0x08 as char)
    else if e == 'f' then Some(0x0C as char)
    else if e == 'n' then Some(0x0A as char)
    else if e == 'r' then Some(0x0D as char)
    else if e == 't' then Some(0x09 as char)
    else None
  }

  /** The character of a `\uXXXX` escape; a lone surrogate half is refused,
      since a Dafny string holds scalar values only. */
  function UnicodeEscape(h: string): Option<char>
    requires |h| == 4
  {
    match (HexValue(h[0]), HexValue(h[1]), HexValue(h[2]), HexValue(h[3]))
    case (Some(a), Some(b), Some(c), Some(d)) =>
      var cp := a * 4096 + b * 256 + c * 16 + d;
      if cp < 0xD800 || 0xE000 <= cp then Some(cp as char) else None
    case _ => None
  }

  /** The body of a string literal up to and including its closing quote;
      returns the characters and what follows the quote. */
  function ParseString(s: string): (r: Option<(string, string)>)
    ensures r.Some? ==> |r.value.1| < |s|
    decreases |s|
  {
    if s == [] then None
    else if s[0] == '"' then Some(([], s[1..]))
    else if s[0] == '\\' then
      if |s| < 2 then None
      else if SimpleEscape(s[1]).Some? then
        match ParseString(s[2..])
        case None => None
        case Some((t, rest)) => Some(([SimpleEscape(s[1]).value] + t, rest))
      else if s[1] == 'u' && |s| >= 6 then
        match UnicodeEscape(s[2..6])
        case None => None
        case Some(c) =>
          (match ParseString(s[6..])
           case None => None
           case Some((t, rest)) => Some(([c] + t, rest)))
      else None
    else if (s[0] as int) < 0x20 then None
    else
      match ParseString(s[1..])
      case None => None
      case Some((t, rest)) => Some(([s[0]] + t, rest))
  }

  function Literal(s: string, word: string, v: Value): (r: Option<(Value, string)>)
    requires |word| > 0
    ensures r.Some? ==> |r.value.1| < |s|
  {
    if |word| <= |s| && s[..|word|] == word then Some((v, s[|word|..])) else None
  }

  /** One JSON value at the front of `s`, and the text after it. */
  function ParseValue(s: string): (r: Option<(Value, string)>)
    ensures r.Some? ==> |r.value.1| < |s|
    decreases |s|, 0
  {
    if s == [] then None
    else if s[0] == 'n' then Literal(s, "null", Null)
    else if s[0] == 't' then Literal(s, "true", Bool(true))
    else if s[0] == 'f' then Literal(s, "false", Bool(false))
    else if s[0] == '"' then
      match ParseString(s[1..])
      case None => None
      case Some((t, rest)) => Some((Str(t), rest))
    else if s[0] == '-' then
      match ParseNat(s[1..])
      case None => None
      case Some((n, rest)) => Some((Num(-(n as int)), rest))
    else if IsDigit(s[0]) then
      match ParseNat(s)
      case None => None
      case Some((n, rest)) => Some((Num(n), rest))
    else if s[0] == '[' then
      if |s| >= 2 && s[1] == ']' then Some((Arr([]), s[2..]))
      else
        match ParseElements(s[1..])
        case None => None
        case Some((items, rest)) => Some((Arr(items), rest))
    else if s[0] == '{' then
      if |s| >= 2 && s[1] == '}' then Some((Obj([]), s[2..]))
      else
        match ParseMembers(s[1..])
        case None => None
        case Some((fields, rest)) => Some((Obj(fields), rest))
    else None
  }

  /** `value (, value)* ]` */
  function ParseElements(s: string): (r: Option<(seq<Value>, string)>)
    ensures r.Some? ==> |r.value.1| < |s|
    decreases |s|, 1
  {
    match ParseValue(s)
    case None => None
    case Some((v, rest)) =>
      if rest == [] then None
      else if rest[0] == ']' then Some(([v], rest[1..]))
      else if rest[0] == ',' then
        match ParseElements(rest[1..])
        case None => None
        case Some((vs, rest')) => Some(([v] + vs, rest'))
      else None
  }

  /** `"key":value (, "key":value)* }` */
  function ParseMembers(s: string): (r: Option<(seq<Field>, string)>)
    ensures r.Some? ==> |r.value.1| < |s|
    decreases |s|, 1
  {
    if s == [] || s[0] != '"' then None
    else
      match ParseString(s[1..])
      case None => None
      case Some((key, afterKey)) =>
        if afterKey == [] || afterKey[0] != ':' then None
        else
          match ParseValue(afterKey[1..])
          case None => None
          case Some((v, rest)) =>
            if rest == [] then None
            else if rest[0] == '}' then Some(([Field(key, v)], rest[1..]))
            else if rest[0] == ',' then
              match ParseMembers(rest[1..])
              case None => None
              case Some((fs, rest')) => Some(([Field(key, v)] + fs, rest'))
            else None
  }

  /** `JSON.parse`: one value that uses up the whole text. */
  function Parse(s: string): Option<Value> {
    match ParseValue(s)
    case None => None
    case Some((v, rest)) => if rest == [] then Some(v) else None
  }

  // ---------------------------------------------------------------------
  // Reading back what Json writes

  /** The text after a value inside JSON: end of input or a separator. */
  predicate Delimited(rest: string) {
    rest == [] || rest[0] == ',' || rest[0] == ']' || rest[0] == '}'
  }

  lemma {:induction false} DigitRunAppend(t: string, rest: string)
    requires forall i :: 0 <= i < |t| ==> IsDigit(t[i])
    requires rest == [] || !IsDigit(rest[0])
    ensures DigitRun(t + rest) == |t|
  {
    if t != [] {
      assert (t + rest)[1..] == t[1..] + rest;
      DigitRunAppend(t[1..], rest);
    } else {
      assert t + rest == rest;
    }
  }

  lemma ParseNatText(n: nat, rest: string)
    requires rest == [] || !IsDigit(rest[0])
    ensures ParseNat(NatToString(n) + rest) == Some((n, rest))
  {
    var t := NatToString(n);
    NatToStringDigits(n);
    NatToStringValue(n);
    DigitRunAppend(t, rest);
    assert (t + rest)[..|t|] == t;
    assert (t + rest)[|t|..] == rest;
  }

  lemma ParseEscapedChar(c: char, u: string, t: string, rest: string)
    requires ParseString(u) == Some((t, rest))
    ensures ParseString(EscapeChar(c) + u) == Some(([c] + t, rest))
  {
    var s := EscapeChar(c) + u;
    var n := c as int;
    if c == '"' || c == '\\' || n == 0x08 || n == 0x09 || n == 0x0A || n == 0x0C || n == 0x0D {
      assert s[2..] == u;
    } else if n < 0x20 {
      assert s[6..] == u;
      assert s[2..6] == ['0', '0', LowerHexDigit(n / 16), LowerHexDigit(n % 16)];
      assert UnicodeEscape(s[2..6]) == Some(c);
    } else {
      assert s[1..] == u;
    }
  }

  /** A string literal's body reads back as the string. */
  lemma {:induction false} ParseEscapeBody(s: string, rest: string)
    ensures ParseString(EscapeBody(s) + ['"'] + rest) == Some((s, rest))
  {
    if s == [] {
      assert EscapeBody(s) + ['"'] + rest == ['"'] + rest;
    } else {
      var u := EscapeBody(s[1..]) + ['"'] + rest;
      ParseEscapeBody(s[1..], rest);
      ParseEscapedChar(s[0], u, s[1..], rest);
      assert EscapeBody(s) + ['"'] + rest == EscapeChar(s[0]) + u;
      assert [s[0]] + s[1..] == s;
    }
  }

  /** A serialized value or array element never starts with `]` or `}`. */
  lemma ElementTextStart(v: Value)
    ensures |ElementText(v)| > 0
    ensures ElementText(v)[0] != ']' && ElementText(v)[0] != '}'
  {
    if v.Num? {
      NatToStringDigits(if v.n < 0 then -v.n else v.n);
    }
  }

  lemma {:induction false} MemberTextsStart(fields: seq<Field>)
    ensures forall i :: 0 <= i < |MemberTexts(fields)| ==>
      |MemberTexts(fields)[i]| > 0 && MemberTexts(fields)[i][0] == '"'
  {
    if fields != [] {
      MemberTextsStart(fields[1..]);
    }
  }

  lemma {:induction false} MemberTextsEmpty(fields: seq<Field>)
    ensures MemberTexts(fields) == [] <==> CleanMembers(fields) == []
  {
    if fields != [] {
      MemberTextsEmpty(fields[1..]);
    }
  }

  lemma JoinCons(m: string, parts: seq<string>)
    requires parts != []
    ensures Join([m] + parts) == m + "," + Join(parts)
  {
    assert ([m] + parts)[1..] == parts;
  }

  // ---------------------------------------------------------------------
  // Facts about the texts, kept apart from the reader's definitions

  lemma Halves(a: string, b: string)
    ensures (a + b)[..|a|] == a && (a + b)[|a|..] == b
    ensures a != [] ==> (a + b)[0] == a[0]
  {
  }

  lemma Regroup(a: string, b: string, c: string, d: string)
    ensures a + b + c + d == a + (b + c + d)
  {
  }

  /** What the reader sees of `open body close rest`. */
  lemma Bracketed(open: string, body: string, close: string, rest: string)
    requires |open| == 1 && |close| == 1
    ensures var s := open + body + close + rest;
      |s| >= 2 && s[0] == open[0] && s[1..] == body + close + rest &&
      (body == [] ==> s[1] == close[0] && s[2..] == rest) &&
      (body != [] ==> s[1] == body[0])
  {
  }

  lemma NumberText(n: int, rest: string)
    ensures n < 0 ==> Serialize(Num(n)).value + rest == "-" + (NatToString(-n) + rest)
    ensures n >= 0 ==> Serialize(Num(n)).value + rest == NatToString(n) + rest
  {
  }

  lemma StringText(x: string, rest: string)
    requires x != ""
    ensures Serialize(Str(x)).value + rest == ['"'] + (EscapeBody(x) + ['"'] + rest)
  {
  }

  lemma ElementsTextStart(items: seq<Value>)
    requires items != []
    ensures |ElementsText(items)| > 0 && ElementsText(items)[0] != ']'
  {
    ElementTextStart(items[0]);
    if |items| > 1 {
      Halves(ElementText(items[0]), "," + ElementsText(items[1..]));
    }
  }

  lemma OneElement(items: seq<Value>)
    requires |items| == 1
    ensures ElementsText(items) == ElementText(items[0])
    ensures CleanElements(items) == [Clean(items[0])]
  {
    assert items[1..] == [];
  }

  lemma MoreElements(items: seq<Value>, rest: string)
    requires |items| > 1
    ensures ElementsText(items) + "]" + rest ==
      ElementText(items[0]) + "," + (ElementsText(items[1..]) + "]" + rest)
  {
    Regroup(ElementText(items[0]) + ",", ElementsText(items[1..]), "]", rest);
  }

  lemma QuotedKey(key: string, body: string)
    ensures var s := Quote(key) + ":" + body;
      |s| > 0 && s[0] == '"' && s[1..] == EscapeBody(key) + ['"'] + (":" + body)
  {
  }

  /** The texts of a member list whose first member the replacer drops. */
  lemma DroppedFirst(fields: seq<Field>)
    requires fields != [] && Omitted(fields[0].val)
    ensures MemberTexts(fields) == MemberTexts(fields[1..])
    ensures CleanMembers(fields) == CleanMembers(fields[1..])
  {
  }

  /** The texts of a member list whose first member the replacer keeps. */
  lemma KeptFirst(fields: seq<Field>)
    requires fields != [] && !Omitted(fields[0].val)
    ensures MemberTexts(fields) == [Quote(fields[0].key) + ":" + Serialize(fields[0].val).value] + MemberTexts(fields[1..])
    ensures CleanMembers(fields) == [Field(fields[0].key, Clean(fields[0].val))] + CleanMembers(fields[1..])
  {
  }

  /** A member list whose only kept member is the first. */
  lemma KeptOnlyFirst(fields: seq<Field>)
    requires fields != [] && !Omitted(fields[0].val) && MemberTexts(fields[1..]) == []
    ensures Join(MemberTexts(fields)) == Quote(fields[0].key) + ":" + Serialize(fields[0].val).value
    ensures CleanMembers(fields) == [Field(fields[0].key, Clean(fields[0].val))]
  {
    KeptFirst(fields);
    MemberTextsEmpty(fields[1..]);
    var m := Quote(fields[0].key) + ":" + Serialize(fields[0].val).value;
    assert [m] + [] == [m];
    assert [Field(fields[0].key, Clean(fields[0].val))] + [] == [Field(fields[0].key, Clean(fields[0].val))];
  }

  /** A member list whose first member is kept and followed by others. */
  lemma KeptBeforeMore(fields: seq<Field>, rest: string)
    requires fields != [] && !Omitted(fields[0].val) && MemberTexts(fields[1..]) != []
    ensures Join(MemberTexts(fields)) + "}" + rest ==
      Quote(fields[0].key) + ":" + Serialize(fields[0].val).value + "," + (Join(MemberTexts(fields[1..])) + "}" + rest)
    ensures CleanMembers(fields) == [Field(fields[0].key, Clean(fields[0].val))] + CleanMembers(fields[1..])
  {
    KeptFirst(fields);
    var m := Quote(fields[0].key) + ":" + Serialize(fields[0].val).value;
    JoinCons(m, MemberTexts(fields[1..]));
    Regroup(m + ",", Join(MemberTexts(fields[1..])), "}", rest);
  }

  // ---------------------------------------------------------------------
  // How the reader steps through a text

  lemma ParseValueNegative(s: string, n: nat, rest: string)
    requires |s| > 0 && s[0] == '-' && ParseNat(s[1..]) == Some((n, rest))
    ensures ParseValue(s) == Some((Num(-(n as int)), rest))
  {
    assert s[0] != 'n' && s[0] != 't' && s[0] != 'f' && s[0] != '"';
  }

  lemma ParseValueNatural(s: string, n: nat, rest: string)
    requires |s| > 0 && IsDigit(s[0]) && ParseNat(s) == Some((n, rest))
    ensures ParseValue(s) == Some((Num(n), rest))
  {
    assert s[0] != 'n' && s[0] != 't' && s[0] != 'f' && s[0] != '"' && s[0] != '-';
  }

  lemma ParseValueString(s: string, t: string, rest: string)
    requires |s| > 0 && s[0] == '"' && ParseString(s[1..]) == Some((t, rest))
    ensures ParseValue(s) == Some((Str(t), rest))
  {
    assert s[0] != 'n' && s[0] != 't' && s[0] != 'f';
  }

  lemma ParseValueEmptyArray(s: string)
    requires |s| >= 2 && s[0] == '[' && s[1] == ']'
    ensures ParseValue(s) == Some((Arr([]), s[2..]))
  {
    assert s[0] != 'n' && s[0] != 't' && s[0] != 'f' && s[0] != '"' && s[0] != '-' && !IsDigit(s[0]);
  }

  lemma ParseValueArray(s: string, items: seq<Value>, rest: string)
    requires |s| >= 2 && s[0] == '[' && s[1] != ']' && ParseElements(s[1..]) == Some((items, rest))
    ensures ParseValue(s) == Some((Arr(items), rest))
  {
    assert s[0] != 'n' && s[0] != 't' && s[0] != 'f' && s[0] != '"' && s[0] != '-' && !IsDigit(s[0]);
  }

  lemma ParseValueEmptyObject(s: string)
    requires |s| >= 2 && s[0] == '{' && s[1] == '}'
    ensures ParseValue(s) == Some((Obj([]), s[2..]))
  {
    assert s[0] != 'n' && s[0] != 't' && s[0] != 'f' && s[0] != '"' && s[0] != '-' && !IsDigit(s[0]) && s[0] != '[';
  }

  lemma ParseValueObject(s: string, fs: seq<Field>, rest: string)
    requires |s| >= 2 && s[0] == '{' && s[1] != '}' && ParseMembers(s[1..]) == Some((fs, rest))
    ensures ParseValue(s) == Some((Obj(fs), rest))
  {
    assert s[0] != 'n' && s[0] != 't' && s[0] != 'f' && s[0] != '"' && s[0] != '-' && !IsDigit(s[0]) && s[0] != '[';
  }

  /** One member, then `}` or `,`. */
  lemma ParseMembersStep(s: string, key: string, body: string, v: Value, after: string)
    requires |s| > 0 && s[0] == '"' && ParseString(s[1..]) == Some((key, ":" + body))
    requires ParseValue(body) == Some((v, after))
    ensures |after| > 0 && after[0] == '}' ==> ParseMembers(s) == Some(([Field(key, v)], after[1..]))
    ensures |after| > 0 && after[0] == ',' && ParseMembers(after[1..]).Some? ==>
      ParseMembers(s) == Some(([Field(key, v)] + ParseMembers(after[1..]).value.0, ParseMembers(after[1..]).value.1))
  {
    Halves(":", body);
  }

  // ---------------------------------------------------------------------
  // Each kind of value reads back

  lemma ParseBoolText(b: bool, rest: string)
    ensures ParseValue(Serialize(Bool(b)).value + rest) == Some((Bool(b), rest))
  {
    var t := Serialize(Bool(b)).value;
    Halves(t, rest);
  }

  lemma ParseNumText(n: int, rest: string)
    requires Delimited(rest)
    ensures ParseValue(Serialize(Num(n)).value + rest) == Some((Num(n), rest))
  {
    var s := Serialize(Num(n)).value + rest;
    var m := if n < 0 then -n else n;
    var t := NatToString(m);
    NatToStringDigits(m);
    ParseNatText(m, rest);
    NumberText(n, rest);
    Halves(t, rest);
    if n < 0 {
      Halves("-", t + rest);
      ParseValueNegative(s, m, rest);
    } else {
      ParseValueNatural(s, m, rest);
    }
  }

  lemma ParseStrText(x: string, rest: string)
    requires x != ""
    ensures ParseValue(Serialize(Str(x)).value + rest) == Some((Str(x), rest))
  {
    var s := Serialize(Str(x)).value + rest;
    var u := EscapeBody(x) + ['"'] + rest;
    StringText(x, rest);
    Halves(['"'], u);
    ParseEscapeBody(x, rest);
    ParseValueString(s, x, rest);
  }

  lemma ParseArrText(items: seq<Value>, rest: string)
    requires Delimited(rest)
    requires items != [] ==> ParseElements(ElementsText(items) + "]" + rest) == Some((CleanElements(items), rest))
    ensures ParseValue(Serialize(Arr(items)).value + rest) == Some((Arr(CleanElements(items)), rest))
  {
    var body := ElementsText(items);
    var s := "[" + body + "]" + rest;
    assert Serialize(Arr(items)).value + rest == s;
    Bracketed("[", body, "]", rest);
    if items == [] {
      ParseValueEmptyArray(s);
    } else {
      ElementsTextStart(items);
      ParseValueArray(s, CleanElements(items), rest);
    }
  }

  lemma JoinStart(parts: seq<string>)
    requires parts != [] && |parts[0]| > 0
    ensures |Join(parts)| > 0 && Join(parts)[0] == parts[0][0]
  {
    if |parts| > 1 {
      assert Join(parts) == parts[0] + "," + Join(parts[1..]);
    }
  }

  lemma ParseBraced(body: string, rest: string, fs: seq<Field>)
    requires body == [] ==> fs == []
    requires body != [] ==> body[0] == '"' && ParseMembers(body + "}" + rest) == Some((fs, rest))
    ensures ParseValue("{" + body + "}" + rest) == Some((Obj(fs), rest))
  {
    var s := "{" + body + "}" + rest;
    Bracketed("{", body, "}", rest);
    if body == [] {
      ParseValueEmptyObject(s);
    } else {
      ParseValueObject(s, fs, rest);
    }
  }

  lemma ParseObjText(fields: seq<Field>, rest: string)
    requires Delimited(rest)
    requires MemberTexts(fields) != [] ==>
      ParseMembers(Join(MemberTexts(fields)) + "}" + rest) == Some((CleanMembers(fields), rest))
    ensures ParseValue(Serialize(Obj(fields)).value + rest) == Some((Obj(CleanMembers(fields)), rest))
  {
    var parts := MemberTexts(fields);
    var j := Join(parts);
    assert Serialize(Obj(fields)).value + rest == "{" + j + "}" + rest;
    MemberTextsEmpty(fields);
    if parts != [] {
      MemberTextsStart(fields);
      JoinStart(parts);
    }
    ParseBraced(j, rest, CleanMembers(fields));
  }

  /** A value the replacer keeps reads back as its cleaned form. */
  lemma {:induction false} ParseSerialized(v: Value, rest: string)
    requires !Omitted(v)
    requires Delimited(rest)
    ensures ParseValue(Serialize(v).value + rest) == Some((Clean(v), rest))
    decreases v, 0
  {
    match v
    case Bool(b) => ParseBoolText(b, rest);
    case Num(n) => ParseNumText(n, rest);
    case Str(x) => ParseStrText(x, rest);
    case Arr(items) =>
      if items != [] {
        ParseElementsText(items, rest);
      }
      ParseArrText(items, rest);
    case Obj(fields) =>
      if MemberTexts(fields) != [] {
        ParseMemberTexts(fields, rest);
      }
      ParseObjText(fields, rest);
  }

  /** An array element, removed or not, reads back as its cleaned form. */
  lemma {:induction false} ParseElementText(v: Value, rest: string)
    requires Delimited(rest)
    ensures ParseValue(ElementText(v) + rest) == Some((Clean(v), rest))
    decreases v, 1
  {
    if Omitted(v) {
      Halves("null", rest);
    } else {
      ParseSerialized(v, rest);
    }
  }

  lemma ParseLastElement(t: string, cv: Value, rest: string)
    requires ParseValue(t + "]" + rest) == Some((cv, "]" + rest))
    ensures ParseElements(t + "]" + rest) == Some(([cv], rest))
  {
    Halves("]", rest);
  }

  lemma ParseNextElement(t: string, cv: Value, tail: string, cvs: seq<Value>, rest: string)
    requires ParseValue(t + "," + tail) == Some((cv, "," + tail))
    requires ParseElements(tail) == Some((cvs, rest))
    ensures ParseElements(t + "," + tail) == Some(([cv] + cvs, rest))
  {
    Halves(",", tail);
  }

  lemma {:induction false} ParseElementsText(items: seq<Value>, rest: string)
    requires |items| >= 1
    requires Delimited(rest)
    ensures ParseElements(ElementsText(items) + "]" + rest) == Some((CleanElements(items), rest))
    decreases items, 2
  {
    var t := ElementText(items[0]);
    if |items| == 1 {
      ParseElementText(items[0], "]" + rest);
      assert t + ("]" + rest) == t + "]" + rest;
      ParseLastElement(t, Clean(items[0]), rest);
      OneElement(items);
    } else {
      var tail := ElementsText(items[1..]) + "]" + rest;
      ParseElementText(items[0], "," + tail);
      assert t + ("," + tail) == t + "," + tail;
      ParseElementsText(items[1..], rest);
      ParseNextElement(t, Clean(items[0]), tail, CleanElements(items[1..]), rest);
      MoreElements(items, rest);
    }
  }

  /** The key of a member reads back, leaving the `:` and what follows. */
  lemma ParseMemberKey(key: string, body: string)
    ensures (Quote(key) + ":" + body)[0] == '"'
    ensures ParseString((Quote(key) + ":" + body)[1..]) == Some((key, ":" + body))
  {
    QuotedKey(key, body);
    ParseEscapeBody(key, ":" + body);
  }

  lemma ParseLastMember(key: string, t: string, cv: Value, rest: string)
    requires ParseValue(t + "}" + rest) == Some((cv, "}" + rest))
    ensures ParseMembers(Quote(key) + ":" + t + "}" + rest) == Some(([Field(key, cv)], rest))
  {
    var body := t + "}" + rest;
    ParseMemberKey(key, body);
    Regroup(Quote(key) + ":", t, "}", rest);
    Halves("}", rest);
    ParseMembersStep(Quote(key) + ":" + body, key, body, cv, "}" + rest);
  }

  lemma ParseNextMember(key: string, t: string, cv: Value, tail: string, fs: seq<Field>, rest: string)
    requires ParseValue(t + "," + tail) == Some((cv, "," + tail))
    requires ParseMembers(tail) == Some((fs, rest))
    ensures ParseMembers(Quote(key) + ":" + t + "," + tail) == Some(([Field(key, cv)] + fs, rest))
  {
    var body := t + "," + tail;
    ParseMemberKey(key, body);
    Regroup(Quote(key) + ":", t, ",", tail);
    Halves(",", tail);
    ParseMembersStep(Quote(key) + ":" + body, key, body, cv, "," + tail);
  }

  lemma {:induction false} ParseMemberTexts(fields: seq<Field>, rest: string)
    requires MemberTexts(fields) != []
    requires Delimited(rest)
    ensures ParseMembers(Join(MemberTexts(fields)) + "}" + rest) == Some((CleanMembers(fields), rest))
    decreases fields, 2
  {
    var f := fields[0];
    if Omitted(f.val) {
      DroppedFirst(fields);
      ParseMemberTexts(fields[1..], rest);
    } else {
      var t := Serialize(f.val).value;
      if MemberTexts(fields[1..]) == [] {
        KeptOnlyFirst(fields);
        ParseSerialized(f.val, "}" + rest);
        assert t + ("}" + rest) == t + "}" + rest;
        ParseLastMember(f.key, t, Clean(f.val), rest);
      } else {
        var tail := Join(MemberTexts(fields[1..])) + "}" + rest;
        KeptBeforeMore(fields, rest);
        ParseMemberTexts(fields[1..], rest);
        ParseSerialized(f.val, "," + tail);
        assert t + ("," + tail) == t + "," + tail;
        ParseNextMember(f.key, t, Clean(f.val), tail, CleanMembers(fields[1..]), rest);
      }
    }
  }

  /** `JSON.parse(JSON.stringify(v, replacer))` gives back `v` with every
      `null`, `undefined` and `""` member removed (and such array elements
      turned into `null`). */
  lemma ParseStringify(v: Value)
    requires Stringify(v).Some?
    ensures Parse(Stringify(v).value) == Some(Clean(v))
  {
    ParseSerialized(v, []);
    assert Stringify(v).value + [] == Stringify(v).value;
  }
}
