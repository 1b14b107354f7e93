/** `JSON.stringify(payload, replacer)` with the replacer of src/send.ts: a
    member whose value is `null`, `undefined` or the empty string is left out
    of its object, and such a value inside an array prints as `null`. Numbers
    are integer-valued, so their JSON text is their decimal text. */
module Json {
  import opened JsValue

  /** The replacer: `null`, `undefined` and `""` become `undefined`; every
      other value passes through. */
  function Replacer(v: Value): Value {
    if Nullish(v) || v == Str("") then Undefined else v
  }

  /** The values the replacer removes. */
  predicate Omitted(v: Value) {
    Replacer(v).Undefined?
  }

  function LowerHexDigit(n: nat): (c: char)
    requires n < 16
    ensures HexValue(c) == Some(n)
  {
    if n < 10 then (('0' as int) + n) as char else (('a' as int) + (n - 10)) as char
  }

  /** The JSON text of one character inside a string literal: quote and
      backslash are escaped, the five common control characters get their
      short escapes, other control characters get `\u00XX` in lower-case
      hexadecimal, everything else stands for itself. */
  function EscapeChar(c: char): string {
    var n := c as int;
    if c == '"' then ['\\', '"']
    else if c == '\\' then ['\\', '\\']
    else if n == 0x08 then ['\\', 'b']
    else if n == 0x09 then ['\\', 't']
    else if n == 0x0A then ['\\', 'n']
    else if n == 0x0C then ['\\', 'f']
    else if n == 0x0D then ['\\', 'r']
    else if n < 0x20 then ['\\', 'u', '0', '0', LowerHexDigit(n / 16), LowerHexDigit(n % 16)]
    else [c]
  }

  function EscapeBody(s: string): string {
    if s == [] then [] else EscapeChar(s[0]) + EscapeBody(s[1..])
  }

  /** A JSON string literal. */
  function Quote(s: string): string {
    ['"'] + EscapeBody(s) + ['"']
  }

  /** The texts joined with `,` between them. */
  function Join(parts: seq<string>): string {
    if parts == [] then ""
    else if |parts| == 1 then parts[0]
    else parts[0] + "," + Join(parts[1..])
  }

  /** The JSON text of a value after the replacer has seen it; `None` when the
      replacer turned it into `undefined`. */
  function Serialize(v: Value): (r: Option<string>)
    ensures r.None? <==> Omitted(v)
    decreases v, 1
  {
    match v
    case Undefined => None
    case Null => None
    case Bool(b) => Some(if b then "true" else "false")
    case Num(n) => Some(IntToString(n))
    case Str(s) => if s == "" then None else Some(Quote(s))
    case Arr(items) => Some("[" + ElementsText(items) + "]")
    case Obj(fields) => Some("{" + Join(MemberTexts(fields)) + "}")
  }

  /** An array element: a removed value prints as `null`. */
  function ElementText(v: Value): string
    decreases v, 2
  {
    match Serialize(v)
    case None => "null"
    case Some(t) => t
  }

  function ElementsText(items: seq<Value>): string
    decreases items, 2
  {
    if items == [] then ""
    else if |items| == 1 then ElementText(items[0])
    else ElementText(items[0]) + "," + ElementsText(items[1..])
  }

  /** The `"key":value` texts of the members the replacer keeps, in order. */
  function MemberTexts(fields: seq<Field>): seq<string>
    decreases fields, 2
  {
    if fields == [] then []
    else
      var head := match Serialize(fields[0].val)
        case None => []
        case Some(t) => [Quote(fields[0].key) + ":" + t];
      head + MemberTexts(fields[1..])
  }

  /** `JSON.stringify(v, replacer)`; `None` stands for the `undefined` it
      returns when the replacer removes the value itself. */
  function Stringify(v: Value): Option<string> {
    Serialize(v)
  }

  /** The value that parsing the JSON text gives back: removed members are
      gone, removed array elements read back as `null`. */
  function Clean(v: Value): Value
    decreases v, 0
  {
    match v
    case Arr(items) => Arr(CleanElements(items))
    case Obj(fields) => Obj(CleanMembers(fields))
    case _ => if Omitted(v) then Null else v
  }

  function CleanElements(items: seq<Value>): (r: seq<Value>)
    ensures |r| == |items|
    decreases items, 1
  {
    if items == [] then [] else [Clean(items[0])] + CleanElements(items[1..])
  }

  function CleanMembers(fields: seq<Field>): seq<Field>
    decreases fields, 1
  {
    if fields == [] then []
    else
      var head := if Omitted(fields[0].val) then [] else [Field(fields[0].key, Clean(fields[0].val))];
      head + CleanMembers(fields[1..])
  }

  /** No object inside the value has a member the replacer would remove. */
  predicate NoOmittedMembers(v: Value)
    decreases v, 0
  {
    match v
    case Arr(items) => forall i :: 0 <= i < |items| ==> NoOmittedMembers(items[i])
    case Obj(fields) =>
      forall i :: 0 <= i < |fields| ==> !Omitted(fields[i].val) && NoOmittedMembers(fields[i].val)
    case _ => true
  }

  /** What survives serialization never has a `null`, `undefined` or `""`
      member, at any depth. */
  lemma {:induction false} CleanHasNoOmittedMembers(v: Value)
    ensures NoOmittedMembers(Clean(v))
    decreases v, 0
  {
    match v
    case Arr(items) => CleanElementsHaveNone(items);
    case Obj(fields) => CleanMembersHaveNone(fields);
    case _ =>
  }

  lemma {:induction false} CleanElementsHaveNone(items: seq<Value>)
    ensures forall i :: 0 <= i < |items| ==> NoOmittedMembers(CleanElements(items)[i])
    decreases items, 1
  {
    if items != [] {
      CleanHasNoOmittedMembers(items[0]);
      CleanElementsHaveNone(items[1..]);
      assert CleanElements(items) == [Clean(items[0])] + CleanElements(items[1..]);
    }
  }

  lemma {:induction false} CleanMembersHaveNone(fields: seq<Field>)
    ensures forall i :: 0 <= i < |CleanMembers(fields)| ==>
      !Omitted(CleanMembers(fields)[i].val) && NoOmittedMembers(CleanMembers(fields)[i].val)
    decreases fields, 1
  {
    if fields != [] {
      CleanMembersHaveNone(fields[1..]);
      var v := fields[0].val;
      if !Omitted(v) {
        CleanHasNoOmittedMembers(v);
        CleanKeepsKept(v);
      }
    }
  }

  /** A value the replacer keeps is still kept once cleaned. */
  lemma CleanKeepsKept(v: Value)
    requires !Omitted(v)
    ensures !Omitted(Clean(v))
  {
  }
}
