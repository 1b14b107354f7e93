/** JavaScript values as the telemetry library handles them: property bags
    (plain objects), truthiness, loose `== null`, and the conversions to text
    that the library relies on (`String(v)` and `Number.prototype.toString`
    for integer-valued numbers). */
module JsValue {

  datatype Option<+T> = None | Some(value: T)

  /** A JavaScript value. Numbers are integer-valued; an object keeps its
      properties in insertion order, which is the order in which `for ... in`,
      object spread and `JSON.stringify` visit them. */
  datatype Value =
    | Undefined
    | Null
    | Bool(b: bool)
    | Num(n: int)
    | Str(s: string)
    | Arr(items: seq<Value>)
    | Obj(fields: seq<Field>)

  datatype Field = Field(key: string, val: Value)

  /** A plain object used as a property bag (`Partial<State>`, `Record<string, unknown>`). */
  type Props = seq<Field>

  /** JavaScript truthiness: `undefined`, `null`, `false`, `0` and `""` are falsy. */
  predicate Truthy(v: Value) {
    match v
    case Undefined => false
    case Null => false
    case Bool(b) => b
    case Num(n) => n != 0
    case Str(s) => s != ""
    case Arr(_) => true
    case Obj(_) => true
  }

  /** `v == null` under loose equality: true exactly for `null` and `undefined`. */
  predicate Nullish(v: Value) {
    v.Undefined? || v.Null?
  }

  /** The own keys of a property bag, in enumeration order. */
  function Keys(p: Props): seq<string> {
    if p == [] then [] else [p[0].key] + Keys(p[1..])
  }

  /** A JavaScript object never holds the same key twice. */
  predicate NoDupKeys(p: Props) {
    p == [] || (p[0].key !in Keys(p[1..]) && NoDupKeys(p[1..]))
  }

  /** Property lookup; `None` when the key is not an own property. */
  function Get(p: Props, k: string): (r: Option<Value>)
    ensures r.None? <==> k !in Keys(p)
    ensures r.Some? ==> Field(k, r.value) in p
  {
    if p == [] then None
    else if p[0].key == k then Some(p[0].val)
    else Get(p[1..], k)
  }

  /** `p[k]`: the property's value, or `undefined` when it is absent. */
  function Lookup(p: Props, k: string): Value {
    match Get(p, k)
    case None => Undefined
    case Some(v) => v
  }

  /** `p[k] = v`: an existing key keeps its position, a new key goes last. */
  function Put(p: Props, k: string, v: Value): (r: Props)
    ensures Get(r, k) == Some(v)
    ensures forall k' :: k' != k ==> Get(r, k') == Get(p, k')
    ensures k in Keys(p) ==> Keys(r) == Keys(p)
    ensures k !in Keys(p) ==> Keys(r) == Keys(p) + [k]
    ensures NoDupKeys(p) ==> NoDupKeys(r)
  {
    if p == [] then [Field(k, v)]
    else if p[0].key == k then [Field(k, v)] + p[1..]
    else [p[0]] + Put(p[1..], k, v)
  }

  /** `delete p[k]`: the key disappears, every other key keeps its value. */
  function Delete(p: Props, k: string): (r: Props)
    ensures Get(r, k) == None
    ensures forall k' :: k' != k ==> Get(r, k') == Get(p, k')
    ensures forall k' :: k' in Keys(r) ==> k' in Keys(p)
    ensures NoDupKeys(p) ==> NoDupKeys(r)
  {
    if p == [] then []
    else if p[0].key == k then Delete(p[1..], k)
    else [p[0]] + Delete(p[1..], k)
  }

  // ---------------------------------------------------------------------
  // Decimal text of integers

  function DigitChar(d: nat): (c: char)
    requires d < 10
    ensures '0' <= c <= '9'
    ensures (c as int) - ('0' as int) == d
  {
    (('0' as int) + d) as char
  }

  predicate IsDigit(c: char) {
    '0' <= c <= '9'
  }

  /** The value of a hexadecimal digit in either case. */
  function HexValue(c: char): (r: Option<nat>)
    ensures r.Some? ==> r.value < 16
  {
    if '0' <= c <= '9' then Some((c as int) - ('0' as int))
    else if 'A' <= c <= 'F' then Some((c as int) - ('A' as int) + 10)
    else if 'a' <= c <= 'f' then Some((c as int) - ('a' as int) + 10)
    else None
  }

  /** Decimal digits of `n` with no leading zero, as `String(n)` writes them. */
  function NatToString(n: nat): string
    decreases n
  {
    if n < 10 then [DigitChar(n)] else NatToString(n / 10) + [DigitChar(n % 10)]
  }

  /** `String(n)` for an integer-valued number. */
  function IntToString(n: int): string {
    if n < 0 then "-" + NatToString(-n) else NatToString(n)
  }

  /** The number a run of decimal digits denotes. */
  function DigitsValue(s: string): nat
    requires forall i :: 0 <= i < |s| ==> IsDigit(s[i])
  {
    if s == [] then 0
    else
      assert IsDigit(s[|s| - 1]);
      10 * DigitsValue(s[..|s| - 1]) + ((s[|s| - 1] as int) - ('0' as int))
  }

  /** The decimal text is a non-empty run of digits without a leading zero. */
  lemma {:induction false} NatToStringDigits(n: nat)
    ensures |NatToString(n)| >= 1
    ensures forall i :: 0 <= i < |NatToString(n)| ==> IsDigit(NatToString(n)[i])
    ensures NatToString(n)[0] == '0' ==> n == 0
    ensures n >= 10 <==> |NatToString(n)| >= 2
    decreases n
  {
    if n >= 10 {
      NatToStringDigits(n / 10);
      var s := NatToString(n / 10);
      assert NatToString(n) == s + [DigitChar(n % 10)];
      assert NatToString(n)[0] == s[0];
    }
  }

  /** Reading the decimal text back gives the number. */
  lemma {:induction false} NatToStringValue(n: nat)
    ensures forall i :: 0 <= i < |NatToString(n)| ==> IsDigit(NatToString(n)[i])
    ensures DigitsValue(NatToString(n)) == n
    decreases n
  {
    NatToStringDigits(n);
    if n >= 10 {
      NatToStringValue(n / 10);
      var s := NatToString(n);
      assert s[..|s| - 1] == NatToString(n / 10);
    }
  }

  /** Distinct numbers have distinct decimal texts. */
  lemma NatToStringInjective(m: nat, n: nat)
    requires NatToString(m) == NatToString(n)
    ensures m == n
  {
    NatToStringValue(m);
    NatToStringValue(n);
  }

  // ---------------------------------------------------------------------
  // String(v)

  /** `String(v)` (equivalently the template literal `${v}`). */
  function ToText(v: Value): string
    decreases v, 0
  {
    match v
    case Undefined => "undefined"
    case Null => "null"
    case Bool(b) => if b then "true" else "false"
    case Num(n) => IntToString(n)
    case Str(s) => s
    case Arr(items) => JoinItems(items)
    case Obj(_) => "[object Object]"
  }

  /** `Array.prototype.join(",")`: `null` and `undefined` elements print empty. */
  function JoinItems(items: seq<Value>): string
    decreases items, 2
  {
    if items == [] then ""
    else if |items| == 1 then ItemText(items[0])
    else ItemText(items[0]) + "," + JoinItems(items[1..])
  }

  function ItemText(v: Value): string
    decreases v, 1
  {
    if Nullish(v) then "" else ToText(v)
  }

  /** The values whose text is exactly "1": the number 1, the string "1", and a
      one-element array whose element is such a value. */
  predicate PrintsAsOne(v: Value)
    decreases v
  {
    match v
    case Num(n) => n == 1
    case Str(s) => s == "1"
    case Arr(items) => |items| == 1 && PrintsAsOne(items[0])
    case _ => false
  }

  lemma IntToStringOne(n: int)
    ensures IntToString(n) == "1" <==> n == 1
  {
    if n < 0 {
      assert IntToString(n)[0] == '-';
    } else {
      NatToStringDigits(n);
      if n < 10 {
        assert NatToString(n) == [DigitChar(n)];
      }
    }
  }

  /** `String(v) === "1"` holds exactly for the values `PrintsAsOne` describes. */
  lemma {:induction false} ToTextIsOne(v: Value)
    ensures ToText(v) == "1" <==> PrintsAsOne(v)
    decreases v
  {
    match v
    case Undefined =>
    case Null =>
    case Bool(b) =>
    case Num(n) => IntToStringOne(n);
    case Str(s) =>
    case Obj(_) =>
    case Arr(items) =>
      if |items| == 1 {
        assert ToText(v) == ItemText(items[0]);
        ToTextIsOne(items[0]);
        if Nullish(items[0]) {
          assert ItemText(items[0]) == "";
        }
      } else if |items| > 1 {
        var t := ItemText(items[0]) + "," + JoinItems(items[1..]);
        assert ToText(v) == t;
        assert t != "1" by {
          assert t[|ItemText(items[0])|] == ',';
        }
      }
  }
}
