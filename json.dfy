/**
 * JavaScript values as the client sees them after `JSON.parse`, with the three operations of
 * the language the client code applies to them: truthiness (`if (x)`, `x || y`), property
 * access (`x.key`, which throws on `null`), and conversion to a string (`String(x)`, which is
 * what `new Error(x)` does with its argument).
 */
module Json {
  import opened Wrappers

  /** A parsed JSON document. Numbers are integers in this model. */
  datatype Json =
    | JNull
    | JBool(b: bool)
    | JNum(n: int)
    | JStr(s: string)
    | JArr(items: seq<Json>)
    | JObj(fields: map<string, Json>)

  /** What JavaScript throws. `NullAccess` is the TypeError raised by reading a property of
      `null`, `SyntaxError` what `JSON.parse` throws; the engine-specific texts of both never
      mention a network failure. */
  datatype Error = Error(message: string) | NullAccess(property: string) | SyntaxError

  /** JavaScript truthiness: `null`, `false`, `0` and `""` are falsy, arrays and objects are not. */
  predicate Truthy(v: Json) {
    match v
    case JNull => false
    case JBool(b) => b
    case JNum(n) => n != 0
    case JStr(s) => s != ""
    case JArr(_) => true
    case JObj(_) => true
  }

  /** `v.key`: throws on `null`; `undefined` (a missing key, or any key of a non-object) is
      represented by `JNull`, which is falsy like it. */
  function Member(v: Json, key: string): (r: Result<Json, Error>)
    ensures r.Failure? <==> v == JNull
    ensures r.Failure? ==> r.error == NullAccess(key)
    ensures r.Success? && v.JObj? && key in v.fields ==> r.value == v.fields[key]
    ensures r.Success? && !(v.JObj? && key in v.fields) ==> !Truthy(r.value)
  {
    match v
    case JNull => Failure(NullAccess(key))
    case JObj(fields) => Success(if key in fields then fields[key] else JNull)
    case _ => Success(JNull)
  }

  /** `v.key` where `v` is known not to be `null`. */
  function Get(v: Json, key: string): (r: Json)
    requires v != JNull
    ensures v.JObj? && key in v.fields ==> r == v.fields[key]
    ensures !(v.JObj? && key in v.fields) ==> !Truthy(r)
  {
    Member(v, key).value
  }

  /** `a || b` on two values. */
  function Or(a: Json, b: Json): (r: Json)
    ensures Truthy(a) ==> r == a
    ensures !Truthy(a) ==> r == b
  {
    if Truthy(a) then a else b
  }

  function DigitChar(d: nat): (c: char)
    requires d < 10
    ensures '0' <= c <= '9'
  {
    ('0' as int + d) as char
  }

  function NatToDecimal(n: nat): (r: string)
    ensures r != []
    ensures forall i :: 0 <= i < |r| ==> '0' <= r[i] <= '9'
    decreases n
  {
    if n < 10 then [DigitChar(n)] else NatToDecimal(n / 10) + [DigitChar(n % 10)]
  }

  predicate IsDigits(s: string) {
    forall i :: 0 <= i < |s| ==> '0' <= s[i] <= '9'
  }

  /** The number a string of decimal digits denotes, read most significant digit first. */
  function DecimalValue(s: string): nat
    requires IsDigits(s)
    decreases |s|
  {
    if s == [] then 0 else DecimalValue(s[..|s| - 1]) * 10 + (s[|s| - 1] as int - '0' as int)
  }

  /** `NatToDecimal` writes `n` in base ten without leading zeros. */
  lemma {:induction false} DecimalRoundTrip(n: nat)
    ensures IsDigits(NatToDecimal(n)) && DecimalValue(NatToDecimal(n)) == n
    ensures NatToDecimal(n)[0] == '0' ==> NatToDecimal(n) == "0"
    decreases n
  {
    if n >= 10 {
      DecimalRoundTrip(n / 10);
      var prefix := NatToDecimal(n / 10);
      assert (prefix + [DigitChar(n % 10)])[..|prefix|] == prefix;
    }
  }

  /** `String(n)` of an integer: its decimal digits, after a minus sign when it is negative. */
  lemma NumberText(n: int)
    ensures n >= 0 ==> IsDigits(ToText(JNum(n))) && DecimalValue(ToText(JNum(n))) == n
    ensures n >= 0 && ToText(JNum(n))[0] == '0' ==> n == 0
    ensures n < 0 ==> var t := ToText(JNum(n));
      t[0] == '-' && IsDigits(t[1..]) && DecimalValue(t[1..]) == -n && t[1] != '0'
  {
    if n >= 0 {
      DecimalRoundTrip(n);
    } else {
      DecimalRoundTrip(-n);
      assert ToText(JNum(n))[1..] == NatToDecimal(-n);
    }
  }

  /** `String(v)`. */
  function ToText(v: Json): (r: string)
    ensures v.JStr? ==> r == v.s
    decreases v
  {
    match v
    case JNull => "null"
    case JBool(b) => if b then "true" else "false"
    case JNum(n) => if n < 0 then "-" + NatToDecimal(-n) else NatToDecimal(n)
    case JStr(s) => s
    case JArr(items) => JoinTexts(items)
    case JObj(_) => "[object Object]"
  }

  /** `items.join(",")`, where `null` elements contribute the empty string. */
  function JoinTexts(items: seq<Json>): string
    decreases items
  {
    if items == [] then ""
    else
      var head := if items[0] == JNull then "" else ToText(items[0]);
      if |items| == 1 then head else head + "," + JoinTexts(items[1..])
  }
}
