/** The JavaScript values the helpers receive as optional arguments (an `id`, a
    condition clause, a field list, a raw query), with the two language rules the
    builders depend on: truthiness, and how a value prints when it is
    interpolated into a template literal or concatenated to a string. */
module JsValues {

  /** `undefined`, `null`, a string or an integral number. */
  datatype JsValue = Undefined | Null | Str(s: string) | Num(n: int)

  /** A string-typed argument that may also be left out (`undefined`) or `null`. */
  type Text = v: JsValue | !v.Num? witness Undefined

  /** A number-typed argument that may also be left out (`undefined`) or `null`. */
  type Numeric = v: JsValue | !v.Str? witness Undefined

  /** JavaScript truthiness: `undefined`, `null`, `""` and `0` are falsy. */
  predicate Truthy(v: JsValue)
  {
    match v
    case Undefined => false
    case Null => false
    case Str(s) => s != ""
    case Num(n) => n != 0
  }

  /** A default parameter value applies only when the argument is `undefined`. */
  function WithDefault(v: JsValue, fallback: JsValue): JsValue
  {
    if v.Undefined? then fallback else v
  }

  /** `${v}`, or `"..." + v`: the text a value contributes to a string. */
  function Render(v: JsValue): string
  {
    match v
    case Undefined => "undefined"
    case Null => "null"
    case Str(s) => s
    case Num(n) => IntToDecimal(n)
  }

  /** `${v || ""}`: the value's text when it is truthy, and nothing otherwise. */
  function RenderOrEmpty(v: JsValue): (r: string)
    ensures r == "" <==> !Truthy(v)
    ensures r != "" ==> r == Render(v)
  {
    if Truthy(v) then Render(v) else ""
  }

  predicate IsDigit(c: char)
  {
    '0' <= c <= '9'
  }

  predicate AllDigits(s: string)
  {
    forall i :: 0 <= i < |s| ==> IsDigit(s[i])
  }

  function DigitChar(d: nat): (c: char)
    requires d < 10
  {
    (48 + d) as char
  }

  function DigitValue(c: char): (d: nat)
    requires IsDigit(c)
  {
    c as int - 48
  }

  /** The decimal numeral of `n`, without leading zeros. */
  function NatToDecimal(n: nat): (r: string)
    ensures |r| > 0 && AllDigits(r)
    ensures r[0] == '0' <==> n == 0
    ensures n == 0 ==> r == "0"
  {
    if n < 10 then [DigitChar(n)] else NatToDecimal(n / 10) + [DigitChar(n % 10)]
  }

  /** How JavaScript prints an integral number: a minus sign, then the numeral of its magnitude. */
  function IntToDecimal(n: int): (r: string)
    ensures |r| > 0
    ensures r[0] == '-' <==> n < 0
    ensures n < 0 ==> |r| > 1 && AllDigits(r[1..])
    ensures n >= 0 ==> AllDigits(r)
  {
    if n < 0 then "-" + NatToDecimal(-n) else NatToDecimal(n)
  }

  /** The value of a decimal numeral. */
  function ParseNat(s: string): nat
    requires AllDigits(s)
  {
    if |s| == 0 then 0 else 10 * ParseNat(s[..|s| - 1]) + DigitValue(s[|s| - 1])
  }

  /** The value of an optionally signed decimal numeral. */
  function ParseInt(s: string): int
    requires |s| > 0
    requires if s[0] == '-' then AllDigits(s[1..]) else AllDigits(s)
  {
    if s[0] == '-' then -(ParseNat(s[1..]) as int) else ParseNat(s)
  }

  /** Reading a printed natural number back gives the number. */
  lemma {:induction false} NatDecimalRoundTrip(n: nat)
    ensures ParseNat(NatToDecimal(n)) == n
  {
    var r := NatToDecimal(n);
    if n >= 10 {
      var prefix := NatToDecimal(n / 10);
      assert r == prefix + [DigitChar(n % 10)];
      assert r[..|r| - 1] == prefix;
      NatDecimalRoundTrip(n / 10);
    }
  }

  /** Reading a printed integer back gives the integer. */
  lemma IntDecimalRoundTrip(n: int)
    ensures ParseInt(IntToDecimal(n)) == n
  {
    if n < 0 {
      assert IntToDecimal(n)[1..] == NatToDecimal(-n);
      NatDecimalRoundTrip(-n);
    } else {
      NatDecimalRoundTrip(n);
    }
  }

  /** Distinct integers print differently. */
  lemma IntToDecimalInjective(a: int, b: int)
    ensures IntToDecimal(a) == IntToDecimal(b) ==> a == b
  {
    if IntToDecimal(a) == IntToDecimal(b) {
      IntDecimalRoundTrip(a);
      IntDecimalRoundTrip(b);
    }
  }

  /** A printed number contains no `?`, so it never adds a placeholder. */
  lemma RenderNumberHasNoMark(v: Numeric)
    ensures '?' !in Render(v)
  {
  }
}
