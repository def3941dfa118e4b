/** The Option type used throughout the model. */
module Wrappers {
  datatype Option<+T> = None | Some(value: T) {
    function GetOr(default: T): T {
      match this
      case Some(v) => v
      case None => default
    }
  }
}

/**
  The generic template tree that the decoder produces and the resolver walks:
  the closed form of the `any` values (nil, bool, int, float64, string,
  []any, map[string]any) exchanged by the Go package.
*/
module Values {
  import opened Wrappers

  datatype Value =
    | Null
    | Bool(b: bool)
    | Int(i: int)
    | Float(literal: string)   // opaque: the literal it was parsed from, no arithmetic
    | Str(s: string)
    | List(items: seq<Value>)
    | Map(entries: map<string, Value>)

  predicate IsScalar(v: Value) {
    !v.List? && !v.Map?
  }

  /** Go's `int` on a 64-bit platform. */
  const IntMin: int := -0x8000_0000_0000_0000
  const IntMax: int := 0x7FFF_FFFF_FFFF_FFFF

  predicate IsDigit(c: char) {
    '0' <= c <= '9'
  }

  function DigitChar(d: nat): (c: char)
    requires d < 10
    ensures IsDigit(c)
  {
    "0123456789"[d]
  }

  function DigitValue(c: char): (d: nat)
    requires IsDigit(c)
    ensures d < 10 && DigitChar(d) == c
  {
    (c as int - '0' as int) as nat
  }

  /** Decimal digits of a natural number, most significant first, no leading zero. */
  function Digits(n: nat): (s: string)
    ensures |s| > 0 && (forall i :: 0 <= i < |s| ==> IsDigit(s[i]))
    ensures |s| > 1 ==> s[0] != '0'
  {
    if n < 10 then [DigitChar(n)] else Digits(n / 10) + [DigitChar(n % 10)]
  }

  /** The number a string of decimal digits denotes. */
  function DigitsValue(s: string): nat
    requires forall i :: 0 <= i < |s| ==> IsDigit(s[i])
  {
    if s == [] then 0 else 10 * DigitsValue(s[..|s| - 1]) + DigitValue(s[|s| - 1])
  }

  /** Decimal rendering of an integer, as fmt and strconv print it. */
  function DecimalString(i: int): string {
    if i < 0 then "-" + Digits(-i) else Digits(i)
  }

  predicate AllDigits(s: string) {
    forall i :: 0 <= i < |s| ==> IsDigit(s[i])
  }

  /**
    strconv.Atoi on a 64-bit platform: an optional sign followed by at least
    one decimal digit, and a value inside the range of `int`.
  */
  function ParseInt(s: string): (r: Option<int>)
    ensures r.Some? ==> IntMin <= r.value <= IntMax
  {
    var neg := |s| > 0 && s[0] == '-';
    var body := if |s| > 0 && (s[0] == '-' || s[0] == '+') then s[1..] else s;
    if |body| == 0 || !AllDigits(body) then None
    else
      var n: int := if neg then 0 - DigitsValue(body) as int else DigitsValue(body);
      if IntMin <= n <= IntMax then Some(n) else None
  }

  lemma {:induction false} DigitsValueOfDigits(n: nat)
    ensures DigitsValue(Digits(n)) == n
  {
    if n >= 10 {
      var s := Digits(n);
      assert s[..|s| - 1] == Digits(n / 10);
      assert DigitValue(s[|s| - 1]) == n % 10 by {
        assert s[|s| - 1] == DigitChar(n % 10) == "0123456789"[n % 10];
      }
      DigitsValueOfDigits(n / 10);
    }
  }

  /** Rendering an `int` and parsing it back gives the same number. */
  lemma DecimalRoundTrip(i: int)
    requires IntMin <= i <= IntMax
    ensures ParseInt(DecimalString(i)) == Some(i)
  {
    DecimalIsParsedBack(i);
  }

  lemma ParseDigits(n: nat)
    ensures ParseInt(Digits(n)) == (if n <= IntMax then Some(n) else None)
  {
    var s := Digits(n);
    DigitsValueOfDigits(n);
    assert IsDigit(s[0]);
  }

  lemma ParseSignedDigits(n: nat)
    ensures ParseInt("-" + Digits(n)) == (if IntMin <= -(n as int) then Some(-(n as int)) else None)
  {
    var s := "-" + Digits(n);
    DigitsValueOfDigits(n);
    assert s[0] == '-' && s[1..] == Digits(n);
  }

  /**
    fmt.Sprint for the scalar shapes the model renders: strings as they are,
    integers in decimal, booleans as true/false and nil as "<nil>". Floats,
    lists and maps are not rendered (None).
  */
  function Sprint(v: Value): (r: Option<string>)
    ensures r.Some? <==> (v.Null? || v.Bool? || v.Int? || v.Str?)
    ensures v.Str? ==> r == Some(v.s)
    ensures v.Int? ==> r == Some(DecimalString(v.i))
  {
    match v
    case Null => Some("<nil>")
    case Bool(b) => Some(if b then "true" else "false")
    case Int(i) => Some(DecimalString(i))
    case Str(s) => Some(s)
    case _ => None
  }

  /**
    The name fmt.Sprint gives an integer reads back through Atoi exactly
    inside the `int` range, and it is also the name of the string holding
    those digits: a lookup by rendered name cannot tell 5 from "5".
  */
  lemma SprintIntReadsBack(i: int)
    ensures Sprint(Int(i)).Some?
    ensures ParseInt(Sprint(Int(i)).value) == (if IntMin <= i <= IntMax then Some(i) else None)
    ensures Sprint(Int(i)) == Sprint(Str(DecimalString(i)))
  {
    DecimalIsParsedBack(i);
  }

  /** Parsing the decimal rendering succeeds exactly inside the `int` range. */
  lemma DecimalIsParsedBack(i: int)
    ensures ParseInt(DecimalString(i)) == (if IntMin <= i <= IntMax then Some(i) else None)
  {
    if i < 0 {
      ParseSignedDigits(-i);
    } else {
      ParseDigits(i);
    }
  }
}
