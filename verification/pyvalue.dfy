/** Python scalar values as the loader, the services and the web handlers
    receive them, with the built-in conversions they apply: `float()`,
    `int()`, `str()`, truthiness, `pd.isna` and `min`/`max` on doubles.
    Finite doubles are modelled exactly as reals. */
module PyValue {
  import opened Wrappers
  import opened PyText

  /** A double as the code distinguishes it: finite, an infinity, or NaN. */
  datatype Double = Finite(x: real) | PosInf | NegInf | NaN

  /** A Python scalar: `None`, an `int`, a `float` or a `str`. */
  datatype Value = Nil | Int(i: int) | Float(d: Double) | Str(s: string)

  /** `pd.isna(v)` on a scalar: `None` and NaN are missing. */
  predicate IsNa(v: Value) {
    v.Nil? || v == Float(NaN)
  }

  /** Python truthiness: `None`, `0`, `0.0` and `""` are false; NaN is true. */
  predicate Truthy(v: Value) {
    match v
    case Nil => false
    case Int(i) => i != 0
    case Float(d) => d != Finite(0.0)
    case Str(s) => s != ""
  }

  /** Python's `<` on doubles; every comparison with NaN is false. */
  predicate Less(a: Double, b: Double) {
    match (a, b)
    case (NaN, _) => false
    case (_, NaN) => false
    case (Finite(x), Finite(y)) => x < y
    case (NegInf, NegInf) => false
    case (NegInf, _) => true
    case (_, PosInf) => a != PosInf
    case _ => false
  }

  /** Python's `a >= b` on doubles; false whenever NaN is involved. */
  predicate AtLeast(a: Double, b: Double) {
    a != NaN && b != NaN && !Less(a, b)
  }

  /** Python's `a <= b` on doubles; false whenever NaN is involved. */
  predicate AtMost(a: Double, b: Double) {
    a != NaN && b != NaN && !Less(b, a)
  }

  /** Python's built-in `round(x)` to an `int`: the nearest integer, halves
      to even; `None` for the exception raised on NaN and the infinities. */
  function Round(d: Double): (r: Option<int>)
    ensures r.Some? <==> d.Finite?
    ensures r.Some? ==> d.x - 0.5 <= r.value as real <= d.x + 0.5
  {
    match d
    case Finite(x) =>
      var f := x.Floor;
      var diff := x - f as real;
      if diff < 0.5 then Some(f)
      else if diff > 0.5 then Some(f + 1)
      else if f % 2 == 0 then Some(f) else Some(f + 1)
    case _ => None
  }

  /** Python's `min(a, b)`: keeps `a` unless `b < a`. */
  function PyMin(a: Double, b: Double): Double {
    if Less(b, a) then b else a
  }

  /** Python's `max(a, b)`: keeps `a` unless `a < b`. */
  function PyMax(a: Double, b: Double): Double {
    if Less(a, b) then b else a
  }

  /** `max(0.0, min(100.0, x))`. Since every comparison with NaN is false,
      `min(100.0, nan)` keeps 100.0, so NaN clamps to 100 like +inf. */
  function Clamp100(x: Double): (r: real)
    ensures 0.0 <= r <= 100.0
    ensures x.Finite? && 0.0 <= x.x <= 100.0 ==> r == x.x
    ensures x.Finite? && x.x < 0.0 ==> r == 0.0
    ensures x.Finite? && x.x > 100.0 ==> r == 100.0
    ensures x == NaN || x == PosInf ==> r == 100.0
    ensures x == NegInf ==> r == 0.0
  {
    var m := PyMin(Finite(100.0), x);
    var c := PyMax(Finite(0.0), m);
    assert c.Finite?;
    c.x
  }

  /** `int(x)` on a finite float: truncation toward zero. */
  function Trunc(x: real): (r: int)
    ensures x >= 0.0 ==> r as real <= x < r as real + 1.0
    ensures x < 0.0 ==> r as real - 1.0 < x <= r as real
  {
    if x >= 0.0 then x.Floor else -((-x).Floor)
  }

  /** Python's `int(s)` on a `str`: surrounding whitespace, an optional sign
      and one or more ASCII digits (digit-group underscores not modelled). */
  function ParseInt(s: string): (r: Option<int>)
    ensures r.Some? ==> Strip(s) != [] && AllDigits(Strip(s)[1..])
  {
    var t := Strip(s);
    if t != [] && (t[0] == '+' || t[0] == '-') then
      var body := t[1..];
      if body != [] && AllDigits(body) then
        Some(if t[0] == '-' then -(DigitsValue(body) as int) else DigitsValue(body))
      else None
    else if t != [] && AllDigits(t) then Some(DigitsValue(t))
    else None
  }

  lemma StripNoSpace(s: string)
    requires s != [] && !IsSpace(s[0]) && !IsSpace(s[|s| - 1])
    ensures Strip(s) == s
  {
  }

  /** `int(str(i)) == i`: the numeral `str` prints is read back exactly. */
  lemma ParseIntRoundTrip(i: int)
    ensures ParseInt(IntToString(i)) == Some(i)
  {
    var r := IntToString(i);
    StripNoSpace(r);
    if i < 0 {
      assert r[1..] == NatToString(-i);
    }
  }

  function Pow10(n: nat): (r: real)
    ensures r >= 1.0
  {
    if n == 0 then 1.0 else 10.0 * Pow10(n - 1)
  }

  /** `m * 10^k` for an integer exponent `k`. */
  function Scale10(m: real, k: int): real {
    if k >= 0 then m * Pow10(k) else m / Pow10(-k)
  }

  lemma Scale10NonNegative(m: real, k: int)
    requires m >= 0.0
    ensures Scale10(m, k) >= 0.0
  {
    var p := Pow10(if k >= 0 then k else -k);
    if k >= 0 {
      assert m * p >= 0.0 * p;
    } else {
      assert m / p >= 0.0;
    }
  }

  /** The index of the first 'e' or 'E', or `|s|`. */
  function IndexOfExponent(s: string): (i: nat)
    ensures i <= |s|
    ensures i < |s| ==> s[i] == 'e' || s[i] == 'E'
  {
    var e := IndexOf(s, 'e');
    var f := IndexOf(s, 'E');
    if e <= f then e else f
  }

  /** An exponent: an optional sign and one or more digits. */
  function ParseExponent(s: string): Option<int> {
    if s != [] && (s[0] == '+' || s[0] == '-') then
      if |s| > 1 && AllDigits(s[1..]) then
        Some(if s[0] == '-' then -(DigitsValue(s[1..]) as int) else DigitsValue(s[1..]))
      else None
    else if s != [] && AllDigits(s) then Some(DigitsValue(s))
    else None
  }

  /** An unsigned decimal numeral: digits, an optional '.' and fraction
      digits (at least one digit in all), then an optional exponent. */
  function ParseUnsignedDecimal(b: string): (r: Option<real>)
    ensures r.Some? ==> r.value >= 0.0
  {
    var e := IndexOfExponent(b);
    var mant := b[..e];
    var dot := IndexOf(mant, '.');
    var intPart := mant[..dot];
    var fracPart := if dot < |mant| then mant[dot + 1..] else "";
    if !(AllDigits(intPart) && AllDigits(fracPart) && |intPart| + |fracPart| >= 1) then None
    else
      var m := (DigitsValue(intPart + fracPart) as real) / Pow10(|fracPart|);
      assert m >= 0.0;
      if e == |b| then Some(m)
      else
        match ParseExponent(b[e + 1..])
        case None => None
        case Some(k) =>
          Scale10NonNegative(m, k);
          Some(Scale10(m, k))
  }

  /** Python's `float(s)` on a `str`, after `strip()`: an optional sign, then
      "inf", "infinity" or "nan" in any letter case, or a decimal numeral.
      The value is the exact decimal; rounding to the nearest double is not
      modelled. */
  function ParseFloat(s: string): (r: Option<Double>)
    ensures r.Some? ==> Strip(s) != []
  {
    var t := Strip(s);
    var signed := t != [] && (t[0] == '+' || t[0] == '-');
    var neg := t != [] && t[0] == '-';
    var body := if signed then t[1..] else t;
    var word := Lower(body);
    if t == [] then None
    else if word == "inf" || word == "infinity" then Some(if neg then NegInf else PosInf)
    else if word == "nan" then Some(NaN)
    else
      match ParseUnsignedDecimal(body)
      case None => None
      case Some(x) => Some(Finite(if neg then -x else x))
  }

  /** Python's `float(v)`; `None` stands for the exception it raises. */
  function ToFloat(v: Value): Option<Double> {
    match v
    case Nil => None
    case Int(i) => Some(Finite(i as real))
    case Float(d) => Some(d)
    case Str(s) => ParseFloat(s)
  }

  /** Python's `int(v)`; `None` stands for the exception it raises
      (`TypeError` on None, `OverflowError`/`ValueError` on inf and NaN). */
  function ToInt(v: Value): Option<int> {
    match v
    case Nil => None
    case Int(i) => Some(i)
    case Float(d) => if d.Finite? then Some(Trunc(d.x)) else None
    case Str(s) => ParseInt(s)
  }

  /** Up to `n` decimal digits of a fraction in [0, 1), trailing zeros omitted. */
  function FractionDigits(f: real, n: nat): (r: string)
    requires 0.0 <= f < 1.0
    ensures AllDigits(r) && |r| <= n
    decreases n
  {
    if n == 0 || f == 0.0 then ""
    else
      var t := f * 10.0;
      var d := t.Floor;
      [DigitChar(d)] + FractionDigits(t - d as real, n - 1)
  }

  /** Python's `str(x)` of a finite float in positional notation: the
      integer part, '.', and the fraction digits ("0" when integral). */
  function FloatText(x: real): string {
    var a := if x < 0.0 then -x else x;
    var n := a.Floor;
    var frac := a - n as real;
    (if x < 0.0 then "-" else "") + NatToString(n) + "."
      + (if frac == 0.0 then "0" else FractionDigits(frac, 17))
  }

  /** Python's `str(v)`, also what pandas' `astype(str)` produces. */
  function PyStr(v: Value): string {
    match v
    case Nil => "None"
    case Int(i) => IntToString(i)
    case Float(d) =>
      (match d
       case Finite(x) => FloatText(x)
       case PosInf => "inf"
       case NegInf => "-inf"
       case NaN => "nan")
    case Str(s) => s
  }
}
