/** The per-cell transforms the CSV loader applies (etl/load_csv.py):
    founding year extraction, stock-code zero padding and label
    binarization. */
module Transforms {
  import opened Wrappers
  import opened PyText
  import opened PyValue

  /** `s[i..i+4]` matches the regular expression `(19|20)\d{2}`. */
  predicate YearAt(s: string, i: nat) {
    && i + 4 <= |s|
    && ((s[i] == '1' && s[i + 1] == '9') || (s[i] == '2' && s[i + 1] == '0'))
    && IsDigit(s[i + 2]) && IsDigit(s[i + 3])
  }

  /** The leftmost match position at or after `from`, as `re.search` finds it. */
  function FirstYearFrom(s: string, from: nat): (i: Option<nat>)
    ensures i.Some? ==> from <= i.value && YearAt(s, i.value)
    ensures i.Some? ==> forall j :: from <= j < i.value ==> !YearAt(s, j)
    ensures i.None? ==> forall j :: from <= j ==> !YearAt(s, j)
    decreases |s| - from
  {
    if from + 4 > |s| then None
    else if YearAt(s, from) then Some(from)
    else FirstYearFrom(s, from + 1)
  }

  /** The year a match denotes. */
  function YearValue(s: string, i: nat): (y: int)
    requires YearAt(s, i)
    ensures 1900 <= y <= 2099
  {
    DigitValue(s[i]) * 1000 + DigitValue(s[i + 1]) * 100
      + DigitValue(s[i + 2]) * 10 + DigitValue(s[i + 3])
  }

  /** `to_year`: missing cells give NULL; otherwise the leftmost 4-character
      match of `(19|20)\d{2}` in the cell's text, read as a year in
      [1900, 2099], or NULL when there is none. */
  function ToYear(x: Value): (r: Option<int>)
    ensures IsNa(x) ==> r.None?
    ensures !IsNa(x) ==> (r.None? <==> forall j :: !YearAt(PyStr(x), j))
    ensures r.Some? ==> 1900 <= r.value <= 2099
    ensures r.Some? ==> exists i: nat :: YearAt(PyStr(x), i) && r.value == YearValue(PyStr(x), i)
                          && forall j :: 0 <= j < i ==> !YearAt(PyStr(x), j)
  {
    if IsNa(x) then None
    else
      var s := PyStr(x);
      match FirstYearFrom(s, 0)
      case None => None
      case Some(i) => Some(YearValue(s, i))
  }

  /** Leading zeros do not change the number a digit string denotes. */
  lemma {:induction false} LeadingZerosValue(z: string, d: string)
    requires AllZeros(z) && AllDigits(d)
    ensures AllDigits(z + d) && DigitsValue(z + d) == DigitsValue(d)
    decreases |d|
  {
    if d == [] {
      ZerosValue(z);
      assert z + d == z;
    } else {
      var d' := d[..|d| - 1];
      LeadingZerosValue(z, d');
      assert (z + d)[..|z + d| - 1] == z + d';
    }
  }

  lemma {:induction false} ZerosValue(z: string)
    requires AllZeros(z)
    ensures AllDigits(z) && DigitsValue(z) == 0
  {
    if z != [] {
      ZerosValue(z[..|z| - 1]);
    }
  }

  /** The text `zfill6` pads: the cell as an integer (`str(int(x))`), or
      its stripped text when `int()` raises. */
  function ZfillText(x: Value): string {
    match ToInt(x)
    case Some(n) => IntToString(n)
    case None => Strip(PyStr(x))
  }

  /** `zfill6`: missing cells give NULL; otherwise the text of `ZfillText`
      left-padded with '0' (after any sign) to at least six characters. */
  function Zfill6(x: Value): (r: Option<string>)
    ensures IsNa(x) <==> r.None?
    ensures r.Some? ==> |r.value| >= 6
    ensures r.Some? ==> r == Some(Zfill(ZfillText(x), 6))
    ensures r.Some? && (ZfillText(x) == [] || (ZfillText(x)[0] != '+' && ZfillText(x)[0] != '-')) ==>
              var t := ZfillText(x);
              r.value[|r.value| - |t|..] == t && AllZeros(r.value[..|r.value| - |t|])
    ensures !IsNa(x) && ToInt(x).None? && |Strip(PyStr(x))| >= 6 ==> r == Some(Strip(PyStr(x)))
  {
    if IsNa(x) then None else Some(Zfill(ZfillText(x), 6))
  }

  /** A cell holding a non-negative integer becomes a code whose digits
      denote exactly that number: padding never changes the stock code's
      numeric value. */
  lemma Zfill6KeepsNumber(x: Value)
    requires !IsNa(x) && ToInt(x).Some? && ToInt(x).value >= 0
    ensures AllDigits(Zfill6(x).value) && DigitsValue(Zfill6(x).value) == ToInt(x).value
  {
    var s := NatToString(ToInt(x).value);
    var r := Zfill(s, 6);
    assert Zfill6(x).value == r;
    assert r == r[..|r| - |s|] + s;
    LeadingZerosValue(r[..|r| - |s|], s);
  }

  /** A cell holding a negative integer keeps its '-' in front of the
      zeros, and the digits after it denote the magnitude. */
  lemma Zfill6KeepsNegative(x: Value)
    requires !IsNa(x) && ToInt(x).Some? && ToInt(x).value < 0
    ensures var r := Zfill6(x).value;
            r[0] == '-' && AllDigits(r[1..]) && DigitsValue(r[1..]) == -ToInt(x).value
  {
    var d := NatToString(-ToInt(x).value);
    assert ZfillText(x) == "-" + d;
    NegativeZfill(d);
  }

  /** Padding a minus sign and digits keeps the sign in front and the
      digits' value after it. */
  lemma NegativeZfill(d: string)
    requires AllDigits(d)
    ensures var r := Zfill("-" + d, 6);
            r[0] == '-' && AllDigits(r[1..]) && DigitsValue(r[1..]) == DigitsValue(d)
  {
    var s := "-" + d;
    var r := Zfill(s, 6);
    assert s[1..] == d;
    var z := r[1..|r| - (|s| - 1)];
    assert r[1..] == z + d;
    LeadingZerosValue(z, d);
  }

  /** The numeric value a padded integer code denotes. */
  function SignedValue(r: string): int
    requires r != [] && (r[0] == '-' ==> AllDigits(r[1..])) && (r[0] != '-' ==> AllDigits(r))
  {
    if r[0] == '-' then -(DigitsValue(r[1..]) as int) else DigitsValue(r) as int
  }

  /** The padded code of an integer cell reads back as that integer. */
  lemma Zfill6Value(x: Value)
    requires !IsNa(x) && ToInt(x).Some?
    ensures var r := Zfill6(x).value;
            r != [] && (r[0] == '-' ==> AllDigits(r[1..])) && (r[0] != '-' ==> AllDigits(r))
            && SignedValue(r) == ToInt(x).value
  {
    if ToInt(x).value >= 0 {
      Zfill6KeepsNumber(x);
    } else {
      Zfill6KeepsNegative(x);
    }
  }

  /** Two integer cells, of either sign, map to the same padded code only
      when they hold the same number. */
  lemma Zfill6Injective(x: Value, y: Value)
    requires !IsNa(x) && ToInt(x).Some?
    requires !IsNa(y) && ToInt(y).Some?
    ensures Zfill6(x) == Zfill6(y) <==> ToInt(x) == ToInt(y)
  {
    Zfill6Value(x);
    Zfill6Value(y);
  }

  /** `binarize_label`: 1 when the cell reads as a float of at least 0.5,
      0 below that or when `float()` raises; NaN reaches `int(round(v))`,
      which raises, and the result is then `None`. */
  function BinarizeLabel(x: Value): (r: Option<int>)
    ensures r.Some? ==> r.value == 0 || r.value == 1
    ensures r.None? <==> ToFloat(x) == Some(NaN)
    ensures r == Some(1) <==> ToFloat(x).Some? && AtLeast(ToFloat(x).value, Finite(0.5))
    ensures ToFloat(x).None? ==> r == Some(0)
  {
    match ToFloat(x)
    case None => Some(0)
    case Some(v) =>
      if AtLeast(v, Finite(0.5)) then Some(1)
      else if AtMost(v, Finite(0.0)) then Some(0)
      else Round(v)
  }
}
