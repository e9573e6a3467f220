/** `RateConverter` (simulator/scripts/common.py): human-readable rates such
    as "10K" or "1 G" and the integers they stand for.  Python's float
    arithmetic in `from_str` and `to_str` is taken as exact, which it is for
    the integer rates below 2^53 that the scripts produce. */
module RateConverter {
  import opened Wrappers
  import opened Numeric
  import opened Text

  /** The multiplier of a rate suffix: 'K', 'M' or 'G'. */
  function Multiplier(c: char): (m: Option<nat>)
    ensures m.Some? <==> (c == 'K' || c == 'M' || c == 'G')
    ensures c == 'K' ==> m == Some(1000)
    ensures c == 'M' ==> m == Some(1000000)
    ensures c == 'G' ==> m == Some(1000000000)
  {
    if c == 'K' then Some(1000)
    else if c == 'M' then Some(1000000)
    else if c == 'G' then Some(1000000000)
    else None
  }

  /** `from_str` on a string: a trailing suffix scales the float before it,
      anything else is read as an int; the empty string fails the assert
      and an unreadable number is a ValueError. */
  function FromStr(s: string): (r: Result<int>)
    ensures s == [] <==> r == Failure(AssertionFailed)
    ensures s != [] && Multiplier(s[|s| - 1]).Some? ==>
              (r.Success? <==> PyFloat(s[..|s| - 1]).Some?)
    ensures s != [] && Multiplier(s[|s| - 1]).None? ==>
              (r.Success? <==> PyInt(s).Some?) && (r.Success? ==> r.value == PyInt(s).value)
  {
    if s == [] then Failure(AssertionFailed)
    else
      match Multiplier(s[|s| - 1])
      case Some(m) => ReadScaled(s[..|s| - 1], m)
      case None =>
        (match PyInt(s)
         case Some(n) => Success(n)
         case None => Failure(ValueInvalid))
  }

  /** `int(float(prefix) * multiplier)`. */
  function ReadScaled(prefix: string, m: nat): (r: Result<int>)
    ensures r.Success? <==> PyFloat(prefix).Some?
  {
    Scale(PyFloat(prefix), m)
  }

  /** A float read, or not, scaled by `m` and truncated by `int()`. */
  function Scale(read: Option<real>, m: nat): (r: Result<int>)
    ensures r.Success? <==> read.Some?
  {
    match read
    case Some(v) => Success(Trunc(v * m as real))
    case None => Failure(ValueInvalid)
  }

  /** A suffixed rate is whatever float the text before the suffix reads
      as, scaled by the suffix's multiplier and truncated. */
  lemma FromStrOfFloat(prefix: string, v: real, c: char, u: nat)
    requires PyFloat(prefix) == Some(v) && Multiplier(c) == Some(u)
    ensures FromStr(prefix + [c]) == Success(Trunc(v * u as real))
  {
    SuffixedReads(prefix, c, u);
    ScaleRead(v, u);
  }

  /** A float read and scaled by `m` is its product with `m`, truncated. */
  lemma ScaleRead(v: real, m: nat)
    ensures Scale(Some(v), m) == Success(Trunc(v * m as real))
  {
    var x := v * m as real;
    assert Scale(Some(v), m).Success?;
    assert Scale(Some(v), m).value == Trunc(x);
  }

  /** A rate as the scripts pass it: an int or a string. */
  datatype Rate = IntRate(n: int) | StrRate(s: string)

  /** `from_str` on either kind of rate: an int is returned as it is. */
  function FromRate(rate: Rate): (r: Result<int>)
    ensures rate.IntRate? ==> r == Success(rate.n)
    ensures rate.StrRate? ==> r == FromStr(rate.s)
  {
    match rate
    case IntRate(n) => Success(n)
    case StrRate(s) => FromStr(s)
  }

  /** A unit `to_str` can print and its suffix. */
  datatype Denomination = Denomination(unit: nat, suffix: char)

  /** The units `to_str` tries, largest first. */
  const Denominations: seq<Denomination> :=
    [Denomination(1000000000, 'G'), Denomination(1000000, 'M'), Denomination(1000, 'K')]

  /** The unit `d` prints `rate` exactly. */
  predicate Fits(rate: int, d: Denomination) {
    d.unit > 0 && rate >= d.unit && rate % d.unit == 0
  }

  /** The printed form with the first fitting unit of `ds`, or plain digits. */
  function Render(rate: int, pretty: bool, ds: seq<Denomination>): string
  {
    if ds == [] then IntToString(rate)
    else if Fits(rate, ds[0]) then
      IntToString(rate / ds[0].unit) + (if pretty then " " else "") + [ds[0].suffix]
    else Render(rate, pretty, ds[1..])
  }

  /** `to_str`: read the rate, then print it with the largest unit that
      divides it exactly; the space before the suffix appears iff `pretty`. */
  function ToStr(rate: Rate, pretty: bool): (r: Result<string>)
    ensures r.Success? <==> FromRate(rate).Success?
  {
    var n :- FromRate(rate);
    Success(Render(n, pretty, Denominations))
  }

  // ---------------------------------------------------------------------
  // What the printed form looks like
  // ---------------------------------------------------------------------

  /** A rate no unit fits prints as its plain decimal digits, and a rate
      some unit fits never does. */
  lemma PlainIffNoUnitFits(n: int, pretty: bool)
    ensures Render(n, pretty, Denominations) == IntToString(n) <==>
            forall i :: 0 <= i < |Denominations| ==> !Fits(n, Denominations[i])
  {
    var s := Render(n, pretty, Denominations);
    var ds := Denominations;
    if exists i :: 0 <= i < |ds| && Fits(n, ds[i]) {
      var d := SuffixOf(n, pretty);
      assert s[|s| - 1] == d.suffix;
      LastIsDigit(n);
    } else {
      assert !Fits(n, ds[0]) && !Fits(n, ds[1]) && !Fits(n, ds[2]);
      assert Render(n, pretty, ds) == Render(n, pretty, ds[1..]);
      assert Render(n, pretty, ds[1..]) == Render(n, pretty, ds[2..]);
      assert Render(n, pretty, ds[2..]) == Render(n, pretty, ds[3..]);
      assert ds[3..] == [];
    }
  }

  /** The unit `to_str` prints with, when some unit fits: it divides the rate,
      no larger unit does, and the string is the quotient, the optional space
      and the suffix. */
  lemma {:induction false} SuffixOf(n: int, pretty: bool) returns (d: Denomination)
    requires exists i :: 0 <= i < |Denominations| && Fits(n, Denominations[i])
    ensures d in Denominations && Fits(n, d)
    ensures forall e :: e in Denominations && e.unit > d.unit ==> !Fits(n, e)
    ensures Render(n, pretty, Denominations) ==
            IntToString(n / d.unit) + (if pretty then " " else "") + [d.suffix]
  {
    var ds := Denominations;
    if Fits(n, ds[0]) {
      d := ds[0];
    } else if Fits(n, ds[1]) {
      d := ds[1];
      assert Render(n, pretty, ds) == Render(n, pretty, ds[1..]);
    } else {
      d := ds[2];
      assert Render(n, pretty, ds) == Render(n, pretty, ds[1..]);
      assert Render(n, pretty, ds[1..]) == Render(n, pretty, ds[2..]);
    }
  }

  /** `str(n)` ends in a digit, never in a suffix letter. */
  lemma LastIsDigit(n: int)
    ensures Multiplier(IntToString(n)[|IntToString(n)| - 1]).None?
  {
    var s := IntToString(n);
    var digits := NatToDigits(if n < 0 then -n else n, 10);
    assert s[|s| - 1] == digits[|digits| - 1];
    assert IsDigit(digits[|digits| - 1], 10);
  }

  // ---------------------------------------------------------------------
  // Round trip and idempotence
  // ---------------------------------------------------------------------

  /** Reading back what `to_str` prints gives the rate, with or without the
      space: `from_str(to_str(r)) == r` for every int rate. */
  lemma RenderRoundTrip(n: int, pretty: bool)
    ensures FromStr(Render(n, pretty, Denominations)) == Success(n)
  {
    if exists i :: 0 <= i < |Denominations| && Fits(n, Denominations[i]) {
      var d := SuffixOf(n, pretty);
      DenominationSuffix(d);
      var q := ExactQuotient(n, d.unit);
      SuffixRoundTrip(q, if pretty then " " else "", d.suffix, d.unit);
    } else {
      PlainIffNoUnitFits(n, pretty);
      PlainRoundTrip(n);
    }
  }

  /** The plain case of the round trip: `int(str(n)) == n`, and the last
      digit is never taken for a suffix. */
  lemma PlainRoundTrip(n: int)
    ensures FromStr(IntToString(n)) == Success(n)
  {
    LastIsDigit(n);
    IntToStringRoundTrip(n);
  }

  /** The suffix case of the round trip: the float before the suffix times
      the unit is the rate again. */
  lemma SuffixRoundTrip(q: nat, sep: string, c: char, u: nat)
    requires q >= 1 && (sep == "" || sep == " ") && Multiplier(c) == Some(u)
    ensures FromStr(IntToString(q) + sep + [c]) == Success(q * u)
  {
    var prefix := IntToString(q) + sep;
    PyFloatOfDigits(q, sep);
    SuffixedReads(prefix, c, u);
    ScaleWhole(q, u);
  }

  /** Each unit's suffix reads back as that unit. */
  lemma DenominationSuffix(d: Denomination)
    requires d in Denominations
    ensures Multiplier(d.suffix) == Some(d.unit)
  {
  }

  /** A string ending in a unit's suffix reads as the float before the
      suffix, scaled by the unit. */
  lemma SuffixedReads(prefix: string, c: char, u: nat)
    requires Multiplier(c) == Some(u)
    ensures FromStr(prefix + [c]) == ReadScaled(prefix, u)
  {
    var s := prefix + [c];
    assert s[..|s| - 1] == prefix;
    assert s[|s| - 1] == c;
  }

  /** A rate a unit fits is a positive whole number of that unit. */
  lemma ExactQuotient(n: int, u: nat) returns (q: nat)
    requires u > 0 && n >= u && n % u == 0
    ensures q >= 1 && q == n / u && q * u == n
  {
    q := n / u;
  }

  /** A whole number of units is exact in the reals too, so `int()` of the
      scaled float is the product. */
  lemma ScaleWhole(q: nat, u: nat)
    ensures Scale(Some(q as real), u) == Success(q * u)
  {
    CastMul(q, u);
    var x := q as real * u as real;
    TruncWhole(x, q * u);
    assert Trunc(x) == q * u;
    assert Scale(Some(q as real), u).value == Trunc(x);
    assert Scale(Some(q as real), u).Success?;
  }

  lemma TruncWhole(x: real, p: nat)
    requires x == p as real
    ensures Trunc(x) == p
  {
  }

  lemma CastMul(q: nat, u: nat)
    ensures q as real * u as real == (q * u) as real
  {
  }

  /** Python `float(str(q) + sep)` for a positive int and an optional
      trailing space is `q`. */
  lemma PyFloatOfDigits(q: nat, sep: string)
    requires q >= 1 && (sep == "" || sep == " ")
    ensures PyFloat(IntToString(q) + sep) == Some(q as real)
  {
    var d := NatToDigits(q, 10);
    assert IntToString(q) == d;
    IntToStringNoSpace(q);
    StripSeparator(d, sep);
    NatToDigitsValue(q, 10);
    PyFloatOfDigitString(d + sep, d);
  }

  /** Stripping a digit string followed by an optional space leaves the
      digits. */
  lemma StripSeparator(d: string, sep: string)
    requires |d| > 0 && (forall i :: 0 <= i < |d| ==> !IsSpace(d[i])) && (sep == "" || sep == " ")
    ensures Strip(d + sep) == d
  {
    StripNoSpace(d);
    assert !IsSpace(d[0]);
    assert StripLeft(d + sep) == d + sep;
    if sep == " " {
      assert (d + sep)[..|d + sep| - 1] == d;
    }
  }

  /** `float(s)` of a string that strips to plain decimal digits is their
      value. */
  lemma PyFloatOfDigitString(s: string, d: string)
    requires Strip(s) == d && |d| > 0 && AllDigits(d, 10)
    ensures PyFloat(s) == Some(DigitsValue(d, 10) as real)
  {
    Unsigned(d);
    NoDot(d);
    WholeNumber(d);
  }

  /** A digit string carries no sign. */
  lemma Unsigned(d: string)
    requires |d| > 0 && AllDigits(d, 10)
    ensures SplitSign(d) == (1, d)
  {
    assert IsDigit(d[0], 10);
  }

  /** A digit string without a fractional part has its integer value. */
  lemma WholeNumber(d: string)
    requires AllDigits(d, 10)
    ensures d[..|d|] == d && DecimalValue(d[..|d|], []) == DigitsValue(d, 10) as real
  {
    assert d[..|d|] == d;
    assert DigitsValue([], 10) == 0;
  }

  lemma NoDot(d: string)
    requires AllDigits(d, 10)
    ensures DotIndex(d) == |d|
  {
  }

  /** `from_str(to_str(x)) == from_str(x)`: printing preserves the rate. */
  lemma ToStrRoundTrip(rate: Rate, pretty: bool)
    requires ToStr(rate, pretty).Success?
    ensures FromStr(ToStr(rate, pretty).value) == FromRate(rate)
  {
    RenderRoundTrip(FromRate(rate).value, pretty);
  }

  /** `to_str(to_str(x)) == to_str(x)`: the printed form is a fixed point,
      which is what lets the job generator deduplicate rates by it. */
  lemma ToStrIdempotent(rate: Rate, pretty: bool)
    requires ToStr(rate, pretty).Success?
    ensures ToStr(StrRate(ToStr(rate, pretty).value), pretty) == ToStr(rate, pretty)
  {
    ToStrRoundTrip(rate, pretty);
  }
}
