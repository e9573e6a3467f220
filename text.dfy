/** Character-level parsing and printing used by the log, trace and rate
    parsers.  Three families of number readers appear in the repository:
    Python's `int()`/`float()` (whole string, surrounding whitespace allowed),
    and C++'s `std::stoul`/`std::stoi`/`std::stod` (leading whitespace, then the
    longest numeric prefix; the rest of the string is ignored). */
module Text {
  import opened Wrappers

  /** Whitespace in the ASCII sense shared by Python's `str.strip` and C's
      `isspace`: space, tab, newline, vertical tab, form feed, carriage return. */
  predicate IsSpace(c: char) {
    c == ' ' || c == '\t' || c == '\n' || c == '\r' || c == '\U{0B}' || c == '\U{0C}'
  }

  function Pow(b: nat, e: nat): (r: nat)
    ensures b >= 1 ==> r >= 1
  {
    if e == 0 then 1 else b * Pow(b, e - 1)
  }

  // ---------------------------------------------------------------------
  // Whitespace stripping (Python `str.strip()`)
  // ---------------------------------------------------------------------

  function StripLeft(s: string): (r: string)
    ensures |r| <= |s| && r == s[|s| - |r|..]
    ensures r == [] || !IsSpace(r[0])
    ensures forall i :: 0 <= i < |s| - |r| ==> IsSpace(s[i])
  {
    if |s| > 0 && IsSpace(s[0]) then StripLeft(s[1..]) else s
  }

  function StripRight(s: string): (r: string)
    ensures |r| <= |s| && r == s[..|r|]
    ensures r == [] || !IsSpace(r[|r| - 1])
    ensures forall i :: |r| <= i < |s| ==> IsSpace(s[i])
  {
    if |s| > 0 && IsSpace(s[|s| - 1]) then StripRight(s[..|s| - 1]) else s
  }

  /** Python `s.strip()`: drop leading and trailing whitespace. */
  function Strip(s: string): (r: string)
    ensures r == [] || (!IsSpace(r[0]) && !IsSpace(r[|r| - 1]))
    ensures |r| <= |s|
  {
    StripRight(StripLeft(s))
  }

  lemma StripNoSpace(s: string)
    requires forall i :: 0 <= i < |s| ==> !IsSpace(s[i])
    ensures Strip(s) == s
  {
  }

  // ---------------------------------------------------------------------
  // Digits
  // ---------------------------------------------------------------------

  /** Value of a digit character in bases up to 16 (either letter case),
      or -1 for a character that is no digit. */
  function DigitValue(c: char): int {
    if '0' <= c <= '9' then c as int - '0' as int
    else if 'a' <= c <= 'f' then c as int - 'a' as int + 10
    else if 'A' <= c <= 'F' then c as int - 'A' as int + 10
    else -1
  }

  predicate IsDigit(c: char, base: nat) {
    0 <= DigitValue(c) < base
  }

  predicate AllDigits(s: string, base: nat) {
    forall i :: 0 <= i < |s| ==> IsDigit(s[i], base)
  }

  /** The number a string of digits denotes, most significant digit first. */
  function DigitsValue(s: string, base: nat): (r: nat)
    requires AllDigits(s, base)
    ensures r < Pow(base, |s|)
  {
    if s == [] then 0
    else
      AllDigitsInit(s, base);
      var p := DigitsValue(s[..|s| - 1], base);
      var d := DigitValue(s[|s| - 1]);
      DigitStepBound(p, d, base, Pow(base, |s| - 1));
      p * base + d
  }

  /** The digits of a digit string without its last one, and that one. */
  lemma AllDigitsInit(s: string, base: nat)
    requires AllDigits(s, base) && s != []
    ensures AllDigits(s[..|s| - 1], base) && 0 <= DigitValue(s[|s| - 1]) < base
  {
    assert IsDigit(s[|s| - 1], base);
  }

  lemma DigitStepBound(p: nat, d: nat, base: nat, m: nat)
    requires p < m && d < base
    ensures p * base + d < base * m
  {
    calc {
      p * base + d;
    <  p * base + base;
    == (p + 1) * base;
    <= { assert p + 1 <= m; } m * base;
    }
  }

  lemma DivBound(n: nat, b: nat, m: nat)
    requires b > 0 && n < b * m
    ensures n / b < m
  {
    var q := n / b;
    assert q * b <= n;
    assert q * b < m * b;
    MulLessCancel(q, m, b);
  }

  lemma MulLessCancel(q: nat, m: nat, b: nat)
    requires b > 0 && q * b < m * b
    ensures q < m
  {
    assert (m - q) * b == m * b - q * b;
    assert (m - q) * b > 0;
  }

  /** Length of the longest prefix of `s` made of digits in `base`. */
  function DigitPrefixLength(s: string, base: nat): (n: nat)
    ensures n <= |s| && AllDigits(s[..n], base)
    ensures n < |s| ==> !IsDigit(s[n], base)
  {
    if s == [] || !IsDigit(s[0], base) then 0
    else
      var n := 1 + DigitPrefixLength(s[1..], base);
      assert forall i :: 1 <= i < n ==> s[..n][i] == s[1..][..n - 1][i - 1];
      n
  }

  // ---------------------------------------------------------------------
  // Python `int(s)` and `float(s)` on strings
  // ---------------------------------------------------------------------

  /** Splits an optional leading sign off `t`: the sign factor and the rest. */
  function SplitSign(t: string): (r: (int, string))
    ensures r.0 == 1 || r.0 == -1
    ensures |r.1| <= |t|
  {
    if |t| > 0 && t[0] == '-' then (-1, t[1..])
    else if |t| > 0 && t[0] == '+' then (1, t[1..])
    else (1, t)
  }

  /** Python `int(s)` on a string, base 10: surrounding whitespace, an
      optional sign and at least one decimal digit; anything else is a
      ValueError (`None` here). */
  function PyInt(s: string): (r: Option<int>)
    ensures r.Some? ==> |Strip(s)| > 0
  {
    var (sign, digits) := SplitSign(Strip(s));
    if digits != [] && AllDigits(digits, 10) then Some(sign * DigitsValue(digits, 10))
    else None
  }

  /** Index of the first '.' in `s`, or |s| if there is none. */
  function DotIndex(s: string): (k: nat)
    ensures k <= |s|
    ensures forall i :: 0 <= i < k ==> s[i] != '.'
    ensures k < |s| ==> s[k] == '.'
  {
    if s == [] then 0 else if s[0] == '.' then 0 else 1 + DotIndex(s[1..])
  }

  /** The value of `whole.frac` for two digit strings. */
  function DecimalValue(whole: string, frac: string): real
    requires AllDigits(whole, 10) && AllDigits(frac, 10)
  {
    DigitsValue(whole, 10) as real + DigitsValue(frac, 10) as real / Pow(10, |frac|) as real
  }

  /** Whether `c` opens an exponent: 'e' or 'E'. */
  predicate IsExponentMark(c: char) {
    c == 'e' || c == 'E'
  }

  /** Index of the first 'e' or 'E' in `s`, or |s| if there is none. */
  function ExponentIndex(s: string): (k: nat)
    ensures k <= |s|
    ensures forall i :: 0 <= i < k ==> !IsExponentMark(s[i])
    ensures k < |s| ==> IsExponentMark(s[k])
  {
    if s == [] then 0 else if IsExponentMark(s[0]) then 0 else 1 + ExponentIndex(s[1..])
  }

  /** `10^e` for an integer exponent, exactly. */
  function TenTo(e: int): (r: real)
    ensures r > 0.0
    ensures e >= 0 ==> r == Pow(10, e) as real
    ensures e < 0 ==> r * Pow(10, -e) as real == 1.0
  {
    if e >= 0 then Pow(10, e) as real else 1.0 / Pow(10, -e) as real
  }

  /** A decimal mantissa: digits with at most one '.', and at least one
      digit on either side of it. */
  function Mantissa(m: string): (r: Option<real>)
    ensures r.Some? ==> r.value >= 0.0
  {
    var k := DotIndex(m);
    var whole := m[..k];
    var frac := if k < |m| then m[k + 1..] else [];
    if |whole| + |frac| > 0 && AllDigits(whole, 10) && AllDigits(frac, 10)
    then Some(DecimalValue(whole, frac))
    else None
  }

  /** An exponent part after the 'e': an optional sign and at least one
      decimal digit. */
  function Exponent(t: string): (r: Option<int>)
  {
    var (sign, digits) := SplitSign(t);
    if digits != [] && AllDigits(digits, 10) then Some(sign * DigitsValue(digits, 10)) else None
  }

  /** `v * 10^e`. */
  function Scientific(v: real, e: int): real {
    v * TenTo(e)
  }

  /** The value of an unsigned float literal: a decimal mantissa and an
      optional exponent `e[sign]digits`. */
  function FloatBody(body: string): (r: Option<real>)
  {
    var k := ExponentIndex(body);
    match Mantissa(body[..k])
    case None => None
    case Some(v) =>
      if k == |body| then Some(v)
      else
        match Exponent(body[k + 1..])
        case Some(e) => Some(Scientific(v, e))
        case None => None
  }

  /** Python `float(s)` on finite literals: surrounding whitespace, an
      optional sign, a decimal mantissa and an optional exponent
      `e[sign]digits`.  The value is exact. */
  function PyFloat(s: string): (r: Option<real>)
  {
    var (sign, body) := SplitSign(Strip(s));
    match FloatBody(body)
    case Some(v) => Some(if sign < 0 then -v else v)
    case None => None
  }

  /** `float("<w>.<f>")` is `w.f`. */
  lemma PyFloatOfDecimal(w: string, f: string)
    requires AllDigits(w, 10) && AllDigits(f, 10) && |w| > 0
    ensures PyFloat(w + "." + f) == Some(DecimalValue(w, f))
  {
    var m := w + "." + f;
    MantissaOfParts(w, f);
    PlainNumber(m);
    MarkFree(m);
  }

  /** `float("<w>.<f>e<e>")` is `w.f * 10^e`. */
  lemma PyFloatOfScientific(w: string, f: string, e: int)
    requires AllDigits(w, 10) && AllDigits(f, 10) && |w| > 0
    ensures PyFloat(w + "." + f + "e" + IntToString(e)) == Some(Scientific(DecimalValue(w, f), e))
  {
    var m := w + "." + f;
    var es := IntToString(e);
    var t := m + "e" + es;
    MantissaOfParts(w, f);
    IntToStringNoSpace(e);
    NoSpaceJoin(m, es);
    PlainNumber(t);
    MarkAfter(m, es);
    assert t[..|m|] == m;
    assert t[|m| + 1..] == es;
    IntToStringExponent(e);
    ScientificParts(t, |m|, DecimalValue(w, f), e);
  }

  /** `float` of a sign-free body whose exponent mark sits at `k`. */
  lemma ScientificParts(t: string, k: nat, v: real, e: int)
    requires k < |t| && SplitSign(Strip(t)) == (1, t) && ExponentIndex(t) == k
    requires Mantissa(t[..k]) == Some(v) && Exponent(t[k + 1..]) == Some(e)
    ensures PyFloat(t) == Some(Scientific(v, e))
  {
    assert FloatBody(t) == Some(Scientific(v, e));
  }

  /** Joining two whitespace-free strings with an 'e' leaves no whitespace. */
  lemma NoSpaceJoin(m: string, es: string)
    requires forall i :: 0 <= i < |m| ==> !IsSpace(m[i])
    requires forall i :: 0 <= i < |es| ==> !IsSpace(es[i])
    ensures forall i :: 0 <= i < |m + "e" + es| ==> !IsSpace((m + "e" + es)[i])
  {
    var t := m + "e" + es;
    forall i | 0 <= i < |t| ensures !IsSpace(t[i]) {
      if i < |m| { assert t[i] == m[i]; }
      else if i > |m| { assert t[i] == es[i - |m| - 1]; }
    }
  }

  /** `w.f` is a mantissa free of spaces and exponent marks, worth `w.f`. */
  lemma MantissaOfParts(w: string, f: string)
    requires AllDigits(w, 10) && AllDigits(f, 10) && |w| > 0
    ensures var m := w + "." + f;
      && m[0] == w[0]
      && (forall i :: 0 <= i < |m| ==> !IsSpace(m[i]) && !IsExponentMark(m[i]))
      && Mantissa(m) == Some(DecimalValue(w, f))
  {
    var m := w + "." + f;
    NoMarks(w);
    NoMarks(f);
    DotAfter(w, f);
    assert m[..|w|] == w && m[|w| + 1..] == f;
    forall i | 0 <= i < |m| ensures !IsSpace(m[i]) && !IsExponentMark(m[i]) {
      if i < |w| { assert m[i] == w[i]; }
      else if i > |w| { assert m[i] == f[i - |w| - 1]; }
    }
  }

  /** A string that starts with a digit and holds no whitespace strips to
      itself and has no sign. */
  lemma PlainNumber(t: string)
    requires |t| > 0 && IsDigit(t[0], 10)
    requires forall i :: 0 <= i < |t| ==> !IsSpace(t[i])
    ensures SplitSign(Strip(t)) == (1, t)
  {
    StripNoSpace(t);
  }

  /** Digits are neither a '.', an exponent mark nor whitespace. */
  lemma NoMarks(d: string)
    requires AllDigits(d, 10)
    ensures forall i :: 0 <= i < |d| ==> d[i] != '.' && !IsExponentMark(d[i]) && !IsSpace(d[i])
  {
  }

  lemma {:induction false} DotAfter(w: string, f: string)
    requires forall i :: 0 <= i < |w| ==> w[i] != '.'
    ensures DotIndex(w + "." + f) == |w|
  {
    if w != [] {
      assert (w + "." + f)[1..] == w[1..] + "." + f;
      DotAfter(w[1..], f);
    }
  }

  lemma {:induction false} MarkFree(m: string)
    requires forall i :: 0 <= i < |m| ==> !IsExponentMark(m[i])
    ensures ExponentIndex(m) == |m|
  {
    if m != [] {
      MarkFree(m[1..]);
    }
  }

  lemma {:induction false} MarkAfter(m: string, t: string)
    requires forall i :: 0 <= i < |m| ==> !IsExponentMark(m[i])
    ensures ExponentIndex(m + "e" + t) == |m|
  {
    if m != [] {
      assert (m + "e" + t)[1..] == m[1..] + "e" + t;
      MarkAfter(m[1..], t);
    }
  }

  /** A printed int reads back as an exponent part. */
  lemma IntToStringExponent(e: int)
    ensures Exponent(IntToString(e)) == Some(e)
  {
    var m: nat := if e < 0 then -e else e;
    var digits := NatToDigits(m, 10);
    NatToDigitsValue(m, 10);
    assert IsDigit(digits[0], 10);
    if e < 0 {
      assert SplitSign(IntToString(e)) == (-1, digits);
    } else {
      assert SplitSign(IntToString(e)) == (1, digits);
    }
  }

  // ---------------------------------------------------------------------
  // C++ `std::stoul`, `std::stoi` and `std::stod`
  // ---------------------------------------------------------------------

  const ULongLimit: nat := 0x1_0000_0000_0000_0000
  const IntMin: int := -0x8000_0000
  const IntMax: int := 0x7FFF_FFFF

  function SkipSpaces(s: string): (r: string)
    ensures |r| <= |s|
    ensures r == [] || !IsSpace(r[0])
  {
    StripLeft(s)
  }

  /** Strips the optional "0x"/"0X" that `strtoul` accepts in base 16 when a
      hexadecimal digit follows it. */
  function SkipHexPrefix(s: string, base: nat): (r: string)
    ensures |r| <= |s|
  {
    if base == 16 && |s| >= 3 && s[0] == '0' && (s[1] == 'x' || s[1] == 'X') && IsDigit(s[2], 16)
    then s[2..] else s
  }

  /** `std::stoul(s, nullptr, base)`: leading whitespace, an optional sign, the
      longest digit prefix (at least one digit, else std::invalid_argument), a
      magnitude below 2^64 (else std::out_of_range); a minus sign negates the
      result modulo 2^64.  Characters after the digits are ignored. */
  function StoUL(s: string, base: nat): (r: Result<nat>)
    requires 2 <= base <= 16
    ensures r.Success? ==> r.value < ULongLimit
  {
    var (sign, rest) := SplitSign(SkipSpaces(s));
    var digits := SkipHexPrefix(rest, base);
    var n := DigitPrefixLength(digits, base);
    if n == 0 then Failure(InvalidArgument)
    else
      var v := DigitsValue(digits[..n], base);
      if v >= ULongLimit then Failure(OutOfRange)
      else if sign < 0 then Success((ULongLimit - v) % ULongLimit)
      else Success(v)
  }

  /** `std::stoi(s, nullptr, 10)`: as StoUL, but signed, and the value must lie
      in the range of a 32-bit `int`. */
  function StoI(s: string): (r: Result<int>)
    ensures r.Success? ==> IntMin <= r.value <= IntMax
  {
    var (sign, rest) := SplitSign(SkipSpaces(s));
    var n := DigitPrefixLength(rest, 10);
    if n == 0 then Failure(InvalidArgument)
    else
      var v := sign * DigitsValue(rest[..n], 10);
      if v < IntMin || v > IntMax then Failure(OutOfRange) else Success(v)
  }

  /** The exponent `strtod` takes from the front of `t`: an 'e' or 'E', an
      optional sign and the longest digit prefix, which must hold at least
      one digit; otherwise there is none and `t` is left unread. */
  function ExponentPrefix(t: string): (r: Option<int>)
  {
    if |t| > 0 && IsExponentMark(t[0]) then
      var (sign, rest) := SplitSign(t[1..]);
      var n := DigitPrefixLength(rest, 10);
      if n == 0 then None else Some(sign * DigitsValue(rest[..n], 10))
    else None
  }

  /** The value of the longest prefix of `rest` of the form
      `[digits][.digits][e[sign]digits]` whose mantissa holds at least one
      digit, if there is one. */
  function DecimalPrefix(rest: string): (r: Option<real>)
  {
    var n := DigitPrefixLength(rest, 10);
    var afterWhole := rest[n..];
    var dot := |afterWhole| > 0 && afterWhole[0] == '.';
    var m := if dot then DigitPrefixLength(afterWhole[1..], 10) else 0;
    var frac := if dot then afterWhole[1..][..m] else [];
    var tail := if dot then afterWhole[1 + m..] else afterWhole;
    if n + m == 0 then None
    else
      match ExponentPrefix(tail)
      case Some(e) => Some(Scientific(DecimalValue(rest[..n], frac), e))
      case None => Some(DecimalValue(rest[..n], frac))
  }

  /** `std::stod(s)` on finite decimal literals: leading whitespace, an
      optional sign, then the longest number prefix; the rest of the string
      is ignored, and no number at all is std::invalid_argument. */
  function StoD(s: string): (r: Result<real>)
  {
    var (sign, rest) := SplitSign(SkipSpaces(s));
    match DecimalPrefix(rest)
    case Some(v) => Success(if sign < 0 then -v else v)
    case None => Failure(InvalidArgument)
  }

  /** `std::stod` reads digits with an exponent, and stops at whatever
      follows that is not part of the number. */
  lemma StoDOfExponent(w: string, e: int, after: string)
    requires |w| > 0 && AllDigits(w, 10)
    requires after == [] || !IsDigit(after[0], 10)
    ensures StoD(w + "e" + IntToString(e) + after) == Success(Scientific(DigitsValue(w, 10) as real, e))
  {
    var es := IntToString(e);
    var t := "e" + es + after;
    var s := w + t;
    Regroup(w, "e", es, after);
    assert SplitSign(SkipSpaces(s)) == (1, s) by {
      DigitsStartPlain(w, 10);
      assert s[0] == w[0];
    }
    assert DecimalPrefix(s) == Some(Scientific(DigitsValue(w, 10) as real, e)) by {
      ExponentPrefixOf(e, after);
      DecimalPrefixOfExponent(w, t, e);
    }
  }

  lemma Regroup(a: string, b: string, c: string, d: string)
    ensures a + (b + c + d) == a + b + c + d
  {
  }

  /** Digits followed by an exponent part read as their value scaled. */
  lemma DecimalPrefixOfExponent(w: string, t: string, e: int)
    requires |w| > 0 && AllDigits(w, 10)
    requires |t| > 0 && t[0] == 'e' && ExponentPrefix(t) == Some(e)
    ensures DecimalPrefix(w + t) == Some(Scientific(DigitsValue(w, 10) as real, e))
  {
    var s := w + t;
    assert DigitPrefixLength(s, 10) == |w| by {
      DigitPrefixStops(w, t);
    }
    assert s[..|w|] == w && s[|w|..] == t;
    WholeDecimal(w);
  }

  /** Digits without a fractional part are worth their integer value. */
  lemma WholeDecimal(w: string)
    requires AllDigits(w, 10)
    ensures DecimalValue(w, []) == DigitsValue(w, 10) as real
  {
    assert DigitsValue([], 10) == 0;
  }

  /** `e<int>` followed by a non-digit is an exponent part worth the int. */
  lemma ExponentPrefixOf(e: int, after: string)
    requires after == [] || !IsDigit(after[0], 10)
    ensures ExponentPrefix("e" + IntToString(e) + after) == Some(e)
  {
    var es := IntToString(e);
    var t := "e" + es + after;
    var m: nat := if e < 0 then -e else e;
    var digits := NatToDigits(m, 10);
    assert t[1..] == es + after;
    SignedDigits(e, after);
    DigitsThenOther(m, after);
  }

  /** A printed int followed by more text: its sign, then its digits. */
  lemma SignedDigits(e: int, after: string)
    ensures SplitSign(IntToString(e) + after) ==
              (if e < 0 then -1 else 1, NatToDigits(if e < 0 then -e else e, 10) + after)
  {
    var m: nat := if e < 0 then -e else e;
    var digits := NatToDigits(m, 10);
    assert IsDigit(digits[0], 10) by { NatToDigitsValue(m, 10); }
    var u := IntToString(e) + after;
    if e < 0 {
      assert u == ['-'] + (digits + after);
      assert u[0] == '-' && u[1..] == digits + after;
    } else {
      assert u == digits + after;
      assert u[0] == digits[0];
    }
  }

  /** The digits of `m` followed by a non-digit: the longest digit prefix is
      exactly those digits, worth `m`. */
  lemma DigitsThenOther(m: nat, after: string)
    requires after == [] || !IsDigit(after[0], 10)
    ensures var d := NatToDigits(m, 10);
      DigitPrefixLength(d + after, 10) == |d| && (d + after)[..|d|] == d && DigitsValue(d, 10) == m
  {
    var d := NatToDigits(m, 10);
    NatToDigitsValue(m, 10);
    DigitPrefixStops(d, after);
    assert (d + after)[..|d|] == d;
  }

  /** The longest digit prefix of digits followed by a non-digit is those
      digits. */
  lemma {:induction false} DigitPrefixStops(d: string, after: string)
    requires AllDigits(d, 10)
    requires after == [] || !IsDigit(after[0], 10)
    ensures DigitPrefixLength(d + after, 10) == |d|
  {
    if d != [] {
      assert (d + after)[1..] == d[1..] + after;
      assert AllDigits(d[1..], 10) by {
        forall i | 0 <= i < |d| - 1 ensures IsDigit(d[1..][i], 10) {
          assert d[1..][i] == d[i + 1];
        }
      }
      DigitPrefixStops(d[1..], after);
    } else {
      assert d + after == after;
    }
  }

  /** A digit string's longest digit prefix is the whole string. */
  lemma {:induction false} DigitPrefixAll(s: string, base: nat)
    requires AllDigits(s, base)
    ensures DigitPrefixLength(s, base) == |s|
  {
    if s != [] {
      assert AllDigits(s[1..], base) by {
        forall i | 0 <= i < |s| - 1 ensures IsDigit(s[1..][i], base) {
          assert s[1..][i] == s[i + 1];
        }
      }
      DigitPrefixAll(s[1..], base);
    }
  }

  /** Printed digits carry no leading zero: a string of two or more digits
      starts with a non-zero digit. */
  lemma {:induction false} NatToDigitsLeading(n: nat, base: nat)
    requires 2 <= base <= 16
    ensures |NatToDigits(n, base)| >= 2 ==> DigitValue(NatToDigits(n, base)[0]) != 0
  {
    if n >= base {
      var q := n / base;
      DivModIdentity(n, base);
      assert q >= 1;
      NatToDigitsLeading(q, base);
      assert NatToDigits(n, base)[0] == NatToDigits(q, base)[0];
    }
  }

  /** A printed number starts with a digit: no whitespace and no sign. */
  lemma DigitsStartPlain(s: string, base: nat)
    requires |s| >= 1 && AllDigits(s, base)
    ensures SkipSpaces(s) == s && SplitSign(s) == (1, s)
  {
    assert IsDigit(s[0], base);
  }

  /** `std::stoul` reads back the digits of any `unsigned long`. */
  lemma StoULOfDigits(n: nat, base: nat)
    requires 2 <= base <= 16 && n < ULongLimit
    ensures StoUL(NatToDigits(n, base), base) == Success(n)
  {
    var s := NatToDigits(n, base);
    DigitsStartPlain(s, base);
    NatToDigitsLeading(n, base);
    assert SkipHexPrefix(s, base) == s;
    DigitPrefixAll(s, base);
    assert s[..|s|] == s;
    NatToDigitsValue(n, base);
  }

  /** `std::stoi` reads back the decimal digits of any non-negative `int`. */
  lemma StoIOfDigits(n: nat)
    requires n <= IntMax
    ensures StoI(NatToDigits(n, 10)) == Success(n)
  {
    var s := NatToDigits(n, 10);
    DigitsStartPlain(s, 10);
    DigitPrefixAll(s, 10);
    assert s[..|s|] == s;
    NatToDigitsValue(n, 10);
  }

  /** `std::stod` reads back the decimal digits of a natural number. */
  lemma StoDOfDigits(n: nat)
    ensures StoD(NatToDigits(n, 10)) == Success(n as real)
  {
    var s := NatToDigits(n, 10);
    DigitsStartPlain(s, 10);
    DigitPrefixAll(s, 10);
    assert s[..|s|] == s && s[|s|..] == [];
    NatToDigitsValue(n, 10);
    assert DigitsValue([], 10) == 0;
  }

  // ---------------------------------------------------------------------
  // Printing
  // ---------------------------------------------------------------------

  function DigitChar(d: nat): (c: char)
    requires d < 16
    ensures DigitValue(c) == d
  {
    if d < 10 then ('0' as int + d) as char else ('a' as int + d - 10) as char
  }

  /** The digits of `n` in `base`, most significant first, without leading
      zeros ("0" for zero); letters are lower case as `std::hex` prints them. */
  function NatToDigits(n: nat, base: nat): (s: string)
    requires 2 <= base <= 16
    ensures |s| >= 1 && AllDigits(s, base)
  {
    if n < base then [DigitChar(n)] else NatToDigits(n / base, base) + [DigitChar(n % base)]
  }

  lemma {:induction false} NatToDigitsValue(n: nat, base: nat)
    requires 2 <= base <= 16
    ensures DigitsValue(NatToDigits(n, base), base) == n
  {
    if n >= base {
      var q, r := n / base, n % base;
      DivLess(n, base);
      NatToDigitsValue(q, base);
      DivModIdentity(n, base);
      DigitsValueSnoc(NatToDigits(q, base), DigitChar(r), base);
      calc {
        DigitsValue(NatToDigits(n, base), base);
        DigitsValue(NatToDigits(q, base) + [DigitChar(r)], base);
        DigitsValue(NatToDigits(q, base), base) * base + r;
        q * base + r;
        n;
      }
    } else {
      SingleDigitValue(n, base);
    }
  }

  lemma SingleDigitValue(n: nat, base: nat)
    requires 2 <= base <= 16 && n < base
    ensures DigitsValue(NatToDigits(n, base), base) == n
  {
    var s := NatToDigits(n, base);
    assert s[..0] == [];
  }

  /** Appending a digit multiplies the value so far by the base. */
  lemma DigitsValueSnoc(p: string, c: char, base: nat)
    requires AllDigits(p, base) && IsDigit(c, base)
    ensures AllDigits(p + [c], base)
    ensures DigitsValue(p + [c], base) == DigitsValue(p, base) * base + DigitValue(c)
  {
    var s := p + [c];
    assert s[..|s| - 1] == p;
  }

  lemma DivLess(n: nat, b: nat)
    requires 2 <= b <= n
    ensures n / b < n
  {
    DivModIdentity(n, b);
    MulAtLeastTwice(n / b, b);
  }

  lemma {:induction false} MulAtLeastTwice(q: nat, b: nat)
    requires b >= 2
    ensures q * b >= 2 * q
  {
    if q > 0 {
      MulAtLeastTwice(q - 1, b);
      assert q * b == (q - 1) * b + b;
    }
  }

  lemma DivModIdentity(n: nat, b: nat)
    requires b > 0
    ensures (n / b) * b + n % b == n
  {
  }

  lemma {:induction false} NatToDigitsLength(n: nat, base: nat, w: nat)
    requires 2 <= base <= 16 && w >= 1 && n < Pow(base, w)
    decreases w
    ensures |NatToDigits(n, base)| <= w
  {
    if n >= base {
      var q := WidthStep(n, base, w);
      NatToDigitsLength(q, base, w - 1);
      NatToDigitsStep(n, base, q);
    }
  }

  /** A number of at least `base` below `base^w` needs two digits or more,
      and its quotient fits in one digit fewer. */
  lemma WidthStep(n: nat, base: nat, w: nat) returns (q: nat)
    requires 2 <= base && w >= 1 && base <= n < Pow(base, w)
    ensures w >= 2 && q == n / base && q < Pow(base, w - 1)
  {
    var m := Pow(base, w - 1);
    assert Pow(base, w) == base * m;
    q := n / base;
    DivBound(n, base, m);
    DivAtLeastOne(n, base);
  }

  lemma DivAtLeastOne(n: nat, b: nat)
    requires b > 0 && n >= b
    ensures n / b >= 1
  {
  }

  /** A number of at least `base` has one digit more than its quotient. */
  lemma NatToDigitsStep(n: nat, base: nat, q: nat)
    requires 2 <= base <= 16 && n >= base && q == n / base
    ensures |NatToDigits(n, base)| == |NatToDigits(q, base)| + 1
  {
  }

  /** Python `str(n)` for an int. */
  function IntToString(n: int): (s: string)
    ensures |s| >= 1
  {
    if n < 0 then ['-'] + NatToDigits(-n, 10) else NatToDigits(n, 10)
  }

  /** Python `int(str(n)) == n`: printing an int and reading it back is the
      identity. */
  lemma IntToStringRoundTrip(n: int)
    ensures PyInt(IntToString(n)) == Some(n)
  {
    var s := IntToString(n);
    var m: nat := if n < 0 then -n else n;
    var digits := NatToDigits(m, 10);
    IntToStringNoSpace(n);
    StripNoSpace(s);
    NatToDigitsValue(m, 10);
    assert IsDigit(digits[0], 10);
    if n < 0 {
      assert SplitSign(s) == (-1, digits);
      assert PyInt(s) == Some(-1 * m);
    } else {
      assert SplitSign(s) == (1, digits);
      assert PyInt(s) == Some(1 * m);
    }
  }

  /** `str(n)` holds no whitespace: a sign and decimal digits. */
  lemma IntToStringNoSpace(n: int)
    ensures forall i :: 0 <= i < |IntToString(n)| ==> !IsSpace(IntToString(n)[i])
  {
    var s := IntToString(n);
    var digits := NatToDigits(if n < 0 then -n else n, 10);
    forall i | 0 <= i < |s| ensures !IsSpace(s[i]) {
      if n < 0 && i > 0 {
        assert s[i] == digits[i - 1];
        assert IsDigit(digits[i - 1], 10);
      } else if n >= 0 {
        assert IsDigit(digits[i], 10);
      }
    }
  }

  /** `std::setfill('0') << std::setw(width) << std::hex << v`: the lower-case
      hex digits of `v`, left-padded with '0' to at least `width` characters. */
  function HexPadded(v: nat, width: nat): (s: string)
    ensures AllDigits(s, 16)
  {
    var digits := NatToDigits(v, 16);
    if |digits| >= width then digits
    else
      Zeros(width - |digits|) + digits
  }

  /** `n` '0' characters. */
  function Zeros(n: nat): (s: string)
    ensures |s| == n && AllDigits(s, 16)
  {
    if n == 0 then [] else ['0'] + Zeros(n - 1)
  }

  lemma {:induction false} LeadingZerosValue(z: nat, s: string)
    requires AllDigits(s, 16)
    ensures AllDigits(Zeros(z) + s, 16)
    ensures DigitsValue(Zeros(z) + s, 16) == DigitsValue(s, 16)
  {
    if z > 0 {
      LeadingZerosValue(z - 1, s);
      var x := Zeros(z - 1) + s;
      assert Zeros(z) + s == ['0'] + x;
      DropLeadingZeroValue(x);
      assert DigitsValue(['0'] + x, 16) == DigitsValue(x, 16);
    } else {
      assert Zeros(z) + s == s;
    }
  }

  lemma {:induction false} DropLeadingZeroValue(s: string)
    requires AllDigits(s, 16)
    ensures AllDigits(['0'] + s, 16)
    ensures DigitsValue(['0'] + s, 16) == DigitsValue(s, 16)
  {
    var t := ['0'] + s;
    assert AllDigits(t, 16) by {
      forall i | 0 <= i < |t| ensures IsDigit(t[i], 16) {
        if i > 0 { assert t[i] == s[i - 1]; }
      }
    }
    if s != [] {
      assert t[..|t| - 1] == ['0'] + s[..|s| - 1];
      DropLeadingZeroValue(s[..|s| - 1]);
    }
  }

  /** A value that fits in `width` hex digits prints as exactly `width`
      characters, and reading them back in base 16 gives the value. */
  lemma HexPaddedExact(v: nat, width: nat)
    requires width >= 1 && v < Pow(16, width)
    ensures |HexPadded(v, width)| == width
    ensures DigitsValue(HexPadded(v, width), 16) == v
  {
    var digits := NatToDigits(v, 16);
    NatToDigitsLength(v, 16, width);
    NatToDigitsValue(v, 16);
    if |digits| < width {
      LeadingZerosValue(width - |digits|, digits);
    }
  }
}
