/** Numeric conventions of the model.
    C++ `double` and Python `float` are modelled as exact reals; the cases
    where IEEE behaviour matters to the code (NaN as an "unset" marker) get
    their own datatype.  Python's `int()` on a float truncates toward zero and
    Python's `round()` rounds half to even; both are defined exactly here. */
module Numeric {

  /** Unsigned machine integers of the C++ code. */
  type U16 = x: nat | x < 0x1_0000
  type U32 = x: nat | x < 0x1_0000_0000
  type U64 = x: nat | x < 0x1_0000_0000_0000_0000

  const TwoTo32: nat := 0x1_0000_0000

  /** Conversion of an unsigned value to `uint32_t`: the low 32 bits. */
  function Narrow32(x: nat): (r: U32)
    ensures x < TwoTo32 ==> r == x
  {
    x % TwoTo32
  }

  /** Arithmetic on `unsigned long`: the low 64 bits. */
  function Narrow64(x: nat): (r: U64)
    ensures x < 0x1_0000_0000_0000_0000 ==> r == x
  {
    x % 0x1_0000_0000_0000_0000
  }

  /** Conversion of an unsigned value to `uint16_t`: the low 16 bits. */
  function Narrow16(x: nat): (r: U16)
    ensures x < 0x1_0000 ==> r == x
  {
    x % 0x1_0000
  }

  /** A C++ `double` that may hold NaN, used where the source stores NAN to
      mean "not set yet". */
  datatype Double = NaN | Num(v: real)

  /** Python `int(x)` for a float `x`: truncation toward zero. */
  function Trunc(x: real): (r: int)
    ensures x >= 0.0 ==> r == x.Floor
    ensures 0.0 <= x - r as real < 1.0 || 0.0 <= r as real - x < 1.0
    ensures x >= 0.0 ==> r as real <= x
    ensures x <= 0.0 ==> x <= r as real
  {
    if x >= 0.0 then x.Floor else -((-x).Floor)
  }

  /** Python 3 `round(x)` with no digits: to the nearest integer, and on an
      exact half to the even neighbour (banker's rounding). */
  function Round(x: real): (r: int)
    ensures -0.5 <= x - r as real <= 0.5
    ensures (x - r as real == 0.5 || r as real - x == 0.5) ==> r % 2 == 0
  {
    var f := x.Floor;
    var d := x - f as real;
    if d < 0.5 then f
    else if d > 0.5 then f + 1
    else if f % 2 == 0 then f
    else f + 1
  }

  /** Rounding is monotone: the WSJF profiles rely on this to keep the
      rounded ratios of a sorted sequence sorted. */
  lemma RoundMonotone(x: real, y: real)
    requires x <= y
    ensures Round(x) <= Round(y)
  {
  }

  /** Truncation is monotone: the SJF-Inorder profile relies on this to keep
      the truncated averages of sorted flows sorted. */
  lemma TruncMonotone(x: real, y: real)
    requires x <= y
    ensures Trunc(x) <= Trunc(y)
  {
  }

  /** Rounding an integer-valued real gives back that integer. */
  lemma RoundOfInt(n: int)
    ensures Round(n as real) == n
  {
  }

  function MaxReal(a: real, b: real): (r: real)
    ensures r >= a && r >= b && (r == a || r == b)
  {
    if a >= b then a else b
  }

  function MinReal(a: real, b: real): (r: real)
    ensures r <= a && r <= b && (r == a || r == b)
  {
    if a <= b then a else b
  }

  function MaxInt(a: int, b: int): (r: int)
    ensures r >= a && r >= b && (r == a || r == b)
  {
    if a >= b then a else b
  }

  function MinInt(a: int, b: int): (r: int)
    ensures r <= a && r <= b && (r == a || r == b)
  {
    if a <= b then a else b
  }
}
