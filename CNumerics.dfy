/** The pieces of C/C++ arithmetic the model needs written out, because
    Dafny's `int` and `real` behave differently: the `(int)` cast of a float
    (truncation toward zero, not `Floor`), C's integer `/` (also truncation
    toward zero, while Dafny's `/` is Euclidean), and unsigned 32-bit values. */
module CNumerics {

  const TwoTo32: int := 0x1_0000_0000

  /** `uint32_t` / `GLuint`. */
  type UInt32 = x: int | 0 <= x < TwoTo32

  /** The largest value of C's `int` (and of `int32_t`/`EGLint`). */
  const Int32Max: int := 0x7FFF_FFFF

  /** `GLushort`: the type of every index the OBJ reader stores. */
  type UShort = x: int | 0 <= x < 0x1_0000

  /** `GLubyte` / `png_byte`. */
  type Byte = x: int | 0 <= x < 0x100

  function Abs(a: int): (r: nat)
    ensures r == a || r == -a
  {
    if a < 0 then -a else a
  }

  /** C's `(int)` conversion of a floating-point value: the fraction is
      dropped, rounding toward zero. */
  function TruncToInt(x: real): (r: int)
    ensures 0.0 <= x ==> r as real <= x < r as real + 1.0
    ensures x < 0.0 ==> r as real - 1.0 < x <= r as real
  {
    if 0.0 <= x then x.Floor else -((-x).Floor)
  }

  /** C99 `/` on integers: the quotient is truncated toward zero, so the
      remainder takes the sign of the dividend. */
  function CDiv(a: int, b: int): (q: int)
    requires 0 < b
    ensures 0 <= a ==> 0 <= a - q * b < b
    ensures a < 0 ==> -b < a - q * b <= 0
  {
    var n := Abs(a) / b;
    DivRemainder(Abs(a), b);
    if a < 0 then -n else n
  }

  /** The Euclidean quotient of non-negative numbers leaves a remainder in
      `[0, b)`. */
  lemma DivRemainder(a: nat, b: int)
    requires 0 < b
    ensures 0 <= a - (a / b) * b < b
  {
  }

  /** The `(int)` cast agrees with `Floor` on non-negative values and
      differs from it exactly on the negative non-integers. */
  lemma TruncVersusFloor(x: real)
    ensures 0.0 <= x ==> TruncToInt(x) == x.Floor
    ensures x < 0.0 && x != x.Floor as real ==> TruncToInt(x) == x.Floor + 1
    ensures x < 0.0 && x == x.Floor as real ==> TruncToInt(x) == x.Floor
  {
    if x < 0.0 {
      var t := TruncToInt(x);
      assert x.Floor as real <= x < x.Floor as real + 1.0;
      assert t as real - 1.0 < x <= t as real;
    }
  }

  /** Every value strictly between -1 and 1 is cast to 0: the grid cell 0 is
      twice as wide as every other one. */
  lemma TruncNearZero(x: real)
    requires -1.0 < x < 1.0
    ensures TruncToInt(x) == 0
  {
  }

  /** The cast is monotone, so it maps an interval into the interval between
      the casts of its ends. */
  lemma TruncMonotone(x: real, y: real)
    requires x <= y
    ensures TruncToInt(x) <= TruncToInt(y)
  {
  }

  /** Scaling by a positive factor before the cast keeps the order. */
  lemma TruncScaledMonotone(x: real, y: real, f: real)
    requires x <= y && 0.0 < f
    ensures TruncToInt(x * f) <= TruncToInt(y * f)
  {
    ScaleMonotone(x, y, f);
    var a, b := x * f, y * f;
    TruncMonotone(a, b);
  }

  lemma ScaleMonotone(x: real, y: real, f: real)
    requires x <= y && 0.0 < f
    ensures x * f <= y * f
  {
  }
}
