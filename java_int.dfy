/** Java's 32-bit `int` as the engine's coordinate code uses it: the arithmetic
    right shift `x >> 4`, the mask `x & 15`, wrap-around addition and the
    `(int)` cast of a `float`.  Values are Dafny integers kept inside the
    32-bit range; bit operations are defined on the two's-complement pattern. */
module JavaInt {

  const MIN_INT: int := -0x8000_0000
  const MAX_INT: int := 0x7FFF_FFFF
  const TWO_32: int := 0x1_0000_0000

  /** The values a Java `int` can hold. */
  predicate IsInt(x: int) {
    MIN_INT <= x <= MAX_INT
  }

  /** Reduces an unbounded integer to the `int` with the same low 32 bits, as
      Java's `+` does on overflow. */
  function Wrap(v: int): (r: int)
    ensures IsInt(r)
    ensures (r - v) % TWO_32 == 0
    ensures IsInt(v) ==> r == v
  {
    (v - MIN_INT) % TWO_32 + MIN_INT
  }

  /** Java `a + b` on two `int`s. */
  function Add(a: int, b: int): (r: int)
    requires IsInt(a) && IsInt(b)
    ensures IsInt(r)
    ensures IsInt(a + b) ==> r == a + b
    ensures a + b > MAX_INT ==> r == a + b - TWO_32
    ensures a + b < MIN_INT ==> r == a + b + TWO_32
  {
    Wrap(a + b)
  }

  /** The 32-bit two's-complement pattern of `x`, read as an unsigned number. */
  function Pattern(x: int): (u: int)
    requires IsInt(x)
    ensures 0 <= u < TWO_32
  {
    if x < 0 then x + TWO_32 else x
  }

  /** Reads a 32-bit pattern back as a signed `int`. */
  function Signed(u: int): (x: int)
    requires 0 <= u < TWO_32
    ensures IsInt(x) && Pattern(x) == u
  {
    if u <= MAX_INT then u else u - TWO_32
  }

  /** Java `x >> 4`: shifts the pattern right by four bits and copies the sign
      bit into the four vacated high bits.  The result is `x` divided by 16
      rounded towards negative infinity, also for negative `x`. */
  function ShiftRight4(x: int): (r: int)
    requires IsInt(x)
    ensures IsInt(r)
    ensures r * 16 <= x < r * 16 + 16
  {
    var u := Pattern(x);
    Signed(if u <= MAX_INT then u / 16 else u / 16 + 0xF000_0000)
  }

  /** Java `x & 15`: the low four bits of the pattern.  Together with
      `x >> 4` it splits `x` into a chunk part and a non-negative offset. */
  function Mask15(x: int): (r: int)
    requires IsInt(x)
    ensures 0 <= r < 16
    ensures x == ShiftRight4(x) * 16 + r
  {
    Pattern(x) % 16
  }

  function Abs(x: int): (r: int)
    ensures r >= 0 && (r == x || r == -x)
  {
    if x < 0 then -x else x
  }

  /** Java's `(int) f` for a finite `float` `f`, taken as the real number it
      denotes: rounds towards zero, and saturates at the ends of the `int`
      range. */
  function FloatToInt(f: real): (n: int)
    ensures IsInt(n)
  {
    if f >= MAX_INT as real then MAX_INT
    else if f <= MIN_INT as real then MIN_INT
    else if f >= 0.0 then f.Floor
    else -((-f).Floor)
  }

  /** The cast drops the fraction towards zero inside the `int` range and
      clamps outside it. */
  lemma FloatToIntTruncates(f: real)
    ensures 0.0 <= f < MAX_INT as real ==> FloatToInt(f) as real <= f < FloatToInt(f) as real + 1.0
    ensures MIN_INT as real < f < 0.0 ==> FloatToInt(f) as real - 1.0 < f <= FloatToInt(f) as real
    ensures f >= MAX_INT as real ==> FloatToInt(f) == MAX_INT
    ensures f <= MIN_INT as real ==> FloatToInt(f) == MIN_INT
  {
  }
}
