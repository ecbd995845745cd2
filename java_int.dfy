/**
 * Java `int` arithmetic on the unbounded integers: 32-bit two's-complement
 * wrap-around for `*`, `+` and `-`, and truncating `/` and `%`.
 */
module JavaInt {

  const MinInt: int := -0x8000_0000
  const MaxInt: int := 0x7fff_ffff

  /** The values a Java `int` can hold. */
  type Int32 = x: int | MinInt <= x <= MaxInt

  /** Reduces a mathematical integer to the Java `int` with the same low 32 bits. */
  function Wrap(x: int): (r: Int32)
    ensures (r - x) % 0x1_0000_0000 == 0
    ensures MinInt <= x <= MaxInt ==> r == x
  {
    (x - MinInt) % 0x1_0000_0000 + MinInt
  }

  function Abs(x: int): nat { if x < 0 then -x else x }

  /** The quotient of `/` on Java ints, before wrap-around: rounded toward zero. */
  function Quot(a: int, b: int): (q: int)
    requires b != 0
  {
    var q := Abs(a) / Abs(b);
    if (a < 0) != (b < 0) then -q else q
  }

  /** Java `a * b` on ints. */
  function Mul(a: Int32, b: Int32): Int32 { Wrap(a * b) }

  /** Java `a + b` on ints. */
  function Add(a: Int32, b: Int32): Int32 { Wrap(a + b) }

  /** Java `a - b` on ints. */
  function Sub(a: Int32, b: Int32): Int32 { Wrap(a - b) }

  /** Java `a / b` on ints (`MinInt / -1` wraps to `MinInt`). */
  function Div(a: Int32, b: Int32): Int32
    requires b != 0
  {
    Wrap(Quot(a, b))
  }

  /** Java `a % b` on ints: the remainder takes the sign of `a`. */
  function Rem(a: Int32, b: Int32): (r: Int32)
    requires b != 0
    ensures Abs(r) == Abs(a) % Abs(b)
    ensures a >= 0 ==> r >= 0
    ensures a <= 0 ==> r <= 0
  {
    RemMagnitude(a, b);
    a - Quot(a, b) * b
  }

  /** `a - Quot(a, b) * b` is the Euclidean remainder of the magnitudes, signed like `a`. */
  lemma RemMagnitude(a: int, b: int)
    requires b != 0
    ensures a - Quot(a, b) * b == if a < 0 then -(Abs(a) % Abs(b)) else Abs(a) % Abs(b)
  {
    var n: int, d: int := Abs(a), Abs(b);
    assert n == (n / d) * d + n % d;
    var q := Quot(a, b);
    if a >= 0 && b > 0 {
      assert q * b == (n / d) * d;
    } else if a >= 0 {
      assert q * b == (-(n / d)) * (-d) == (n / d) * d;
    } else if b > 0 {
      assert q * b == (-(n / d)) * d == -((n / d) * d);
    } else {
      assert q * b == (n / d) * (-d) == -((n / d) * d);
    }
  }
}
