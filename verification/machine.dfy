/** Fixed-width arithmetic of the coordinator's C++ types. An `unsigned long long`
    wraps modulo 2^64 on `+`, `-` and `<<`; a percentage is held in a signed
    32-bit `int`, so a value that does not fit it has no defined meaning. */
module Machine {

  const TWO_64: int := 0x1_0000_0000_0000_0000

  /** The largest value of a 32-bit `int`. */
  const INT_MAX: int := 0x7fff_ffff

  /** `unsigned long long` */
  type U64 = x: int | 0 <= x < TWO_64

  /** `a + b` on `unsigned long long`. */
  function AddU64(a: U64, b: U64): (r: U64)
    ensures a + b < TWO_64 ==> r == a + b
    ensures a + b >= TWO_64 ==> r == a + b - TWO_64
  {
    (a + b) % TWO_64
  }

  /** `a - b` on `unsigned long long`. */
  function SubU64(a: U64, b: U64): (r: U64)
    ensures b <= a ==> r == a - b
    ensures a < b ==> r == a - b + TWO_64
  {
    (a - b) % TWO_64
  }

  /** `a << 1` on `unsigned long long`: the top bit is lost. */
  function Shl1(a: U64): (r: U64)
    ensures 2 * a < TWO_64 ==> r == 2 * a
    ensures 2 * a >= TWO_64 ==> r == 2 * a - TWO_64
  {
    (a * 2) % TWO_64
  }

  /** `a >> 1` on `unsigned long long`. */
  function Shr1(a: U64): (r: U64)
    ensures 2 * r <= a <= 2 * r + 1
  {
    a / 2
  }

  /** Multiplication by a positive number preserves order. */
  lemma MulMonotone(x: int, y: int, b: int)
    requires b > 0 && x <= y
    ensures x * b <= y * b
  {
    assert y * b - x * b == (y - x) * b;
  }

  /** Division rounds down: the quotient is the largest `q` with `q * b <= a`. */
  lemma FloorDivision(a: nat, b: nat)
    requires b > 0
    ensures (a / b) * b <= a < (a / b + 1) * b
    ensures forall c: nat :: c * b <= a ==> c <= a / b
  {
    var q := a / b;
    assert a == q * b + a % b;
    assert (q + 1) * b == q * b + b;
    forall c: nat | c * b <= a
      ensures c <= q
    {
      if c > q {
        MulMonotone(q + 1, c, b);
      }
    }
  }

  /** `static_cast<int>((part * 100.0) / whole)` for non-negative operands,
      abstracted to exact division rounded down: the whole percentage that
      `part` is of `whole`. */
  function Percent(part: U64, whole: U64): (r: nat)
    requires whole > 0
    ensures part <= whole ==> r <= 100
    ensures part >= whole ==> r >= 100
    ensures FitsInt(part, whole) ==> r <= INT_MAX
  {
    var r := part * 100 / whole;
    PercentBounds(part, whole, r);
    r
  }

  /** The percentage `part` is of `whole` is below 2^31, so converting it to
      `int` is defined. */
  predicate FitsInt(part: int, whole: int) {
    part * 100 < (INT_MAX + 1) * whole
  }

  /** The percentage is rounded down: it is the largest whole number `r`
      with `r * whole <= part * 100`. */
  lemma PercentIsFloor(part: U64, whole: U64)
    requires whole > 0
    ensures Percent(part, whole) * whole <= part * 100 < (Percent(part, whole) + 1) * whole
  {
    PercentBounds(part, whole, Percent(part, whole));
  }

  lemma PercentBounds(part: nat, whole: nat, r: nat)
    requires whole > 0 && r == part * 100 / whole
    ensures r * whole <= part * 100 < (r + 1) * whole
    ensures part <= whole ==> r <= 100
    ensures part >= whole ==> r >= 100
    ensures FitsInt(part, whole) ==> r <= INT_MAX
  {
    var a := part * 100;
    FloorDivision(a, whole);
    if part <= whole {
      MulMonotone(part, whole, 100);
      assert a <= 100 * whole;
      if r > 100 {
        MulMonotone(101, r, whole);
        assert false;
      }
    }
    if part >= whole {
      MulMonotone(whole, part, 100);
      assert 100 * whole <= a;
    }
    if FitsInt(part, whole) && r > INT_MAX {
      MulMonotone(INT_MAX + 1, r, whole);
      assert false;
    }
  }

  /** Reducing the left operand first does not change a sum modulo 2^64. */
  lemma ModAddLeft(a: nat, b: nat)
    ensures (a % TWO_64 + b) % TWO_64 == (a + b) % TWO_64
  {
    var q := a / TWO_64;
    assert a == q * TWO_64 + a % TWO_64;
    ModShift(a % TWO_64 + b, q);
  }

  lemma {:induction false} ModShift(x: nat, q: nat)
    ensures (x + q * TWO_64) % TWO_64 == x % TWO_64
  {
    if q > 0 {
      ModShift(x, q - 1);
      assert x + q * TWO_64 == (x + (q - 1) * TWO_64) + TWO_64;
    }
  }
}
