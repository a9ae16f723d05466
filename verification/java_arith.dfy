/** Java integer semantics the scheduler relies on, written out over unbounded integers,
    and the division facts the alignment and averaging proofs need. */
module JavaArith {

  const MAX_INT: int := 0x7fff_ffff
  const MAX_LONG: int := 0x7fff_ffff_ffff_ffff
  const MIN_LONG: int := -0x8000_0000_0000_0000

  predicate InLongRange(x: int) {
    MIN_LONG <= x <= MAX_LONG
  }

  function Abs(x: int): nat {
    if x < 0 then -x else x
  }

  /** Java's `/` on integers, which truncates toward zero (Dafny's `/` is Euclidean). */
  function TruncDiv(a: int, b: int): int
    requires b != 0
  {
    var m := Abs(a) / Abs(b);
    if (a < 0) != (b < 0) then -m else m
  }

  /** Division by a positive divisor is unique: the quotient and remainder are the
      only pair that decomposes `a`. */
  lemma DivModUnique(a: int, n: int, q: int, r: int)
    requires n > 0 && 0 <= r < n && a == q * n + r
    ensures a / n == q && a % n == r
  {
    var q0, r0 := a / n, a % n;
    assert (q - q0) * n == r0 - r;
    if q0 != q {
      var k := q - q0;
      assert k * n == r0 - r;
      if k >= 1 {
        MulMonotone(1, k, n);
      } else {
        MulMonotone(1, -k, n);
      }
    }
  }

  lemma MulMonotone(x: int, y: int, n: int)
    requires x <= y && n >= 0
    ensures x * n <= y * n
  {
    assert y * n - x * n == (y - x) * n;
  }

  /** Adding whole multiples of `n` moves the quotient and keeps the remainder. */
  lemma DivModAddMultiple(a: nat, k: nat, n: int)
    requires n > 0
    ensures (a + k * n) / n == a / n + k
    ensures (a + k * n) % n == a % n
  {
    assert a + k * n == (a / n + k) * n + a % n;
    DivModUnique(a + k * n, n, a / n + k, a % n);
  }

  /** Reducing modulo a multiple of `d` first does not change the remainder modulo `d`. */
  lemma ModOfModMultiple(x: nat, m: int, d: int)
    requires d > 0 && m > 0 && m % d == 0
    ensures (x % m) % d == x % d
  {
    var c := m / d;
    assert m == c * d;
    var y := x % m;
    assert x == (x / m) * m + y;
    assert x == ((x / m) * c) * d + y;
    assert (x / m) * m == ((x / m) * c) * d;
    assert y == (y / d) * d + y % d;
    assert x == ((x / m) * c + y / d) * d + y % d;
    DivModUnique(x, d, (x / m) * c + y / d, y % d);
  }

  /** `q` below the exact quotient bounds it from below. */
  lemma QuotientAtLeast(s: nat, n: int, x: int)
    requires n > 0 && x * n <= s
    ensures x <= s / n
  {
    var q := s / n;
    if q < x {
      MulMonotone(q + 1, x, n);
    }
  }

  lemma QuotientAtMost(s: nat, n: int, x: int)
    requires n > 0 && s <= x * n
    ensures s / n <= x
  {
    var q := s / n;
    if q > x {
      MulMonotone(x + 1, q, n);
    }
  }
}
