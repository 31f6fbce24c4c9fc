/**
 * Integer facts shared by the ring buffer, the flat-index decoding of the
 * similarity matrix and the early-stopping counters.
 */
module Arith {

  function Min(a: int, b: int): int { if a <= b then a else b }

  function Max(a: int, b: int): int { if a >= b then a else b }

  /** Euclidean division is unique: a quotient and remainder in range are THE quotient and remainder. */
  lemma DivModUnique(a: int, n: int, q: int, r: int)
    requires n > 0 && 0 <= r < n && a == q * n + r
    ensures a / n == q && a % n == r
  {
    var d := q - a / n;
    assert d * n == a % n - r;
    if d > 0 {
      assert false;
    } else if d < 0 {
      assert false;
    }
  }

  /** Decoding a row-major flat index r*n+c of an n-column matrix gives back (r, c). */
  lemma FlatDecode(r: int, c: int, n: int)
    requires n > 0 && 0 <= c < n
    ensures (r * n + c) / n == r && (r * n + c) % n == c
  {
    DivModUnique(r * n + c, n, r, c);
  }

  /**
   * a brought into [0, n) when it lies less than one lap outside it: a lap
   * is added or taken away at most once.
   */
  function Wrap(a: int, n: int): (r: int)
    requires n > 0 && -n <= a < 2 * n
    ensures 0 <= r < n && (r == a || r == a + n || r == a - n)
  {
    if a < 0 then a + n else if a >= n then a - n else a
  }

  /** Within one lap, Wrap is the remainder. */
  lemma WrapIsMod(a: int, n: int)
    requires n > 0 && -n <= a < 2 * n
    ensures Wrap(a, n) == a % n
  {
    if a < 0 {
      DivModUnique(a, n, -1, a + n);
    } else if a >= n {
      DivModUnique(a, n, 1, a - n);
    } else {
      DivModUnique(a, n, 0, a);
    }
  }

  /** Adding a multiple of n does not change a remainder. */
  lemma ModShift(a: int, k: int, n: int)
    requires n > 0
    ensures (a + k * n) % n == a % n
  {
    DivModUnique(a + k * n, n, a / n + k, a % n);
  }

  /** n is a multiple of itself. */
  lemma ModSelf(n: int)
    requires n > 0
    ensures n % n == 0
  {
    DivModUnique(n, n, 1, 0);
  }

  /** A number already in [0, n) is its own remainder. */
  lemma ModOfSmall(a: int, n: int)
    requires n > 0 && 0 <= a < n
    ensures a % n == a
  {
    DivModUnique(a, n, 0, a);
  }

  /** (a % n + b) % n == (a + b) % n */
  lemma ModAdd(a: int, b: int, n: int)
    requires n > 0
    ensures (a % n + b) % n == (a + b) % n
  {
    ModShift(a % n + b, a / n, n);
    assert a % n + b + (a / n) * n == a + b;
  }

  /** Multiplication by a natural number is monotone. */
  lemma MulMonotone(a: int, b: int, c: nat)
    requires a <= b
    ensures a * c <= b * c
  {
    assert b * c == a * c + (b - a) * c;
  }

  /** A flat index r*n+c with r, c < n lies inside the n x n matrix. */
  lemma FlatInside(r: nat, c: nat, n: nat)
    requires r < n && c < n
    ensures r * n + c < n * n
  {
    MulMonotone(r + 1, n, n);
    assert (r + 1) * n == r * n + n;
  }
}
