/*
 * Facts about Euclidean remainder shared by the sample ring (slot
 * arithmetic modulo the capacity) and the frame numbers of the transceiver
 * session (modulo 2^32 and the hyperframe).
 */
module Modular {

  /** The remainder is the unique r in [0, m) with x == q * m + r. */
  lemma ModUnique(x: int, m: int, q: int, r: int)
    requires 0 < m && 0 <= r < m && x == q * m + r
    ensures x % m == r
  {
    var q', r' := x / m, x % m;
    assert (q - q') * m == r' - r;
    if q > q' {
      MulAtLeast(q - q', m);
    } else if q < q' {
      MulAtLeast(q' - q, m);
    }
  }

  lemma {:induction false} MulAtLeast(d: int, m: int)
    requires 1 <= d && 0 < m
    ensures d * m >= m
    decreases d
  {
    if d > 1 {
      MulAtLeast(d - 1, m);
      assert d * m == (d - 1) * m + m;
    }
  }

  /** x % n for 0 <= x < 4n, as a subtraction. */
  lemma ModSmall(x: int, n: int)
    requires 0 < n && 0 <= x < 4 * n
    ensures x % n == if x < n then x else if x < 2 * n then x - n
                     else if x < 3 * n then x - 2 * n else x - 3 * n
  {
  }

  /** Adding k <= n after a remainder is adding it before. */
  lemma {:induction false} ModShift(a: int, k: int, n: int)
    requires 0 < n && 0 <= a && 0 <= k <= n
    ensures ((a % n) + k) % n == (a + k) % n
    decreases a
  {
    if a < 3 * n {
      ModSmall(a, n);
      ModSmall(a % n + k, n);
      ModSmall(a + k, n);
    } else {
      ModShift(a - n, k, n);
      ModLessOne(a, n);
      ModLessOne(a + k, n);
    }
  }

  /** Taking one n off x >= n leaves x % n alone. */
  lemma ModLessOne(x: int, n: int)
    requires 0 < n <= x
    ensures (x - n) % n == x % n
  {
    ModUnique(x - n, n, x / n - 1, x % n);
  }
}
