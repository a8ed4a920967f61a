/** Facts about Euclidean division that several components need. */
module Arithmetic {

  lemma Scaled(m: int, d: int)
    requires m > 0
    ensures d >= 1 ==> m * d >= m
    ensures d <= -1 ==> m * d <= -m
  {
  }

  lemma Distributes(m: int, x: int, y: int, z: int)
    ensures m * (x + y - z) == m * x + m * y - m * z
  {
  }

  lemma Monotone(a: int, b: int, m: nat)
    requires a <= b
    ensures a * m <= b * m
  {
  }

  lemma Floor(a: nat, m: nat)
    requires m > 0
    ensures a / m >= 0 && m * (a / m) <= a < m * (a / m) + m
  {
    Scaled(m, a / m);
  }

  /** Quotient and remainder are determined by their defining equation. */
  lemma ModUnique(n: int, m: int, q: int, r: int)
    requires m > 0 && 0 <= r < m
    requires n == m * q + r
    ensures n % m == r && n / m == q
  {
    var q', r' := n / m, n % m;
    assert m * (q' - q) == r - r';
    Scaled(m, q' - q);
  }

  lemma ModEqual(a: int, b: int, m: int)
    requires m > 0
    ensures a % m == b % m <==> (a - b) % m == 0
  {
    var qa, ra := a / m, a % m;
    var qb, rb := b / m, b % m;
    assert a - b == m * (qa - qb) + (ra - rb);
    if ra >= rb {
      ModUnique(a - b, m, qa - qb, ra - rb);
    } else {
      assert a - b == m * (qa - qb - 1) + (m + ra - rb);
      ModUnique(a - b, m, qa - qb - 1, m + ra - rb);
    }
  }

  lemma ModOfMod(t: int, p: int, m: int)
    requires p > 0 && m > 0 && m % p == 0
    ensures (t % m) % p == t % p
  {
    var c, q := m / p, t / m;
    assert m == p * c;
    assert t - t % m == p * (c * q) by {
      assert (p * c) * q == p * (c * q);
    }
    ModUnique(t - t % m, p, c * q, 0);
    ModEqual(t, t % m, p);
  }

  lemma MultipleOf(a: int, m: int, k: int)
    requires m > 0 && k > 0 && a % (m * k) == 0
    ensures a % m == 0
  {
    var q := a / (m * k);
    assert a == m * (k * q) by {
      assert (m * k) * q == m * (k * q);
    }
    ModUnique(a, m, k * q, 0);
  }

  lemma ModShift(a: int, m: int, k: int)
    requires m > 0
    ensures (a + m * k) % m == a % m && (a + m * k) / m == a / m + k
  {
    assert m * (a / m + k) == m * (a / m) + m * k;
    ModUnique(a + m * k, m, a / m + k, a % m);
  }

  lemma ModAdd(a: int, b: int, m: int)
    requires m > 0
    ensures (a % m + b) % m == (a + b) % m
  {
    assert a % m + b == (a + b) + m * (-(a / m));
    ModShift(a + b, m, -(a / m));
  }
}
