/** The linear congruential generator of include/math/iplMathRandom.h, and the proof that its
    state has full period: modulo every power of two up to 2^32 the state visits each residue
    exactly once before it repeats. */
module Random {
  import opened Arithmetic

  const TWO_32: int := 0x1_0000_0000
  const MULTIPLIER: int := 1664525
  const INCREMENT: int := 1013904223

  type U32 = x: int | 0 <= x < TWO_32

  /** The NEXT step: 32-bit unsigned arithmetic. */
  function Next(x: U32): U32 {
    (x * MULTIPLIER + INCREMENT) % TWO_32
  }

  /** The state after n draws. */
  function State(seed: U32, n: nat): U32 {
    if n == 0 then seed else Next(State(seed, n - 1))
  }

  /** The first states from 0, which tell this generator from others of full period (section 7.1 of
      Numerical Recipes in C). */
  lemma FirstStates()
    ensures State(0, 1) == 0x3C6E_F35F && State(0, 2) == 0x4750_2932 && State(0, 3) == 0xD1CC_F6E9
    ensures State(0, 4) == 0xAAF9_5334 && State(0, 5) == 0x6252_E503
  {
    assert State(0, 1) == 0x3C6E_F35F;
    assert State(0, 2) == 0x4750_2932;
    assert State(0, 3) == 0xD1CC_F6E9;
    assert State(0, 4) == 0xAAF9_5334;
  }

  class Generator {
    var next: U32

    constructor (myNext: U32)
      ensures next == myNext
    {
      next := myNext;
    }

    method GetU8() returns (r: int)
      modifies this
      ensures next == State(old(next), 1)
      ensures 0 <= r < 256 && r == State(old(next), 1) % 256
    {
      next := Next(next);
      r := next % 256;
      assert State(old(next), 0) == old(next);
    }

    method GetU16() returns (r: int)
      modifies this
      ensures next == State(old(next), 1)
      ensures 0 <= r < 0x1_0000 && r * 0x1_0000 <= next < (r + 1) * 0x1_0000
    {
      next := Next(next);
      r := next / 0x1_0000;
      assert State(old(next), 0) == old(next);
    }

    method GetU32() returns (r: U32)
      modifies this
      ensures next == State(old(next), 1) && r == next
    {
      next := Next(next);
      r := next;
      assert State(old(next), 0) == old(next);
    }

    method GetF01() returns (r: real)
      modifies this
      ensures next == State(old(next), 1)
      ensures 0.0 <= r <= 1.0 && r * 4294967295.0 == next as real
    {
      next := Next(next);
      r := next as real / 4294967295.0;
      assert State(old(next), 0) == old(next);
    }
  }

  // ---------------------------------------------------------------- powers of two

  function Pow2(k: nat): (p: nat)
    ensures p >= 1
  {
    if k == 0 then 1 else 2 * Pow2(k - 1)
  }

  /** 2^k divides n. */
  predicate Divides(k: nat, n: int) {
    k == 0 || (n % 2 == 0 && Divides(k - 1, n / 2))
  }

  lemma {:induction false} DividesIsMod(k: nat, n: int)
    ensures Divides(k, n) <==> n % Pow2(k) == 0
  {
    if k == 0 {
    } else {
      DividesIsMod(k - 1, n / 2);
      if n % 2 == 0 {
        HalfMod(n / 2, Pow2(k - 1));
      } else {
        OddMod(n, Pow2(k - 1));
      }
    }
  }

  lemma HalfMod(m: int, p: int)
    requires p > 0
    ensures (2 * m) % (2 * p) == 2 * (m % p)
  {
    assert (2 * p) * (m / p) == 2 * (p * (m / p));
    ModUnique(2 * m, 2 * p, m / p, 2 * (m % p));
  }

  lemma OddMod(n: int, p: int)
    requires p > 0 && n % 2 == 1
    ensures n % (2 * p) != 0
  {
    if n % (2 * p) == 0 {
      MultipleOf(n, 2, p);
    }
  }

  lemma Distribute(g: int, power: int, h: int, d: int)
    ensures (g + power * h) * d - g * d == (h * power) * d
  {
  }

  lemma {:induction false} DividesSum(k: nat, a: int, b: int)
    requires Divides(k, a)
    ensures Divides(k, b) <==> Divides(k, a + b)
    ensures Divides(k, b) <==> Divides(k, a - b)
  {
    if k > 0 {
      if b % 2 == 0 {
        assert (a + b) / 2 == a / 2 + b / 2;
        assert (a - b) / 2 == a / 2 - b / 2;
        DividesSum(k - 1, a / 2, b / 2);
      }
    }
  }

  /** Two numbers with exactly k factors of two add up to one with at least k+1. */
  lemma {:induction false} DividesCarry(k: nat, a: int, b: int)
    requires Divides(k, a) && !Divides(k + 1, a)
    requires Divides(k, b) && !Divides(k + 1, b)
    ensures Divides(k + 1, a + b)
  {
    if k > 0 {
      assert (a + b) / 2 == a / 2 + b / 2;
      DividesCarry(k - 1, a / 2, b / 2);
    } else {
      assert Divides(0, (a + b) / 2);
    }
  }

  lemma {:induction false} DividesOdd(k: nat, a: int, odd: int)
    requires odd % 2 == 1
    ensures Divides(k, a * odd) <==> Divides(k, a)
  {
    if k > 0 {
      var h := odd / 2;
      assert odd == 2 * h + 1;
      assert a * odd == 2 * (a * h) + a by { assert a * (2 * h + 1) == 2 * (a * h) + a; }
      if a % 2 == 0 {
        var b := a / 2;
        assert a == 2 * b;
        assert a * odd == 2 * (b * odd);
        assert (a * odd) / 2 == b * odd;
        DividesOdd(k - 1, b, odd);
      }
    }
  }

  // ---------------------------------------------------------------- the orbit

  /** 1 + a + ... + a^(n-1) for the multiplier a. */
  function Geometric(n: nat): int {
    if n == 0 then 0 else MULTIPLIER * Geometric(n - 1) + 1
  }

  /** The odd factor by which the state moves from a seed. */
  function Drift(seed: int): int {
    (MULTIPLIER - 1) * seed + INCREMENT
  }

  /** a^n */
  function Power(n: nat): int {
    (MULTIPLIER - 1) * Geometric(n) + 1
  }

  lemma {:induction false} GeometricAdd(m: nat, n: nat)
    ensures Geometric(m + n) == Geometric(n) + Power(n) * Geometric(m)
  {
    if n > 0 {
      GeometricAdd(m, n - 1);
      var g, s := Geometric(n - 1), Geometric(m);
      assert Geometric(m + n) == MULTIPLIER * Geometric(m + n - 1) + 1;
      assert Power(n) == MULTIPLIER * Power(n - 1);
      assert (MULTIPLIER * Power(n - 1)) * s == MULTIPLIER * (Power(n - 1) * s);
    }
  }

  lemma {:induction false} GeometricParity(n: nat)
    ensures Geometric(n) % 2 == n % 2
  {
    if n > 0 {
      GeometricParity(n - 1);
      NextParity(Geometric(n - 1), n - 1);
    }
  }

  lemma NextParity(g: int, n: int)
    requires g % 2 == n % 2
    ensures (MULTIPLIER * g + 1) % 2 == (n + 1) % 2
  {
    ModShift(g + 1, 2, 832262 * g);
    assert MULTIPLIER * g + 1 == g + 1 + 2 * (832262 * g);
  }

  /** The geometric sum has exactly as many factors of two as its length: this is where the
      multiplier being 1 modulo 4 is used. */
  lemma {:induction false} GeometricValuation(k: nat, n: nat)
    ensures Divides(k, Geometric(n)) <==> Divides(k, n)
  {
    GeometricParity(n);
    if k > 0 && n % 2 == 0 {
      var m := n / 2;
      GeometricAdd(m, m);
      var g := Geometric(m);
      Doubled(g, 416131 * g);
      HalfOfDouble(g * (1 + 2 * (416131 * g)), 416131 * g);
      DividesOdd(k - 1, g, 1 + 2 * (416131 * g));
      GeometricValuation(k - 1, m);
    }
  }

  lemma Doubled(g: int, x: int)
    ensures g + (4 * x + 1) * g == 2 * (g * (1 + 2 * x))
  {
    assert (4 * x + 1) * g == 4 * (x * g) + g && g * (1 + 2 * x) == g + 2 * (x * g);
  }

  lemma HalfOfDouble(y: int, x: int)
    ensures (2 * y) % 2 == 0 && (2 * y) / 2 == y && (1 + 2 * x) % 2 == 1
  {
  }

  /** Closed form of the orbit. */
  lemma {:induction false} StateClosedForm(seed: U32, n: nat)
    ensures State(seed, n) == (seed + Geometric(n) * Drift(seed)) % TWO_32
  {
    if n > 0 {
      StateClosedForm(seed, n - 1);
      NextClosedForm(seed, Geometric(n - 1), Drift(seed));
      NextOfMod(seed + Geometric(n - 1) * Drift(seed));
    }
  }

  lemma NextOfMod(t: int)
    ensures Next(t % TWO_32) == (t * MULTIPLIER + INCREMENT) % TWO_32
  {
    ModShift(t % TWO_32 * MULTIPLIER + INCREMENT, TWO_32, t / TWO_32 * MULTIPLIER);
  }

  lemma NextClosedForm(seed: int, g: int, d: int)
    requires d == (MULTIPLIER - 1) * seed + INCREMENT
    ensures (seed + g * d) * MULTIPLIER + INCREMENT == seed + (MULTIPLIER * g + 1) * d
  {
    assert (MULTIPLIER * g + 1) * d == MULTIPLIER * (g * d) + d;
  }

  lemma Pow2Values()
    ensures Pow2(8) == 256 && Pow2(32) == TWO_32
  {
    assert Pow2(4) == 16;
    Pow2Product(4, 4);
    Pow2Product(8, 8);
    Pow2Product(16, 16);
  }

  lemma Pow2Splits(k: nat)
    requires k <= 32
    ensures TWO_32 % Pow2(k) == 0
  {
    Pow2Values();
    Pow2Product(k, 32 - k);
    ModUnique(TWO_32, Pow2(k), Pow2(32 - k), 0);
  }

  lemma {:induction false} Pow2Product(j: nat, k: nat)
    ensures Pow2(j) * Pow2(k) == Pow2(j + k)
  {
    if j > 0 {
      Pow2Product(j - 1, k);
      assert 2 * Pow2(j - 1) * Pow2(k) == 2 * (Pow2(j - 1) * Pow2(k));
    }
  }

  lemma DriftOdd(seed: int)
    ensures Drift(seed) % 2 == 1
  {
    ModUnique(Drift(seed), 2, 832262 * seed + 506952111, 1);
  }

  lemma PowerOdd(n: nat)
    ensures Power(n) % 2 == 1
  {
    ModUnique(Power(n), 2, 832262 * Geometric(n), 1);
  }

  /** How far the unreduced n-th state is from y. */
  function Offset(seed: int, n: nat, y: int): int {
    seed + Geometric(n) * Drift(seed) - y
  }

  /** Whether the n-th state is y modulo 2^k, in terms of the closed form. */
  lemma StateResidue(seed: U32, n: nat, k: nat, y: int)
    requires k <= 32
    ensures State(seed, n) % Pow2(k) == y % Pow2(k) <==> Divides(k, Offset(seed, n, y))
  {
    StateClosedForm(seed, n);
    Pow2Splits(k);
    var t := seed + Geometric(n) * Drift(seed);
    ModOfMod(t, Pow2(k), TWO_32);
    ModEqual(t, y, Pow2(k));
    DividesIsMod(k, t - y);
  }

  /** The distance between draw n and draw n + m has the factors of two of m. */
  lemma Displacement(seed: int, n: nat, m: nat, k: nat, y: int)
    ensures Divides(k, Offset(seed, n + m, y) - Offset(seed, n, y)) <==> Divides(k, m)
  {
    GeometricAdd(m, n);
    DriftOdd(seed);
    PowerOdd(n);
    GeometricValuation(k, m);
    var g, d := Geometric(m) * Power(n), Drift(seed);
    DividesOdd(k, Geometric(m), Power(n));
    DividesOdd(k, g, d);
    Distribute(Geometric(n), Power(n), Geometric(m), d);
  }

  /** Two draws agree modulo 2^k exactly when their distance is a multiple of 2^k. */
  lemma PeriodModulo(seed: U32, k: nat, n: nat, m: nat)
    requires k <= 32
    ensures State(seed, n + m) % Pow2(k) == State(seed, n) % Pow2(k) <==> m % Pow2(k) == 0
  {
    var y := State(seed, n);
    StateResidue(seed, n, k, y);
    StateResidue(seed, n + m, k, y);
    DividesSum(k, Offset(seed, n, y), Offset(seed, n + m, y) - Offset(seed, n, y));
    Displacement(seed, n, m, k, y);
    DividesIsMod(k, m);
  }

  lemma {:induction false} Pow2Valuation(k: nat)
    ensures Divides(k, Pow2(k)) && !Divides(k + 1, Pow2(k))
  {
    if k > 0 {
      Pow2Valuation(k - 1);
    }
  }

  /** If draw n is right modulo 2^k but wrong modulo 2^(k+1), then draw n + 2^k is right. */
  lemma ReachesStep(seed: U32, k: nat, n: nat, y: int)
    requires Divides(k, Offset(seed, n, y)) && !Divides(k + 1, Offset(seed, n, y))
    ensures Divides(k + 1, Offset(seed, n + Pow2(k), y))
  {
    var move := Offset(seed, n + Pow2(k), y) - Offset(seed, n, y);
    Displacement(seed, n, Pow2(k), k, y);
    Displacement(seed, n, Pow2(k), k + 1, y);
    Pow2Valuation(k);
    DividesCarry(k, Offset(seed, n, y), move);
  }

  /** Every residue modulo 2^k is reached within 2^k draws. */
  lemma {:induction false} Reaches(seed: U32, k: nat, y: int) returns (n: nat)
    requires k <= 32
    ensures n < Pow2(k) && State(seed, n) % Pow2(k) == y % Pow2(k)
  {
    if k == 0 {
      n := 0;
    } else {
      n := Reaches(seed, k - 1, y);
      StateResidue(seed, n, k - 1, y);
      if !Divides(k, Offset(seed, n, y)) {
        ReachesStep(seed, k - 1, n, y);
        n := n + Pow2(k - 1);
      }
      StateResidue(seed, n, k, y);
    }
  }

  /** The state itself, modulo 2^32. */
  lemma PeriodExact(seed: U32, n: nat, m: nat)
    ensures State(seed, n + m) == State(seed, n) <==> m % TWO_32 == 0
  {
    Pow2Values();
    PeriodOf(seed, 32, n, m);
  }

  lemma PeriodOf(seed: U32, k: nat, n: nat, m: nat)
    requires k <= 32 && Pow2(k) == TWO_32
    ensures State(seed, n + m) == State(seed, n) <==> m % TWO_32 == 0
  {
    PeriodModulo(seed, k, n, m);
  }

  /** Full period of the state: from every seed each 32-bit value occurs at exactly one of the
      first 2^32 draws, and the seed itself recurs exactly at the multiples of 2^32. */
  lemma FullPeriod(seed: U32, value: U32)
    ensures exists n: nat :: n < TWO_32 && State(seed, n) == value
    ensures forall m: nat, n: nat :: m < n < TWO_32 ==> State(seed, m) != State(seed, n)
    ensures forall n: nat :: State(seed, n) == seed <==> n % TWO_32 == 0
  {
    Pow2Values();
    var w := Reaches(seed, 32, value);
    assert State(seed, w) == value;
    forall m: nat, n: nat | m < n < TWO_32
      ensures State(seed, m) != State(seed, n)
    {
      PeriodExact(seed, m, n - m);
    }
    forall n: nat
      ensures State(seed, n) == seed <==> n % TWO_32 == 0
    {
      PeriodExact(seed, 0, n);
      assert State(seed, 0) == seed;
    }
  }

  lemma {:induction false} StateAdd(seed: U32, m: nat, n: nat)
    ensures State(State(seed, m), n) == State(seed, m + n)
  {
    if n > 0 {
      StateAdd(seed, m, n - 1);
    }
  }

  /** The i-th byte drawn by GetU8 after `first` draws. */
  function ByteDrawn(seed: U32, first: nat, i: nat): int {
    State(seed, first + i + 1) % 256
  }

  lemma ByteReached(seed: U32, first: nat, byte: int) returns (i: nat)
    requires 0 <= byte < 256
    ensures i < 256 && ByteDrawn(seed, first, i) == byte
  {
    Pow2Values();
    i := Reaches(State(seed, first + 1), 8, byte);
    StateAdd(seed, first + 1, i);
    assert first + 1 + i == first + i + 1;
  }

  lemma BytesDiffer(seed: U32, first: nat, i: nat, j: nat)
    requires i < j < i + 256
    ensures ByteDrawn(seed, first, i) != ByteDrawn(seed, first, j)
  {
    Pow2Values();
    PeriodModulo(seed, 8, first + i + 1, j - i);
    assert first + i + 1 + (j - i) == first + j + 1;
  }

  /** Any 256 consecutive byte draws are a permutation of 0..255: every byte occurs at one
      index and at no other. `first` is the number of draws made before the window. */
  lemma ByteWindowIsPermutation(seed: U32, first: nat, byte: int)
    requires 0 <= byte < 256
    ensures exists i: nat :: i < 256 && ByteDrawn(seed, first, i) == byte
    ensures forall i: nat, j: nat :: i < j < 256 ==> ByteDrawn(seed, first, i) != ByteDrawn(seed, first, j)
  {
    var w := ByteReached(seed, first, byte);
    forall i: nat, j: nat | i < j < 256
      ensures ByteDrawn(seed, first, i) != ByteDrawn(seed, first, j)
    {
      BytesDiffer(seed, first, i, j);
    }
  }
}
