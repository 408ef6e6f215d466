/** Integer powers and their residues. */
module ModularPower {
  import opened Divisibility

  ghost function Pow(b: int, e: nat): (r: int)
    ensures b >= 1 ==> r >= 1
  {
    if e == 0 then 1 else b * Pow(b, e - 1)
  }

  lemma {:induction false} PowAdd(b: int, m: nat, n: nat)
    ensures Pow(b, m + n) == Pow(b, m) * Pow(b, n)
  {
    if m > 0 {
      PowAdd(b, m - 1, n);
      CrossMultiply(b, Pow(b, m - 1), Pow(b, n));
    }
  }

  lemma {:induction false} PowOfPow(b: int, m: nat, n: nat)
    ensures m * n >= 0 && Pow(b, m * n) == Pow(Pow(b, m), n)
  {
    if n > 0 {
      PowOfPow(b, m, n - 1);
      assert m * n == m + m * (n - 1);
      PowAdd(b, m, m * (n - 1));
    }
  }

  lemma PowSwap(b: int, m: nat, n: nat)
    ensures Pow(Pow(b, m), n) == Pow(Pow(b, n), m)
  {
    PowOfPow(b, m, n);
    PowOfPow(b, n, m);
    assert m * n == n * m;
  }

  lemma {:induction false} PowOfProduct(a: int, b: int, n: nat)
    ensures Pow(a * b, n) == Pow(a, n) * Pow(b, n)
  {
    if n > 0 {
      PowOfProduct(a, b, n - 1);
      MulExchange(a, b, Pow(a, n - 1), Pow(b, n - 1));
    }
  }

  lemma MulExchange(a: int, b: int, x: int, y: int)
    ensures (a * b) * (x * y) == (a * x) * (b * y)
  {
    calc {
      (a * b) * (x * y);
      a * (b * (x * y));
      { assert b * (x * y) == x * (b * y); }
      a * (x * (b * y));
      (a * x) * (b * y);
    }
  }

  lemma {:induction false} PowOfOne(n: nat)
    ensures Pow(1, n) == 1
  {
    if n > 0 { PowOfOne(n - 1); }
  }

  /** Only the residue of the base matters. */
  lemma {:induction false} PowOfResidue(a: int, n: nat, d: int)
    requires d > 0
    ensures Pow(a % d, n) % d == Pow(a, n) % d
  {
    if n > 0 {
      PowOfResidue(a, n - 1, d);
      var x, y := Pow(a % d, n - 1), Pow(a, n - 1);
      ModProduct(a, y, d);
      ModProduct(a % d, x, d);
      assert (a % d) % d == a % d by { MultipleModSelf(a % d, d); }
    }
  }

  lemma {:induction false} PowGrows(b: int, m: nat, n: nat)
    requires b >= 1 && m <= n
    ensures 1 <= Pow(b, m) <= Pow(b, n)
    decreases n - m
  {
    if m < n {
      PowGrows(b, m + 1, n);
      MulLe(1, b, Pow(b, m));
    }
  }

  /** a^n is congruent to 1 modulo d. */
  ghost predicate PowIsOne(a: int, n: nat, d: int)
    requires d > 0
  {
    Pow(a, n) % d == 1 % d
  }

  lemma PowIsOneSubtract(a: int, m: nat, n: nat, d: int)
    requires d > 0 && m <= n && PowIsOne(a, m, d)
    ensures PowIsOne(a, n, d) <==> PowIsOne(a, n - m, d)
  {
    PowAdd(a, m, n - m);
    var x, y := Pow(a, m), Pow(a, n - m);
    ModProduct(x, y, d);
    ModProduct(1, y, d);
  }

  lemma {:induction false} PowIsOneMultiple(a: int, m: nat, k: nat, d: int)
    requires d > 0 && PowIsOne(a, m, d)
    ensures m * k >= 0 && PowIsOne(a, m * k, d)
  {
    if k > 0 {
      PowIsOneMultiple(a, m, k - 1, d);
      assert m * k == m + m * (k - 1);
      PowIsOneSubtract(a, m, m * k, d);
    }
  }

  lemma PowIsOneOfPower(x: int, m: nat, k: nat, n: nat, j: nat, d: int)
    requires d > 0 && PowIsOne(x, n, d) && m * k == n * j
    ensures PowIsOne(Pow(x, m), k, d)
  {
    PowIsOneMultiple(x, n, j, d);
    PowOfPow(x, m, k);
  }

  lemma PowIsOneDivides(a: int, m: nat, n: nat, d: int)
    requires d > 0 && m > 0 && n % m == 0 && PowIsOne(a, m, d)
    ensures PowIsOne(a, n, d)
  {
    if n == 0 { return; }
    DivisorBounds(m, n);
    PowIsOneMultiple(a, m, n / m, d);
  }

  /** Exponents that send a to 1 are closed under greatest common divisors. */
  lemma {:induction false} PowIsOneGcd(a: int, m: nat, n: nat, d: int)
    requires d > 0 && m + n > 0 && PowIsOne(a, m, d) && PowIsOne(a, n, d)
    ensures PowIsOne(a, Gcd(m, n), d)
    decreases n
  {
    if n > 0 {
      assert m == n * (m / n) + m % n && m / n >= 0;
      PowIsOneMultiple(a, n, m / n, d);
      PowIsOneSubtract(a, n * (m / n), m, d);
      PowIsOneGcd(a, n, m % n, d);
    }
  }
}
