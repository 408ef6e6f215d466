/**
 The Lucas criterion used by verifyPrattProof, in both directions: a witness exists
 exactly for the primes.
 */
module Lucas {
  import opened Divisibility
  import opened ModularPower
  import opened Fermat
  import opened PrimitiveRoot
  import opened Factorization

  /** The difference whose gcd with p the verifier checks: residue - 1, wrapped at 0. */
  ghost function Difference(residue: int, p: int): int {
    if residue == 0 then p - 1 else residue - 1
  }

  /** The exponent of the check for the prime q. */
  ghost function Reduced(p: int, q: int): nat
    requires p >= 1 && q >= 1
    ensures Reduced(p, q) <= p - 1
  {
    assert (p - 1) / q <= p - 1 by { MulLe(1, q, (p - 1) / q); }
    (p - 1) / q
  }

  ghost predicate FactorCheck(a: int, p: int, q: int)
    requires p >= 3 && q >= 2
  {
    Gcd(Difference(Pow(a, Reduced(p, q)) % p, p), p) == 1
  }

  ghost predicate LucasWitness(p: int, a: int, fs: seq<PrimePower>)
    requires p >= 3 && Canonical(fs)
  {
    && Pow(a, p - 1) % p == 1
    && forall i :: 0 <= i < |fs| ==> FactorCheck(a, p, fs[i].prime)
  }

  lemma ResidueModDivisor(x: int, n: int, r: int)
    requires n > 0 && r > 0 && n % r == 0
    ensures (x % n) % r == x % r
  {
    assert x == x % n + n * (x / n);
    assert n * (x / n) == r * ((n / r) * (x / n)) by { DivisorBounds(r, n); }
    ModShift(x % n, (n / r) * (x / n), r);
  }

  /** A factor check fails when the power is 1 modulo a prime divisor r of n. */
  lemma FactorCheckExcludes(a: int, n: int, q: int, r: int)
    requires n >= 3 && q >= 2 && Prime(r) && n % r == 0
    requires PowIsOne(a, Reduced(n, q), r)
    ensures !FactorCheck(a, n, q)
  {
    var residue := Pow(a, Reduced(n, q)) % n;
    ResidueModDivisor(Pow(a, Reduced(n, q)), n, r);
    MultipleModSelf(1, r);
    MultipleModSelf(0, r);
    var diff := Difference(residue, n);
    CongruenceIsDivisibility(residue, 1, r);
    GcdGreatest(diff, n, r);
    MultipleModSelf(1, r);
  }

  lemma CoprimeBase(a: int, n: nat, r: int)
    requires Prime(r) && n >= 1 && PowIsOne(a, n, r)
    ensures a % r != 0
  {
    MultipleModSelf(1, r);
    if a % r == 0 {
      DividesMultiple(r, a, Pow(a, n - 1));
      assert false;
    }
  }

  /** N = e * (q * k), so that e divides N / q. */
  lemma QuotientDivides(N: int, e: int) returns (q: int)
    requires N >= 1 && 1 <= e < N && N % e == 0
    ensures Prime(q) && N % q == 0 && N / q >= 1 && (N / q) % e == 0
  {
    DivisorBounds(e, N);
    var m := N / e;
    if m <= 1 { MulLe(m, 1, e); assert false; }
    q := LeastDivisor(m);
    DivisorBounds(q, m);
    var k := m / q;
    CrossMultiply(e, q, k);
    assert N == q * (e * k);
    MultipleMod(q, e * k);
    MultipleMod(e, k);
    DivisorBounds(q, N);
  }

  /** Soundness: a witness proves primality. */
  lemma WitnessImpliesPrime(n: int, a: int, fs: seq<PrimePower>)
    requires n >= 3 && Canonical(fs) && Value(fs) == n - 1 && LucasWitness(n, a, fs)
    ensures Prime(n)
  {
    var r := LeastDivisor(n);
    var power := Pow(a, n - 1);
    assert PowIsOne(a, n - 1, r) by { ResidueModDivisor(power, n, r); }
    CoprimeBase(a, n - 1, r);
    LittleTheorem(a, r);
    var e := Gcd(n - 1, r - 1);
    PowIsOneGcd(a, n - 1, r - 1, r);
    GcdDivides(n - 1, r - 1);
    DivisorBounds(e, n - 1);
    DivisorBounds(e, r - 1);
    if e < n - 1 {
      var q := QuotientDivides(n - 1, e);
      PrimeDivisorListed(fs, q);
      var i :| 0 <= i < |fs| && fs[i].prime == q;
      PowIsOneDivides(a, e, Reduced(n, q), r);
      FactorCheckExcludes(a, n, q, r);
      assert false;
    }
  }

  /** Powers of a product, one factor of which is already 1. */
  lemma PowIsOneOfProduct(x: int, y: int, n: nat, p: int)
    requires p > 0 && PowIsOne(y, n, p)
    ensures PowIsOne(x * y, n, p) <==> PowIsOne(x, n, p)
    ensures PowIsOne(y * x, n, p) <==> PowIsOne(x, n, p)
  {
    PowOfProduct(x, y, n);
    PowOfProduct(y, x, n);
    ModProduct(Pow(y, n), Pow(x, n), p);
    ModProduct(1, Pow(x, n), p);
    assert Pow(x, n) * Pow(y, n) == Pow(y, n) * Pow(x, n);
  }

  /** For the prime power q^e of N = p - 1: a residue whose N/q-th power is not 1,
      while its N/s-th power is 1 for every other prime s dividing N. */
  lemma ComponentWitness(p: int, fs: seq<PrimePower>, i: nat) returns (y: int)
    requires Prime(p) && p >= 3 && Canonical(fs) && Value(fs) == p - 1 && i < |fs|
    ensures y % p != 0 && !PowIsOne(y, Reduced(p, fs[i].prime), p)
    ensures forall j :: 0 <= j < |fs| && j != i ==> PowIsOne(y, Reduced(p, fs[j].prime), p)
  {
    var N, q := p - 1, fs[i].prime;
    ListedPrimeDivides(fs, i);
    DivisorBounds(q, N);
    ProperQuotient(N, q);
    var x := NonTrivialPower(Reduced(p, q), p);
    var M := SplitFactor(fs, i);
    y := Pow(x, M);
    MultipleModSelf(x, p);
    PowerNonzero(x, M, p);
    OwnComponent(x, M, q, p);
    forall j | 0 <= j < |fs| && j != i
      ensures PowIsOne(y, Reduced(p, fs[j].prime), p)
    {
      ListedPrimeDivides(fs, j);
      OtherPrimeDividesCofactor(M, q, fs[i].exponent, fs[j].prime);
      OtherComponent(x, M, fs[j].prime, p);
    }
  }

  lemma ProperQuotient(N: int, q: int)
    requires N >= 1 && q >= 2 && N % q == 0
    ensures 1 <= N / q < N
  {
    DivisorBounds(q, N);
    if N / q == N {
      MulLe(2, q, N);
      assert false;
    }
  }

  lemma {:induction false} PowerNonzero(x: int, n: nat, p: int)
    requires Prime(p) && x % p != 0
    ensures Pow(x, n) % p != 0
  {
    if n == 0 {
      MultipleModSelf(1, p);
    } else {
      PowerNonzero(x, n - 1, p);
      if Pow(x, n) % p == 0 { EuclidLemma(x, Pow(x, n - 1), p); assert false; }
    }
  }

  lemma ReducedPowerCycles(x: int, q: int, p: int)
    requires Prime(p) && Prime(q) && (p - 1) % q == 0 && x % p != 0
    ensures PowIsOne(Pow(x, Reduced(p, q)), q, p)
  {
    LittleTheorem(x, p);
    PowOfPow(x, Reduced(p, q), q);
    assert Reduced(p, q) * q == p - 1;
  }

  lemma CoprimeExponents(z: int, M: nat, q: int, p: int)
    requires Prime(p) && Prime(q) && M % q != 0 && PowIsOne(z, M, p) && PowIsOne(z, q, p)
    ensures z % p == 1 % p
  {
    GcdWithPrime(M, q);
    PowIsOneGcd(z, M, q, p);
    assert Pow(z, 1) == z * Pow(z, 0);
  }

  lemma OwnComponent(x: int, M: nat, q: int, p: int)
    requires Prime(p) && Prime(q) && (p - 1) % q == 0 && M % q != 0
    requires x % p != 0 && !PowIsOne(x, Reduced(p, q), p)
    ensures !PowIsOne(Pow(x, M), Reduced(p, q), p)
  {
    if PowIsOne(Pow(x, M), Reduced(p, q), p) {
      PowSwap(x, M, Reduced(p, q));
      ReducedPowerCycles(x, q, p);
      CoprimeExponents(Pow(x, Reduced(p, q)), M, q, p);
      assert false;
    }
  }

  lemma OtherPrimeDividesCofactor(M: nat, q: int, e: nat, s: int)
    requires Prime(q) && Prime(s) && s != q && (Pow(q, e) * M) % s == 0
    ensures M % s == 0
  {
    EuclidLemma(Pow(q, e), M, s);
    if M % s != 0 { PrimeDividesPower(s, q, e); assert false; }
  }

  lemma OtherExponent(M: nat, s: int, p: int)
    requires p >= 2 && s >= 2 && (p - 1) % s == 0 && M % s == 0
    ensures M * Reduced(p, s) == (p - 1) * (M / s)
  {
    CrossMultiply(s, M / s, Reduced(p, s));
    assert M == s * (M / s) && p - 1 == s * Reduced(p, s);
  }

  lemma OtherComponent(x: int, M: nat, s: int, p: int)
    requires Prime(p) && Prime(s) && (p - 1) % s == 0 && M % s == 0 && x % p != 0
    ensures PowIsOne(Pow(x, M), Reduced(p, s), p)
  {
    OtherExponent(M, s, p);
    LittleTheorem(x, p);
    PowIsOneOfPower(x, M, Reduced(p, s), p - 1, M / s, p);
  }

  /** Accumulated witness for the first k primes of the factorization. */
  lemma {:induction false} PartialWitness(p: int, fs: seq<PrimePower>, k: nat) returns (w: int)
    requires Prime(p) && p >= 3 && Canonical(fs) && Value(fs) == p - 1 && k <= |fs|
    ensures w % p != 0
    ensures forall j :: 0 <= j < k ==> !PowIsOne(w, Reduced(p, fs[j].prime), p)
    ensures forall j :: k <= j < |fs| ==> PowIsOne(w, Reduced(p, fs[j].prime), p)
  {
    if k == 0 {
      w := 1;
      MultipleModSelf(1, p);
      forall j | 0 <= j < |fs|
        ensures PowIsOne(1, Reduced(p, fs[j].prime), p)
      {
        PowOfOne(Reduced(p, fs[j].prime));
      }
    } else {
      var v := PartialWitness(p, fs, k - 1);
      var y := ComponentWitness(p, fs, k - 1);
      w := v * y;
      if w % p == 0 { EuclidLemma(v, y, p); assert false; }
      forall j | 0 <= j < |fs|
        ensures PowIsOne(w, Reduced(p, fs[j].prime), p) <==> j >= k
      {
        if j == k - 1 {
          PowIsOneOfProduct(y, v, Reduced(p, fs[j].prime), p);
        } else {
          PowIsOneOfProduct(v, y, Reduced(p, fs[j].prime), p);
        }
      }
    }
  }

  lemma FactorCheckHolds(w: int, p: int, q: int)
    requires Prime(p) && p >= 3 && q >= 2 && w % p != 0
    requires !PowIsOne(w, Reduced(p, q), p)
    ensures FactorCheck(w, p, q)
  {
    var residue := Pow(w, Reduced(p, q)) % p;
    PowerNonzero(w, Reduced(p, q), p);
    MultipleModSelf(1, p);
    MultipleModSelf(residue - 1, p);
    GcdWithPrime(residue - 1, p);
  }

  /** Completeness: every odd prime has a witness between 2 and p - 1. */
  lemma PrimeHasWitness(p: int, fs: seq<PrimePower>) returns (w: int)
    requires Prime(p) && p >= 3 && Canonical(fs) && Value(fs) == p - 1
    ensures 2 <= w < p && LucasWitness(p, w, fs)
  {
    var v := PartialWitness(p, fs, |fs|);
    w := v % p;
    assert w % p == w by { MultipleModSelf(w, p); }
    LittleTheorem(w, p);
    MultipleModSelf(1, p);
    forall j | 0 <= j < |fs|
      ensures !PowIsOne(w, Reduced(p, fs[j].prime), p) && FactorCheck(w, p, fs[j].prime)
    {
      PowOfResidue(v, Reduced(p, fs[j].prime), p);
      FactorCheckHolds(w, p, fs[j].prime);
    }
    assert |fs| > 0;
    if w == 1 {
      PowOfOne(Reduced(p, fs[0].prime));
      assert false;
    }
  }
}
