/**
 The 64-bit arithmetic of src/math/number_theory.cpp. Every loop is proved against the
 unbounded mathematics; additions wrap at 2^64 as in the source, and the theorems say for
 which moduli that never shows.
 */
module NumberTheory {
  import opened Machine
  import opened Divisibility
  import opened ModularPower
  import opened Factorization
  import opened Lucas

  // ---------------------------------------------------------------- gcd

  method GcdLoop(x: u64, y: u64) returns (g: u64)
    ensures g == Gcd(x, y)
  {
    var a, b := x, y;
    while b != 0
      invariant Gcd(a, b) == Gcd(x, y)
      decreases b
    {
      a, b := b, a % b;
    }
    g := a;
  }

  // ---------------------------------------------------------------- mulMod

  /** The value left in `result` by the loop of mulMod, started at (a, b, result). */
  function MulLoop(a: u64, b: u64, result: u64, mod: u64): (r: u64)
    requires mod != 0
    decreases b
  {
    if b == 0 then result
    else
      var result' := if b % 2 == 1 then AddWrap(result, a) % mod else result;
      var a' := if b / 2 > 0 then AddWrap(a, a) % mod else a;
      MulLoop(a', b / 2, result', mod)
  }

  function MulModValue(a: u64, b: u64, mod: u64): (r: u64)
    requires mod != 0
  {
    MulLoop(a % mod, b, 0, mod)
  }

  method MulMod(x: u64, y: u64, mod: u64) returns (result: u64)
    requires mod != 0
    ensures result == MulModValue(x, y, mod)
    ensures mod <= TWO_63 ==> result == (x * y) % mod
  {
    result := 0;
    var a: u64, b: u64 := x % mod, y;
    while b > 0
      invariant MulLoop(a, b, result, mod) == MulModValue(x, y, mod)
      decreases b
    {
      if b % 2 == 1 {
        result := AddWrap(result, a) % mod;
      }
      b := b / 2;
      if b > 0 {
        a := AddWrap(a, a) % mod;
      }
    }
    if mod <= TWO_63 { MulModExact(x, y, mod); }
  }

  lemma HalveStep(a: int, b: int, result: int, a': int, result': int, mod: int)
    requires mod > 0 && b > 0
    requires result' % mod == (if b % 2 == 1 then result + a else result) % mod
    requires b / 2 > 0 ==> a' % mod == (a + a) % mod
    ensures (result' + a' * (b / 2)) % mod == (result + a * b) % mod
  {
    var h, low := b / 2, b % 2;
    assert b == 2 * h + low;
    assert a * b == (a + a) * h + a * low;
    var r := if low == 1 then result + a else result;
    assert result + a * b == r + (a + a) * h;
    ModSum(result', a' * h, mod);
    ModSum(r, (a + a) * h, mod);
    ModProduct(a', h, mod);
    ModProduct(a + a, h, mod);
  }

  lemma {:induction false} MulLoopExact(a: u64, b: u64, result: u64, mod: u64)
    requires 0 < mod <= TWO_63 && a < mod && result < mod
    ensures MulLoop(a, b, result, mod) == (result + a * b) % mod
    decreases b
  {
    if b == 0 {
      MultipleModSelf(result, mod);
    } else {
      var result' := if b % 2 == 1 then AddWrap(result, a) % mod else result;
      var a' := if b / 2 > 0 then AddWrap(a, a) % mod else a;
      MulLoopExact(a', b / 2, result', mod);
      MultipleModSelf(result', mod);
      MultipleModSelf(a', mod);
      HalveStep(a, b, result, a', result', mod);
    }
  }

  lemma MulModExact(a: u64, b: u64, mod: u64)
    requires 0 < mod <= TWO_63
    ensures MulModValue(a, b, mod) == (a * b) % mod
  {
    MulLoopExact(a % mod, b, 0, mod);
    ModProduct(a, b, mod);
  }

  /** The largest residue doubled goes wrong for every modulus above 2^63. */
  lemma MulModWrong(mod: u64)
    requires mod > TWO_63
    ensures MulModValue(mod - 1, 2, mod) != ((mod - 1) * 2) % mod
  {
    MultipleModSelf(mod - 1, mod);
    var doubled := AddWrap(mod - 1, mod - 1);
    assert doubled == 2 * mod - 2 - TWO_64 by { ModUnique(2 * mod - 2, TWO_64, 1, 2 * mod - 2 - TWO_64); }
    MultipleModSelf(doubled, mod);
    assert MulLoop(mod - 1, 2, 0, mod) == MulLoop(doubled, 1, 0, mod);
    assert MulLoop(doubled, 1, 0, mod) == MulLoop(doubled, 0, doubled, mod) by {
      assert AddWrap(0, doubled) % mod == doubled;
    }
    ModUnique((mod - 1) * 2, mod, 1, mod - 2);
  }

  /** mulMod is multiplication modulo mod for all arguments exactly when mod <= 2^63. */
  lemma MulModExactIff(mod: u64)
    requires mod != 0
    ensures (forall a: u64, b: u64 :: MulModValue(a, b, mod) == (a * b) % mod) <==> mod <= TWO_63
  {
    if mod <= TWO_63 {
      forall a: u64, b: u64
        ensures MulModValue(a, b, mod) == (a * b) % mod
      {
        MulModExact(a, b, mod);
      }
    } else {
      MulModWrong(mod);
    }
  }

  // ---------------------------------------------------------------- powMod

  function PowLoop(base: u64, exponent: u64, result: u64, mod: u64): (r: u64)
    requires mod != 0
    decreases exponent
  {
    if exponent == 0 then result
    else
      var result' := if exponent % 2 == 1 then MulModValue(result, base, mod) else result;
      var base' := if exponent / 2 > 0 then MulModValue(base, base, mod) else base;
      PowLoop(base', exponent / 2, result', mod)
  }

  function PowModValue(base: u64, exponent: u64, mod: u64): (r: u64)
    requires mod != 0
  {
    PowLoop(base % mod, exponent, 1 % mod, mod)
  }

  method PowMod(x: u64, e: u64, mod: u64) returns (result: u64)
    requires mod != 0
    ensures result == PowModValue(x, e, mod)
    ensures mod <= TWO_63 ==> result == Pow(x, e) % mod
  {
    result := 1 % mod;
    var base: u64, exponent: u64 := x % mod, e;
    while exponent > 0
      invariant PowLoop(base, exponent, result, mod) == PowModValue(x, e, mod)
      decreases exponent
    {
      if exponent % 2 == 1 {
        result := MulMod(result, base, mod);
      }
      exponent := exponent / 2;
      if exponent > 0 {
        base := MulMod(base, base, mod);
      }
    }
    if mod <= TWO_63 { PowModExact(x, e, mod); }
  }

  lemma SquareStep(base: int, e: nat, result: int, base': int, result': int, mod: int)
    requires mod > 0 && e > 0
    requires result' % mod == (if e % 2 == 1 then result * base else result) % mod
    requires e / 2 > 0 ==> base' % mod == (base * base) % mod
    ensures (result' * Pow(base', e / 2)) % mod == (result * Pow(base, e)) % mod
  {
    var h, low := e / 2, e % 2;
    var r := if low == 1 then result * base else result;
    assert r * Pow(base * base, h) == result * Pow(base, e) by {
      PowOfProduct(base, base, h);
      PowAdd(base, h, h);
      PowAdd(base, low, 2 * h);
      assert Pow(base, 1) == base * Pow(base, 0);
      CrossMultiply(result, base, Pow(base, 2 * h));
    }
    var s := Pow(base * base, h);
    ModProduct(result', Pow(base', h), mod);
    ModProduct(r, s, mod);
    if h > 0 {
      PowOfResidue(base', h, mod);
      PowOfResidue(base * base, h, mod);
    }
  }

  lemma {:induction false} PowLoopExact(base: u64, e: u64, result: u64, mod: u64)
    requires 0 < mod <= TWO_63 && base < mod && result < mod
    ensures PowLoop(base, e, result, mod) == (result * Pow(base, e)) % mod
    decreases e
  {
    if e == 0 {
      MultipleModSelf(result, mod);
    } else {
      var result' := if e % 2 == 1 then MulModValue(result, base, mod) else result;
      var base' := if e / 2 > 0 then MulModValue(base, base, mod) else base;
      MulModExact(result, base, mod);
      MulModExact(base, base, mod);
      PowLoopExact(base', e / 2, result', mod);
      MultipleModSelf(result', mod);
      MultipleModSelf(base', mod);
      SquareStep(base, e, result, base', result', mod);
    }
  }

  lemma PowModExact(x: u64, e: u64, mod: u64)
    requires 0 < mod <= TWO_63
    ensures PowModValue(x, e, mod) == Pow(x, e) % mod
  {
    PowLoopExact(x % mod, e, 1 % mod, mod);
    ModProduct(1, Pow(x % mod, e), mod);
    PowOfResidue(x, e, mod);
  }

  // ---------------------------------------------------------------- isPrime

  /** n has no proper divisor below d. */
  ghost predicate ClearBelow(n: int, d: int) {
    forall e {:trigger n % e} :: 2 <= e < d && e < n ==> n % e != 0
  }

  lemma MultipleStep(n: int, q: int, h: int)
    requires q >= 1 && h >= 1 && n % q != 0
    ensures q * h > 0 && n % (q * h) != 0
  {
    MulLe(1, h, q);
    MultipleMod(q, h);
    if n % (q * h) == 0 { DividesTransitive(q, q * h, n); assert false; }
  }

  /** The 6k +- 1 wheel: with n odd and not a multiple of 3, testing 6k + 5 and 6k + 7
      clears everything below 6k + 11. */
  lemma WheelStep(n: int, k: nat)
    requires n % 2 != 0 && n % 3 != 0
    requires n % (6 * k + 5) != 0 && n % (6 * k + 7) != 0 && ClearBelow(n, 6 * k + 5)
    ensures ClearBelow(n, 6 * k + 11)
  {
    var d := 6 * k + 5;
    MultipleStep(n, 2, 3 * k + 3);
    MultipleStep(n, 2, 3 * k + 4);
    MultipleStep(n, 3, 2 * k + 3);
    MultipleStep(n, 2, 3 * k + 5);
    forall e {:trigger n % e} | 2 <= e < d + 6 && e < n
      ensures n % e != 0
    {
      assert e < d || e == d || e == d + 1 || e == d + 2 || e == d + 3 || e == d + 4 || e == d + 5;
    }
  }

  lemma SquareExceeds(n: int, d: int)
    requires d >= 1 && n / d < d
    ensures n < d * d
  {
    MulLe(n / d, d - 1, d);
    assert d * (d - 1) == d * d - d;
  }

  lemma LargeDivisorPair(n: int, d: int, e: int)
    requires n >= 2 && d >= 2 && d > n / d && 2 <= e < n && n % e == 0
    ensures n / e >= 2 && n % (n / e) == 0 && (e < d || n / e < d)
  {
    DivisorBounds(e, n);
    SquareExceeds(n, d);
    PairBelowSquare(n, d, e, n / e);
  }

  lemma PairBelowSquare(n: int, d: int, e: int, k: int)
    requires n == e * k && 2 <= e < n && k >= 1 && 2 <= d && n < d * d
    ensures k >= 2 && (e < d || k < d)
  {
    if e >= d && k >= d {
      MulLe(d, k, e);
      MulLe(d, e, d);
      assert false;
    }
  }

  lemma NoSmallDivisorIsPrime(n: int, d: int)
    requires n >= 2 && d >= 2 && d > n / d && ClearBelow(n, d)
    ensures Prime(n)
  {
    forall e {:trigger n % e} | 2 <= e < n
      ensures n % e != 0
    {
      if n % e == 0 {
        LargeDivisorPair(n, d, e);
        ProperQuotient(n, e);
        assert false;
      }
    }
  }

  lemma ClearBelowFive(n: int)
    requires n % 2 != 0 && n % 3 != 0 && n % 4 != 0
    ensures ClearBelow(n, 5)
  {
    forall e {:trigger n % e} | 2 <= e < 5 && e < n
      ensures n % e != 0
    {
      assert e == 2 || e == 3 || e == 4;
    }
  }

  /** Trial division decides primality of every 64-bit integer. */
  method IsPrime(n: u64) returns (r: bool)
    ensures r <==> Prime(n)
  {
    if n < 2 {
      return false;
    }
    if n == 2 || n == 3 {
      return true;
    }
    if n % 2 == 0 || n % 3 == 0 {
      assert n % 2 == 0 || n % 3 == 0;
      return false;
    }
    var d: u64 := 5;
    MultipleStep(n, 2, 2);
    ClearBelowFive(n);
    while d <= n / d
      invariant d % 6 == 5 && d >= 5 && ClearBelow(n, d)
      decreases n - d
    {
      WheelBound(n, d);
      if n % d == 0 || n % (d + 2) == 0 {
        assert 2 <= d < n && 2 <= d + 2 < n;
        return false;
      }
      WheelStep(n, d / 6);
      d := d + 6;
    }
    NoSmallDivisorIsPrime(n, d);
    return true;
  }

  /** Inside the loop d * d <= n, so that d + 6 neither overflows nor passes n. */
  lemma WheelBound(n: u64, d: u64)
    requires d >= 5 && d <= n / d && n % 2 != 0 && n % 3 != 0
    ensures d + 2 < n && d + 6 < TWO_64 && n - (d + 6) < n - d
  {
    assert d * d <= n by {
      MulLe(d, n / d, d);
      assert d * (n / d) <= n;
    }
    MulLe(5, d, d);
    if d >= TWO_63 { MulLe(TWO_63, d, d); assert false; }
  }

  // ---------------------------------------------------------------- composite proofs

  datatype CompositeProof = CompositeProof(m: u64, d: u64, e: u64)

  predicate VerifyCompositeProof(proof: CompositeProof) {
    && !(proof.m < 4 || proof.d <= 1 || proof.e <= 1)
    && !(proof.d >= proof.m || proof.e >= proof.m)
    && proof.d <= proof.m / proof.e
    && MulWrap(proof.d, proof.e) == proof.m
  }

  /** Accepted exactly when m is the true product of two factors greater than 1. */
  lemma CompositeProofExact(proof: CompositeProof)
    ensures VerifyCompositeProof(proof) <==> proof.d >= 2 && proof.e >= 2 && proof.d * proof.e == proof.m
  {
    var m: int, d: int, e: int := proof.m, proof.d, proof.e;
    if d >= 2 && e >= 2 {
      MulLe(2, d, e);
      MulLe(2, e, d);
      if d <= m / e {
        MulLe(d, m / e, e);
        assert d * e <= m;
      }
      if d * e == m {
        MultipleMod(e, d);
        assert m / e == d;
      }
    }
  }

  lemma CompositeProofNotPrime(proof: CompositeProof)
    requires VerifyCompositeProof(proof)
    ensures proof.m >= 4 && !Prime(proof.m)
  {
    CompositeProofExact(proof);
    MultipleMod(proof.d, proof.e);
  }

  // ---------------------------------------------------------------- factorizations

  method IsCanonicalFactorization(fs: seq<PrimePower>) returns (r: bool)
    requires Sized(fs)
    ensures r <==> Canonical(fs)
  {
    var previous: nat := 0;
    var i := 0;
    while i < |fs|
      invariant 0 <= i <= |fs|
      invariant Canonical(fs[..i])
      invariant previous == if i == 0 then 0 else fs[i - 1].prime
    {
      if fs[i].prime < 2 || fs[i].exponent == 0 {
        return false;
      }
      var prime := IsPrime(fs[i].prime);
      if !prime {
        return false;
      }
      if previous != 0 && fs[i].prime <= previous {
        assert fs[i - 1].prime >= fs[i].prime;
        return false;
      }
      previous := fs[i].prime;
      i := i + 1;
    }
    assert fs[..i] == fs;
    return true;
  }

  /** Every prime and exponent is a 64-bit value. */
  ghost predicate Sized(fs: seq<PrimePower>) {
    forall i :: 0 <= i < |fs| ==> fs[i].prime < TWO_64 && fs[i].exponent < TWO_64
  }

  lemma {:induction false} ValuePrefix(fs: seq<PrimePower>, k: nat)
    requires Canonical(fs) && k <= |fs|
    ensures 1 <= Value(fs[..k]) <= Value(fs)
    decreases |fs| - k
  {
    if k == |fs| {
      assert fs[..k] == fs;
      ValuePositive(fs);
    } else {
      ValuePrefix(fs, k + 1);
      ValuePositive(fs[..k]);
      assert fs[..k + 1][..k] == fs[..k];
      MulLe(1, Pow(fs[k].prime, fs[k].exponent), Value(fs[..k]));
    }
  }

  /** The overflow guard of multiplyFactorization is exact. */
  lemma MultiplyGuard(product: u64, prime: u64)
    requires product >= 1 && prime >= 2
    ensures product > (TWO_64 - 1) / prime <==> product * prime >= TWO_64
  {
    var limit := (TWO_64 - 1) / prime;
    if product > limit {
      MulLe(limit + 1, product, prime);
    } else {
      MulLe(product, limit, prime);
    }
  }

  lemma PartialPowerBound(value: int, p: int, k: nat, e: nat)
    requires value >= 1 && p >= 2 && k <= e
    ensures value * Pow(p, k) <= value * Pow(p, e)
    ensures k < e ==> value * Pow(p, k) * p == value * Pow(p, k + 1)
  {
    PowGrows(p, k, e);
    MulLe(Pow(p, k), Pow(p, e), value);
    CrossMultiply(value, Pow(p, k), p);
  }

  /** The inner loop: multiplies by prime, exponent times, giving up before an overflow. */
  method MultiplyPower(start: u64, prime: u64, exponent: u64) returns (r: Option<u64>)
    requires start >= 1 && prime >= 2
    ensures r.Some? <==> start * Pow(prime, exponent) < TWO_64
    ensures r.Some? ==> r.value == start * Pow(prime, exponent)
  {
    var product: u64 := start;
    var i := 0;
    while i < exponent
      invariant 0 <= i <= exponent
      invariant product == start * Pow(prime, i) && product >= 1
    {
      MultiplyGuard(product, prime);
      PartialPowerBound(start, prime, i, exponent);
      PartialPowerBound(start, prime, i + 1, exponent);
      if product > (TWO_64 - 1) / prime {
        return None;
      }
      product := MulWrap(product, prime);
      i := i + 1;
    }
    return Some(product);
  }

  /** Multiplies out a canonical factorization; None when it is not canonical or its
      value does not fit in 64 bits. */
  method MultiplyFactorization(fs: seq<PrimePower>) returns (r: Option<u64>)
    requires Sized(fs)
    ensures r.Some? <==> Canonical(fs) && Value(fs) < TWO_64
    ensures r.Some? ==> r.value == Value(fs)
  {
    var canonical := IsCanonicalFactorization(fs);
    if !canonical {
      return None;
    }
    var product: u64 := 1;
    var j := 0;
    while j < |fs|
      invariant 0 <= j <= |fs|
      invariant product == Value(fs[..j]) && product >= 1
    {
      assert fs[..j + 1][..j] == fs[..j];
      ValuePrefix(fs, j + 1);
      var next := MultiplyPower(product, fs[j].prime, fs[j].exponent);
      if next.None? {
        return None;
      }
      product := next.value;
      j := j + 1;
    }
    assert fs[..j] == fs;
    return Some(product);
  }

  // ---------------------------------------------------------------- Pratt proofs

  datatype PrattProof = PrattProof(p: u64, base: u64, factors: seq<PrimePower>)

  ghost predicate PrattFactorAccepts(p: u64, base: u64, q: nat)
    requires p >= 3 && q >= 2
  {
    Gcd(Difference(PowModValue(base, Reduced(p, q), p), p), p) == 1
  }

  /** What verifyPrattProof decides, for every 64-bit p, wrap-around included. */
  ghost predicate PrattAccepts(proof: PrattProof) {
    var p := proof.p;
    if p == 2 then proof.base == 0 && proof.factors == []
    else
      && p >= 3 && 1 < proof.base < p
      && Canonical(proof.factors) && Value(proof.factors) == p - 1
      && PowModValue(proof.base, p - 1, p) == 1
      && forall i :: 0 <= i < |proof.factors| ==> PrattFactorAccepts(p, proof.base, proof.factors[i].prime)
  }

  method CheckPrattFactor(p: u64, base: u64, q: u64) returns (r: bool)
    requires p >= 3 && q >= 2
    ensures r <==> PrattFactorAccepts(p, base, q)
  {
    assert (p - 1) / q == Reduced(p, q);
    var exponent: u64 := (p - 1) / q;
    var residue := PowMod(base, exponent, p);
    var diff: u64 := if residue == 0 then p - 1 else residue - 1;
    var g := GcdLoop(diff, p);
    r := g == 1;
  }

  method CheckPrattFactors(p: u64, base: u64, fs: seq<PrimePower>) returns (r: bool)
    requires p >= 3 && Canonical(fs) && Sized(fs)
    ensures r <==> forall k :: 0 <= k < |fs| ==> PrattFactorAccepts(p, base, fs[k].prime)
  {
    var i := 0;
    while i < |fs|
      invariant 0 <= i <= |fs|
      invariant forall k :: 0 <= k < i ==> PrattFactorAccepts(p, base, fs[k].prime)
    {
      var ok := CheckPrattFactor(p, base, fs[i].prime);
      if !ok {
        return false;
      }
      i := i + 1;
    }
    return true;
  }

  method VerifyPrattProof(proof: PrattProof) returns (r: bool)
    requires Sized(proof.factors)
    ensures r <==> PrattAccepts(proof)
    ensures r && proof.p <= TWO_63 ==> Prime(proof.p)
  {
    var p, fs := proof.p, proof.factors;
    if p == 2 {
      return proof.base == 0 && fs == [];
    }
    if p < 2 || proof.base <= 1 || proof.base >= p {
      return false;
    }
    var canonical := IsCanonicalFactorization(fs);
    if !canonical {
      return false;
    }
    var product := MultiplyFactorization(fs);
    if product.None? || product.value != p - 1 {
      return false;
    }
    var full := PowMod(proof.base, p - 1, p);
    if full != 1 {
      return false;
    }
    r := CheckPrattFactors(p, proof.base, fs);
    if r && p <= TWO_63 { PrattSound(proof); }
  }

  lemma PrattIsLucas(proof: PrattProof)
    requires 3 <= proof.p <= TWO_63 && 1 < proof.base < proof.p
    requires Canonical(proof.factors) && Value(proof.factors) == proof.p - 1
    ensures PrattAccepts(proof) <==> LucasWitness(proof.p, proof.base, proof.factors)
  {
    var p, w, fs := proof.p, proof.base, proof.factors;
    PowModExact(w, p - 1, p);
    forall i | 0 <= i < |fs|
      ensures PrattFactorAccepts(p, w, fs[i].prime) <==> FactorCheck(w, p, fs[i].prime)
    {
      PowModExact(w, Reduced(p, fs[i].prime), p);
    }
  }

  /** Soundness: up to 2^63 an accepted proof is about a prime. */
  lemma PrattSound(proof: PrattProof)
    requires proof.p <= TWO_63 && PrattAccepts(proof)
    ensures Prime(proof.p)
  {
    if proof.p != 2 {
      PrattIsLucas(proof);
      WitnessImpliesPrime(proof.p, proof.base, proof.factors);
    }
  }

  /** Completeness: up to 2^63 every prime has an accepted proof for the canonical
      factorization of p - 1. */
  lemma PrattComplete(p: u64, fs: seq<PrimePower>) returns (base: u64)
    requires 3 <= p <= TWO_63 && Prime(p) && Canonical(fs) && Value(fs) == p - 1
    ensures 2 <= base < p && PrattAccepts(PrattProof(p, base, fs))
  {
    base := PrimeHasWitness(p, fs);
    PrattIsLucas(PrattProof(p, base, fs));
  }
}
