/**
 Factorization from an index of composite proofs, and Pratt proofs built from it
 (src/math/number_theory.cpp). The index is a lookup function supplied by the caller.
 */
module ProofIndex {
  import opened Machine
  import opened Divisibility
  import opened ModularPower
  import opened Factorization
  import opened NumberTheory

  type Index = u64 -> Option<CompositeProof>
  type Counts = map<u64, u64>

  /** The index holds a checked proof for n. */
  predicate Proves(index: Index, n: u64) {
    index(n).Some? && VerifyCompositeProof(index(n).value) && index(n).value.m == n
  }

  /** n splits into primes through the index; what addFactor decides. */
  ghost predicate Reducible(n: u64, index: Index)
    decreases n
  {
    n >= 2 && (Prime(n) ||
               (Proves(index, n) && Reducible(index(n).value.d, index) && Reducible(index(n).value.e, index)))
  }

  /** An index that covers every composite up to n reduces n. */
  lemma {:induction false} CoveringIndexReduces(n: u64, index: Index)
    requires n >= 2
    requires forall m: u64 :: 4 <= m <= n && !Prime(m) ==> Proves(index, m)
    ensures Reducible(n, index)
    decreases n
  {
    if !Prime(n) {
      assert n >= 4;
      CoveringIndexReduces(index(n).value.d, index);
      CoveringIndexReduces(index(n).value.e, index);
    }
  }

  /** Product of p^counts[p] over the keys below k. */
  ghost function CountsValue(counts: Counts, k: nat): (v: int)
    requires forall p :: p in counts ==> p >= 2
    ensures v >= 1
  {
    if k == 0 then 1
    else if k - 1 in counts then
      assert CountsValue(counts, k - 1) * Pow(k - 1, counts[k - 1]) >= 1 by {
        MulLe(1, Pow(k - 1, counts[k - 1]), CountsValue(counts, k - 1));
      }
      CountsValue(counts, k - 1) * Pow(k - 1, counts[k - 1])
    else CountsValue(counts, k - 1)
  }

  function Count(counts: Counts, p: u64): u64 {
    if p in counts then counts[p] else 0
  }

  lemma {:induction false} CountsValueIncrement(counts: Counts, p: u64, k: nat)
    requires forall q :: q in counts ==> q >= 2
    requires p >= 2 && Count(counts, p) < TWO_64 - 1
    ensures CountsValue(counts[p := Count(counts, p) + 1], k)
         == (if p < k then CountsValue(counts, k) * p else CountsValue(counts, k))
  {
    var next := counts[p := Count(counts, p) + 1];
    if k > 0 {
      CountsValueIncrement(counts, p, k - 1);
      var rest := CountsValue(counts, k - 1);
      if p == k - 1 {
        CrossMultiply(rest, p, Pow(p, Count(counts, p)));
        assert Pow(p, Count(counts, p) + 1) == p * Pow(p, Count(counts, p));
      } else if p < k - 1 && k - 1 in counts {
        CrossMultiply(rest, p, Pow(k - 1, counts[k - 1]));
      }
    }
  }

  /** A value below 2^64 bounds every exponent by 63. */
  lemma {:induction false} CountBounded(counts: Counts, p: u64, k: nat)
    requires forall q :: q in counts ==> q >= 2
    requires p in counts && p < k && CountsValue(counts, k) < TWO_64
    ensures counts[p] < 64
  {
    var rest := CountsValue(counts, k - 1);
    if p == k - 1 {
      var e := counts[p];
      MulLe(1, rest, Pow(p, e));
      if e >= 64 {
        PowGrows(p, 64, e);
        PowerOfTwoFloor(p, 64);
        assert false;
      }
    } else {
      if k - 1 in counts { MulLe(1, Pow(k - 1, counts[k - 1]), rest); }
      CountBounded(counts, p, k - 1);
    }
  }

  ghost function Shift(n: nat): int {
    if n == 0 then 1 else 2 * Shift(n - 1)
  }

  lemma {:induction false} PowerOfTwoFloor(p: int, n: nat)
    requires p >= 2
    ensures Pow(p, n) >= Shift(n) >= 1
    ensures n == 64 ==> Shift(n) == TWO_64
  {
    if n > 0 {
      PowerOfTwoFloor(p, n - 1);
      MulLe(2, p, Pow(p, n - 1));
      MulLe(Shift(n - 1), Pow(p, n - 1), 2);
    }
    if n == 64 { assert Shift(64) == TWO_64 by { ShiftValues(); } }
  }

  lemma ShiftValues()
    ensures Shift(64) == TWO_64
  {
    assert Shift(8) == 0x100;
    assert Shift(16) == 0x1_0000;
    assert Shift(24) == 0x100_0000;
    assert Shift(32) == 0x1_0000_0000;
    assert Shift(40) == 0x100_0000_0000;
    assert Shift(48) == 0x1_0000_0000_0000;
    assert Shift(56) == 0x100_0000_0000_0000;
  }

  /** All keys are primes with a positive count. */
  ghost predicate PrimeCounts(counts: Counts) {
    forall p :: p in counts ==> Prime(p) && counts[p] >= 1
  }

  /** Adds the prime factors of n to the counts; on success the value is multiplied by n. */
  method AddFactor(n: u64, index: Index, counts: Counts) returns (ok: bool, next: Counts)
    requires PrimeCounts(counts) && CountsValue(counts, TWO_64) * n < TWO_64
    ensures ok <==> Reducible(n, index)
    ensures ok ==> PrimeCounts(next) && CountsValue(next, TWO_64) == CountsValue(counts, TWO_64) * n
    decreases n
  {
    next := counts;
    if n < 2 {
      return false, next;
    }
    var prime := IsPrime(n);
    if prime {
      MulLe(1, n, CountsValue(counts, TWO_64));
      if n in counts { CountBounded(counts, n, TWO_64); }
      CountsValueIncrement(counts, n, TWO_64);
      next := counts[n := Count(counts, n) + 1];
      return true, next;
    }
    if index(n).None? || !VerifyCompositeProof(index(n).value) || index(n).value.m != n {
      return false, next;
    }
    var proof := index(n).value;
    CompositeProofExact(proof);
    SplitBudget(CountsValue(counts, TWO_64), n, proof.d, proof.e);
    ok, next := AddFactor(proof.d, index, counts);
    if ok {
      ok, next := AddFactor(proof.e, index, next);
    }
  }

  lemma SplitBudget(value: int, n: int, d: int, e: int)
    requires value >= 1 && d >= 1 && e >= 1 && d * e == n && value * n < TWO_64
    ensures value * d < TWO_64 && (value * d) * e == value * n
  {
    CrossMultiply(value, d, e);
    MulLe(1, e, value * d);
  }

  /** The entries with keys below k in ascending key order, the order in which an ordered
      map is traversed. */
  function Entries(counts: Counts, k: nat): (fs: seq<PrimePower>) {
    if k == 0 then []
    else if k - 1 in counts then Entries(counts, k - 1) + [PrimePower(k - 1, counts[k - 1])]
    else Entries(counts, k - 1)
  }

  lemma {:induction false} EntriesCanonical(counts: Counts, k: nat)
    requires PrimeCounts(counts)
    ensures Sized(Entries(counts, k)) && Canonical(Entries(counts, k))
    ensures forall i :: 0 <= i < |Entries(counts, k)| ==> Entries(counts, k)[i].prime < k
  {
    if k > 0 {
      EntriesCanonical(counts, k - 1);
    }
  }

  lemma {:induction false} EntriesValue(counts: Counts, k: nat)
    requires PrimeCounts(counts)
    ensures Value(Entries(counts, k)) == CountsValue(counts, k)
  {
    if k > 0 {
      EntriesValue(counts, k - 1);
      if k - 1 in counts {
        ValueAppend(Entries(counts, k - 1), PrimePower(k - 1, counts[k - 1]));
      }
    }
  }

  lemma ValueAppend(fs: seq<PrimePower>, last: PrimePower)
    ensures Value(fs + [last]) == Value(fs) * Pow(last.prime, last.exponent)
  {
    assert (fs + [last])[..|fs|] == fs;
  }

  lemma {:induction false} EmptyCounts(k: nat)
    ensures CountsValue(map[], k) == 1
  {
    if k > 0 { EmptyCounts(k - 1); }
  }

  /** Some canonical factorization of n, for every n >= 2 that the index reduces. */
  method FactorizeFromProofIndex(n: u64, index: Index) returns (r: Option<seq<PrimePower>>)
    ensures r.Some? <==> n >= 2 && Reducible(n, index)
    ensures r.Some? ==> Sized(r.value) && Canonical(r.value) && Value(r.value) == n
  {
    if n < 2 {
      return None;
    }
    EmptyCounts(TWO_64);
    var ok, counts := AddFactor(n, index, map[]);
    if !ok {
      return None;
    }
    var fs := Entries(counts, TWO_64);
    EntriesCanonical(counts, TWO_64);
    EntriesValue(counts, TWO_64);
    var canonical := IsCanonicalFactorization(fs);
    if !canonical {
      return None;
    }
    return Some(fs);
  }

  /** A proof is found exactly for the primes whose predecessor the index reduces, and it
      always verifies. */
  method MakePrattProof(p: u64, index: Index) returns (r: Option<PrattProof>)
    ensures r.Some? ==> r.value.p == p && PrattAccepts(r.value)
    ensures p <= TWO_63 ==> (r.Some? <==> Prime(p) && (p == 2 || Reducible(p - 1, index)))
  {
    if p == 2 {
      return Some(PrattProof(2, 0, []));
    }
    if p < 2 {
      return None;
    }
    var prime := IsPrime(p);
    if !prime {
      return None;
    }
    var factorization := FactorizeFromProofIndex(p - 1, index);
    if factorization.None? {
      return None;
    }
    ghost var found: u64 := 2;
    if p <= TWO_63 { found := PrattComplete(p, factorization.value); }
    var base: u64 := 2;
    while base < p
      invariant 2 <= base <= p
      invariant p <= TWO_63 ==> base <= found < p && PrattAccepts(PrattProof(p, found, factorization.value))
    {
      var proof := PrattProof(p, base, factorization.value);
      var ok := VerifyPrattProof(proof);
      if ok {
        return Some(proof);
      }
      base := base + 1;
    }
    return None;
  }

  /** The law of the proof system, for all 64-bit p up to 2^63: p is prime exactly when
      some Pratt proof for it is accepted. */
  lemma PrattCharacterizesPrimes(p: u64)
    requires p <= TWO_63
    ensures Prime(p) <==> exists proof: PrattProof :: proof.p == p && PrattAccepts(proof)
  {
    if Prime(p) {
      if p == 2 {
        assert PrattAccepts(PrattProof(2, 0, []));
      } else {
        var fs := FactorizationExists(p - 1);
        var base := PrattComplete(p, fs);
        assert PrattAccepts(PrattProof(p, base, fs));
      }
    }
    if proof: PrattProof :| proof.p == p && PrattAccepts(proof) {
      PrattSound(proof);
    }
  }

  lemma FactorizationExists(n: int) returns (fs: seq<PrimePower>)
    requires n >= 1
    ensures Canonical(fs) && Value(fs) == n
  {
    fs := FactorizationBelow(n, n + 1);
  }

  /** Splits off the largest prime first: all primes of the result are below the bound. */
  lemma {:induction false} FactorizationBelow(n: int, bound: int) returns (fs: seq<PrimePower>)
    requires n >= 1 && bound >= 1 && forall q :: Prime(q) && n % q == 0 ==> q < bound
    ensures Canonical(fs) && Value(fs) == n && forall i :: 0 <= i < |fs| ==> fs[i].prime < bound
    decreases bound
  {
    if n == 1 {
      fs := [];
    } else if Prime(bound - 1) && n % (bound - 1) == 0 {
      var q := bound - 1;
      var e, m := SplitPower(n, q);
      forall s | Prime(s) && m % s == 0
        ensures s < q
      {
        DividesMultiple(s, m, Pow(q, e));
      }
      var init := FactorizationBelow(m, q);
      fs := init + [PrimePower(q, e)];
      assert fs[..|init|] == init;
      CrossMultiply(1, m, Pow(q, e));
    } else {
      var least := LeastDivisor(n);
      fs := FactorizationBelow(n, bound - 1);
    }
  }

  lemma {:induction false} SplitPower(n: int, q: int) returns (e: nat, m: int)
    requires n >= 1 && Prime(q) && n % q == 0
    ensures e >= 1 && 1 <= m < n && n == Pow(q, e) * m && m % q != 0
    decreases n
  {
    DivisorBounds(q, n);
    var k := n / q;
    MulLe(2, q, k);
    assert Pow(q, 1) == q * Pow(q, 0);
    if k % q != 0 {
      e, m := 1, k;
    } else {
      var e', m' := SplitPower(k, q);
      e, m := e' + 1, m';
      CrossMultiply(q, Pow(q, e'), m);
    }
  }
}
