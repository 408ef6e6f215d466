/** Factorizations into prime powers (include/primechain/math/number_theory.hpp) and their value. */
module Factorization {
  import opened Divisibility
  import opened ModularPower

  datatype PrimePower = PrimePower(prime: nat, exponent: nat)

  /** The product of the prime powers. */
  ghost function Value(fs: seq<PrimePower>): int {
    if fs == [] then 1
    else Value(fs[..|fs| - 1]) * Pow(fs[|fs| - 1].prime, fs[|fs| - 1].exponent)
  }

  /** Strictly ascending primes with positive exponents. */
  ghost predicate Canonical(fs: seq<PrimePower>) {
    && (forall i :: 0 <= i < |fs| ==> Prime(fs[i].prime) && fs[i].exponent >= 1)
    && (forall i, j :: 0 <= i < j < |fs| ==> fs[i].prime < fs[j].prime)
  }

  lemma {:induction false} PrimeDividesPower(q: int, p: int, e: nat)
    requires Prime(q) && Prime(p) && Pow(p, e) % q == 0
    ensures q == p
  {
    if e == 0 {
      MultipleModSelf(1, q);
      assert false;
    } else if Pow(p, e - 1) % q == 0 {
      PrimeDividesPower(q, p, e - 1);
    } else {
      EuclidLemma(p, Pow(p, e - 1), q);
      if q != p { DivisorBounds(q, p); assert false; }
    }
  }

  /** A prime that divides the value is one of the listed primes. */
  lemma {:induction false} PrimeDivisorListed(fs: seq<PrimePower>, q: int)
    requires Canonical(fs) && Prime(q) && Value(fs) % q == 0
    ensures exists i :: 0 <= i < |fs| && fs[i].prime == q
  {
    if fs == [] {
      MultipleModSelf(1, q);
      assert false;
    } else {
      var init, last := fs[..|fs| - 1], fs[|fs| - 1];
      EuclidLemma(Value(init), Pow(last.prime, last.exponent), q);
      if Value(init) % q == 0 {
        PrimeDivisorListed(init, q);
        var i :| 0 <= i < |init| && init[i].prime == q;
        assert fs[i].prime == q;
      } else {
        PrimeDividesPower(q, last.prime, last.exponent);
      }
    }
  }

  lemma {:induction false} ValuePositive(fs: seq<PrimePower>)
    requires Canonical(fs)
    ensures Value(fs) >= 1
  {
    if fs != [] {
      ValuePositive(fs[..|fs| - 1]);
      MulLe(1, Value(fs[..|fs| - 1]), Pow(fs[|fs| - 1].prime, fs[|fs| - 1].exponent));
    }
  }

  /** Splitting off the i-th prime power leaves a cofactor its prime does not divide. */
  lemma {:induction false} SplitFactor(fs: seq<PrimePower>, i: nat) returns (cofactor: int)
    requires Canonical(fs) && i < |fs|
    ensures cofactor >= 1 && Value(fs) == Pow(fs[i].prime, fs[i].exponent) * cofactor
    ensures cofactor % fs[i].prime != 0
  {
    var init, last := fs[..|fs| - 1], fs[|fs| - 1];
    if i == |fs| - 1 {
      cofactor := Value(init);
      ValuePositive(init);
      if cofactor % last.prime == 0 {
        PrimeDivisorListed(init, last.prime);
        assert false;
      }
    } else {
      var c := SplitFactor(init, i);
      cofactor := ExtendCofactor(Pow(fs[i].prime, fs[i].exponent), fs[i].prime, c, last);
    }
  }

  lemma ExtendCofactor(power: int, q: int, c: int, last: PrimePower) returns (cofactor: int)
    requires Prime(q) && c >= 1 && c % q != 0 && Prime(last.prime) && last.prime != q
    ensures cofactor >= 1 && (power * c) * Pow(last.prime, last.exponent) == power * cofactor
    ensures cofactor % q != 0
  {
    var next := Pow(last.prime, last.exponent);
    cofactor := c * next;
    MulLe(1, next, c);
    assert (power * c) * next == power * (c * next);
    if cofactor % q == 0 {
      EuclidLemma(c, next, q);
      PrimeDividesPower(q, last.prime, last.exponent);
      assert false;
    }
  }

  lemma ListedPrimeDivides(fs: seq<PrimePower>, i: nat)
    requires Canonical(fs) && i < |fs|
    ensures Value(fs) >= 1 && Value(fs) % fs[i].prime == 0
  {
    var c := SplitFactor(fs, i);
    ValuePositive(fs);
    var q, e := fs[i].prime, fs[i].exponent;
    var power := Pow(q, e);
    assert power % q == 0 by {
      assert power == q * Pow(q, e - 1);
      MultipleMod(q, Pow(q, e - 1));
    }
    DividesMultiple(q, power, c);
  }
}
