/**
 A polynomial of degree n has at most n roots modulo a prime; hence, for every proper
 exponent, some residue is not sent to 1 by it.
 */
module PrimitiveRoot {
  import opened Sets
  import opened Divisibility
  import opened ModularPower
  import opened Fermat

  /** Value at x of the polynomial with coefficients c, constant term first. */
  ghost function Eval(c: seq<int>, x: int): int {
    if c == [] then 0 else c[0] + x * Eval(c[1..], x)
  }

  /** Quotient of c by (X - r), the remainder dropped. */
  ghost function Quotient(c: seq<int>, r: int): (q: seq<int>)
    ensures |c| >= 1 ==> |q| == |c| - 1
    ensures |c| >= 2 ==> q[|q| - 1] == c[|c| - 1]
  {
    if |c| <= 1 then []
    else AddScaled(c[1..], r, Quotient(c[1..], r))
  }

  /** c + r * d, where d is one shorter than c. */
  ghost function AddScaled(c: seq<int>, r: int, d: seq<int>): (s: seq<int>)
    requires |c| == |d| + 1
    ensures |s| == |c| && s[|s| - 1] == c[|c| - 1]
  {
    if d == [] then c else [c[0] + r * d[0]] + AddScaled(c[1..], r, d[1..])
  }

  lemma {:induction false} EvalAddScaled(c: seq<int>, r: int, d: seq<int>, x: int)
    requires |c| == |d| + 1
    ensures Eval(AddScaled(c, r, d), x) == Eval(c, x) + r * Eval(d, x)
  {
    if d != [] {
      EvalAddScaled(c[1..], r, d[1..], x);
      var s := AddScaled(c, r, d);
      assert s[1..] == AddScaled(c[1..], r, d[1..]);
      AddScaledStep(c[0], d[0], r, x, Eval(c[1..], x), Eval(d[1..], x), Eval(s[1..], x));
    }
  }

  lemma AddScaledStep(c: int, d: int, r: int, x: int, u: int, v: int, e: int)
    requires e == u + r * v
    ensures c + r * d + x * e == c + x * u + r * (d + x * v)
  {
    calc {
      x * e;
      x * u + x * (r * v);
      { assert x * (r * v) == r * (x * v); }
      x * u + r * (x * v);
    }
  }

  /** The factor theorem. */
  lemma {:induction false} FactorTheorem(c: seq<int>, r: int, x: int)
    ensures Eval(c, x) - Eval(c, r) == (x - r) * Eval(Quotient(c, r), x)
  {
    if |c| == 1 {
      assert c[1..] == [];
    } else if |c| >= 2 {
      var d := c[1..];
      FactorTheorem(d, r, x);
      EvalAddScaled(d, r, Quotient(d, r), x);
      var u, v, w := Eval(d, x), Eval(d, r), Eval(Quotient(d, r), x);
      FactorStep(x, r, u, v, w);
    }
  }

  lemma FactorStep(x: int, r: int, u: int, v: int, w: int)
    requires u - v == (x - r) * w
    ensures x * u - r * v == (x - r) * (u + r * w)
  {
    calc {
      x * u - r * v;
      (x - r) * u + r * u - r * v;
      (x - r) * u + r * (u - v);
      (x - r) * u + r * ((x - r) * w);
      { assert r * ((x - r) * w) == (x - r) * (r * w); }
      (x - r) * u + (x - r) * (r * w);
      (x - r) * (u + r * w);
    }
  }

  /** A monic polynomial of degree |c| - 1 has at most that many roots modulo a prime. */
  lemma {:induction false} RootBound(c: seq<int>, roots: set<int>, p: int)
    requires Prime(p) && |c| >= 1 && c[|c| - 1] == 1
    requires forall r :: r in roots ==> 0 <= r < p && Eval(c, r) % p == 0
    ensures |roots| <= |c| - 1
    decreases |c|
  {
    if roots == {} { return; }
    var r := Pick(roots);
    if |c| == 1 {
      assert c[1..] == [] && Eval(c, r) == 1;
      MultipleModSelf(1, p);
      assert false;
    }
    var q, rest := Quotient(c, r), roots - {r};
    forall s | s in rest
      ensures 0 <= s < p && Eval(q, s) % p == 0
    {
      FactorTheorem(c, r, s);
      ModSum(Eval(c, s), Eval(c, r), p);
      EuclidLemma(s - r, Eval(q, s), p);
      CongruenceIsDivisibility(s, r, p);
      MultipleModSelf(s, p);
      MultipleModSelf(r, p);
    }
    RootBound(q, rest, p);
    assert |roots| == |rest| + 1;
  }

  /** X^n with constant term k. */
  ghost function PowerPolynomial(n: nat, k: int): (c: seq<int>)
    requires n >= 1
    ensures |c| == n + 1 && c[n] == 1
  {
    if n == 1 then [k, 1] else [k] + PowerPolynomial(n - 1, 0)
  }

  lemma {:induction false} EvalPowerPolynomial(n: nat, k: int, x: int)
    requires n >= 1
    ensures Eval(PowerPolynomial(n, k), x) == Pow(x, n) + k
  {
    var c := PowerPolynomial(n, k);
    if n == 1 {
      assert c[1..] == [1] && [1][1..] == [];
      assert Eval([1], x) == 1 + x * Eval([], x);
      assert Pow(x, 1) == x * Pow(x, 0);
    } else {
      EvalPowerPolynomial(n - 1, 0, x);
      assert c[1..] == PowerPolynomial(n - 1, 0);
    }
  }

  /** For every proper exponent n some residue has an n-th power other than 1. */
  lemma NonTrivialPower(n: nat, p: int) returns (x: int)
    requires Prime(p) && 1 <= n < p - 1
    ensures 1 <= x < p && !PowIsOne(x, n, p)
  {
    if forall y :: y in Residues(p) ==> PowIsOne(y, n, p) {
      var c := PowerPolynomial(n, -1);
      forall y | y in Residues(p)
        ensures 0 <= y < p && Eval(c, y) % p == 0
      {
        EvalPowerPolynomial(n, -1, y);
        CongruenceIsDivisibility(Pow(y, n), 1, p);
      }
      RootBound(c, Residues(p), p);
      assert false;
    }
    x :| x in Residues(p) && !PowIsOne(x, n, p);
  }
}
