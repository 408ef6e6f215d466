/** Fermat's little theorem, by the permutation of the nonzero residues. */
module Fermat {
  import opened Sets
  import opened Divisibility
  import opened ModularPower

  /** The nonzero residues 1, ..., p - 1. */
  ghost function Residues(p: int): (s: set<int>)
    requires p >= 1
    ensures forall i :: i in s <==> 1 <= i < p
    ensures |s| == p - 1
  {
    if p == 1 then {} else Residues(p - 1) + {p - 1}
  }

  ghost function Product(s: set<int>): int {
    if s == {} then 1 else Pick(s) * Product(s - {Pick(s)})
  }

  /** The product does not depend on the order in which elements are taken. */
  lemma {:induction false} ProductRemove(s: set<int>, x: int)
    requires x in s
    ensures Product(s) == x * Product(s - {x})
    decreases |s|
  {
    var y := Pick(s);
    if y != x {
      ProductRemove(s - {y}, x);
      ProductRemove(s - {x}, y);
      assert s - {x} - {y} == s - {y} - {x};
      CrossMultiply(y, x, Product(s - {y} - {x}));
    }
  }

  ghost function Scale(a: int, s: set<int>, p: int): (r: set<int>)
    requires p > 0
  {
    set i | i in s :: (a * i) % p
  }

  lemma ScaleInjective(a: int, i: int, j: int, p: int)
    requires Prime(p) && a % p != 0 && 0 <= i < p && 0 <= j < p && (a * i) % p == (a * j) % p
    ensures i == j
  {
    CongruenceIsDivisibility(a * i, a * j, p);
    assert a * i - a * j == a * (i - j);
    EuclidLemma(a, i - j, p);
    CongruenceIsDivisibility(i, j, p);
    MultipleModSelf(i, p);
    MultipleModSelf(j, p);
  }

  lemma ScaleStaysNonzero(a: int, i: int, p: int)
    requires Prime(p) && a % p != 0 && 1 <= i < p
    ensures 1 <= (a * i) % p < p
  {
    if (a * i) % p == 0 {
      assert a * 0 == 0;
      ScaleInjective(a, i, 0, p);
    }
  }

  lemma ScaleInsert(a: int, t: set<int>, x: int, p: int)
    requires Prime(p) && a % p != 0 && t <= Residues(p) && x in Residues(p) && x !in t
    ensures (a * x) % p !in Scale(a, t, p) && (a * x) % p in Residues(p)
    ensures Scale(a, t + {x}, p) == Scale(a, t, p) + {(a * x) % p}
  {
    ScaleStaysNonzero(a, x, p);
    if (a * x) % p in Scale(a, t, p) {
      var i :| i in t && (a * i) % p == (a * x) % p;
      ScaleInjective(a, i, x, p);
      assert false;
    }
  }

  lemma {:induction false} ScaleProduct(a: int, s: set<int>, p: int, n: nat) returns (image: set<int>, w: int)
    requires Prime(p) && a % p != 0 && s <= Residues(p) && |s| == n
    ensures image == Scale(a, s, p) && |image| == n && image <= Residues(p)
    ensures w == Pow(a, n) && Product(image) % p == (w * Product(s)) % p
    decreases n
  {
    if s == {} {
      image, w := {}, 1;
    } else {
      var x := Pick(s);
      var rest, v := ScaleProduct(a, s - {x}, p, n - 1);
      image, w := ScaleProductAdd(a, s - {x}, x, p, n - 1, rest, v);
      assert s - {x} + {x} == s;
    }
  }

  lemma ScaleProductAdd(a: int, t: set<int>, x: int, p: int, n: nat, rest: set<int>, v: int)
    returns (image: set<int>, w: int)
    requires Prime(p) && a % p != 0 && t <= Residues(p) && x in Residues(p) && x !in t
    requires rest == Scale(a, t, p) && |rest| == n && rest <= Residues(p)
    requires v == Pow(a, n) && Product(rest) % p == (v * Product(t)) % p
    ensures image == Scale(a, t + {x}, p) && |image| == n + 1 && image <= Residues(p)
    ensures w == Pow(a, n + 1) && Product(image) % p == (w * Product(t + {x})) % p
  {
    ScaleInsert(a, t, x, p);
    var y := (a * x) % p;
    ProductInsert(rest, y);
    ProductInsert(t, x);
    ScaleProductStep(a, x, v, Product(t), Product(rest), p);
    image, w := rest + {y}, a * v;
  }

  lemma ProductInsert(s: set<int>, x: int)
    requires x !in s
    ensures Product(s + {x}) == x * Product(s)
  {
    ProductRemove(s + {x}, x);
    assert s + {x} - {x} == s;
  }

  lemma ScaleProductStep(a: int, x: int, power: int, rest: int, scaled: int, p: int)
    requires p > 0 && scaled % p == (power * rest) % p
    ensures (((a * x) % p) * scaled) % p == ((a * power) * (x * rest)) % p
  {
    ModProduct(a * x, scaled, p);
    ModProduct(a * x, power * rest, p);
    MulExchange(a, x, power, rest);
  }

  lemma {:induction false} ProductCoprime(s: set<int>, p: int)
    requires Prime(p) && s <= Residues(p)
    ensures Product(s) % p != 0
    decreases |s|
  {
    if s == {} {
      MultipleModSelf(1, p);
    } else {
      var x := Pick(s);
      ProductCoprime(s - {x}, p);
      MultipleModSelf(x, p);
      if Product(s) % p == 0 { EuclidLemma(x, Product(s - {x}), p); assert false; }
    }
  }

  /** All nonzero residues together: scaling them permutes them. */
  lemma ScalePermutes(a: int, p: int) returns (image: set<int>, w: int)
    requires Prime(p) && a % p != 0
    ensures image <= Residues(p) && |image| == p - 1
    ensures w == Pow(a, p - 1) && Product(image) % p == (w * Product(Residues(p))) % p
  {
    image, w := ScaleProduct(a, Residues(p), p, p - 1);
  }

  /** Fermat's little theorem. */
  lemma LittleTheorem(a: int, p: int)
    requires Prime(p) && a % p != 0
    ensures PowIsOne(a, p - 1, p)
  {
    var image, w := ScalePermutes(a, p);
    SubsetOfSameSize(image, Residues(p));
    ProductCoprime(image, p);
    Cancel(w, Product(image), p);
  }

  lemma Cancel(w: int, x: int, p: int)
    requires Prime(p) && x % p != 0 && x % p == (w * x) % p
    ensures w % p == 1 % p
  {
    CongruenceIsDivisibility(w * x, x, p);
    assert w * x - x == (w - 1) * x;
    EuclidLemma(w - 1, x, p);
    CongruenceIsDivisibility(w, 1, p);
  }
}
