/**
 Divisibility, primality and greatest common divisors over the unbounded integers:
 the mathematics against which the 64-bit code of src/math/number_theory.cpp is proved.
 */
module Divisibility {

  ghost predicate Prime(p: int) {
    p >= 2 && forall d {:trigger p % d} :: 2 <= d < p ==> p % d != 0
  }

  lemma ModUnique(n: int, d: int, q: int, r: int)
    requires d > 0 && 0 <= r < d && n == d * q + r
    ensures n % d == r && n / d == q
  {
    var k := n / d - q;
    assert n == d * (n / d) + n % d;
    assert d * k == r - n % d;
    if k >= 1 {
      MulLe(1, k, d);
      assert false;
    } else if k <= -1 {
      MulLe(k, -1, d);
      assert false;
    }
  }

  lemma MulLe(a: int, b: int, c: int)
    requires a <= b && c >= 0
    ensures a * c <= b * c && c * a <= c * b
  {
    assert (b - a) * c >= 0;
  }

  lemma CrossMultiply(a: int, b: int, c: int)
    ensures (a * b) * c == (a * c) * b && a * (b * c) == b * (a * c) && a * (b * c) == (a * b) * c
  {
  }

  lemma MultipleMod(d: int, k: int)
    requires d > 0
    ensures (d * k) % d == 0 && (k * d) % d == 0
    ensures (d * k) / d == k
  {
    ModUnique(d * k, d, k, 0);
  }

  lemma ModSum(a: int, b: int, d: int)
    requires d > 0
    ensures (a + b) % d == (a % d + b % d) % d
    ensures a % d == 0 && b % d == 0 ==> (a + b) % d == 0 && (a - b) % d == 0
  {
    var s := a % d + b % d;
    assert a + b == d * (a / d + b / d + s / d) + s % d by {
      assert a == d * (a / d) + a % d && b == d * (b / d) + b % d && s == d * (s / d) + s % d;
    }
    ModUnique(a + b, d, a / d + b / d + s / d, s % d);
    if a % d == 0 && b % d == 0 {
      assert a - b == d * (a / d - b / d);
      MultipleMod(d, a / d - b / d);
    }
  }

  lemma ModProductLeft(a: int, b: int, d: int)
    requires d > 0
    ensures (a * b) % d == ((a % d) * b) % d
  {
    var q, r := a / d, a % d;
    assert a == d * q + r;
    calc {
      a * b;
      (d * q + r) * b;
      r * b + (d * q) * b;
      r * b + d * (q * b);
    }
    ModShift(r * b, q * b, d);
  }

  lemma ModProduct(a: int, b: int, d: int)
    requires d > 0
    ensures (a * b) % d == ((a % d) * b) % d
    ensures (a * b) % d == ((a % d) * (b % d)) % d
  {
    ModProductLeft(a, b, d);
    var r := a % d;
    ModProductLeft(b, r, d);
    assert r * b == b * r && (b % d) * r == r * (b % d);
  }

  lemma ModShift(a: int, k: int, d: int)
    requires d > 0
    ensures (a + d * k) % d == a % d
  {
    assert a + d * k == d * (a / d + k) + a % d;
    ModUnique(a + d * k, d, a / d + k, a % d);
  }

  /** Congruence of a and b is divisibility of their difference. */
  lemma CongruenceIsDivisibility(a: int, b: int, d: int)
    requires d > 0
    ensures a % d == b % d <==> (a - b) % d == 0
  {
    assert a == d * (a / d) + a % d && b == d * (b / d) + b % d;
    if a % d == b % d {
      assert a - b == d * (a / d - b / d);
      MultipleMod(d, a / d - b / d);
    }
    if (a - b) % d == 0 {
      assert a == b + d * ((a - b) / d);
      ModShift(b, (a - b) / d, d);
    }
  }

  lemma DividesTransitive(a: int, b: int, c: int)
    requires a > 0 && b > 0 && b % a == 0 && c % b == 0
    ensures c % a == 0
  {
    assert c == b * (c / b) && b == a * (b / a);
    assert c == a * ((b / a) * (c / b));
    MultipleMod(a, (b / a) * (c / b));
  }

  lemma DividesMultiple(a: int, b: int, k: int)
    requires a > 0 && b % a == 0
    ensures (b * k) % a == 0 && (k * b) % a == 0
  {
    assert b * k == a * ((b / a) * k);
    MultipleMod(a, (b / a) * k);
  }

  lemma DivisorBounds(d: int, n: int)
    requires d > 0 && n > 0 && n % d == 0
    ensures d <= n && 1 <= n / d <= n && n == d * (n / d) && n % (n / d) == 0
  {
    var k := n / d;
    assert n == d * k;
    if k <= 0 {
      MulLe(k, 0, d);
      assert false;
    }
    MulLe(1, k, d);
    MulLe(1, d, k);
    MultipleMod(k, d);
  }

  /** Every n >= 2 has a smallest divisor >= 2, and it is prime. */
  ghost function LeastDivisor(n: int): (q: int)
    requires n >= 2
    ensures Prime(q) && q <= n && n % q == 0
    ensures forall d {:trigger n % d} :: 2 <= d < q ==> n % d != 0
  {
    LeastDivisorFrom(n, 2)
  }

  ghost function LeastDivisorFrom(n: int, d: int): (q: int)
    requires 2 <= d <= n
    requires forall e {:trigger n % e} :: 2 <= e < d ==> n % e != 0
    ensures Prime(q) && d <= q <= n && n % q == 0
    ensures forall e {:trigger n % e} :: 2 <= e < q ==> n % e != 0
    decreases n - d
  {
    if n % d == 0 then
      assert Prime(d) by {
        forall e {:trigger d % e} | 2 <= e < d
          ensures d % e != 0
        {
          if d % e == 0 { DividesTransitive(e, d, n); assert false; }
        }
      }
      d
    else
      assert n % n == 0;
      LeastDivisorFrom(n, d + 1)
  }

  /** Greatest common divisor by Euclid's recursion. */
  ghost function Gcd(a: int, b: int): (g: int)
    requires a >= 0 && b >= 0
    ensures a + b > 0 ==> g > 0
    decreases b
  {
    if b == 0 then a else Gcd(b, a % b)
  }

  lemma {:induction false} GcdDivides(a: int, b: int)
    requires a >= 0 && b >= 0 && a + b > 0
    ensures a % Gcd(a, b) == 0 && b % Gcd(a, b) == 0
    decreases b
  {
    if b == 0 {
      MultipleMod(a, 1);
      MultipleMod(a, 0);
    } else {
      var g := Gcd(b, a % b);
      GcdDivides(b, a % b);
      assert a == b * (a / b) + a % b;
      DividesMultiple(g, b, a / b);
      ModSum(b * (a / b), a % b, g);
    }
  }

  lemma {:induction false} GcdGreatest(a: int, b: int, d: int)
    requires a >= 0 && b >= 0 && a + b > 0 && d > 0
    requires a % d == 0 && b % d == 0
    ensures Gcd(a, b) % d == 0
    decreases b
  {
    if b != 0 {
      assert a % b == a - b * (a / b);
      DividesMultiple(d, b, a / b);
      ModSum(a, b * (a / b), d);
      GcdGreatest(b, a % b, d);
    }
  }

  /** The greatest common divisor is an integer combination of its arguments. */
  lemma {:induction false} Bezout(a: int, b: int) returns (x: int, y: int)
    requires a >= 0 && b >= 0 && a + b > 0
    ensures a * x + b * y == Gcd(a, b)
    decreases b
  {
    if b == 0 {
      x, y := 1, 0;
    } else {
      var u, v := Bezout(b, a % b);
      x, y := v, u - (a / b) * v;
      assert a == b * (a / b) + a % b;
      calc {
        a * x + b * y;
        a * v + b * u - b * ((a / b) * v);
        (b * (a / b) + a % b) * v + b * u - b * ((a / b) * v);
        { assert (b * (a / b) + a % b) * v == b * ((a / b) * v) + (a % b) * v; }
        b * u + (a % b) * v;
      }
    }
  }

  /** Greatest common divisor with a prime: either 1 or the prime divides. */
  lemma GcdWithPrime(a: int, p: int)
    requires a >= 0 && Prime(p)
    ensures a % p != 0 ==> Gcd(a, p) == 1
    ensures a % p == 0 ==> Gcd(a, p) == p
  {
    var g := Gcd(a, p);
    GcdDivides(a, p);
    DivisorBounds(g, p);
    if a % p == 0 {
      MultipleMod(p, 1);
      GcdGreatest(a, p, p);
      DivisorBounds(p, g);
    } else if g != 1 {
      assert p % g == 0;
      assert g == p;
    }
  }

  /** Euclid's lemma. */
  lemma EuclidLemma(a: int, b: int, p: int)
    requires Prime(p) && (a * b) % p == 0
    ensures a % p == 0 || b % p == 0
  {
    if a % p != 0 {
      var r := a % p;
      MultipleModSelf(r, p);
      GcdWithPrime(r, p);
      var x, y := Bezout(r, p);
      assert r * x + p * y == 1;
      assert b == (r * b) * x + p * (y * b) by {
        assert b == (r * x + p * y) * b;
        assert (r * x + p * y) * b == (r * b) * x + p * (y * b);
      }
      ModProduct(a, b, p);
      DividesMultiple(p, r * b, x);
      ModShift((r * b) * x, y * b, p);
    }
  }

  lemma MultipleModSelf(r: int, p: int)
    requires 0 <= r < p
    ensures r % p == r
  {
    ModUnique(r, p, 0, r);
  }
}
