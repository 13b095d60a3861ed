/** Arithmetic modulo a prime, up to the existence of inverses. */
module Modular {

  predicate Divides(m: nat, n: nat)
    requires m > 0
  {
    n % m == 0
  }

  ghost predicate IsPrime(p: nat) {
    p >= 2 && forall m: nat :: 2 <= m < p ==> !Divides(m, p)
  }

  lemma {:induction false} AddMultiple(x: int, k: int, p: nat)
    requires p > 0
    ensures (x + k * p) % p == x % p
    decreases if k < 0 then -k else k
  {
    if k > 0 {
      AddMultiple(x, k - 1, p);
      assert x + k * p == (x + (k - 1) * p) + p;
      AddOnce(x + (k - 1) * p, p);
    } else if k < 0 {
      AddMultiple(x, k + 1, p);
      assert x + k * p + p == x + (k + 1) * p;
      AddOnce(x + k * p, p);
    }
  }

  lemma AddOnce(x: int, p: nat)
    requires p > 0
    ensures (x + p) % p == x % p
  {
    var q, r := x / p, x % p;
    assert x + p == (q + 1) * p + r;
    QuotientUnique(x + p, q + 1, r, p);
  }

  lemma QuotientUnique(x: int, q: int, r: int, p: nat)
    requires p > 0 && 0 <= r < p && x == q * p + r
    ensures x % p == r
  {
    var q', r' := x / p, x % p;
    assert x == q' * p + r';
    assert (q' - q) * p == r - r' by { assert (q' - q) * p == q' * p - q * p; }
    if q' > q {
      AtLeastOnce(q' - q, p);
    } else if q' < q {
      AtLeastOnce(q - q', p);
    }
  }

  lemma AtLeastOnce(k: int, p: nat)
    requires k >= 1
    ensures k * p >= p
  {
    assert k * p == (k - 1) * p + p;
  }

  lemma AddMod(a: int, b: int, p: nat)
    requires p > 0
    ensures (a % p + b) % p == (a + b) % p == (a + b % p) % p
  {
    assert a + b == (a % p + b) + (a / p) * p;
    AddMultiple(a % p + b, a / p, p);
    assert a + b == (a + b % p) + (b / p) * p;
    AddMultiple(a + b % p, b / p, p);
  }

  lemma MulModLeft(a: int, b: int, p: nat)
    requires p > 0
    ensures (a % p * b) % p == (a * b) % p
  {
    var q, r := a / p, a % p;
    Expand(a, b, q, r, p);
    AddMultiple(r * b, q * b, p);
  }

  lemma Expand(a: int, b: int, q: int, r: int, p: int)
    requires a == q * p + r
    ensures a * b == r * b + q * b * p
  {
    assert a * b == q * p * b + r * b;
    assert q * p * b == q * b * p;
  }

  lemma MulMod(a: int, b: int, p: nat)
    requires p > 0
    ensures (a % p * b) % p == (a * b) % p == (a * (b % p)) % p
  {
    MulModLeft(a, b, p);
    MulModLeft(b, a, p);
    assert a * b == b * a;
    assert a * (b % p) == b % p * a;
  }

  lemma SmallMod(a: int, p: nat)
    requires 0 <= a < p
    ensures a % p == a
  {
  }

  /** Bezout coefficients by the extended Euclidean algorithm. */
  function Bezout(a: nat, b: nat): (int, int)
    decreases b
  {
    if b == 0 then (1, 0)
    else var (x, y) := Bezout(b, a % b); (y, x - a / b * y)
  }

  function Gcd(a: nat, b: nat): nat
    decreases b
  {
    if b == 0 then a else Gcd(b, a % b)
  }

  lemma {:induction false} BezoutLaw(a: nat, b: nat)
    ensures Bezout(a, b).0 * a + Bezout(a, b).1 * b == Gcd(a, b)
    decreases b
  {
    if b > 0 {
      BezoutLaw(b, a % b);
      var q, r := a / b, a % b;
      var (x, y) := Bezout(b, r);
      assert Bezout(a, b) == (y, x - q * y);
      assert Gcd(a, b) == Gcd(b, r);
      BezoutStep(a, b, q, r, x, y, Gcd(b, r));
    }
  }

  lemma BezoutStep(a: int, b: int, q: int, r: int, x: int, y: int, g: int)
    requires a == q * b + r && x * b + y * r == g
    ensures y * a + (x - q * y) * b == g
  {
    assert y * a == y * (q * b) + y * r;
    assert (x - q * y) * b == x * b - q * y * b;
    assert y * (q * b) == q * y * b;
  }

  lemma FactorStep(q: int, v: int, u: int, g: int)
    ensures q * (v * g) + u * g == (q * v + u) * g
  {
    assert (q * v + u) * g == q * v * g + u * g;
  }

  lemma {:induction false} GcdFactors(a: nat, b: nat) returns (u: nat, v: nat)
    ensures a == u * Gcd(a, b) && b == v * Gcd(a, b)
    decreases b
  {
    if b == 0 {
      return 1, 0;
    }
    var w: nat;
    v, w := GcdFactors(b, a % b);
    FactorStep(a / b, v, w, Gcd(a, b));
    u := a / b * v + w;
  }

  /** The inverse of a modulo p. */
  function Inverse(a: nat, p: nat): int
    requires p > 0
  {
    Bezout(a, p).0 % p
  }

  lemma InverseLaw(a: nat, p: nat)
    requires IsPrime(p) && 0 < a < p
    ensures (a * Inverse(a, p)) % p == 1
  {
    assert Gcd(a, p) == 1 by { PrimeGcd(a, p); }
    BezoutLaw(a, p);
    var (x, y) := Bezout(a, p);
    UnitProduct(a, x, y, p);
  }

  lemma UnitProduct(a: nat, x: int, y: int, p: nat)
    requires p >= 2 && x * a + y * p == 1
    ensures (a * (x % p)) % p == 1
  {
    MulMod(a, x, p);
    assert a * x == 1 + (-y) * p by { assert a * x == x * a; assert (-y) * p == -(y * p); }
    AddMultiple(1, -y, p);
    SmallMod(1, p);
  }

  lemma PrimeGcd(a: nat, p: nat)
    requires IsPrime(p) && 0 < a < p
    ensures Gcd(a, p) == 1
  {
    var g := Gcd(a, p);
    var u, v := GcdFactors(a, p);
    AtLeastOnce(u, g);
    if g >= 2 {
      AddMultiple(0, v, g);
      assert Divides(g, p);
    }
  }
}
