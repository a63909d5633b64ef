/**
 Divisibility, greatest common divisors and coprimality over the integers: the
 facts (Knuth, TAOCP vol. 2, section 4.5.1) that the rational arithmetic relies on
 when it narrows a gcd or skips a reduction.
 */
module NumberTheory {

  function Abs(x: int): nat {
    if x < 0 then -x else x
  }

  /** d divides n; zero divides nothing here. */
  predicate Divides(d: nat, n: int) {
    d != 0 && n % d == 0
  }

  // ---------- products and quotients ----------

  lemma MulMono(x: int, y: int, k: nat)
    requires x <= y
    ensures x * k <= y * k
  {
  }

  /** Euclidean division is unique. */
  lemma DivModUnique(n: int, d: nat, q: int, r: int)
    requires d > 0 && n == d * q + r && 0 <= r < d
    ensures n / d == q && n % d == r
  {
    var q', r' := n / d, n % d;
    assert d * (q - q') == r' - r;
    if q - q' >= 1 {
      MulMono(1, q - q', d);
    } else if q - q' <= -1 {
      MulMono(q - q', -1, d);
    }
  }

  lemma DividesIntro(d: nat, k: int, n: int)
    requires d > 0 && n == d * k
    ensures Divides(d, n) && n / d == k
  {
    DivModUnique(n, d, k, 0);
  }

  lemma DividesElim(d: nat, n: int)
    requires Divides(d, n)
    ensures n == d * (n / d)
  {
  }

  lemma DividesLinear(d: nat, m: int, n: int, x: int, y: int)
    requires Divides(d, m) && Divides(d, n)
    ensures Divides(d, m * x + n * y)
  {
    DividesElim(d, m);
    DividesElim(d, n);
    calc {
      m * x + n * y;
      d * (m / d) * x + d * (n / d) * y;
      d * ((m / d) * x + (n / d) * y);
    }
    DividesIntro(d, (m / d) * x + (n / d) * y, m * x + n * y);
  }

  lemma DividesMultiple(d: nat, n: int, k: int)
    requires Divides(d, n)
    ensures Divides(d, n * k) && Divides(d, k * n)
  {
    DividesLinear(d, n, n, k, 0);
    assert n * k + n * 0 == n * k == k * n;
  }

  lemma DividesTransitive(c: nat, d: nat, n: int)
    requires Divides(c, d) && Divides(d, n)
    ensures Divides(c, n)
  {
    DividesElim(d, n);
    DividesMultiple(c, d, n / d);
  }

  lemma DividesLe(d: nat, n: int)
    requires Divides(d, n) && n != 0
    ensures d <= Abs(n)
  {
    DividesElim(d, n);
    if n / d >= 1 {
      MulMono(1, n / d, d);
    } else {
      assert n / d != 0;
      MulMono(n / d, -1, d);
    }
  }

  lemma DividesAbs(d: nat, n: int)
    ensures Divides(d, n) <==> Divides(d, Abs(n))
  {
    if n < 0 {
      if Divides(d, n) { DividesMultiple(d, n, -1); }
      if Divides(d, -n) { DividesMultiple(d, -n, -1); assert (-n) * -1 == n; }
    }
  }

  lemma DividesAntisymmetric(c: nat, d: nat)
    requires Divides(c, d) && Divides(d, c)
    ensures c == d
  {
    DividesLe(c, d);
    DividesLe(d, c);
  }

  // ---------- greatest common divisor ----------

  function Gcd(a: nat, b: nat): (g: nat)
    ensures a != 0 || b != 0 ==> g != 0
    decreases b
  {
    if b == 0 then a else Gcd(b, a % b)
  }

  lemma {:induction false} GcdDivides(a: nat, b: nat)
    requires a != 0 || b != 0
    ensures Divides(Gcd(a, b), a) && Divides(Gcd(a, b), b)
    decreases b
  {
    var g := Gcd(a, b);
    if b == 0 {
      DividesIntro(a, 1, a);
      DividesIntro(a, 0, 0);
    } else {
      GcdDivides(b, a % b);
      DividesLinear(g, b, a % b, a / b, 1);
      assert b * (a / b) + (a % b) * 1 == a;
    }
  }

  lemma BezoutStep(a: int, b: int, q: int, u: int, v: int)
    ensures a * v + b * (u - q * v) == b * u + (a - b * q) * v
  {
    assert b * (q * v) == (b * q) * v;
  }

  /** Bezout: the gcd is an integer combination of the arguments. */
  lemma {:induction false} Bezout(a: nat, b: nat) returns (x: int, y: int)
    ensures a * x + b * y == Gcd(a, b)
    decreases b
  {
    if b == 0 {
      x, y := 1, 0;
    } else {
      var u, v := Bezout(b, a % b);
      BezoutStep(a, b, a / b, u, v);
      x, y := v, u - (a / b) * v;
    }
  }

  lemma GcdGreatest(a: nat, b: nat, d: nat)
    requires Divides(d, a) && Divides(d, b)
    ensures Divides(d, Gcd(a, b))
  {
    var x, y := Bezout(a, b);
    DividesLinear(d, a, b, x, y);
  }

  lemma GcdCommutes(a: nat, b: nat)
    ensures Gcd(a, b) == Gcd(b, a)
  {
    if a != 0 || b != 0 {
      GcdDivides(a, b);
      GcdDivides(b, a);
      GcdGreatest(a, b, Gcd(b, a));
      GcdGreatest(b, a, Gcd(a, b));
      DividesAntisymmetric(Gcd(a, b), Gcd(b, a));
    }
  }

  lemma GcdBound(a: nat, b: nat)
    ensures a != 0 ==> 0 < Gcd(a, b) <= a
    ensures b != 0 ==> 0 < Gcd(a, b) <= b
  {
    if a != 0 || b != 0 {
      GcdDivides(a, b);
      if a != 0 { DividesLe(Gcd(a, b), a); }
      if b != 0 { DividesLe(Gcd(a, b), b); }
    }
  }

  // ---------- naturals as quotients and products ----------

  lemma QuotientAtMost(d: nat, c: nat)
    requires c > 0
    ensures 0 <= d / c <= d && (c > 1 ==> d / c <= d / 2)
  {
    MulMono(1, c, d / c);
    if c > 1 { MulMono(2, c, d / c); }
  }

  function Quotient(x: nat, c: nat): (q: nat)
    requires c > 0
    ensures q == x / c && q <= x && (c > 1 ==> q <= x / 2)
  {
    QuotientAtMost(x, c);
    x / c
  }

  function Times(x: nat, y: nat): (z: nat)
    ensures z == x * y
  {
    MulMono(0, x, y);
    x * y
  }

  // ---------- coprimality ----------

  predicate Coprime(a: nat, b: nat) {
    Gcd(a, b) == 1
  }

  lemma CoprimeCommutes(a: nat, b: nat)
    ensures Coprime(a, b) == Coprime(b, a)
  {
    GcdCommutes(a, b);
  }

  /** An integer combination equal to one witnesses coprimality. */
  lemma CoprimeIntro(a: nat, b: nat, x: int, y: int)
    requires a * x + b * y == 1
    ensures Coprime(a, b)
  {
    assert a != 0 || b != 0;
    GcdDivides(a, b);
    DividesLinear(Gcd(a, b), a, b, x, y);
    DividesLe(Gcd(a, b), 1);
  }

  /** Every common divisor of coprime numbers is one. */
  lemma CoprimeElim(a: nat, b: nat, d: nat)
    requires Coprime(a, b) && Divides(d, a) && Divides(d, b)
    ensures d == 1
  {
    GcdGreatest(a, b, d);
    DividesLe(d, 1);
  }

  lemma CoprimeOfDivisors(a: nat, b: nat, c: nat, d: nat)
    requires Coprime(a, b) && Divides(c, a) && Divides(d, b)
    ensures Coprime(c, d)
  {
    GcdDivides(c, d);
    DividesTransitive(Gcd(c, d), c, a);
    DividesTransitive(Gcd(c, d), d, b);
    CoprimeElim(a, b, Gcd(c, d));
  }

  lemma ProductOfCombinations(p: int, q: int, r: int, s: int)
    ensures (p + q) * (r + s) == p * r + q * r + p * s + q * s
  {
  }

  lemma CoprimeProduct(a: nat, b: nat, c: nat)
    requires Coprime(a, c) && Coprime(b, c)
    ensures Coprime(a * b, c)
  {
    hide Gcd;
    var x, y := Bezout(a, c);
    var u, v := Bezout(b, c);
    ProductOfCombinations(a * x, c * y, b * u, c * v);
    assert (a * x) * (b * u) == (a * b) * (x * u);
    var w := y * (b * u) + (a * x) * v + y * (c * v);
    assert c * w == (c * y) * (b * u) + (a * x) * (c * v) + (c * y) * (c * v) by {
      assert c * (y * (b * u)) == (c * y) * (b * u);
      assert c * ((a * x) * v) == (a * x) * (c * v);
      assert c * (y * (c * v)) == (c * y) * (c * v);
    }
    assert (a * b) * (x * u) + c * w == 1;
    CoprimeIntro(a * b, c, x * u, w);
  }

  /** Euclid's lemma. */
  lemma EuclidLemma(d: nat, a: nat, b: int)
    requires d != 0 && Coprime(d, a) && Divides(d, a * b)
    ensures Divides(d, b)
  {
    var x, y := Bezout(d, a);
    calc {
      b;
      (d * x + a * y) * b;
      { assert (d * x) * b == d * (x * b); assert (a * y) * b == (a * b) * y; }
      d * (x * b) + (a * b) * y;
    }
    DividesIntro(d, 1, d);
    DividesLinear(d, d, a * b, x * b, y);
  }

  lemma ZeroProduct(x: int, y: int)
    ensures x * y == 0 ==> x == 0 || y == 0
  {
    if x > 0 && y > 0 { MulMono(1, x, y); }
    if x > 0 && y < 0 { MulMono(1, x, -y); }
    if x < 0 && y > 0 { MulMono(1, -x, y); }
    if x < 0 && y < 0 { MulMono(1, -x, -y); }
  }

  lemma MulCancel(k: int, x: int, y: int)
    requires k != 0 && k * x == k * y
    ensures x == y
  {
    assert k * (x - y) == 0;
    ZeroProduct(k, x - y);
  }

  /** The cofactors of a Bezout combination are coprime. */
  lemma CoprimeCofactors(g: nat, a: nat, b: nat, x: int, y: int)
    requires g != 0 && (g * a) * x + (g * b) * y == g
    ensures Coprime(a, b)
  {
    assert g * (a * x + b * y) == g * 1 by {
      assert g * (a * x + b * y) == g * (a * x) + g * (b * y);
      assert g * (a * x) == (g * a) * x && g * (b * y) == (g * b) * y;
    }
    MulCancel(g, a * x + b * y, 1);
    CoprimeIntro(a, b, x, y);
  }

  /** Dividing both arguments by their gcd leaves coprime numbers. */
  lemma CofactorsCoprime(a: nat, b: nat)
    requires a != 0 || b != 0
    ensures Coprime(a / Gcd(a, b), b / Gcd(a, b))
    ensures a == Gcd(a, b) * (a / Gcd(a, b)) && b == Gcd(a, b) * (b / Gcd(a, b))
  {
    var g := Gcd(a, b);
    GcdDivides(a, b);
    DividesElim(g, a);
    DividesElim(g, b);
    var x, y := Bezout(a, b);
    CoprimeCofactors(g, a / g, b / g, x, y);
  }

  /** A number coprime to a factor drops out of a gcd with the product. */
  lemma GcdDropCoprimeFactor(n: nat, g: nat, p: nat)
    requires n != 0 && g != 0 && p != 0 && Coprime(n, p)
    ensures g * p != 0 && Divides(Gcd(n, g * p), g)
  {
    MulMono(1, g, p);
    var c := Gcd(n, g * p);
    GcdDivides(n, g * p);
    DividesIntro(p, 1, p);
    CoprimeOfDivisors(n, p, c, p);
    assert g * p == p * g;
    EuclidLemma(c, p, g);
  }
}
