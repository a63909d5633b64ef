/**
 Exact rationals as canonical fractions: the values the fixed-width arithmetic of
 FastRational is measured against, and the canonical forms its word paths produce.
 */
module Rationals {
  import opened NumberTheory

  datatype Q = Q(num: int, den: nat)

  /** Lowest terms with a positive denominator. */
  predicate Canonical(q: Q) {
    q.den > 0 && Coprime(Abs(q.num), q.den)
  }

  ghost function RealOf(q: Q): real
    requires q.den > 0
  {
    q.num as real / q.den as real
  }

  /** n/d in lowest terms. */
  function Reduce(n: int, d: nat): (q: Q)
    requires d > 0
    ensures Canonical(q) && RealOf(q) == n as real / d as real
  {
    ReduceIsExact(n, d);
    Q(n / Gcd(Abs(n), d), d / Gcd(Abs(n), d))
  }

  lemma FractionsEqual(n: int, d: nat, p: int, q: nat)
    requires d > 0 && q > 0 && n * q == p * d
    ensures n as real / d as real == p as real / q as real
  {
    var x, y := n as real / d as real, p as real / q as real;
    assert x * d as real == n as real && y * q as real == p as real;
    assert (n * q) as real == n as real * q as real;
    assert (p * d) as real == p as real * d as real;
    assert (x - y) * (d as real * q as real) == 0.0 by {
      assert (x - y) * (d as real * q as real)
          == (x * d as real) * q as real - (y * q as real) * d as real;
    }
    assert d as real * q as real != 0.0;
  }

  lemma FractionsEqualConverse(n: int, d: nat, p: int, q: nat)
    requires d > 0 && q > 0 && n as real / d as real == p as real / q as real
    ensures n * q == p * d
  {
    var x, y := n as real / d as real, p as real / q as real;
    assert x * d as real == n as real && y * q as real == p as real;
    assert (n * q) as real == (p * d) as real by {
      assert (n * q) as real == n as real * q as real == (x * d as real) * q as real;
      assert (p * d) as real == p as real * d as real == (y * q as real) * d as real;
    }
  }

  lemma ProductSign(c: nat, q: int)
    requires c > 0
    ensures (c * q > 0 <==> q > 0) && (c * q < 0 <==> q < 0)
  {
    if q > 0 { MulMono(1, q, c); }
    if q < 0 { MulMono(q, -1, c); }
  }

  lemma AbsQuotient(c: nat, n: int)
    requires Divides(c, n)
    ensures Abs(n / c) == Abs(n) / c
  {
    DividesElim(c, n);
    ProductSign(c, n / c);
    if n < 0 {
      DividesIntro(c, -(n / c), -n);
    }
  }

  lemma QuotientsEqual(c: nat, n: int, d: nat)
    requires d > 0 && Divides(c, n) && Divides(c, d)
    ensures d / c > 0 && RealOf(Q(n / c, d / c)) == n as real / d as real
  {
    DividesElim(c, n);
    DividesElim(c, d);
    var p, q := n / c, d / c;
    assert q > 0;
    assert p * (c * q) == (c * p) * q;
    FractionsEqual(p, q, n, d);
  }

  lemma ReduceIsExact(n: int, d: nat)
    requires d > 0
    ensures var c := Gcd(Abs(n), d);
            c > 0 && Divides(c, n) && Divides(c, d) && Canonical(Q(n / c, d / c))
            && RealOf(Q(n / c, d / c)) == n as real / d as real
  {
    var c := Gcd(Abs(n), d);
    GcdDivides(Abs(n), d);
    DividesAbs(c, n);
    QuotientsEqual(c, n, d);
    CofactorsCoprime(Abs(n), d);
    AbsQuotient(c, n);
  }

  /** Canonical forms are unique: comparing the two parts decides equality of values. */
  lemma CanonicalUnique(p: Q, q: Q)
    requires Canonical(p) && Canonical(q)
    ensures p == q <==> RealOf(p) == RealOf(q)
  {
    if RealOf(p) == RealOf(q) {
      FractionsEqualConverse(p.num, p.den, q.num, q.den);
      CanonicalDenDivides(p, q);
      CanonicalDenDivides(q, p);
      DividesAntisymmetric(p.den, q.den);
      MulCancel(p.den, p.num, q.num);
    }
  }

  lemma CanonicalDenDivides(p: Q, q: Q)
    requires Canonical(p) && q.den > 0 && p.num * q.den == q.num * p.den
    ensures Divides(p.den, q.den)
  {
    CoprimeCommutes(p.den, Abs(p.num));
    DividesIntro(p.den, q.num, p.num * q.den);
    assert Divides(p.den, Abs(p.num) * q.den) by {
      DividesMultiple(p.den, p.num * q.den, if p.num < 0 then -1 else 1);
      assert p.num < 0 ==> p.num * q.den * -1 == -p.num * q.den;
    }
    EuclidLemma(p.den, Abs(p.num), q.den);
  }

  // ---------- exact operations on fractions ----------

  lemma RealSum(a: Q, b: Q, n: int, d: nat)
    requires a.den > 0 && b.den > 0 && d > 0
    requires n * (a.den * b.den) == (a.num * b.den + b.num * a.den) * d
    ensures n as real / d as real == RealOf(a) + RealOf(b)
  {
    MulMono(1, a.den, b.den);
    FractionsEqual(n, d, a.num * b.den + b.num * a.den, a.den * b.den);
    var x, y := RealOf(a), RealOf(b);
    var r, s := a.den as real, b.den as real;
    assert x * r == a.num as real && y * s == b.num as real;
    assert (x + y) * (r * s) == (a.num * b.den + b.num * a.den) as real by {
      assert (x + y) * (r * s) == (x * r) * s + (y * s) * r;
      assert (a.num * b.den) as real == a.num as real * s;
      assert (b.num * a.den) as real == b.num as real * r;
    }
    assert (a.den * b.den) as real == r * s;
    DivideReal(x + y, r * s, (a.num * b.den + b.num * a.den) as real);
  }

  lemma RealProduct(a: Q, b: Q, n: int, d: nat)
    requires a.den > 0 && b.den > 0 && d > 0
    requires n * (a.den * b.den) == (a.num * b.num) * d
    ensures n as real / d as real == RealOf(a) * RealOf(b)
  {
    MulMono(1, a.den, b.den);
    FractionsEqual(n, d, a.num * b.num, a.den * b.den);
    var x, y := RealOf(a), RealOf(b);
    var r, s := a.den as real, b.den as real;
    assert x * r == a.num as real && y * s == b.num as real;
    assert (x * y) * (r * s) == (x * r) * (y * s);
    assert (a.num * b.num) as real == a.num as real * b.num as real;
    assert (a.den * b.den) as real == r * s;
    DivideReal(x * y, r * s, (a.num * b.num) as real);
  }

  lemma DivideReal(x: real, d: real, n: real)
    requires d != 0.0 && x * d == n
    ensures n / d == x
  {
  }

  function Neg(q: Q): Q { Q(-q.num, q.den) }

  lemma NegIsExact(q: Q)
    requires q.den > 0
    ensures RealOf(Neg(q)) == -RealOf(q) && (Canonical(q) ==> Canonical(Neg(q)))
  {
    var x := RealOf(q);
    assert x * q.den as real == q.num as real;
    DivideReal(-x, q.den as real, (-q.num) as real);
  }

  /** The reciprocal keeps lowest terms; the sign moves to the numerator. */
  function Inv(q: Q): Q
    requires q.num != 0
  {
    if q.num > 0 then Q(q.den, q.num) else Q(-(q.den as int), -q.num)
  }

  lemma InverseReal(x: real, y: real, n: real, d: real)
    requires n != 0.0 && d != 0.0 && x * d == n && y * n == d
    ensures x != 0.0 && y == 1.0 / x
  {
    assert x != 0.0;
    assert (x * y) * d == y * (x * d) == y * n == d;
    assert (x * y - 1.0) * d == (x * y) * d - d == 0.0;
    assert y * x == 1.0;
    DivideReal(y, x, 1.0);
  }

  lemma ReciprocalOfQuotient(n: real, d: real)
    requires n != 0.0 && d != 0.0
    ensures n / d != 0.0 && d / n == 1.0 / (n / d) && -d / -n == 1.0 / (n / d)
  {
    MulQuotient(n, d);
    MulQuotient(d, n);
    MulQuotient(-d, -n);
    InverseReal(n / d, d / n, n, d);
    InverseReal(n / d, -d / -n, n, d);
  }

  lemma InvIsExact(q: Q)
    requires q.den > 0 && q.num != 0
    ensures Inv(q).den > 0 && RealOf(q) != 0.0 && RealOf(Inv(q)) == 1.0 / RealOf(q)
    ensures Canonical(q) ==> Canonical(Inv(q))
  {
    GcdCommutes(Abs(q.num), q.den);
    ReciprocalOfQuotient(q.num as real, q.den as real);
    assert RealOf(Inv(q)) == if q.num > 0 then q.den as real / q.num as real
                             else -(q.den as real) / -(q.num as real);
  }

  lemma MulQuotient(n: real, d: real)
    requires d != 0.0
    ensures (n / d) * d == n && (n / d) * -d == -n
  {
  }

  function Add(a: Q, b: Q): (r: Q)
    requires a.den > 0 && b.den > 0
    ensures Canonical(r) && RealOf(r) == RealOf(a) + RealOf(b)
  {
    MulMono(1, a.den, b.den);
    RealSum(a, b, a.num * b.den + b.num * a.den, a.den * b.den);
    Reduce(a.num * b.den + b.num * a.den, a.den * b.den)
  }

  function Sub(a: Q, b: Q): (r: Q)
    requires a.den > 0 && b.den > 0
    ensures Canonical(r) && RealOf(r) == RealOf(a) - RealOf(b)
  {
    NegIsExact(b);
    Add(a, Neg(b))
  }

  function Mul(a: Q, b: Q): (r: Q)
    requires a.den > 0 && b.den > 0
    ensures Canonical(r) && RealOf(r) == RealOf(a) * RealOf(b)
  {
    MulMono(1, a.den, b.den);
    RealProduct(a, b, a.num * b.num, a.den * b.den);
    Reduce(a.num * b.num, a.den * b.den)
  }

  function Div(a: Q, b: Q): (r: Q)
    requires a.den > 0 && b.den > 0 && b.num != 0
    ensures RealOf(b) != 0.0 && Canonical(r) && RealOf(r) == RealOf(a) / RealOf(b)
  {
    InvIsExact(b);
    assert RealOf(a) * (1.0 / RealOf(b)) == RealOf(a) / RealOf(b);
    Mul(a, Inv(b))
  }

  // ---------- canonical forms reached without a full reduction ----------

  /** An integer plus a fraction keeps the fraction's denominator. */
  lemma AddInteger(a: Q, k: int)
    requires Canonical(a)
    ensures Canonical(Q(a.num + k * a.den, a.den))
    ensures RealOf(Q(a.num + k * a.den, a.den)) == RealOf(a) + RealOf(Q(k, 1))
  {
    var n := a.num + k * a.den;
    var c := Gcd(Abs(n), a.den);
    GcdDivides(Abs(n), a.den);
    DividesAbs(c, n);
    DividesLinear(c, n, a.den, 1, -k);
    assert n * 1 + a.den * -k == a.num;
    DividesAbs(c, a.num);
    CoprimeElim(Abs(a.num), a.den, c);
    assert n * (a.den * 1) == (a.num * 1 + k * a.den) * a.den;
    RealSum(a, Q(k, 1), n, a.den);
  }

  lemma CoprimeWithTerm(x: int, k: nat, y: int, p: nat, z: int)
    requires p > 0 && Coprime(Abs(x), p) && Coprime(k, p) && z == x * k + y * p
    ensures Coprime(Abs(z), p)
  {
    CoprimeProduct(Abs(x), k, p);
    var c := Gcd(Abs(z), p);
    GcdDivides(Abs(z), p);
    DividesAbs(c, z);
    DividesLinear(c, z, p, 1, -y);
    assert z * 1 + p * -y == x * k by { assert p * -y == -(y * p); }
    DividesAbs(c, x * k);
    assert Abs(x * k) == Abs(x) * k by {
      if x < 0 { assert x * k == -((-x) * k); MulMono(0, -x, k); } else { MulMono(0, x, k); }
    }
    CoprimeElim(Abs(x) * k, p, c);
  }

  /** The numerator and denominator a sum has over the least common denominator. */
  function SumNum(a: Q, b: Q): int
    requires a.den > 0
  {
    a.num * (b.den / Gcd(a.den, b.den)) + b.num * (a.den / Gcd(a.den, b.den))
  }

  function SumDen(a: Q, b: Q): nat
    requires a.den > 0
  {
    Times(a.den, Quotient(b.den, Gcd(a.den, b.den)))
  }

  /** With g the gcd of the denominators g*r and g*s, the sum over g*r*s is coprime to r*s. */
  lemma SumCoprimeToCofactors(x: int, y: int, g: nat, r: nat, s: nat)
    requires g > 0 && r > 0 && s > 0 && Coprime(r, s)
    requires Coprime(Abs(x), g * r) && Coprime(Abs(y), g * s)
    ensures Coprime(Abs(x * s + y * r), r * s)
  {
    var n := x * s + y * r;
    MulMono(1, g, r);
    MulMono(1, g, s);
    DividesIntro(r, g, g * r);
    DividesIntro(s, g, g * s);
    CoprimeOfFactor(Abs(x), g * r, r);
    CoprimeOfFactor(Abs(y), g * s, s);
    CoprimeCommutes(r, s);
    CoprimeWithTerm(x, s, y, r, n);
    CoprimeWithTerm(y, r, x, s, n);
    CoprimeCommutes(Abs(n), r);
    CoprimeCommutes(Abs(n), s);
    CoprimeProduct(r, s, Abs(n));
    CoprimeCommutes(r * s, Abs(n));
  }

  /**
   Knuth's theorem behind the narrowing in addition and substraction: the gcd left in a
   sum over the least common denominator divides the gcd of the two denominators.
   */
  lemma SumGcdDividesDenGcd(a: Q, b: Q)
    requires Canonical(a) && Canonical(b) && SumNum(a, b) != 0
    ensures SumDen(a, b) > 0
    ensures Divides(Gcd(Abs(SumNum(a, b)), SumDen(a, b)), Gcd(a.den, b.den))
  {
    hide Gcd;
    var g := Gcd(a.den, b.den);
    CofactorsCoprime(a.den, b.den);
    var r, s := a.den / g, b.den / g;
    SumCoprimeToCofactors(a.num, b.num, g, r, s);
    MulMono(1, r, s);
    assert SumDen(a, b) == g * (r * s) by { assert (g * r) * s == g * (r * s); }
    GcdDropCoprimeFactor(Abs(SumNum(a, b)), g, r * s);
  }

  lemma DividesSelf(d: nat)
    ensures d > 0 ==> Divides(d, d)
  {
    if d > 0 { DividesIntro(d, 1, d); }
  }

  lemma CoprimeOfFactor(x: nat, d: nat, f: nat)
    requires d > 0 && Coprime(x, d) && Divides(f, d)
    ensures Coprime(x, f)
  {
    if x == 0 {
      GcdBound(0, d);
      assert Gcd(0, d) == Gcd(d, 0) == d == 1;
      DividesLe(f, 1);
    } else {
      DividesSelf(x);
      CoprimeOfDivisors(x, d, x, f);
    }
  }

  lemma CommonDenominator(x: int, y: int, g: nat, r: nat, s: nat)
    ensures (x * s + y * r) * ((g * r) * (g * s)) == (x * (g * s) + y * (g * r)) * ((g * r) * s)
  {
    var n := x * s + y * r;
    assert g * n == x * (g * s) + y * (g * r) by {
      assert g * (x * s) == x * (g * s) && g * (y * r) == y * (g * r);
    }
    assert (g * r) * (g * s) == g * ((g * r) * s);
    var d := (g * r) * s;
    assert n * (g * d) == (g * n) * d;
  }

  /** Reducing the sum over the least common denominator gives the exact sum. */
  lemma SumOverLcd(a: Q, b: Q)
    requires a.den > 0 && b.den > 0
    ensures SumDen(a, b) > 0
    ensures SumNum(a, b) as real / SumDen(a, b) as real == RealOf(a) + RealOf(b)
  {
    var g := Gcd(a.den, b.den);
    CofactorsCoprime(a.den, b.den);
    MulMono(1, a.den, b.den / g);
    CommonDenominator(a.num, b.num, g, a.den / g, b.den / g);
    RealSum(a, b, SumNum(a, b), SumDen(a, b));
  }

  // Cross-cancelled products are canonical.

  /** Dividing out gcd(|a.num|, b.den) and gcd(|b.num|, a.den) alone gives lowest terms. */
  lemma CrossCancel(a: Q, b: Q)
    requires Canonical(a) && Canonical(b)
    ensures var c1, c2 := Gcd(Abs(a.num), b.den), Gcd(a.den, Abs(b.num));
            c1 > 0 && c2 > 0
            && Divides(c1, a.num) && Divides(c1, b.den) && Divides(c2, b.num) && Divides(c2, a.den)
            && a.den / c2 > 0 && b.den / c1 > 0
    ensures CrossProduct(a, b).den > 0 && Canonical(CrossProduct(a, b))
            && RealOf(CrossProduct(a, b)) == RealOf(a) * RealOf(b)
  {
    var c1, c2 := Gcd(Abs(a.num), b.den), Gcd(a.den, Abs(b.num));
    GcdDivides(Abs(a.num), b.den);
    GcdDivides(a.den, Abs(b.num));
    DividesAbs(c1, a.num);
    DividesAbs(c2, b.num);
    DividesElim(c1, a.num); DividesElim(c1, b.den);
    DividesElim(c2, b.num); DividesElim(c2, a.den);
    var p, q := a.num / c1, b.num / c2;
    var r, s := a.den / c2, b.den / c1;
    assert r > 0 && s > 0;
    MulMono(1, r, s);
    CrossCoprime(a, b, c1, c2);
    calc {
      (p * q) * (a.den * b.den);
      (p * q) * ((c2 * r) * (c1 * s));
      { CrossRearrange(p, q, r, s, c1, c2); }
      ((c1 * p) * (c2 * q)) * (r * s);
      (a.num * b.num) * (r * s);
    }
    RealProduct(a, b, p * q, r * s);
  }

  lemma CrossRearrange(p: int, q: int, r: int, s: int, c: int, d: int)
    ensures (p * q) * ((d * r) * (c * s)) == ((c * p) * (d * q)) * (r * s)
  {
    assert (d * r) * (c * s) == (c * d) * (r * s);
    assert (c * p) * (d * q) == (c * d) * (p * q);
  }

  function CrossProduct(a: Q, b: Q): Q
    requires a.den > 0 && b.den > 0
  {
    var c1, c2 := Gcd(Abs(a.num), b.den), Gcd(a.den, Abs(b.num));
    Q((a.num / c1) * (b.num / c2), Times(Quotient(a.den, c2), Quotient(b.den, c1)))
  }

  lemma AbsProduct(x: int, y: int)
    ensures Abs(x * y) == Abs(x) * Abs(y)
  {
    if x >= 0 && y >= 0 { MulMono(0, x, y); }
    if x >= 0 && y < 0 { MulMono(0, x, -y); assert x * y == -(x * -y); }
    if x < 0 && y >= 0 { MulMono(0, -x, y); assert x * y == -(-x * y); }
    if x < 0 && y < 0 { MulMono(0, -x, -y); assert x * y == -x * -y; }
  }

  lemma CrossCoprime(a: Q, b: Q, c1: nat, c2: nat)
    requires Canonical(a) && Canonical(b)
    requires c1 == Gcd(Abs(a.num), b.den) && c2 == Gcd(a.den, Abs(b.num))
    requires Divides(c1, a.num) && Divides(c1, b.den) && Divides(c2, b.num) && Divides(c2, a.den)
    requires a.den / c2 > 0 && b.den / c1 > 0
    ensures Coprime(Abs((a.num / c1) * (b.num / c2)), (a.den / c2) * (b.den / c1))
  {
    AbsQuotient(c1, a.num);
    AbsQuotient(c2, b.num);
    var p, q := Abs(a.num) / c1, Abs(b.num) / c2;
    var r, s := a.den / c2, b.den / c1;
    AbsProduct(a.num / c1, b.num / c2);
    DividesAbs(c1, a.num);
    DividesAbs(c2, b.num);
    assert Coprime(p, r) by { QuotientsCoprime(Abs(a.num), a.den, c1, c2); }
    assert Coprime(q, s) by { QuotientsCoprime(Abs(b.num), b.den, c2, c1); }
    assert Coprime(p, s) by { CofactorsCoprime(Abs(a.num), b.den); }
    assert Coprime(q, r) by { CofactorsCoprime(a.den, Abs(b.num)); CoprimeCommutes(r, q); }
    CoprimeProduct(p, q, r);
    CoprimeProduct(p, q, s);
    CoprimeCommutes(p * q, r);
    CoprimeCommutes(p * q, s);
    CoprimeProduct(r, s, p * q);
    CoprimeCommutes(r * s, p * q);
  }

  lemma QuotientsCoprime(x: nat, y: nat, c: nat, d: nat)
    requires Coprime(x, y) && Divides(c, x) && Divides(d, y) && y / d > 0
    ensures Coprime(x / c, y / d)
  {
    DividesElim(d, y);
    DividesIntro(y / d, d, y);
    CoprimeOfFactor(x, y, y / d);
    DividesElim(c, x);
    if x / c > 0 {
      DividesIntro(x / c, c, x);
      CoprimeOfFactor'(x, y / d, x / c);
    }
  }

  lemma CoprimeOfFactor'(x: nat, d: nat, f: nat)
    requires x > 0 && Coprime(x, d) && Divides(f, x)
    ensures Coprime(f, d)
  {
    CoprimeCommutes(x, d);
    CoprimeOfFactor(d, x, f);
    CoprimeCommutes(d, f);
  }

  /** The numerator of a cross-cancelled product, from absolute values and the two signs. */
  lemma CrossSign(a: Q, b: Q)
    requires Canonical(a) && Canonical(b)
    ensures var c1, c2 := Gcd(Abs(a.num), b.den), Gcd(a.den, Abs(b.num));
            c1 > 0 && c2 > 0
            && var m := (Abs(a.num) / c1) * (Abs(b.num) / c2);
            m >= 0 && CrossProduct(a, b).num == if (a.num < 0) != (b.num < 0) then -m else m
  {
    CrossCancel(a, b);
    var c1, c2 := Gcd(Abs(a.num), b.den), Gcd(a.den, Abs(b.num));
    AbsQuotient(c1, a.num);
    AbsQuotient(c2, b.num);
    DividesElim(c1, a.num);
    DividesElim(c2, b.num);
    ProductSign(c1, a.num / c1);
    ProductSign(c2, b.num / c2);
    SignedProduct(a.num / c1, b.num / c2);
  }

  lemma SignedProduct(x: int, y: int)
    ensures Abs(x) * Abs(y) >= 0
    ensures x * y == if (x < 0) != (y < 0) then -(Abs(x) * Abs(y)) else Abs(x) * Abs(y)
  {
    AbsProduct(x, y);
    if x < 0 && y < 0 { assert x * y == -x * -y; }
    if x < 0 && y >= 0 { assert x * y == -(-x * y); }
    if x >= 0 && y < 0 { assert x * y == -(x * -y); }
  }

  /** Order of fractions by cross multiplication. */
  lemma CompareFractions(a: Q, b: Q)
    requires a.den > 0 && b.den > 0
    ensures a.num * b.den < b.num * a.den <==> RealOf(a) < RealOf(b)
    ensures a.num * b.den > b.num * a.den <==> RealOf(a) > RealOf(b)
  {
    var x, y := RealOf(a), RealOf(b);
    var r, s := a.den as real, b.den as real;
    MulQuotient(a.num as real, r);
    MulQuotient(b.num as real, s);
    assert (a.num * b.den) as real == (x * r) * s == x * (r * s);
    assert (b.num * a.den) as real == (y * s) * r == y * (r * s);
    PositiveProduct(r, s);
    ScaleOrder(x, y, r * s);
  }

  lemma PositiveProduct(r: real, s: real)
    requires r > 0.0 && s > 0.0
    ensures r * s > 0.0
  {
  }

  lemma ScaleOrder(x: real, y: real, k: real)
    requires k > 0.0
    ensures x < y <==> x * k < y * k
    ensures x > y <==> x * k > y * k
  {
  }
}
