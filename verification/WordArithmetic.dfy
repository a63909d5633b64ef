/**
 The word paths of FastRational: 32-bit numerators and denominators with 64-bit
 intermediates. The types make every intermediate result prove that it stays inside its
 width, and every narrowing prove that it loses nothing.
 */
module WordArithmetic {
  import opened NumberTheory
  import opened Rationals

  newtype word = x: int | -0x8000_0000 <= x <= 0x7fff_ffff
  newtype uword = x: int | 0 <= x <= 0xffff_ffff
  newtype lword = x: int | -0x8000_0000_0000_0000 <= x <= 0x7fff_ffff_ffff_ffff
  newtype ulword = x: int | 0 <= x <= 0xffff_ffff_ffff_ffff

  const WORD_MIN: word := -0x8000_0000
  const WORD_MAX: word := 0x7fff_ffff
  const UWORD_MAX: uword := 0xffff_ffff
  const LWORD_MIN: lword := -0x8000_0000_0000_0000
  const LWORD_MAX: lword := 0x7fff_ffff_ffff_ffff

  // ---------- machine conversions ----------

  /** Conversion of a signed word to unsigned wraps modulo 2^32, and so does unsigned negation. */
  function ToUword(x: int): uword {
    (x % 0x1_0000_0000) as uword
  }

  function ToUlword(x: int): ulword {
    (x % 0x1_0000_0000_0000_0000) as ulword
  }

  /** Conversion of an unsigned 64-bit value to signed wraps to the negative half. */
  function ToLword(x: ulword): lword {
    if x as int <= LWORD_MAX as int then x as lword
    else (x as int - 0x1_0000_0000_0000_0000) as lword
  }

  /** Conversion of an unsigned 32-bit value to signed wraps to the negative half. */
  function ToWord(x: uword): word {
    if x as int <= WORD_MAX as int then x as word else (x as int - 0x1_0000_0000) as word
  }

  function AbsWord(x: word): (r: uword)
    ensures r as int == Abs(x as int)
  {
    if x < 0 then ToUword(-(ToUword(x as int) as int)) else ToUword(x as int)
  }

  function AbsLword(x: lword): (r: ulword)
    ensures r as int == Abs(x as int)
  {
    if x < 0 then ToUlword(-(ToUlword(x as int) as int)) else ToUlword(x as int)
  }

  /** Division that truncates toward zero. */
  function TruncDiv(n: int, d: int): int
    requires d > 0
  {
    if n >= 0 then n / d else -((-n) / d)
  }

  lemma TruncDivExact(n: int, d: nat)
    requires Divides(d, n)
    ensures TruncDiv(n, d) == n / d
  {
    if n < 0 {
      DividesElim(d, n);
      DividesIntro(d, -(n / d), -n);
    }
  }

  lemma GcdStep(a: nat, b: nat)
    requires b > 0
    ensures a % b < b && Gcd(a, b) == Gcd(b, a % b) && (a % b == 0 ==> Gcd(a, b) == b)
  {
  }

  /** The Euclidean loop over unsigned machine integers. */
  method GcdWords(a0: nat, b0: nat) returns (g: nat)
    ensures g == Gcd(a0, b0)
  {
    GcdCommutes(a0, b0);
    if a0 == 0 { return b0; }
    if b0 == 0 { return a0; }
    var a, b := a0, b0;
    if b > a {
      a, b := b, a;
    }
    while true
      invariant b > 0 && Gcd(a, b) == Gcd(a0, b0)
      decreases b
    {
      GcdStep(a, b);
      var r := a % b;
      if r == 0 { return b; }
      a := b;
      b := r;
    }
  }

  // ---------- bounds ----------

  lemma ProductBound(x: int, y: int, m: nat, n: nat)
    requires -(m as int) <= x <= m && 0 <= y <= n
    ensures -(m * n) <= x * y <= m * n
  {
    MulMono(x, m, y);
    MulMono(-(m as int), x, y);
    MulMono(y, n, m);
  }

  lemma WordTimesUword(x: word, y: uword)
    ensures -0x8000_0000 * 0xffff_ffff <= x as int * y as int <= 0x7fff_ffff * 0xffff_ffff
  {
    MulMono(x as int, 0x7fff_ffff, y as int);
    MulMono(-0x8000_0000, x as int, y as int);
  }

  lemma QuotientAtLeast(n: int, c: nat)
    requires 0 < c <= 0xffff_ffff && Divides(c, n)
    requires n > LWORD_MAX as int || n < LWORD_MIN as int
    ensures !FitsWord(n / c)
  {
    DividesElim(c, n);
    if FitsWord(n / c) {
      ProductBound(n / c, c, 0x8000_0000, 0xffff_ffff);
      assert false;
    }
  }

  predicate FitsWord(x: int) {
    WORD_MIN as int <= x <= WORD_MAX as int
  }

  predicate FitsUword(x: int) {
    0 <= x <= UWORD_MAX as int
  }

  /** A fraction in lowest terms that the two word fields can hold. */
  predicate Fits(q: Q) {
    FitsWord(q.num) && FitsUword(q.den)
  }

  // ---------- word paths ----------
  //
  // Each method below is the word path of one operation; ok is false where the original
  // jumps to its overflow label.

  function Pair(n: word, d: uword): Q {
    Q(n as int, d as int)
  }

  lemma CanonicalEquals(p: Q, q: Q)
    requires Canonical(p) && Canonical(q) && RealOf(p) == RealOf(q)
    ensures p == q
  {
    CanonicalUnique(p, q);
  }

  /** CHECK_SUM_OVERFLOWS_LWORD: the sum of two 64-bit values, unless it leaves 64 bits. */
  method SumLword(s1: lword, s2: lword) returns (ok: bool, s: lword)
    ensures ok <==> LWORD_MIN as int <= s1 as int + s2 as int <= LWORD_MAX as int
    ensures ok ==> s as int == s1 as int + s2 as int
  {
    if s1 > 0 && s2 > LWORD_MAX - s1 { return false, 0; }
    if s1 < 0 && s2 < LWORD_MIN - s1 { return false, 0; }
    return true, s1 + s2;
  }

  /** CHECK_SUB_OVERFLOWS_LWORD: the difference of two 64-bit values, unless it leaves 64 bits. */
  method DifferenceLword(s1: lword, s2: lword) returns (ok: bool, s: lword)
    ensures ok <==> LWORD_MIN as int <= s1 as int - s2 as int <= LWORD_MAX as int
    ensures ok ==> s as int == s1 as int - s2 as int
  {
    if s1 >= 0 && s2 < s1 - LWORD_MAX { return false, 0; }
    if s1 < 0 && s2 > (s1 + 1) + LWORD_MAX { return false, 0; }
    return true, s1 - s2;
  }

  /**
   The shared tail of the additive operations: n/d divided by common, checked against the
   word widths.
   */
  method ReduceToWords(n: lword, d: ulword, common: lword) returns (ok: bool, zn: word, zd: uword)
    requires d > 0 && common > 0 && common as int == Gcd(Abs(n as int), d as int)
    ensures ok <==> Fits(Reduce(n as int, d as int))
    ensures ok ==> Pair(zn, zd) == Reduce(n as int, d as int)
  {
    ReduceIsExact(n as int, d as int);
    var qn, qd := n as int, d as int;
    if common != 1 {
      TruncDivExact(n as int, common as int);
      qn := TruncDiv(n as int, common as int);
      qd := d as int / common as int;
    }
    if !FitsWord(qn) { return false, 0, 1; }
    if !FitsUword(qd) { return false, 0, 1; }
    return true, qn as word, qd as uword;
  }

  /** Opposite numerators over equal denominators are the only way to a zero sum. */
  lemma SumIsZero(a: Q, b: Q)
    requires Canonical(a) && Canonical(b) && SumNum(a, b) == 0
    ensures a == Neg(b)
  {
    SumOverLcd(a, b);
    NegIsExact(b);
    CanonicalUnique(a, Neg(b));
  }

  /** The exact sum is the reduced sum over the least common denominator. */
  lemma AddOverLcdIsExact(a: Q, b: Q)
    requires Canonical(a) && Canonical(b)
    ensures SumDen(a, b) > 0 && Add(a, b) == Reduce(SumNum(a, b), SumDen(a, b))
  {
    SumOverLcd(a, b);
    CanonicalEquals(Add(a, b), Reduce(SumNum(a, b), SumDen(a, b)));
  }

  /** The gcd left in a non-zero sum is at most the gcd of the denominators. */
  lemma SumGcdNarrows(a: Q, b: Q)
    requires Canonical(a) && Canonical(b) && SumNum(a, b) != 0
    ensures SumDen(a, b) > 0
    ensures 0 < Gcd(Abs(SumNum(a, b)), SumDen(a, b)) <= Gcd(a.den, b.den)
    ensures Gcd(a.den, b.den) <= a.den && Gcd(a.den, b.den) <= b.den
  {
    SumGcdDividesDenGcd(a, b);
    GcdBound(a.den, b.den);
    DividesLe(Gcd(Abs(SumNum(a, b)), SumDen(a, b)), Gcd(a.den, b.den));
  }

  /** A sum over the least common denominator outside 64 bits cannot reduce into a word. */
  lemma SumOutsideLword(a: Q, b: Q)
    requires Canonical(a) && Canonical(b) && FitsUword(a.den)
    requires SumNum(a, b) > LWORD_MAX as int || SumNum(a, b) < LWORD_MIN as int
    ensures !Fits(Add(a, b))
  {
    SumGcdNarrows(a, b);
    AddOverLcdIsExact(a, b);
    ReduceIsExact(SumNum(a, b), SumDen(a, b));
    QuotientAtLeast(SumNum(a, b), Gcd(Abs(SumNum(a, b)), SumDen(a, b)));
  }

  /** Both numerators and the denominator over the least common denominator fit 64 bits. */
  method OverLcd(an: word, ad: uword, bn: word, bd: uword)
    returns (common: uword, n1: lword, n2: lword, d: ulword)
    requires ad > 0 && bd > 0
    ensures common as int == Gcd(ad as int, bd as int) > 0
    ensures n1 as int == an as int * (bd as int / common as int)
    ensures n2 as int == bn as int * (ad as int / common as int)
    ensures n1 as int + n2 as int == SumNum(Pair(an, ad), Pair(bn, bd))
    ensures n1 as int - n2 as int == SumNum(Pair(an, ad), Neg(Pair(bn, bd)))
    ensures d as int == SumDen(Pair(an, ad), Pair(bn, bd)) == SumDen(Pair(an, ad), Neg(Pair(bn, bd)))
    ensures common != 1 ==> LWORD_MIN as int <= n1 as int - n2 as int <= LWORD_MAX as int
  {
    GcdBound(ad as int, bd as int);
    var g := GcdWords(ad as int, bd as int);
    common := g as uword;
    QuotientAtMost(bd as int, g);
    QuotientAtMost(ad as int, g);
    var bq, aq := bd / common, ad / common;
    n1 := WordTimes(an, bq);
    n2 := WordTimes(bn, aq);
    d := UwordTimes(ad, bq);
    NegTimes(bn as int, aq as int);
  }

  lemma NegTimes(x: int, y: int)
    ensures (-x) * y == -(x * y)
  {
  }

  method WordTimes(x: word, y: uword) returns (p: lword)
    ensures p as int == x as int * y as int
    ensures -0x8000_0000 * y as int <= p as int <= 0x8000_0000 * y as int
  {
    ProductBound(x as int, y as int, 0x8000_0000, y as int);
    p := x as lword * y as lword;
  }

  method UwordTimes(x: uword, y: uword) returns (p: ulword)
    ensures p as int == x as int * y as int
  {
    ProductBound(x as int, y as int, 0xffff_ffff, 0xffff_ffff);
    p := x as ulword * y as ulword;
  }

  /** The tail shared by addition and subtraction: here the 32-bit gcd never truncates. */
  method FinishSum(n: lword, d: ulword, ghost a: Q, ghost b: Q) returns (ok: bool, zn: word, zd: uword)
    requires Canonical(a) && Canonical(b) && FitsUword(a.den)
    requires n != 0 && n as int == SumNum(a, b) && d as int == SumDen(a, b)
    ensures ok <==> Fits(Add(a, b))
    ensures ok ==> Pair(zn, zd) == Add(a, b)
  {
    SumGcdNarrows(a, b);
    AddOverLcdIsExact(a, b);
    var g := GcdWords(AbsLword(n) as int, d as int);
    var common := g as uword;
    ok, zn, zd := ReduceToWords(n, d, common as lword);
  }

  /** The general branch of addition, over the least common denominator. */
  method AddOverLcd(an: word, ad: uword, bn: word, bd: uword) returns (ok: bool, zn: word, zd: uword)
    requires Canonical(Pair(an, ad)) && Canonical(Pair(bn, bd)) && Pair(an, ad) != Neg(Pair(bn, bd))
    ensures ok <==> Fits(Add(Pair(an, ad), Pair(bn, bd)))
    ensures ok ==> Pair(zn, zd) == Add(Pair(an, ad), Pair(bn, bd))
  {
    var common, n1, n2, d := OverLcd(an, ad, bn, bd);
    var okSum, n := SumLword(n1, n2);
    if !okSum {
      SumOutsideLword(Pair(an, ad), Pair(bn, bd));
      return false, 0, 1;
    }
    if n == 0 { SumIsZero(Pair(an, ad), Pair(bn, bd)); }
    ok, zn, zd := FinishSum(n, d, Pair(an, ad), Pair(bn, bd));
  }

  lemma ZeroIsCanonical(q: Q)
    requires Canonical(q) && q.num == 0
    ensures q.den == 1 && RealOf(q) == 0.0
  {
    assert Gcd(0, q.den) == Gcd(q.den, 0) == q.den;
  }

  lemma AddSpecialCases(a: Q, b: Q)
    requires Canonical(a) && Canonical(b)
    ensures b.num == 0 ==> Add(a, b) == a
    ensures a.num == 0 ==> Add(a, b) == b
    ensures a == Neg(b) ==> Add(a, b) == Q(0, 1)
  {
    if b.num == 0 { ZeroIsCanonical(b); CanonicalEquals(Add(a, b), a); }
    if a.num == 0 { ZeroIsCanonical(a); CanonicalEquals(Add(a, b), b); }
    if a == Neg(b) { NegIsExact(b); CanonicalEquals(Add(a, b), Q(0, 1)); }
  }

  lemma AddWithInteger(a: Q, b: Q)
    requires Canonical(a) && Canonical(b)
    ensures b.den == 1 ==> Add(a, b) == Q(a.num + b.num * a.den, a.den)
    ensures a.den == 1 ==> Add(a, b) == Q(b.num + a.num * b.den, b.den)
  {
    if b.den == 1 {
      AddInteger(a, b.num);
      CanonicalEquals(Add(a, b), Q(a.num + b.num * a.den, a.den));
    }
    if a.den == 1 {
      AddInteger(b, a.num);
      CanonicalEquals(Add(a, b), Q(b.num + a.num * b.den, b.den));
    }
  }

  /** x + y*d in 64 bits: never overflows for words. */
  method PlusTimes(x: word, y: word, d: uword) returns (t: lword)
    ensures t as int == x as int + y as int * d as int
  {
    WordTimesUword(y, d);
    t := x as lword + y as lword * d as lword;
  }

  /** x - y*d in 64 bits: never overflows for words. */
  method MinusTimes(x: word, y: word, d: uword) returns (t: lword)
    ensures t as int == x as int - y as int * d as int
  {
    WordTimesUword(y, d);
    t := x as lword - y as lword * d as lword;
  }

  method CheckWord(value: lword) returns (ok: bool, w: word)
    ensures ok <==> FitsWord(value as int)
    ensures ok ==> w as int == value as int
  {
    if value < WORD_MIN as lword || value > WORD_MAX as lword { return false, 0; }
    return true, value as word;
  }

  method AddWords(an: word, ad: uword, bn: word, bd: uword) returns (ok: bool, zn: word, zd: uword)
    requires Canonical(Pair(an, ad)) && Canonical(Pair(bn, bd))
    ensures ok <==> Fits(Add(Pair(an, ad), Pair(bn, bd)))
    ensures ok ==> Pair(zn, zd) == Add(Pair(an, ad), Pair(bn, bd))
  {
    AddSpecialCases(Pair(an, ad), Pair(bn, bd));
    if bn == 0 {
      ok, zn, zd := true, an, ad;
    } else if an == 0 {
      ok, zn, zd := true, bn, bd;
    } else if ad == bd && bn > WORD_MIN && an == -bn {
      ok, zn, zd := true, 0, 1;
    } else if bd == 1 {
      AddWithInteger(Pair(an, ad), Pair(bn, bd));
      var t := PlusTimes(an, bn, ad);
      ok, zn := CheckWord(t);
      zd := ad;
    } else if ad == 1 {
      AddWithInteger(Pair(an, ad), Pair(bn, bd));
      var t := PlusTimes(bn, an, bd);
      ok, zn := CheckWord(t);
      zd := bd;
    } else {
      ok, zn, zd := AddOverLcd(an, ad, bn, bd);
    }
  }

  /** The general branch of subtraction; the difference is checked only for coprime denominators. */
  method SubOverLcd(an: word, ad: uword, bn: word, bd: uword) returns (ok: bool, zn: word, zd: uword)
    requires Canonical(Pair(an, ad)) && Canonical(Pair(bn, bd)) && Pair(an, ad) != Pair(bn, bd)
    ensures ok <==> Fits(Sub(Pair(an, ad), Pair(bn, bd)))
    ensures ok ==> Pair(zn, zd) == Sub(Pair(an, ad), Pair(bn, bd))
  {
    ghost var a, b := Pair(an, ad), Neg(Pair(bn, bd));
    NegIsExact(Pair(bn, bd));
    var common, n1, n2, d := OverLcd(an, ad, bn, bd);
    var n: lword;
    if common != 1 {
      n := n1 - n2;  // cannot leave 64 bits
    } else {
      var okDiff;
      okDiff, n := DifferenceLword(n1, n2);
      if !okDiff {
        SumOutsideLword(a, b);
        return false, 0, 1;
      }
    }
    if n == 0 { SumIsZero(a, b); }
    ok, zn, zd := FinishSum(n, d, a, b);
  }

  lemma SubSpecialCases(a: Q, b: Q)
    requires Canonical(a) && Canonical(b)
    ensures b.num == 0 ==> Sub(a, b) == a
    ensures a.num == 0 ==> Sub(a, b) == Q(-b.num, b.den)
    ensures a == b ==> Sub(a, b) == Q(0, 1)
  {
    NegIsExact(b);
    var c := Neg(b);
    assert c == Q(-b.num, b.den) && Neg(c) == b && Sub(a, b) == Add(a, c);
    hide *;
    AddSpecialCases(a, c);
  }

  lemma SubWithInteger(a: Q, b: Q)
    requires Canonical(a) && Canonical(b)
    ensures b.den == 1 ==> Sub(a, b) == Q(a.num - b.num * a.den, a.den)
    ensures a.den == 1 ==> Sub(a, b) == Q(-b.num + a.num * b.den, b.den)
  {
    NegIsExact(b);
    var c := Neg(b);
    assert c.num == -b.num && c.den == b.den && Sub(a, b) == Add(a, c);
    hide *;
    AddWithInteger(a, c);
    NegTimes(b.num, a.den);
  }

  method SubWords(an: word, ad: uword, bn: word, bd: uword) returns (ok: bool, zn: word, zd: uword)
    requires Canonical(Pair(an, ad)) && Canonical(Pair(bn, bd))
    ensures ok <==> Fits(Sub(Pair(an, ad), Pair(bn, bd)))
    ensures ok ==> Pair(zn, zd) == Sub(Pair(an, ad), Pair(bn, bd))
  {
    SubSpecialCases(Pair(an, ad), Pair(bn, bd));
    SubWithInteger(Pair(an, ad), Pair(bn, bd));
    assert ad > 0 && bd > 0;
    hide Sub, Canonical;
    if bn == 0 {
      ok, zn, zd := true, an, ad;
    } else if an == 0 {
      ok, zn := CheckWord(-(bn as lword));
      zd := bd;
    } else if ad == bd && an == bn {
      ok, zn, zd := true, 0, 1;
    } else if bd == 1 {
      var t := MinusTimes(an, bn, ad);
      ok, zn := CheckWord(t);
      zd := ad;
    } else if ad == 1 {
      var t := TimesMinus(an, bd, bn);
      ok, zn := CheckWord(t);
      zd := bd;
    } else {
      ok, zn, zd := SubOverLcd(an, ad, bn, bd);
    }
  }

  /** x*d - y in 64 bits: never overflows for words. */
  method TimesMinus(x: word, d: uword, y: word) returns (t: lword)
    ensures t as int == -(y as int) + x as int * d as int
  {
    WordTimesUword(x, d);
    t := x as lword * d as lword - y as lword;
  }

  method CheckUword(value: ulword) returns (ok: bool, w: uword)
    ensures ok <==> value as int <= UWORD_MAX as int
    ensures ok ==> w as int == value as int
  {
    if value > UWORD_MAX as ulword { return false, 1; }
    return true, value as uword;
  }

  predicate FitsLword(x: int) {
    LWORD_MIN as int <= x <= LWORD_MAX as int
  }

  /** The sum over the product of the denominators, and its gcd with the product, are 64-bit values. */
  predicate ProductSumFits(a: Q, b: Q) {
    var n := a.num * b.den + b.num * a.den;
    FitsLword(n) && FitsLword(Gcd(Abs(n), a.den * b.den))
  }

  /**
   In-place addition works over the product of the denominators. It gives up on a sum that fits
   exactly when the intermediate sum or its gcd does not fit 64 bits.
   */
  method AddAssignWords(an: word, ad: uword, bn: word, bd: uword) returns (ok: bool, zn: word, zd: uword)
    requires Canonical(Pair(an, ad)) && Canonical(Pair(bn, bd)) && bn != 0
    ensures ok ==> Pair(zn, zd) == Add(Pair(an, ad), Pair(bn, bd))
    ensures ok <==> Fits(Add(Pair(an, ad), Pair(bn, bd)))
                    && (bd == 1 || an == 0 || ProductSumFits(Pair(an, ad), Pair(bn, bd)))
  {
    if bd == 1 {
      AddWithInteger(Pair(an, ad), Pair(bn, bd));
      var t := PlusTimes(an, bn, ad);
      ok, zn := CheckWord(t);
      zd := ad;
    } else if an == 0 {
      AddSpecialCases(Pair(an, ad), Pair(bn, bd));
      ok, zn, zd := true, bn, bd;
    } else {
      var c1 := WordTimes(an, bd);
      var c2 := WordTimes(bn, ad);
      var okSum, n := SumLword(c1, c2);
      if !okSum { return false, 0, 1; }
      MulMono(1, ad as int, bd as int);
      var d := UwordTimes(ad, bd);
      ok, zn, zd := ReduceInLword(n, d);
    }
  }

  /** The gcd is kept in a signed 64-bit variable: when it wraps, the denominator check fails. */
  method ReduceInLword(n: lword, d: ulword) returns (ok: bool, zn: word, zd: uword)
    requires d > 0
    ensures ok ==> Pair(zn, zd) == Reduce(n as int, d as int)
    ensures ok <==> Fits(Reduce(n as int, d as int)) && FitsLword(Gcd(Abs(n as int), d as int))
  {
    ReduceIsExact(n as int, d as int);
    GcdBound(AbsLword(n) as int, d as int);
    var g := GcdWords(AbsLword(n) as int, d as int);
    var common := ToLword(g as ulword);
    if common > 1 {
      ok, zn, zd := ReduceToWords(n, d, common);
    } else {
      ok, zn := CheckWord(n);
      if !ok { return false, 0, 1; }
      ok, zd := CheckUword(d);
    }
  }

  /**
   In-place subtraction works over the least common denominator. It gives up on a difference that
   fits exactly when one of the numerators over that denominator is no word.
   */
  method SubAssignWords(an: word, ad: uword, bn: word, bd: uword) returns (ok: bool, zn: word, zd: uword)
    requires Canonical(Pair(an, ad)) && Canonical(Pair(bn, bd))
    ensures ok ==> Pair(zn, zd) == Sub(Pair(an, ad), Pair(bn, bd))
    ensures var g := Gcd(ad as int, bd as int);
            g > 0 && (ok <==> Fits(Sub(Pair(an, ad), Pair(bn, bd)))
                              && FitsWord(an as int * (bd as int / g)) && FitsWord(bn as int * (ad as int / g)))
  {
    NegIsExact(Pair(bn, bd));
    var common, m1, m2, d := OverLcd(an, ad, bn, bd);
    var n1: word, n2: word;
    ok, n1 := CheckWord(m1);
    if !ok { return false, 0, 1; }
    ok, n2 := CheckWord(m2);
    if !ok { return false, 0, 1; }
    var n := n1 as lword - n2 as lword;  // cannot overflow
    if n == 0 {
      SumIsZero(Pair(an, ad), Neg(Pair(bn, bd)));
      ok, zn, zd := FinishZeroDifference(d, Pair(an, ad));
    } else {
      ok, zn, zd := FinishSum(n, d, Pair(an, ad), Neg(Pair(bn, bd)));
    }
  }

  lemma GcdSelf(d: nat)
    requires d > 0
    ensures Gcd(d, d) == d && d / d == 1 && Gcd(0, d) == d
  {
    DivModUnique(d, d, 1, 0);
  }

  lemma SelfDifference(a: Q)
    requires Canonical(a)
    ensures SumDen(a, a) == a.den && Sub(a, a) == Q(0, 1)
  {
    GcdSelf(a.den);
    NegIsExact(a);
    CanonicalEquals(Sub(a, a), Q(0, 1));
  }

  /** Equal operands: the gcd of zero and the denominator is the denominator, which is a word. */
  method FinishZeroDifference(d: ulword, ghost a: Q) returns (ok: bool, zn: word, zd: uword)
    requires Canonical(a) && FitsUword(a.den) && d as int == SumDen(a, a)
    ensures ok && Pair(zn, zd) == Sub(a, a)
  {
    SelfDifference(a);
    GcdSelf(d as int);
    var g := GcdWords(0, d as int);
    var common := g as uword;
    return true, 0, (d / common as ulword) as uword;
  }

  lemma MulIsCrossProduct(a: Q, b: Q)
    requires Canonical(a) && Canonical(b)
    ensures Mul(a, b) == CrossProduct(a, b)
  {
    hide Gcd, Mul, CrossProduct;
    CrossCancel(a, b);
    CanonicalEquals(Mul(a, b), CrossProduct(a, b));
  }

  /** Cross-cancelling keeps every quotient inside the width of the number it came from. */
  lemma CancelledBounds(n: word, d: uword)
    ensures var c := Gcd(Abs(n as int), d as int);
            c > 0 ==> -0x8000_0000 <= n as int / c <= 0x7fff_ffff && 0 <= Abs(n as int) / c <= 0x8000_0000
                      && d as int / c <= 0xffff_ffff
  {
    var c := Gcd(Abs(n as int), d as int);
    if c > 0 {
      QuotientAtMost(Abs(n as int), c);
      QuotientAtMost(d as int, c);
      GcdDivides(Abs(n as int), d as int);
      DividesAbs(c, n as int);
      AbsQuotient(c, n as int);
      DividesElim(c, n as int);
      ProductSign(c, n as int / c);
    }
  }

  method MulWords(an: word, ad: uword, bn: word, bd: uword) returns (ok: bool, zn: word, zd: uword)
    requires Canonical(Pair(an, ad)) && Canonical(Pair(bn, bd))
    ensures ok <==> Fits(Mul(Pair(an, ad), Pair(bn, bd)))
    ensures ok ==> Pair(zn, zd) == Mul(Pair(an, ad), Pair(bn, bd))
  {
    MulIsCrossProduct(Pair(an, ad), Pair(bn, bd));
    CrossCancel(Pair(an, ad), Pair(bn, bd));
    GcdBound(AbsWord(an) as int, bd as int);
    GcdBound(ad as int, AbsWord(bn) as int);
    var g1 := GcdWords(AbsWord(an) as int, bd as int);
    var g2 := GcdWords(ad as int, AbsWord(bn) as int);
    var k1, k4 := Cancel(an, bd, g1 as uword);
    GcdCommutes(ad as int, AbsWord(bn) as int);
    var k2, k3 := Cancel(bn, ad, g2 as uword);
    ProductBound(k1 as int, Abs(k2 as int), 0x8000_0000, 0x8000_0000);
    SignedProduct(k1 as int, k2 as int);
    SignedProduct(k1 as int, Abs(k2 as int));
    ok, zn := CheckWord(k1 * k2);
    if !ok { return false, 0, 1; }
    ProductBound(k3 as int, k4 as int, 0xffff_ffff, 0xffff_ffff);
    MulMono(1, k3 as int, k4 as int);
    ok, zd := CheckUword(k3 * k4);
  }

  /** Divides a numerator and the other operand's denominator by their gcd. */
  method Cancel(n: word, d: uword, common: uword) returns (kn: lword, kd: ulword)
    requires d > 0 && common as int == Gcd(Abs(n as int), d as int)
    ensures common > 0 && kn as int == n as int / common as int && kd as int == d as int / common as int
    ensures -0x8000_0000 <= kn as int <= 0x7fff_ffff && 0 < kd as int <= 0xffff_ffff
  {
    GcdDivides(Abs(n as int), d as int);
    DividesAbs(common as int, n as int);
    DividesElim(common as int, d as int);
    CancelledBounds(n, d);
    if common > 1 {
      TruncDivExact(n as int, common as int);
      kn := TruncDiv(n as int, common as int) as lword;
      kd := d as ulword / common as ulword;
    } else {
      kn, kd := n as lword, d as ulword;
    }
  }

  /** (x/gcd(x,v)) * (y/gcd(w,y)): a cancelled product of absolute values. */
  function CancelNum(x: nat, v: nat, y: nat, w: nat): nat
    requires v > 0 && w > 0
  {
    Times(Quotient(x, Gcd(x, v)), Quotient(y, Gcd(w, y)))
  }

  function CancelDen(x: nat, v: nat, y: nat, w: nat): nat
    requires v > 0 && w > 0
  {
    Times(Quotient(w, Gcd(w, y)), Quotient(v, Gcd(x, v)))
  }

  /** The quotient of a word by a divisor that is a word. */
  method DivideWord(x: uword, c: nat) returns (q: uword)
    requires 0 < c <= UWORD_MAX as int
    ensures q as int == Quotient(x as int, c) <= x as int
  {
    QuotientAtMost(x as int, c);
    q := x / c as uword;
  }

  /** The cancelled product, checked against the widths of a numerator and a denominator. */
  method CancelAbsolute(x: uword, v: uword, y: uword, w: uword) returns (ok: bool, zn: word, zd: uword)
    requires v > 0 && w > 0 && x as int <= 0x8000_0000
    ensures ok <==> CancelNum(x as int, v as int, y as int, w as int) <= WORD_MAX as int
                    && CancelDen(x as int, v as int, y as int, w as int) <= UWORD_MAX as int
    ensures ok ==> zn as int == CancelNum(x as int, v as int, y as int, w as int)
                   && zd as int == CancelDen(x as int, v as int, y as int, w as int)
  {
    GcdBound(x as int, v as int);
    GcdBound(w as int, y as int);
    var c1 := GcdWords(x as int, v as int);
    var c2 := GcdWords(w as int, y as int);
    hide Gcd, Quotient;
    var x1 := DivideWord(x, c1);
    var y1 := DivideWord(y, c2);
    var n := AbsTimes(x1, y1);
    ok, zn := CheckWord(n);
    if !ok { return false, 0, 1; }
    var w1 := DivideWord(w, c2);
    var v1 := DivideWord(v, c1);
    var d := UwordTimes(w1, v1);
    ok, zd := CheckUword(d);
  }

  method AbsTimes(x: uword, y: uword) returns (p: lword)
    requires x as int <= 0x8000_0000
    ensures p as int == x as int * y as int >= 0
  {
    MulMono(x as int, 0x8000_0000, y as int);
    MulMono(0, x as int, y as int);
    p := x as lword * y as lword;
  }

  lemma MulFromAbsolute(a: Q, b: Q)
    requires Canonical(a) && Canonical(b)
    ensures Mul(a, b) == Q(SignedBy((a.num < 0) != (b.num < 0), CancelNum(Abs(a.num), b.den, Abs(b.num), a.den)),
                           CancelDen(Abs(a.num), b.den, Abs(b.num), a.den))
  {
    MulIsCrossProduct(a, b);
    CrossSign(a, b);
  }

  function SignedBy(negative: bool, m: nat): int {
    if negative then -(m as int) else m
  }

  lemma CancelledZero(x: nat, v: nat, y: nat, w: nat)
    requires v > 0 && w > 0 && (x == 0 || y == 0)
    ensures CancelNum(x, v, y, w) == 0
  {
  }

  /** In-place multiplication cancels absolute values and restores the sign at the end. */
  method MulAssignWords(an: word, ad: uword, bn: word, bd: uword) returns (ok: bool, zn: word, zd: uword)
    requires Canonical(Pair(an, ad)) && Canonical(Pair(bn, bd))
    ensures ok ==> Pair(zn, zd) == Mul(Pair(an, ad), Pair(bn, bd))
    ensures Fits(Mul(Pair(an, ad), Pair(bn, bd))) && Mul(Pair(an, ad), Pair(bn, bd)).num != WORD_MIN as int ==> ok
  {
    MulFromAbsolute(Pair(an, ad), Pair(bn, bd));
    ok, zn, zd := CancelAbsolute(AbsWord(an), bd, AbsWord(bn), ad);
    if an == 0 || bn == 0 {
      CancelledZero(AbsWord(an) as int, bd as int, AbsWord(bn) as int, ad as int);
    }
    if !ok { return; }
    if (bn < 0 && an >= 0) || (bn > 0 && an <= 0) {
      zn := -zn;  // cannot overflow since zn is not negative
    }
  }

  lemma DivFromAbsolute(a: Q, b: Q)
    requires Canonical(a) && Canonical(b) && b.num != 0
    ensures Div(a, b) == Q(SignedBy((a.num < 0) != (b.num < 0), CancelNum(Abs(a.num), Abs(b.num), b.den, a.den)),
                           CancelDen(Abs(a.num), Abs(b.num), b.den, a.den))
  {
    InvIsExact(b);
    MulFromAbsolute(a, Inv(b));
  }

  /** Division multiplies by the reciprocal; only the absolute values are cancelled. */
  method DivAssignWords(an: word, ad: uword, bn: word, bd: uword) returns (ok: bool, zn: word, zd: uword)
    requires Canonical(Pair(an, ad)) && Canonical(Pair(bn, bd)) && bn != 0
    ensures ok ==> Pair(zn, zd) == Div(Pair(an, ad), Pair(bn, bd))
    ensures Fits(Div(Pair(an, ad), Pair(bn, bd))) && Div(Pair(an, ad), Pair(bn, bd)).num != WORD_MIN as int ==> ok
  {
    DivFromAbsolute(Pair(an, ad), Pair(bn, bd));
    ok, zn, zd := CancelAbsolute(AbsWord(an), AbsWord(bn), bd, ad);
    if an == 0 {
      CancelledZero(0, AbsWord(bn) as int, bd as int, ad as int);
    }
    if !ok { return; }
    if (bn < 0 && an >= 0) || (bn > 0 && an <= 0) {
      zn := -zn;  // cannot overflow since zn is not negative
    }
  }

  method InverseWords(n: word, d: uword) returns (ok: bool, zn: word, zd: uword)
    requires Canonical(Pair(n, d)) && n != 0
    ensures ok <==> Fits(Inv(Pair(n, d)))
    ensures ok ==> Pair(zn, zd) == Inv(Pair(n, d))
  {
    zd := 1;
    if n > 0 {
      ok, zn := CheckWord(d as lword);
      if !ok { return; }
      ok, zd := CheckUword(n as ulword);
    } else {
      ok, zn := CheckWord(-(d as lword));
      if !ok { return; }
      ok, zd := CheckUword((-(n as lword)) as ulword);
    }
  }

  /** Sign of a comparison of two 64-bit values. */
  function CompareLwords(a: lword, b: lword): int {
    if a < b then -1 else if a > b then 1 else 0
  }

  function SignOfDifference(x: real, y: real): int {
    if x < y then -1 else if x > y then 1 else 0
  }

  method CompareWords(an: word, ad: uword, bn: word, bd: uword) returns (r: int)
    requires Canonical(Pair(an, ad)) && Canonical(Pair(bn, bd))
    ensures r == SignOfDifference(RealOf(Pair(an, ad)), RealOf(Pair(bn, bd)))
  {
    CompareFractions(Pair(an, ad), Pair(bn, bd));
    if bd == ad {
      ScaleIntOrder(an as int, bn as int, ad as int);
      r := CompareLwords(an as lword, bn as lword);
    } else {
      var x := WordTimes(an, bd);
      var y := WordTimes(bn, ad);
      r := CompareLwords(x, y);
    }
  }

  lemma ScaleIntOrder(x: int, y: int, k: nat)
    requires k > 0
    ensures (x < y <==> x * k < y * k) && (x > y <==> x * k > y * k)
  {
    if x < y { MulMono(x + 1, y, k); }
    if x > y { MulMono(y + 1, x, k); }
  }

  /** The least integer above the fraction, for a fraction that is not an integer. */
  method CeilWords(n: word, d: uword) returns (r: word)
    requires Canonical(Pair(n, d)) && d != 1
    ensures r as real - 1.0 < RealOf(Pair(n, d)) < r as real
  {
    NotInteger(n as int, d as int);
    r := DivideAbs(n, d);
    if n < 0 {
      r := -r;  // cannot overflow since the denominator is at least two
    } else {
      r := r + 1;
    }
    CeilBounds(n as int, d as int, r as int);
  }

  method DivideAbs(n: word, d: uword) returns (q: word)
    requires d > 1
    ensures 0 <= q && q as int == Abs(n as int) / d as int <= 0x4000_0000
  {
    q := Quotient(AbsWord(n) as int, d as int) as word;
  }

  lemma NotInteger(n: int, d: nat)
    requires Canonical(Q(n, d)) && d != 1
    ensures d > 1 && Abs(n) % d != 0
  {
    if Abs(n) % d == 0 {
      DividesSelf(d);
      CoprimeElim(Abs(n), d, d);
    }
  }

  lemma CeilBounds(n: int, d: nat, r: int)
    requires d > 1 && Abs(n) % d != 0
    requires r == if n < 0 then -(Abs(n) / d) else Abs(n) / d + 1
    ensures r as real - 1.0 < n as real / d as real < r as real
  {
    var t, m := Abs(n) / d, Abs(n) % d;
    Distribute(t, d);
    CompareFractions(Q(n, d), Q(r, 1));
    CompareFractions(Q(n, d), Q(r - 1, 1));
  }

  lemma Distribute(t: int, d: int)
    ensures t * d == d * t && (t + 1) * d == d * t + d && (-t) * d == -(d * t) && (-t - 1) * d == -(d * t) - d
  {
  }

  /** Floor of the quotient of two words; the least word is sent to the unbounded path. */
  method FloorQuotientWords(n: word, d: word) returns (ok: bool, quo: word)
    requires d != 0
    ensures ok <==> n != WORD_MIN
    ensures ok ==> quo as real <= n as real / d as real < quo as real + 1.0
  {
    if n == WORD_MIN { return false, 0; }
    ok := true;
    ghost var a, m := Abs(n as int), Abs(d as int);
    QuotientAtMost(a, m);
    quo := TruncQuotient(n, d);
    if TruncRemainder(n, d) != 0 && ((n < 0 && d >= 0) || (d < 0 && n >= 0)) {
      quo := quo - 1;
    }
    FloorBounds(n as int, d as int, quo as int);
  }

  /** The machine quotient, which truncates toward zero. */
  function TruncQuotient(n: word, d: word): (q: word)
    requires d != 0 && n != WORD_MIN
    ensures q as int == if (n < 0) != (d < 0) then -(Abs(n as int) / Abs(d as int)) else Abs(n as int) / Abs(d as int)
  {
    QuotientAtMost(Abs(n as int), Abs(d as int));
    (if (n < 0) != (d < 0) then -(Abs(n as int) / Abs(d as int)) else Abs(n as int) / Abs(d as int)) as word
  }

  /** The machine division traps when its quotient is no word. */
  predicate Divisible(n: word, d: word) {
    d != 0 && !(n == WORD_MIN && d == -1)
  }

  /** The machine remainder, which takes the sign of the dividend. */
  function TruncRemainder(n: word, d: word): int
    requires Divisible(n, d)
  {
    if n < 0 then -(Abs(n as int) % Abs(d as int)) else Abs(n as int) % Abs(d as int)
  }

  /** t with remainder m below d, for the dividend d*t + m or its negation. */
  lemma FloorOfPositive(s: int, d: nat, q: int)
    requires d > 0
    requires var t := Abs(s) / d;
             q == if s >= 0 then t else if Abs(s) % d != 0 then -t - 1 else -t
    ensures q as real <= s as real / d as real < q as real + 1.0
  {
    var t, m := Abs(s) / d, Abs(s) % d;
    Distribute(t, d);
    Distribute(q, d);
    CompareFractions(Q(s, d), Q(q, 1));
    CompareFractions(Q(s, d), Q(q + 1, 1));
  }

  lemma FloorBounds(n: int, d: int, q: int)
    requires d != 0
    requires var t := Abs(n) / Abs(d);
             q == if (n < 0) == (d < 0) then t else if Abs(n) % Abs(d) != 0 then -t - 1 else -t
    ensures q as real <= n as real / d as real < q as real + 1.0
  {
    if d > 0 {
      FloorOfPositive(n, d, q);
    } else {
      NegateBoth(n as real, d as real);
      if n == 0 { ZeroQuotient(-d); }
      FloorOfPositive(-n, -d, q);
    }
  }

  lemma ZeroQuotient(d: nat)
    requires d > 0
    ensures 0 / d == 0 && 0 % d == 0
  {
  }

  lemma NegateBoth(n: real, d: real)
    requires d != 0.0
    ensures n / d == -n / -d
  {
    MulQuotient(-n, -d);
    DivideReal(-n / -d, d, n);
  }

  // ---------- the constructor from a numerator and a denominator ----------

  /** The quotient of a signed by an unsigned word is an unsigned division. */
  function ConstructedPair(n: word, d: uword): Q
    requires d > 0
  {
    if n == 0 then Q(0, 1)
    else
      var common := Gcd(AbsWord(n) as int, d as int);
      if common > 1 then
        Q(ToWord(Quotient(ToUword(n as int) as int, common) as uword) as int, Quotient(d as int, common))
      else Pair(n, d)
  }

  /** The constructor reduces correctly exactly when nothing is divided or nothing is negative. */
  lemma ConstructorExact(n: word, d: uword)
    requires d > 0
    ensures ConstructedPair(n, d) == Reduce(n as int, d as int)
       <==> n >= 0 || Gcd(Abs(n as int), d as int) == 1
  {
    ReduceIsExact(n as int, d as int);
    var c := Gcd(Abs(n as int), d as int);
    if n == 0 {
      GcdSelf(d as int);
      ZeroQuotient(d as int);
    } else if c > 1 {
      QuotientAtMost(Abs(n as int), c);
      if n < 0 {
        DividesElim(c, n as int);
        ProductSign(c, n as int / c);
        assert Reduce(n as int, d as int).num < 0;
        var u := ToUword(n as int) as int;
        QuotientAtMost(u, c);
        WrappedQuotient(n as int, c);
        assert ConstructedPair(n, d).num >= 0;
      }
    }
  }

  lemma WrappedQuotient(n: int, c: nat)
    requires -0x8000_0000 <= n < 0 && c > 1
    ensures 0 <= (n + 0x1_0000_0000) / c <= 0x7fff_ffff
  {
    QuotientAtMost(n + 0x1_0000_0000, c);
  }

  lemma ConstructorFailsOn(n: word, d: uword)
    requires n == -2 && d == 2
    ensures ConstructedPair(n, d) == Q(0x7fff_ffff, 1) && Reduce(n as int, d as int) == Q(-1, 1)
  {
    assert Gcd(2, 2) == 2;
  }

  // ---------- remainder ----------

  /** The remainder on word operands: the magnitude of the machine remainder, signed like d. */
  function WordRemainder(n: word, d: word): int
    requires Divisible(n, d)
  {
    if d > 0 then Abs(TruncRemainder(n, d)) else -(Abs(TruncRemainder(n, d)) as int)
  }

  /** The remainder on unbounded operands: n - floor(n/d)*d. */
  function FloorRemainder(n: int, d: int): int
    requires d != 0
  {
    if d > 0 then n % d else -((-n) % -d)
  }

  /**
   The remainder on words is defined and agrees with the one on unbounded operands exactly for
   operands of one sign, for exact multiples, and when the remainder is half of the divisor, but
   not for the least word and -1, whose quotient is no word.
   */
  lemma RemaindersAgree(n: word, d: word)
    requires d != 0
    ensures var r := Abs(n as int) % Abs(d as int);
            Divisible(n, d) && WordRemainder(n, d) == FloorRemainder(n as int, d as int)
            <==> !(n == WORD_MIN && d == -1) && ((n < 0) == (d < 0) || r == 0 || 2 * r == Abs(d as int))
  {
    var a: int, m: int := Abs(n as int), Abs(d as int);
    if (n < 0) != (d < 0) {
      ModOfNegative(a, m);
    }
  }

  /** The remainders of -1 by 3 are 1 and 2; that of the least word by -1 is not defined on words. */
  lemma RemaindersDiffer()
    ensures Divisible(-1, 3) && WordRemainder(-1, 3) == 1 && FloorRemainder(-1, 3) == 2
    ensures !Divisible(WORD_MIN, -1) && FloorRemainder(WORD_MIN as int, -1) == 0
  {
    RemaindersAgree(-1, 3);
  }

  lemma ModOfNegative(a: nat, m: nat)
    requires m > 0
    ensures (-(a as int)) % m == if a % m == 0 then 0 else m - a % m
  {
    var t: int, r: int := a / m, a % m;
    Distribute(t, m);
    if r == 0 {
      DivModUnique(-(a as int), m, -t, 0);
    } else {
      DivModUnique(-(a as int), m, -t - 1, m - r);
    }
  }
}
