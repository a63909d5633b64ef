/**
 FastRational: a rational kept in a word pair while it fits one, with an unbounded fraction
 beside it. Operations try the word path and fall back to exact arithmetic.
 */
module FastRationals {
  import opened NumberTheory
  import opened Rationals
  import opened WordArithmetic

  /** The four legal combinations of: word part valid, fraction allocated, fraction valid. */
  datatype State = WordValid | WordPlusMpqInitialized | MpqAllocatedAndValid | WordAndMpq

  class FastRational {
    var state: State
    var num: word
    var den: uword
    var mpq: Q

    predicate WordPartValid()
      reads this
    {
      !state.MpqAllocatedAndValid?
    }

    predicate MpqPartValid()
      reads this
    {
      state.MpqAllocatedAndValid? || state.WordAndMpq?
    }

    /**
     Valid parts are in lowest terms and agree, and the word part is valid exactly when the
     value fits it.
     */
    ghost predicate Valid()
      reads this
    {
      && (WordPartValid() ==> Canonical(Pair(num, den)))
      && (MpqPartValid() ==> Canonical(mpq))
      && (WordPartValid() && MpqPartValid() ==> mpq == Pair(num, den))
      && (!WordPartValid() ==> !Fits(mpq))
    }

    /** The fraction this object stands for. */
    ghost function Rep(): (q: Q)
      requires Valid()
      reads this
      ensures Canonical(q)
    {
      if WordPartValid() then Pair(num, den) else mpq
    }

    constructor ()
      ensures Valid() && Rep() == Q(0, 1)
    {
      state, num, den, mpq := WordValid, 0, 1, Q(0, 1);
    }

    /** From an unbounded integer. */
    constructor FromInteger(z: int)
      ensures Valid() && Rep() == Q(z, 1)
      ensures state == if FitsWord(z) then WordValid else MpqAllocatedAndValid
    {
      mpq := Q(z, 1);
      num, den := 0, 1;
      if FitsWord(z) {
        num := z as word;
        state := WordValid;
      } else {
        state := MpqAllocatedAndValid;
      }
    }

    // ---------- bookkeeping of the two parts ----------

    method SetOnlyWordPartValid()
      modifies this`state
      ensures state == if old(state).WordValid? then WordValid else WordPlusMpqInitialized
    {
      state := if state.WordValid? then WordValid else WordPlusMpqInitialized;
    }

    method SetWords(zn: word, zd: uword)
      requires Canonical(Pair(zn, zd))
      modifies this
      ensures Valid() && Rep() == Pair(zn, zd) && !MpqPartValid()
    {
      num := zn;
      den := zd;
      SetOnlyWordPartValid();
    }

    method EnsureMpqValid()
      requires Valid()
      modifies this
      ensures Valid() && MpqPartValid() && mpq == old(Rep()) == Rep()
      ensures num == old(num) && den == old(den) && WordPartValid() == old(WordPartValid())
    {
      if !MpqPartValid() {
        mpq := Pair(num, den);
        state := WordAndMpq;
      }
    }

    method EnsureMpqMemoryAllocated()
      requires Valid()
      modifies this
      ensures Valid() && Rep() == old(Rep()) && mpq == old(mpq)
      ensures MpqPartValid() == old(MpqPartValid()) && !state.WordValid?
    {
      if state.WordValid? {
        state := WordPlusMpqInitialized;
      }
    }

    /** Moves a freshly computed fraction into the word part when it fits. */
    method TryFitWord()
      requires state.MpqAllocatedAndValid? && Canonical(mpq)
      modifies this
      ensures Valid() && Rep() == old(mpq) && MpqPartValid() && mpq == old(mpq)
    {
      if Fits(mpq) {
        num := mpq.num as word;
        den := mpq.den as uword;
        state := WordAndMpq;
      }
    }

    /** Stores a result of the unbounded path. */
    method SetMpq(q: Q)
      requires Valid() && Canonical(q)
      modifies this
      ensures Valid() && Rep() == q && MpqPartValid()
    {
      EnsureMpqMemoryAllocated();
      mpq := q;
      state := MpqAllocatedAndValid;
      TryFitWord();
    }

    method Assign(x: FastRational)
      requires Valid() && x.Valid()
      modifies this
      ensures Valid() && Rep() == old(x.Rep()) && MpqPartValid() == !old(x.WordPartValid())
    {
      if x.WordPartValid() {
        num := x.num;
        den := x.den;
        SetOnlyWordPartValid();
      } else {
        mpq := x.mpq;
        state := MpqAllocatedAndValid;
      }
    }

    // ---------- queries ----------

    predicate IsInteger()
      reads this
    {
      if WordPartValid() then den == 1 else mpq.den == 1
    }

    predicate IsZero()
      requires Valid()
      reads this
      ensures IsZero() <==> RealOf(Rep()) == 0.0
    {
      assert WordPartValid() && num == 0 ==> RealOf(Rep()) == 0.0 by {
        if WordPartValid() && num == 0 { ZeroIsCanonical(Rep()); }
      }
      assert RealOf(Rep()) == 0.0 ==> WordPartValid() && num == 0 by {
        if RealOf(Rep()) == 0.0 {
          CanonicalEquals(Rep(), Q(0, 1));
        }
      }
      WordPartValid() && num == 0
    }

    /** Part-wise equality decides equality of the rational values. */
    method Equals(b: FastRational) returns (r: bool)
      requires Valid() && b.Valid()
      modifies this, b
      ensures Valid() && b.Valid() && Rep() == old(Rep()) && b.Rep() == old(b.Rep())
      ensures old(WordPartValid() && b.WordPartValid()) ==> state == old(state) && b.state == old(b.state)
      ensures r <==> RealOf(Rep()) == RealOf(b.Rep())
    {
      CanonicalUnique(Rep(), b.Rep());
      if WordPartValid() && b.WordPartValid() {
        return num == b.num && den == b.den;
      }
      EnsureMpqValid();
      b.EnsureMpqValid();
      return mpq == b.mpq;
    }

    method Compare(b: FastRational) returns (r: int)
      requires Valid() && b.Valid()
      modifies this, b
      ensures Valid() && b.Valid() && Rep() == old(Rep()) && b.Rep() == old(b.Rep())
      ensures old(WordPartValid() && b.WordPartValid()) ==> state == old(state) && b.state == old(b.state)
      ensures r == SignOfDifference(RealOf(Rep()), RealOf(b.Rep()))
    {
      if WordPartValid() && b.WordPartValid() {
        r := CompareWords(num, den, b.num, b.den);
        return;
      }
      EnsureMpqValid();
      b.EnsureMpqValid();
      CompareFractions(mpq, b.mpq);
      var x, y := mpq.num * b.mpq.den, b.mpq.num * mpq.den;
      return if x < y then -1 else if x > y then 1 else 0;
    }

    /** The least integer not below the value. */
    method Ceil() returns (r: FastRational)
      requires Valid()
      ensures fresh(r) && r.Valid() && r.Rep() == Q(CeilOf(Rep()), 1)
    {
      CeilIsLeast(Rep());
      if IsInteger() {
        r := new FastRational();
        r.Assign(this);
      } else if WordPartValid() {
        var w := CeilWords(num, den);
        CeilUnique(Rep(), w as int);
        r := new FastRational.FromInteger(w as int);
      } else {
        r := new FastRational.FromInteger(CeilOf(mpq));
      }
    }

    /** The greatest integer not above the value: one less than the ceiling of a non-integer. */
    method Floor() returns (r: FastRational)
      requires Valid()
      ensures fresh(r) && r.Valid() && r.Rep().den == 1
      ensures r.Rep().num as real <= RealOf(Rep()) < r.Rep().num as real + 1.0
    {
      hide Coprime, Sub, Gcd, CeilOf, Fits;
      CeilIsLeast(Rep());
      if IsInteger() {
        r := new FastRational();
        r.Assign(this);
      } else {
        var c := Ceil();
        var one := new FastRational.FromInteger(1);
        r := new FastRational();
        Substraction(r, c, one);
        FloorFromCeil(Rep());
      }
    }

    method Negate()
      requires Valid()
      modifies this
      ensures Valid() && Rep() == Neg(old(Rep()))
      ensures !MpqPartValid() <==> old(WordPartValid() && num > WORD_MIN)
    {
      NegIsExact(Rep());
      if WordPartValid() && num > WORD_MIN {
        num := -num;
        state := if state.WordValid? then WordValid else WordPlusMpqInitialized;
      } else {
        EnsureMpqValid();
        mpq := Neg(mpq);
        state := MpqAllocatedAndValid;
        TryFitWord();
      }
    }

    method Inverse() returns (dest: FastRational)
      requires Valid() && Rep().num != 0
      modifies this
      ensures Valid() && Rep() == old(Rep())
      ensures fresh(dest) && dest.Valid() && dest.Rep() == Inv(Rep())
      ensures old(WordPartValid()) && Fits(dest.Rep()) ==> OnWords(dest) && state == old(state)
    {
      InvIsExact(Rep());
      dest := new FastRational();
      if WordPartValid() {
        var ok, zn, zd := InverseWords(num, den);
        if ok {
          dest.SetWords(zn, zd);
          return;
        }
      }
      EnsureMpqValid();
      dest.SetMpq(Inv(mpq));
    }
  }

  function CeilOf(q: Q): int
    requires q.den > 0
  {
    -((-q.num) / q.den)
  }

  lemma CeilIsLeast(q: Q)
    requires q.den > 0
    ensures CeilOf(q) as real - 1.0 < RealOf(q) <= CeilOf(q) as real
    ensures q.den == 1 ==> CeilOf(q) == q.num
  {
    var t := (-q.num) / q.den;
    assert -q.num == q.den * t + (-q.num) % q.den;
    Distribute(t, q.den);
    CompareFractions(q, Q(-t, 1));
    CompareFractions(q, Q(-t - 1, 1));
  }

  lemma CeilUnique(q: Q, r: int)
    requires q.den > 0 && r as real - 1.0 < RealOf(q) < r as real
    ensures CeilOf(q) == r
  {
    CeilIsLeast(q);
  }

  lemma FloorFromCeil(q: Q)
    requires Canonical(q) && q.den != 1
    ensures Sub(Q(CeilOf(q), 1), Q(1, 1)) == Q(CeilOf(q) - 1, 1)
    ensures RealOf(q) < CeilOf(q) as real
  {
    CeilIsLeast(q);
    CanonicalEquals(Sub(Q(CeilOf(q), 1), Q(1, 1)), Q(CeilOf(q) - 1, 1));
    if RealOf(q) == CeilOf(q) as real {
      CanonicalEquals(q, Q(CeilOf(q), 1));
    }
  }

  // ---------- arithmetic; the destination may be one of the operands ----------

  /** The value was computed on words: the unbounded fraction was not needed for it. */
  predicate OnWords(x: FastRational)
    reads x
  {
    x.WordPartValid() && !x.MpqPartValid()
  }

  /** The in-place sum stays within 64 bits, or needs no common denominator. */
  ghost predicate SumOnWords(a: Q, b: Q) {
    b.den == 1 || a.num == 0 || ProductSumFits(a, b)
  }

  /** Over the least common denominator both numerators are words. */
  ghost predicate DifferenceOnWords(a: Q, b: Q)
    requires Canonical(a) && Canonical(b)
  {
    var g := Gcd(a.den, b.den);
    g > 0 && FitsWord(a.num * (b.den / g)) && FitsWord(b.num * (a.den / g))
  }

  method Addition(dst: FastRational, a: FastRational, b: FastRational)
    requires dst.Valid() && a.Valid() && b.Valid()
    modifies dst, a, b
    ensures dst.Valid() && dst.Rep() == Add(old(a.Rep()), old(b.Rep()))
    ensures a != dst ==> a.Valid() && a.Rep() == old(a.Rep())
    ensures b != dst ==> b.Valid() && b.Rep() == old(b.Rep())
    ensures old(a.WordPartValid() && b.WordPartValid()) && Fits(dst.Rep()) ==> OnWords(dst)
    ensures old(a.WordPartValid() && b.WordPartValid()) && OnWords(dst) ==>
      (a != dst ==> a.state == old(a.state)) && (b != dst ==> b.state == old(b.state))
  {
    if a.WordPartValid() && b.WordPartValid() {
      var ok, zn, zd := AddWords(a.num, a.den, b.num, b.den);
      if ok {
        dst.SetWords(zn, zd);
        return;
      }
    }
    a.EnsureMpqValid();
    b.EnsureMpqValid();
    dst.SetMpq(Add(a.mpq, b.mpq));
  }

  method Substraction(dst: FastRational, a: FastRational, b: FastRational)
    requires dst.Valid() && a.Valid() && b.Valid()
    modifies dst, a, b
    ensures dst.Valid() && dst.Rep() == Sub(old(a.Rep()), old(b.Rep()))
    ensures a != dst ==> a.Valid() && a.Rep() == old(a.Rep())
    ensures b != dst ==> b.Valid() && b.Rep() == old(b.Rep())
    ensures old(a.WordPartValid() && b.WordPartValid()) && Fits(dst.Rep()) ==> OnWords(dst)
    ensures old(a.WordPartValid() && b.WordPartValid()) && OnWords(dst) ==>
      (a != dst ==> a.state == old(a.state)) && (b != dst ==> b.state == old(b.state))
  {
    if a.WordPartValid() && b.WordPartValid() {
      var ok, zn, zd := SubWords(a.num, a.den, b.num, b.den);
      if ok {
        dst.SetWords(zn, zd);
        return;
      }
    }
    a.EnsureMpqValid();
    b.EnsureMpqValid();
    dst.SetMpq(Sub(a.mpq, b.mpq));
  }

  lemma MulSpecialCases(a: Q, b: Q)
    requires Canonical(a) && Canonical(b)
    ensures a.num == 0 || b.num == 0 ==> Mul(a, b) == Q(0, 1)
    ensures a == Q(1, 1) ==> Mul(a, b) == b
    ensures b == Q(1, 1) ==> Mul(a, b) == a
  {
    if a.num == 0 { ZeroIsCanonical(a); CanonicalEquals(Mul(a, b), Q(0, 1)); }
    if b.num == 0 { ZeroIsCanonical(b); CanonicalEquals(Mul(a, b), Q(0, 1)); }
    if a == Q(1, 1) { CanonicalEquals(Mul(a, b), b); }
    if b == Q(1, 1) { CanonicalEquals(Mul(a, b), a); }
  }

  method Multiplication(dst: FastRational, a: FastRational, b: FastRational)
    requires dst.Valid() && a.Valid() && b.Valid()
    modifies dst, a, b
    ensures dst.Valid() && dst.Rep() == Mul(old(a.Rep()), old(b.Rep()))
    ensures a != dst ==> a.Valid() && a.Rep() == old(a.Rep())
    ensures b != dst ==> b.Valid() && b.Rep() == old(b.Rep())
    ensures old(a.WordPartValid() && b.WordPartValid()) && Fits(dst.Rep()) ==> OnWords(dst)
    ensures old(a.WordPartValid() && b.WordPartValid()) && OnWords(dst) ==>
      (a != dst ==> a.state == old(a.state)) && (b != dst ==> b.state == old(b.state))
  {
    hide Mul, Coprime;
    MulSpecialCases(a.Rep(), b.Rep());
    if (a.WordPartValid() && a.num == 0) || (b.WordPartValid() && b.num == 0) {
      dst.SetWords(0, 1);
      return;
    }
    if a.WordPartValid() && a.num == 1 && a.den == 1 {
      dst.Assign(b);
      return;
    }
    if b.WordPartValid() && b.num == 1 && b.den == 1 {
      dst.Assign(a);
      return;
    }
    if a.WordPartValid() && b.WordPartValid() {
      var ok, zn, zd := MulWords(a.num, a.den, b.num, b.den);
      if ok {
        dst.SetWords(zn, zd);
        return;
      }
    }
    a.EnsureMpqValid();
    b.EnsureMpqValid();
    dst.SetMpq(Mul(a.mpq, b.mpq));
  }

  lemma DivideReals(x: real)
    ensures x / 1.0 == x
    ensures x != 0.0 ==> x / x == 1.0 && 0.0 / x == 0.0
  {
  }

  lemma DivSpecialCases(a: Q, b: Q)
    requires Canonical(a) && Canonical(b) && b.num != 0
    ensures b == Q(1, 1) ==> Div(a, b) == a
    ensures a.num == 0 ==> Div(a, b) == Q(0, 1)
    ensures a == b ==> Div(a, b) == Q(1, 1)
  {
    var q := Div(a, b);
    DivideReals(RealOf(a));
    DivideReals(RealOf(b));
    if a.num == 0 { ZeroIsCanonical(a); CanonicalEquals(q, Q(0, 1)); }
    if b == Q(1, 1) { CanonicalEquals(q, a); }
    if a == b { CanonicalEquals(q, Q(1, 1)); }
  }

  method Division(dst: FastRational, a: FastRational, b: FastRational)
    requires dst.Valid() && a.Valid() && b.Valid() && b.Rep().num != 0
    modifies dst, a, b
    ensures dst.Valid() && dst.Rep() == Div(old(a.Rep()), old(b.Rep()))
    ensures a != dst ==> a.Valid() && a.Rep() == old(a.Rep())
    ensures b != dst ==> b.Valid() && b.Rep() == old(b.Rep())
    ensures old(a.WordPartValid() && b.WordPartValid()) && Fits(dst.Rep()) && dst.Rep().num != WORD_MIN as int ==>
      OnWords(dst)
    ensures old(a.WordPartValid() && b.WordPartValid()) && OnWords(dst) ==>
      (a != dst ==> a.state == old(a.state)) && (b != dst ==> b.state == old(b.state))
  {
    hide Div, Coprime;
    DivSpecialCases(a.Rep(), b.Rep());
    if b.WordPartValid() && b.num == 1 && b.den == 1 {
      dst.Assign(a);
      return;
    }
    if a.WordPartValid() && a.num == 0 {
      dst.SetWords(0, 1);
      return;
    }
    if a.WordPartValid() && b.WordPartValid() {
      if a.num == b.num && a.den == b.den {
        dst.SetWords(1, 1);
        return;
      }
      var ok, zn, zd := DivAssignWords(a.num, a.den, b.num, b.den);
      if ok {
        dst.SetWords(zn, zd);
        return;
      }
    }
    a.EnsureMpqValid();
    b.EnsureMpqValid();
    dst.SetMpq(Div(a.mpq, b.mpq));
  }

  lemma AddZero(a: Q, b: Q)
    requires Canonical(a) && Canonical(b) && b.num == 0
    ensures Add(a, b) == a
  {
    AddSpecialCases(a, b);
  }

  /** The in-place sum on words, if it stays there. */
  method AddWordPart(a: FastRational, b: FastRational) returns (ok: bool)
    requires a.Valid() && b.Valid() && a.WordPartValid() && b.WordPartValid() && b.num != 0
    modifies a
    ensures ok <==> Fits(Add(old(a.Rep()), old(b.Rep()))) && SumOnWords(old(a.Rep()), old(b.Rep()))
    ensures ok ==> a.Valid() && a.Rep() == Add(old(a.Rep()), old(b.Rep())) && OnWords(a)
    ensures !ok ==> unchanged(a)
  {
    hide Add, Coprime, RealOf, Gcd, Fits, ProductSumFits;
    var zn, zd;
    ok, zn, zd := AddAssignWords(a.num, a.den, b.num, b.den);
    if ok { a.SetWords(zn, zd); }
  }

  /** The sum on the unbounded fractions. */
  method AddMpqPart(a: FastRational, b: FastRational)
    requires a.Valid() && b.Valid()
    modifies a, b
    ensures a.Valid() && a.Rep() == Add(old(a.Rep()), old(b.Rep())) && a.MpqPartValid()
    ensures b != a ==> b.Valid() && b.Rep() == old(b.Rep())
  {
    hide Add, Coprime, RealOf, Gcd, Fits;
    a.EnsureMpqValid();
    b.EnsureMpqValid();
    a.SetMpq(Add(a.mpq, b.mpq));
  }

  method AdditionAssign(a: FastRational, b: FastRational)
    requires a.Valid() && b.Valid()
    modifies a, b
    ensures a.Valid() && a.Rep() == Add(old(a.Rep()), old(b.Rep()))
    ensures b != a ==> b.Valid() && b.Rep() == old(b.Rep())
    ensures old(a.WordPartValid() && b.WordPartValid()) && old(b.Rep().num) != 0 ==>
      (OnWords(a) <==> Fits(a.Rep()) && SumOnWords(old(a.Rep()), old(b.Rep())))
    ensures old(b.WordPartValid() && b.Rep().num == 0) ==> a.state == old(a.state)
    ensures old(a.WordPartValid() && b.WordPartValid()) && OnWords(a) && a != b ==> b.state == old(b.state)
  {
    hide Add, Coprime, RealOf, Gcd, Fits, SumOnWords, Canonical;
    if b.WordPartValid() {
      if b.num == 0 {
        AddZero(a.Rep(), b.Rep());
        return;
      }
      if a.WordPartValid() {
        var ok := AddWordPart(a, b);
        if ok { return; }
      }
    }
    AddMpqPart(a, b);
  }

  method SubstractionAssign(a: FastRational, b: FastRational)
    requires a.Valid() && b.Valid()
    modifies a, b
    ensures a.Valid() && a.Rep() == Sub(old(a.Rep()), old(b.Rep()))
    ensures b != a ==> b.Valid() && b.Rep() == old(b.Rep())
    ensures old(a.WordPartValid() && b.WordPartValid()) ==>
      (OnWords(a) <==> Fits(a.Rep()) && DifferenceOnWords(old(a.Rep()), old(b.Rep())))
    ensures old(a.WordPartValid() && b.WordPartValid()) && OnWords(a) && a != b ==> b.state == old(b.state)
  {
    hide Sub, Coprime, Add, RealOf;
    if a.WordPartValid() && b.WordPartValid() {
      var ok, zn, zd := SubAssignWords(a.num, a.den, b.num, b.den);
      if ok {
        a.SetWords(zn, zd);
        return;
      }
    }
    a.EnsureMpqValid();
    b.EnsureMpqValid();
    a.SetMpq(Sub(a.mpq, b.mpq));
  }

  method MultiplicationAssign(a: FastRational, b: FastRational)
    requires a.Valid() && b.Valid()
    modifies a, b
    ensures a.Valid() && a.Rep() == Mul(old(a.Rep()), old(b.Rep()))
    ensures b != a ==> b.Valid() && b.Rep() == old(b.Rep())
    ensures old(a.WordPartValid() && b.WordPartValid()) && Fits(a.Rep()) && a.Rep().num != WORD_MIN as int ==>
      OnWords(a)
    ensures old(a.WordPartValid() && b.WordPartValid()) && OnWords(a) && a != b ==> b.state == old(b.state)
  {
    if a.WordPartValid() && b.WordPartValid() {
      var ok, zn, zd := MulAssignWords(a.num, a.den, b.num, b.den);
      if ok {
        a.SetWords(zn, zd);
        return;
      }
    }
    a.EnsureMpqValid();
    b.EnsureMpqValid();
    a.SetMpq(Mul(a.mpq, b.mpq));
  }

  method DivisionAssign(a: FastRational, b: FastRational)
    requires a.Valid() && b.Valid() && b.Rep().num != 0
    modifies a, b
    ensures a.Valid() && a.Rep() == Div(old(a.Rep()), old(b.Rep()))
    ensures b != a ==> b.Valid() && b.Rep() == old(b.Rep())
    ensures old(a.WordPartValid() && b.WordPartValid()) && Fits(a.Rep()) && a.Rep().num != WORD_MIN as int ==>
      OnWords(a)
    ensures old(a.WordPartValid() && b.WordPartValid()) && OnWords(a) && a != b ==> b.state == old(b.state)
  {
    if a.WordPartValid() && b.WordPartValid() {
      var ok, zn, zd := DivAssignWords(a.num, a.den, b.num, b.den);
      if ok {
        a.SetWords(zn, zd);
        return;
      }
    }
    a.EnsureMpqValid();
    b.EnsureMpqValid();
    a.SetMpq(Div(a.mpq, b.mpq));
  }

  /** The quotient of two integers rounded down. */
  method FloorQuotient(n: FastRational, d: FastRational) returns (r: FastRational)
    requires n.Valid() && d.Valid() && n.Rep().den == 1 && d.Rep().den == 1 && d.Rep().num != 0
    modifies n, d
    ensures n.Valid() && d.Valid() && n.Rep() == old(n.Rep()) && d.Rep() == old(d.Rep())
    ensures fresh(r) && r.Valid() && r.Rep().den == 1
    ensures r.Rep().num as real <= n.Rep().num as real / d.Rep().num as real < r.Rep().num as real + 1.0
  {
    if n.WordPartValid() && d.WordPartValid() {
      var ok, quo := FloorQuotientWords(n.num, d.num);
      if ok {
        r := new FastRational.FromInteger(quo as int);
        return;
      }
    }
    n.EnsureMpqValid();
    d.EnsureMpqValid();
    var x, y := if d.mpq.num > 0 then n.mpq.num else -n.mpq.num, Abs(d.mpq.num);
    FloorBoundsEuclid(n.mpq.num, d.mpq.num);
    r := new FastRational.FromInteger(x / y);
  }

  lemma FloorBoundsEuclid(n: int, d: int)
    requires d != 0
    ensures var q := (if d > 0 then n else -n) / Abs(d);
            q as real <= n as real / d as real < q as real + 1.0
  {
    var s, m := if d > 0 then n else -n, Abs(d);
    var q := s / m;
    assert s == m * q + s % m;
    Distribute(q, m);
    CompareFractions(Q(s, m), Q(q, 1));
    CompareFractions(Q(s, m), Q(q + 1, 1));
    if d < 0 { NegateBoth(n as real, d as real); }
  }
}
