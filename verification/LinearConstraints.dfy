/**
 Linear inequalities and equalities in normal form. Over the integers the coefficients become
 coprime and the constant is rounded; over the reals the leading coefficient becomes one or
 minus one.
 */
module LinearConstraints {
  import opened NumberTheory
  import opened Rationals
  import opened Multiplicand
  import FastRationals
  import opened Sequences

  datatype Factor = Factor(v: nat, coeff: Q)

  /** A sum of different variables with coefficients, and a constant. */
  datatype Sum = Sum(factors: seq<Factor>, constant: Q)

  ghost predicate ProperFactors(fs: seq<Factor>) {
    Apart(fs) && forall i :: 0 <= i < |fs| ==> Canonical(fs[i].coeff) && fs[i].coeff.num != 0
  }

  /** The variables are different. */
  ghost predicate Apart(fs: seq<Factor>) {
    forall i, j :: 0 <= i < j < |fs| ==> fs[i].v != fs[j].v
  }

  /** The factors ascend strictly by their variables. */
  ghost predicate InOrder(fs: seq<Factor>) {
    forall i, j :: 0 <= i < j < |fs| ==> fs[i].v < fs[j].v
  }

  ghost predicate ProperSum(s: Sum) {
    ProperFactors(s.factors) && Canonical(s.constant)
  }

  // ---------- values ----------

  type Reals = nat -> real
  type Integers = nat -> int

  ghost function Product(x: real, y: real): real {
    x * y
  }

  lemma ProductSum(x: real, y: real, z: real)
    ensures Product(x + y, z) == Product(x, z) + Product(y, z)
    ensures Product(z, x + y) == Product(z, x) + Product(z, y)
  {
  }

  lemma ProductAssoc(x: real, y: real, z: real)
    ensures Product(Product(x, y), z) == Product(x, Product(y, z))
  {
    assert (x * y) * z == x * (y * z);
  }

  ghost function Dot(fs: seq<Factor>, m: Reals): real
    requires forall i :: 0 <= i < |fs| ==> fs[i].coeff.den > 0
  {
    if fs == [] then 0.0 else Product(RealOf(fs[0].coeff), m(fs[0].v)) + Dot(fs[1..], m)
  }

  ghost function Value(s: Sum, m: Reals): real
    requires ProperSum(s)
  {
    RealOf(s.constant) + Dot(s.factors, m)
  }

  lemma {:induction false} DotAppend(fs: seq<Factor>, gs: seq<Factor>, m: Reals)
    requires forall i :: 0 <= i < |fs| ==> fs[i].coeff.den > 0
    requires forall i :: 0 <= i < |gs| ==> gs[i].coeff.den > 0
    ensures forall i :: 0 <= i < |fs + gs| ==> (fs + gs)[i].coeff.den > 0
    ensures Dot(fs + gs, m) == Dot(fs, m) + Dot(gs, m)
  {
    if fs == [] {
      assert fs + gs == gs;
    } else {
      assert (fs + gs)[1..] == fs[1..] + gs;
      DotAppend(fs[1..], gs, m);
    }
  }

  lemma DotOne(f: Factor, m: Reals)
    requires f.coeff.den > 0
    ensures Dot([f], m) == Product(RealOf(f.coeff), m(f.v))
  {
    assert [f][1..] == [];
    assert Dot([], m) == 0.0;
  }

  lemma DotPush(fs: seq<Factor>, f: Factor, m: Reals)
    requires (forall i :: 0 <= i < |fs| ==> fs[i].coeff.den > 0) && f.coeff.den > 0
    ensures forall i :: 0 <= i < |fs + [f]| ==> (fs + [f])[i].coeff.den > 0
    ensures Dot(fs + [f], m) == Dot(fs, m) + Product(RealOf(f.coeff), m(f.v))
  {
    DotAppend(fs, [f], m);
    DotOne(f, m);
  }

  // ---------- scaling ----------

  /** The same variables, with all coefficients multiplied. */
  ghost predicate Scaled(fs: seq<Factor>, k: real, gs: seq<Factor>) {
    && |gs| == |fs|
    && forall i :: 0 <= i < |fs| ==> ScaledFactor(fs[i], k, gs[i])
  }

  ghost predicate ScaledFactor(f: Factor, k: real, g: Factor) {
    g.v == f.v && f.coeff.den > 0 && Canonical(g.coeff) && RealOf(g.coeff) == Product(k, RealOf(f.coeff))
  }

  lemma {:induction false} ScaledDot(fs: seq<Factor>, k: real, gs: seq<Factor>, m: Reals)
    requires Scaled(fs, k, gs)
    ensures Dot(gs, m) == Product(k, Dot(fs, m))
  {
    if fs == [] {
      assert Product(k, 0.0) == 0.0;
    } else {
      assert ScaledFactor(fs[0], k, gs[0]);
      ScaledDot(fs[1..], k, gs[1..], m);
      ProductAssoc(k, RealOf(fs[0].coeff), m(fs[0].v));
      ProductSum(Product(RealOf(fs[0].coeff), m(fs[0].v)), Dot(fs[1..], m), k);
      hide Product, RealOf;
    }
  }

  lemma ScaledTwice(fs: seq<Factor>, k: real, gs: seq<Factor>, l: real, hs: seq<Factor>)
    requires Scaled(fs, k, gs) && Scaled(gs, l, hs)
    ensures Scaled(fs, Product(l, k), hs)
  {
    hide Product, RealOf, Canonical;
    forall i | 0 <= i < |fs| ensures ScaledFactor(fs[i], Product(l, k), hs[i]) {
      assert ScaledFactor(fs[i], k, gs[i]) && ScaledFactor(gs[i], l, hs[i]);
      ProductAssoc(l, k, RealOf(fs[i].coeff));
    }
  }

  lemma ScaledProper(fs: seq<Factor>, k: real, gs: seq<Factor>)
    requires Scaled(fs, k, gs) && ProperFactors(fs) && k != 0.0
    ensures ProperFactors(gs)
  {
    forall i | 0 <= i < |gs| ensures Canonical(gs[i].coeff) && gs[i].coeff.num != 0 {
      assert ScaledFactor(fs[i], k, gs[i]);
      NonZeroReal(fs[i].coeff);
      NonZeroReal(gs[i].coeff);
      NonZeroProduct(k, RealOf(fs[i].coeff));
    }
    hide RealOf, Canonical, Product;
    forall i, j | 0 <= i < j < |gs| ensures gs[i].v != gs[j].v {
      assert ScaledFactor(fs[i], k, gs[i]) && ScaledFactor(fs[j], k, gs[j]);
    }
  }

  lemma NonZeroReal(q: Q)
    requires q.den > 0
    ensures RealOf(q) != 0.0 <==> q.num != 0
    ensures RealOf(q) > 0.0 <==> q.num > 0
  {
    assert RealOf(q) * q.den as real == q.num as real;
  }

  lemma NonZeroProduct(x: real, y: real)
    requires x != 0.0 && y != 0.0
    ensures Product(x, y) != 0.0
  {
  }

  // ---------- sums ----------

  /** The factor list of the keys. */
  function Entries(keys: seq<nat>, sums: map<nat, Q>): (r: seq<Factor>)
    requires forall k :: 0 <= k < |keys| ==> keys[k] in sums
    ensures |r| == |keys| && forall k :: 0 <= k < |keys| ==> r[k] == Factor(keys[k], sums[keys[k]])
  {
    seq(|keys|, k requires 0 <= k < |keys| => Factor(keys[k], sums[keys[k]]))
  }

  /** The coefficients of the factors read so far, one for every variable. */
  ghost predicate Summed(fs: seq<Factor>, keys: seq<nat>, sums: map<nat, Q>) {
    && (forall i :: 0 <= i < |fs| ==> fs[i].coeff.den > 0)
    && Distinct(keys) && (forall v :: v in keys <==> v in sums)
    && (forall v :: v in sums ==> Canonical(sums[v]))
    && (forall k :: 0 <= k < |keys| ==> keys[k] in sums)
    && SameDot(fs, Entries(keys, sums))
  }

  ghost predicate SameDot(fs: seq<Factor>, gs: seq<Factor>) {
    && (forall i :: 0 <= i < |fs| ==> fs[i].coeff.den > 0) && (forall i :: 0 <= i < |gs| ==> gs[i].coeff.den > 0)
    && forall m: Reals :: Dot(fs, m) == Dot(gs, m)
  }

  /** Changing the coefficient of one factor changes the value by its part. */
  lemma {:induction false} DotChange(fs: seq<Factor>, k: nat, q: Q, m: Reals)
    requires (forall i :: 0 <= i < |fs| ==> fs[i].coeff.den > 0) && k < |fs| && q.den > 0
    ensures var gs := fs[k := Factor(fs[k].v, q)];
            && (forall i :: 0 <= i < |gs| ==> gs[i].coeff.den > 0)
            && Dot(gs, m) == Dot(fs, m) - Product(RealOf(fs[k].coeff), m(fs[k].v)) + Product(RealOf(q), m(fs[k].v))
  {
    var f, g := fs[k], Factor(fs[k].v, q);
    var a, b := fs[..k], fs[k + 1..];
    assert fs == a + ([f] + b) && fs[k := g] == a + ([g] + b);
    DotAppend([f], b, m);
    DotAppend([g], b, m);
    DotAppend(a, [f] + b, m);
    DotAppend(a, [g] + b, m);
    DotOne(f, m);
    DotOne(g, m);
  }

  lemma SumNewKey(fs: seq<Factor>, keys: seq<nat>, sums: map<nat, Q>, f: Factor)
    requires Summed(fs, keys, sums) && f.v !in sums && Canonical(f.coeff)
    ensures Summed(fs + [f], keys + [f.v], sums[f.v := f.coeff])
  {
    DistinctPush(keys, f.v);
    var keys', sums' := keys + [f.v], sums[f.v := f.coeff];
    forall k | 0 <= k < |keys'| ensures keys'[k] in sums' {
      if k < |keys| { assert keys[k] in keys; }
    }
    assert Entries(keys', sums') == Entries(keys, sums) + [f];
    hide Dot, Canonical, Product, RealOf;
    forall m: Reals ensures Dot(fs + [f], m) == Dot(Entries(keys', sums'), m) {
      DotPush(fs, f, m);
      DotPush(Entries(keys, sums), f, m);
    }
  }

  lemma SumOldKey(fs: seq<Factor>, keys: seq<nat>, sums: map<nat, Q>, f: Factor)
    requires Summed(fs, keys, sums) && f.v in sums && Canonical(f.coeff)
    ensures Summed(fs + [f], keys, sums[f.v := Add(sums[f.v], f.coeff)])
  {
    var q := Add(sums[f.v], f.coeff);
    var sums' := sums[f.v := q];
    var k :| 0 <= k < |keys| && keys[k] == f.v;
    var es := Entries(keys, sums);
    assert Entries(keys, sums') == es[k := Factor(f.v, q)];
    hide Dot, Canonical, Product, RealOf;
    forall m: Reals ensures Dot(fs + [f], m) == Dot(Entries(keys, sums'), m) {
      DotPush(fs, f, m);
      DotChange(es, k, q, m);
      ProductSum(RealOf(sums[f.v]), RealOf(f.coeff), m(f.v));
    }
  }

  /** Adds up the coefficients of every variable, in the order of first occurrence. */
  method Collect(fs: seq<Factor>) returns (keys: seq<nat>, sums: map<nat, Q>)
    requires forall i :: 0 <= i < |fs| ==> Canonical(fs[i].coeff)
    ensures Summed(fs, keys, sums)
  {
    keys, sums := [], map[];
    assert fs[..0] == [];
    hide Summed;
    assert Summed(fs[..0], keys, sums) by { NothingSummed(); }
    for i := 0 to |fs|
      invariant Summed(fs[..i], keys, sums)
    {
      assert fs[..i + 1] == fs[..i] + [fs[i]];
      SummedParts(fs[..i], keys, sums);
      if fs[i].v !in sums {
        SumNewKey(fs[..i], keys, sums, fs[i]);
        keys, sums := keys + [fs[i].v], sums[fs[i].v := fs[i].coeff];
      } else {
        SumOldKey(fs[..i], keys, sums, fs[i]);
        sums := sums[fs[i].v := Add(sums[fs[i].v], fs[i].coeff)];
      }
    }
    assert fs[..|fs|] == fs;
  }

  lemma NothingSummed()
    ensures Summed([], [], map[])
  {
  }

  lemma SummedParts(fs: seq<Factor>, keys: seq<nat>, sums: map<nat, Q>)
    requires Summed(fs, keys, sums)
    ensures forall v :: v in sums ==> Canonical(sums[v])
    ensures forall k :: 0 <= k < |keys| ==> keys[k] in sums
  {
  }

  /** The factors whose coefficient is not zero. */
  method DropZeros(fs: seq<Factor>, keys: seq<nat>, sums: map<nat, Q>) returns (gs: seq<Factor>)
    requires Summed(fs, keys, sums)
    ensures ProperFactors(gs) && SameDot(fs, gs)
  {
    gs := [];
    SummedParts(fs, keys, sums);
    var es := Entries(keys, sums);
    NothingKept(keys, sums);
    hide Kept;
    for k := 0 to |keys|
      invariant Kept(keys, sums, k, gs)
    {
      KeptStep(keys, sums, k, gs);
      if sums[keys[k]].num != 0 { gs := gs + [Factor(keys[k], sums[keys[k]])]; }
    }
    KeptAll(fs, keys, sums, gs);
  }

  ghost predicate Kept(keys: seq<nat>, sums: map<nat, Q>, k: nat, gs: seq<Factor>) {
    && k <= |keys| && Distinct(keys) && (forall i :: 0 <= i < |keys| ==> keys[i] in sums && Canonical(sums[keys[i]]))
    && ProperFactors(gs) && (forall i :: 0 <= i < |gs| ==> gs[i].v in keys[..k])
    && SameDot(Entries(keys, sums)[..k], gs)
  }

  lemma NothingKept(keys: seq<nat>, sums: map<nat, Q>)
    requires Distinct(keys) && forall i :: 0 <= i < |keys| ==> keys[i] in sums && Canonical(sums[keys[i]])
    ensures Kept(keys, sums, 0, [])
  {
    assert Entries(keys, sums)[..0] == [];
  }

  lemma KeptStep(keys: seq<nat>, sums: map<nat, Q>, k: nat, gs: seq<Factor>)
    requires Kept(keys, sums, k, gs) && k < |keys|
    ensures keys[k] in sums
    ensures Kept(keys, sums, k + 1, if sums[keys[k]].num != 0 then gs + [Factor(keys[k], sums[keys[k]])] else gs)
  {
    hide *;
    KeptParts(keys, sums, k, gs);
    EntriesStep(keys, sums, k);
    KeyFresh(keys, k);
    var es, f := Entries(keys, sums), Factor(keys[k], sums[keys[k]]);
    var gs' := if f.coeff.num != 0 then gs + [f] else gs;
    NonZeroReal(f.coeff);
    if f.coeff.num != 0 { ProperPush(gs, f); }
    KeptDot(es[..k], gs, f, es[..k + 1], gs');
    KeptAgain(keys, sums, k, gs, f, gs');
  }

  lemma KeptParts(keys: seq<nat>, sums: map<nat, Q>, k: nat, gs: seq<Factor>)
    requires Kept(keys, sums, k, gs) && k < |keys|
    ensures Distinct(keys) && forall i :: 0 <= i < |keys| ==> keys[i] in sums && Canonical(sums[keys[i]])
    ensures sums[keys[k]].den > 0 && ProperFactors(gs) && SameDot(Entries(keys, sums)[..k], gs)
    ensures forall i :: 0 <= i < |gs| ==> gs[i].v in keys[..k]
  {
  }

  lemma EntriesStep(keys: seq<nat>, sums: map<nat, Q>, k: nat)
    requires k < |keys| && forall i :: 0 <= i < |keys| ==> keys[i] in sums
    ensures Entries(keys, sums)[..k + 1] == Entries(keys, sums)[..k] + [Factor(keys[k], sums[keys[k]])]
  {
  }

  lemma KeptAgain(keys: seq<nat>, sums: map<nat, Q>, k: nat, gs: seq<Factor>, f: Factor, gs': seq<Factor>)
    requires Kept(keys, sums, k, gs) && k < |keys| && f.v == keys[k] && (gs' == gs || gs' == gs + [f])
    requires ProperFactors(gs') && SameDot(Entries(keys, sums)[..k + 1], gs')
    requires forall v :: v in keys[..k + 1] <==> v in keys[..k] || v == keys[k]
    ensures Kept(keys, sums, k + 1, gs')
  {
    hide ProperFactors, SameDot, Canonical;
  }

  lemma KeyFresh(keys: seq<nat>, k: nat)
    requires Distinct(keys) && k < |keys|
    ensures keys[k] !in keys[..k] && forall v :: v in keys[..k + 1] <==> v in keys[..k] || v == keys[k]
  {
    assert keys[..k + 1] == keys[..k] + [keys[k]];
    assert forall i :: 0 <= i < k ==> keys[..k][i] == keys[i] && keys[i] != keys[k];
  }

  lemma ProperPush(gs: seq<Factor>, f: Factor)
    requires ProperFactors(gs) && Canonical(f.coeff) && f.coeff.num != 0 && forall i :: 0 <= i < |gs| ==> gs[i].v != f.v
    ensures ProperFactors(gs + [f])
  {
    hide Canonical;
  }

  lemma KeptDot(es: seq<Factor>, gs: seq<Factor>, f: Factor, es': seq<Factor>, gs': seq<Factor>)
    requires SameDot(es, gs) && f.coeff.den > 0 && es' == es + [f]
    requires if f.coeff.num != 0 then gs' == gs + [f] else gs' == gs && RealOf(f.coeff) == 0.0
    ensures SameDot(es', gs')
  {
    hide Dot, RealOf;
    forall m: Reals ensures Dot(es', m) == Dot(gs', m) {
      DotPush(es, f, m);
      DotPush(gs, f, m);
    }
  }

  lemma KeptAll(fs: seq<Factor>, keys: seq<nat>, sums: map<nat, Q>, gs: seq<Factor>)
    requires Summed(fs, keys, sums) && Kept(keys, sums, |keys|, gs)
    ensures ProperFactors(gs) && SameDot(fs, gs)
  {
    assert Entries(keys, sums)[..|keys|] == Entries(keys, sums);
    hide Dot, Canonical, RealOf;
  }

  /** Adds two sums. */
  method Plus(a: Sum, b: Sum) returns (r: Sum)
    requires ProperSum(a) && ProperSum(b)
    ensures ProperSum(r) && forall m: Reals :: Value(r, m) == Value(a, m) + Value(b, m)
  {
    var fs := a.factors + b.factors;
    assert forall i :: 0 <= i < |fs| ==> Canonical(fs[i].coeff) by {
      forall i | 0 <= i < |fs| ensures Canonical(fs[i].coeff) {
        assert fs[i] == if i < |a.factors| then a.factors[i] else b.factors[i - |a.factors|];
      }
    }
    var keys, sums := Collect(fs);
    var gs := DropZeros(fs, keys, sums);
    r := Sum(gs, Add(a.constant, b.constant));
    hide Dot, Canonical, RealOf, Summed;
    forall m: Reals ensures Value(r, m) == Value(a, m) + Value(b, m) {
      DotAppend(a.factors, b.factors, m);
    }
  }

  /** The negated sum. */
  method Negate(a: Sum) returns (r: Sum)
    requires ProperSum(a)
    ensures ProperSum(r) && forall m: Reals :: Value(r, m) == -Value(a, m)
  {
    var fs: seq<Factor> := [];
    for i := 0 to |a.factors|
      invariant |fs| == i && forall j :: 0 <= j < i ==> fs[j] == Factor(a.factors[j].v, Neg(a.factors[j].coeff))
    {
      fs := fs + [Factor(a.factors[i].v, Neg(a.factors[i].coeff))];
    }
    r := Sum(fs, Neg(a.constant));
    NegIsExact(a.constant);
    NegScaled(a.factors, fs);
    ScaledProper(a.factors, -1.0, fs);
    hide Dot, Canonical, RealOf, Scaled;
    forall m: Reals ensures Value(r, m) == -Value(a, m) {
      ScaledDot(a.factors, -1.0, fs, m);
    }
  }

  lemma NegScaled(fs: seq<Factor>, gs: seq<Factor>)
    requires ProperFactors(fs) && |gs| == |fs| && forall j :: 0 <= j < |fs| ==>
      gs[j] == Factor(fs[j].v, Neg(fs[j].coeff))
    ensures Scaled(fs, -1.0, gs)
  {
    forall i | 0 <= i < |fs| ensures ScaledFactor(fs[i], -1.0, gs[i]) {
      NegIsExact(fs[i].coeff);
    }
  }

  // ---------- sorting ----------

  function InsertFactor(f: Factor, fs: seq<Factor>): (r: seq<Factor>)
    ensures |r| == |fs| + 1 && forall g :: g in r <==> g == f || g in fs
  {
    if fs == [] || f.v <= fs[0].v then [f] + fs
    else
      assert fs == [fs[0]] + fs[1..];
      [fs[0]] + InsertFactor(f, fs[1..])
  }

  /** The factors sorted by their variables. */
  function TermSort(fs: seq<Factor>): (r: seq<Factor>)
    ensures |r| == |fs| && forall g :: g in r <==> g in fs
  {
    if fs == [] then []
    else
      assert fs == [fs[0]] + fs[1..];
      InsertFactor(fs[0], TermSort(fs[1..]))
  }

  lemma {:induction false} InsertDot(f: Factor, fs: seq<Factor>, m: Reals)
    requires Dots(fs) && f.coeff.den > 0
    ensures Dots(InsertFactor(f, fs)) && Dot(InsertFactor(f, fs), m) == Product(RealOf(f.coeff), m(f.v)) + Dot(fs, m)
  {
    var r := InsertFactor(f, fs);
    if fs == [] || f.v <= fs[0].v {
      assert r[1..] == fs;
    } else {
      assert Dots(fs[1..]);
      InsertDot(f, fs[1..], m);
      assert r[1..] == InsertFactor(f, fs[1..]);
    }
  }

  /** All coefficients have a value. */
  ghost predicate Dots(fs: seq<Factor>) {
    forall i :: 0 <= i < |fs| ==> fs[i].coeff.den > 0
  }

  lemma {:induction false} SortDot(fs: seq<Factor>, m: Reals)
    requires Dots(fs)
    ensures Dots(TermSort(fs)) && Dot(TermSort(fs), m) == Dot(fs, m)
  {
    if fs != [] {
      SortDot(fs[1..], m);
      InsertDot(fs[0], TermSort(fs[1..]), m);
    }
  }

  lemma ApartCons(f: Factor, fs: seq<Factor>)
    requires Apart(fs) && forall g :: g in fs ==> g.v != f.v
    ensures Apart([f] + fs)
  {
    var r := [f] + fs;
    forall i, j | 0 <= i < j < |r| ensures r[i].v != r[j].v {
      assert r[j] in fs;
    }
  }

  lemma ApartTail(fs: seq<Factor>)
    requires fs != [] && Apart(fs)
    ensures Apart(fs[1..]) && forall g :: g in fs[1..] ==> g.v != fs[0].v
  {
  }

  lemma {:induction false} InsertApart(f: Factor, fs: seq<Factor>)
    requires Apart(fs) && forall g :: g in fs ==> g.v != f.v
    ensures Apart(InsertFactor(f, fs))
  {
    if fs == [] || f.v <= fs[0].v {
      ApartCons(f, fs);
    } else {
      ApartTail(fs);
      assert fs == [fs[0]] + fs[1..];
      InsertApart(f, fs[1..]);
      ApartCons(fs[0], InsertFactor(f, fs[1..]));
    }
  }

  lemma {:induction false} SortProper(fs: seq<Factor>)
    requires ProperFactors(fs)
    ensures ProperFactors(TermSort(fs))
  {
    SortApart(fs);
    var r := TermSort(fs);
    forall i | 0 <= i < |r| ensures Canonical(r[i].coeff) && r[i].coeff.num != 0 {
      assert r[i] in r;
      var j :| 0 <= j < |fs| && fs[j] == r[i];
    }
  }

  lemma {:induction false} SortApart(fs: seq<Factor>)
    requires Apart(fs)
    ensures Apart(TermSort(fs))
  {
    if fs != [] {
      ApartTail(fs);
      SortApart(fs[1..]);
      InsertApart(fs[0], TermSort(fs[1..]));
    }
  }

  lemma {:induction false} InsertInOrder(f: Factor, fs: seq<Factor>)
    requires InOrder(fs) && forall g :: g in fs ==> g.v != f.v
    ensures InOrder(InsertFactor(f, fs))
  {
    if fs == [] || f.v <= fs[0].v {
      assert fs != [] ==> fs[0] in fs;
    } else {
      var r := InsertFactor(f, fs[1..]);
      assert fs == [fs[0]] + fs[1..];
      InsertInOrder(f, fs[1..]);
      forall j | 0 <= j < |r| ensures fs[0].v < r[j].v {
        assert r[j] in r;
        if r[j] in fs[1..] { var k :| 0 <= k < |fs[1..]| && fs[1..][k] == r[j]; }
      }
    }
  }

  lemma {:induction false} SortInOrder(fs: seq<Factor>)
    requires Apart(fs)
    ensures InOrder(TermSort(fs))
  {
    if fs != [] {
      ApartTail(fs);
      SortInOrder(fs[1..]);
      InsertInOrder(fs[0], TermSort(fs[1..]));
    }
  }

  lemma ScaledInOrder(fs: seq<Factor>, k: real, gs: seq<Factor>)
    requires Scaled(fs, k, gs) && InOrder(fs)
    ensures InOrder(gs)
  {
    hide RealOf, Canonical, Product;
    forall i, j | 0 <= i < j < |gs| ensures gs[i].v < gs[j].v {
      assert ScaledFactor(fs[i], k, gs[i]) && ScaledFactor(fs[j], k, gs[j]);
    }
  }

  // ---------- coprime integer coefficients ----------

  ghost predicate IntegerCoefficients(fs: seq<Factor>) {
    forall i :: 0 <= i < |fs| ==> fs[i].coeff.den == 1
  }

  /** No number but one divides all coefficients. */
  ghost predicate CoprimeCoefficients(fs: seq<Factor>) {
    forall d: nat :: DividesAll(d, fs) ==> d == 1
  }

  ghost predicate DividesAll(d: nat, fs: seq<Factor>) {
    forall i :: 0 <= i < |fs| ==> Divides(d, fs[i].coeff.num)
  }

  /** Multiplies every coefficient. */
  method ScaleAll(fs: seq<Factor>, q: Q) returns (gs: seq<Factor>)
    requires q.den > 0 && forall i :: 0 <= i < |fs| ==> fs[i].coeff.den > 0
    ensures Scaled(fs, RealOf(q), gs)
    ensures |gs| == |fs| && forall i :: 0 <= i < |fs| ==> gs[i].coeff == Mul(fs[i].coeff, q)
  {
    gs := [];
    for i := 0 to |fs|
      invariant |gs| == i
      invariant forall j :: 0 <= j < i ==> gs[j] == Factor(fs[j].v, Mul(fs[j].coeff, q))
    {
      gs := gs + [Factor(fs[i].v, Mul(fs[i].coeff, q))];
    }
    forall i | 0 <= i < |fs| ensures ScaledFactor(fs[i], RealOf(q), gs[i]) {
      assert RealOf(fs[i].coeff) * RealOf(q) == Product(RealOf(q), RealOf(fs[i].coeff));
    }
  }

  /** A common multiple of the denominators: integers and the first denominator are taken as they are. */
  method LcmOfDenominators(fs: seq<Factor>) returns (lcm: nat)
    requires forall i :: 0 <= i < |fs| ==> fs[i].coeff.den > 0
    ensures lcm > 0 && forall i :: 0 <= i < |fs| ==> Divides(fs[i].coeff.den, lcm)
  {
    lcm := 1;
    for k := 0 to |fs|
      invariant lcm > 0 && forall i :: 0 <= i < k ==> Divides(fs[i].coeff.den, lcm)
    {
      var den := fs[k].coeff.den;
      DividesSelf(den);
      DividesIntro(1, lcm, lcm);
      if den == 1 {
      } else if lcm == 1 {
        forall i | 0 <= i < k ensures Divides(fs[i].coeff.den, den) {
          DividesLe(fs[i].coeff.den, 1);
          DividesIntro(1, den, den);
        }
        lcm := den;
      } else {
        lcm := NextLcm(fs, k, lcm, den);
      }
    }
  }

  method NextLcm(fs: seq<Factor>, k: nat, lcm0: nat, den: nat) returns (lcm: nat)
    requires k < |fs| && lcm0 > 0 && den > 0 && den == fs[k].coeff.den
    requires forall i :: 0 <= i < k ==> Divides(fs[i].coeff.den, lcm0)
    ensures lcm > 0 && forall i :: 0 <= i < k + 1 ==> Divides(fs[i].coeff.den, lcm)
  {
    lcm := Lcm(lcm0, den);
    LcmDivides(lcm0, den, lcm);
    DividesSelf(lcm);
    forall i | 0 <= i < k ensures Divides(fs[i].coeff.den, lcm) {
      DividesTransitive(fs[i].coeff.den, lcm0, lcm);
    }
  }

  /** The greatest common divisor of integer coefficients; the loop stops at one. */
  method GcdOfCoefficients(fs: seq<Factor>) returns (g: nat)
    requires fs != [] && forall i :: 0 <= i < |fs| ==> fs[i].coeff.num != 0
    ensures g > 0 && DividesAll(g, fs) && forall d: nat :: DividesAll(d, fs) ==> Divides(d, g)
  {
    g := Abs(fs[0].coeff.num);
    var i := 1;
    FirstGcd(fs);
    while i < |fs| && g != 1
      invariant 1 <= i <= |fs| && IsGcd(fs, i, g)
      decreases |fs| - i
    {
      GcdAlong(fs, i, g);
      g := Gcd(g, Abs(fs[i].coeff.num));
      i := i + 1;
    }
    GcdDone(fs, i, g);
  }

  /** The number is the greatest common divisor of the first i coefficients. */
  ghost predicate IsGcd(fs: seq<Factor>, i: nat, g: nat) {
    && g > 0 && i <= |fs| && (forall j :: 0 <= j < i ==> Divides(g, fs[j].coeff.num))
    && forall d: nat :: (forall j :: 0 <= j < i ==> Divides(d, fs[j].coeff.num)) ==> Divides(d, g)
  }

  lemma FirstGcd(fs: seq<Factor>)
    requires fs != [] && fs[0].coeff.num != 0
    ensures IsGcd(fs, 1, Abs(fs[0].coeff.num))
  {
    var g := Abs(fs[0].coeff.num);
    DividesSelf(g);
    DividesAbs(g, fs[0].coeff.num);
    forall d: nat | Divides(d, fs[0].coeff.num) ensures Divides(d, g) { DividesAbs(d, fs[0].coeff.num); }
  }

  lemma GcdAlong(fs: seq<Factor>, i: nat, g: nat)
    requires i < |fs| && IsGcd(fs, i, g)
    ensures IsGcd(fs, i + 1, Gcd(g, Abs(fs[i].coeff.num)))
  {
    var a := fs[i].coeff.num;
    var h := Gcd(g, Abs(a));
    GcdDivides(g, Abs(a));
    DividesAbs(h, a);
    forall j | 0 <= j < i ensures Divides(h, fs[j].coeff.num) { DividesTransitive(h, g, fs[j].coeff.num); }
    forall d: nat | forall j :: 0 <= j < i + 1 ==> Divides(d, fs[j].coeff.num) ensures Divides(d, h) {
      DividesAbs(d, a);
      GcdGreatest(g, Abs(a), d);
    }
  }

  lemma GcdDone(fs: seq<Factor>, i: nat, g: nat)
    requires IsGcd(fs, i, g) && (i == |fs| || g == 1)
    ensures g > 0 && DividesAll(g, fs) && forall d: nat :: DividesAll(d, fs) ==> Divides(d, g)
  {
    if g == 1 {
      forall j | 0 <= j < |fs| ensures Divides(g, fs[j].coeff.num) {
        DividesIntro(1, fs[j].coeff.num, fs[j].coeff.num);
      }
    }
    forall d: nat | DividesAll(d, fs) ensures Divides(d, g) {
      assert forall j :: 0 <= j < i ==> Divides(d, fs[j].coeff.num);
    }
  }

  // ---------- the normalized pairs ----------

  /** Divides every coefficient. */
  method DivideAll(fs: seq<Factor>, g: nat) returns (gs: seq<Factor>)
    requires g > 0 && forall i :: 0 <= i < |fs| ==> fs[i].coeff.den > 0
    ensures |gs| == |fs| && forall i :: 0 <= i < |fs| ==> gs[i] == Factor(fs[i].v, Div(fs[i].coeff, Q(g, 1)))
  {
    gs := [];
    for i := 0 to |fs|
      invariant |gs| == i
      invariant forall j :: 0 <= j < i ==> gs[j] == Factor(fs[j].v, Div(fs[j].coeff, Q(g, 1)))
    {
      gs := gs + [Factor(fs[i].v, Div(fs[i].coeff, Q(g, 1)))];
    }
  }

  lemma DividedReal(q: Q, g: nat)
    requires q.den > 0 && g > 0
    ensures 1.0 / g as real > 0.0
    ensures Canonical(Div(q, Q(g, 1))) && RealOf(Div(q, Q(g, 1))) == Product(1.0 / g as real, RealOf(q))
  {
    assert RealOf(Q(g, 1)) == g as real;
    var x, y := RealOf(q), g as real;
    assert (1.0 / y) * y == 1.0;
    assert ((1.0 / y) * x) * y == x;
    assert x / y == (1.0 / y) * x;
  }

  /** A quotient of integers without remainder. */
  lemma DividedInteger(q: Q, g: nat)
    requires q.den == 1 && g > 0 && Divides(g, q.num)
    ensures Div(q, Q(g, 1)) == Q(q.num / g, 1) && q.num == g * (q.num / g)
  {
    DividesElim(g, q.num);
    DividedReal(q, g);
    IntegerCanonical(q.num / g);
    assert q == Q(q.num, 1);
    IntegerCanonical(q.num);
    QuotientReal(q.num, g, q.num / g);
    hide *;
    CanonicalUnique(Div(q, Q(g, 1)), Q(q.num / g, 1));
  }

  lemma QuotientReal(n: int, g: nat, k: int)
    requires g > 0 && n == g * k
    ensures Product(1.0 / g as real, n as real) == k as real
  {
    var y := g as real;
    assert n as real == y * k as real;
    assert (1.0 / y) * y == 1.0;
    assert (1.0 / y) * (y * k as real) == ((1.0 / y) * y) * k as real;
  }

  lemma IntegerCanonical(k: int)
    ensures Canonical(Q(k, 1)) && RealOf(Q(k, 1)) == k as real
  {
    GcdBound(Abs(k), 1);
  }

  lemma DividedScaled(fs: seq<Factor>, g: nat, gs: seq<Factor>)
    requires g > 0 && (forall i :: 0 <= i < |fs| ==> fs[i].coeff.den > 0) && |gs| == |fs|
    requires forall i :: 0 <= i < |fs| ==> gs[i] == Factor(fs[i].v, Div(fs[i].coeff, Q(g, 1)))
    ensures Scaled(fs, 1.0 / g as real, gs)
  {
    forall i | 0 <= i < |fs| ensures ScaledFactor(fs[i], 1.0 / g as real, gs[i]) { DividedReal(fs[i].coeff, g); }
  }

  lemma ScaledSelf(fs: seq<Factor>)
    requires ProperFactors(fs)
    ensures Scaled(fs, 1.0, fs)
  {
    forall i | 0 <= i < |fs| ensures ScaledFactor(fs[i], 1.0, fs[i]) {}
  }

  /** Coefficients divided by their greatest common divisor are coprime. */
  lemma DividedCoprime(fs: seq<Factor>, g: nat, gs: seq<Factor>)
    requires fs != [] && IntegerCoefficients(fs) && fs[0].coeff.num != 0
    requires g > 0 && DividesAll(g, fs) && forall d: nat :: DividesAll(d, fs) ==> Divides(d, g)
    requires |gs| == |fs| && forall i :: 0 <= i < |fs| ==> gs[i] == Factor(fs[i].v, Div(fs[i].coeff, Q(g, 1)))
    ensures IntegerCoefficients(gs) && CoprimeCoefficients(gs)
  {
    forall i | 0 <= i < |fs| ensures gs[i].coeff.den == 1 && fs[i].coeff.num == g * gs[i].coeff.num {
      DividedInteger(fs[i].coeff, g);
    }
    forall d: nat | DividesAll(d, gs) ensures d == 1 {
      assert Divides(d, gs[0].coeff.num);
      forall i | 0 <= i < |fs| ensures Divides(g * d, fs[i].coeff.num) {
        assert Divides(d, gs[i].coeff.num);
        MultipleDivides(g, d, gs[i].coeff.num);
      }
      assert g * d >= 0 by { MulMono(0, g, d); }
      assert DividesAll(g * d, fs);
      OnlyOne(g, d);
    }
  }

  lemma MultipleDivides(g: nat, d: nat, n: int)
    requires g > 0 && Divides(d, n)
    ensures g * d >= 0 && Divides(g * d, g * n)
  {
    MulMono(1, g, d);
    DividesElim(d, n);
    var k := n / d;
    assert g * n == (g * d) * k by { assert g * (d * k) == (g * d) * k; }
    DividesIntro(g * d, k, g * n);
  }

  lemma OnlyOne(g: nat, d: nat)
    requires g > 0 && g * d >= 0 && Divides(g * d, g)
    ensures d == 1
  {
    DividesElim(g * d, g);
    var k := g / (g * d);
    assert g * d * k == g * (d * k);
    MulCancel(g, d * k, 1);
    UnitFactors(d, k);
  }

  lemma UnitFactors(d: nat, k: int)
    requires d * k == 1
    ensures d == 1
  {
    if k > 1 { MulMono(1, d, k); MulMono(1, k, d); }
    DividesIntro(d, k, 1);
    DividesLe(d, 1);
    assert d != 0;
  }

  /** What the normalization of a sum with k > 0 gives: everything is multiplied by k, the constant changes sides. */
  ghost predicate Normalized(s: Sum, lhs: Q, fs: seq<Factor>, k: real)
    requires ProperSum(s)
  {
    && k > 0.0 && ProperFactors(fs) && InOrder(fs) && fs != [] && Canonical(lhs)
    && RealOf(lhs) == -Product(k, RealOf(s.constant))
    && forall m: Reals :: Dot(fs, m) == Product(k, Dot(s.factors, m))
  }

  lemma NormalizedBy(s: Sum, lhs: Q, fs: seq<Factor>, k: real)
    requires ProperSum(s) && s.factors != [] && k > 0.0 && Scaled(TermSort(s.factors), k, fs)
    requires Canonical(lhs) && RealOf(lhs) == -Product(k, RealOf(s.constant))
    ensures Normalized(s, lhs, fs, k)
  {
    SortProper(s.factors);
    ScaledProper(TermSort(s.factors), k, fs);
    SortInOrder(s.factors);
    ScaledInOrder(TermSort(s.factors), k, fs);
    hide Canonical, RealOf, Product, Dot;
    forall m: Reals ensures Dot(fs, m) == Product(k, Dot(s.factors, m)) {
      SortDot(s.factors, m);
      ScaledDot(TermSort(s.factors), k, fs, m);
    }
  }

  method AllIntegers(fs: seq<Factor>) returns (all: bool)
    ensures all <==> IntegerCoefficients(fs)
  {
    for i := 0 to |fs|
      invariant forall j :: 0 <= j < i ==> fs[j].coeff.den == 1
    {
      if fs[i].coeff.den != 1 { return false; }
    }
    return true;
  }

  lemma CommonFactor(c: Q, lcm: nat)
    requires Canonical(c) && lcm > 0
    ensures RealOf(Q(lcm, 1)) > 0.0 && Canonical(Mul(c, Q(lcm, 1)))
    ensures RealOf(Mul(c, Q(lcm, 1))) == Product(RealOf(Q(lcm, 1)), RealOf(c))
  {
  }

  lemma IntegersAfter(fs: seq<Factor>, gs: seq<Factor>, lcm: nat)
    requires |gs| == |fs| && lcm > 0 && ProperFactors(fs)
    requires forall i :: 0 <= i < |fs| ==> Divides(fs[i].coeff.den, lcm)
    requires forall i :: 0 <= i < |gs| ==> gs[i].coeff == Mul(fs[i].coeff, Q(lcm, 1))
    ensures IntegerCoefficients(gs)
  {
    hide Mul;
    forall i | 0 <= i < |gs| ensures gs[i].coeff.den == 1 { IntegerProduct(fs[i].coeff, lcm); }
  }

  /** Clears the denominators. */
  method ClearDenominators(fs: seq<Factor>, c: Q) returns (gs: seq<Factor>, d: Q, ghost k: real)
    requires ProperFactors(fs) && Canonical(c)
    ensures k > 0.0 && Scaled(fs, k, gs) && IntegerCoefficients(gs)
    ensures Canonical(d) && RealOf(d) == Product(k, RealOf(c))
  {
    var all := AllIntegers(fs);
    if all {
      ScaledSelf(fs);
      return fs, c, 1.0;
    }
    var lcm := LcmOfDenominators(fs);
    k := RealOf(Q(lcm, 1));
    gs := ScaleAll(fs, Q(lcm, 1));
    assert forall i :: 0 <= i < |gs| ==> gs[i].coeff == Mul(fs[i].coeff, Q(lcm, 1));
    d := Mul(c, Q(lcm, 1));
    hide *;
    CommonFactor(c, lcm);
    IntegersAfter(fs, gs, lcm);
  }

  /** Coprime integer coefficients, and the constant on the other side. */
  method SumToNormalizedIntPair(s: Sum) returns (lhs: Q, fs: seq<Factor>, ghost k: real)
    requires ProperSum(s) && s.factors != []
    ensures Normalized(s, lhs, fs, k) && IntegerCoefficients(fs) && CoprimeCoefficients(fs)
  {
    var varFactors := TermSort(s.factors);
    SortProper(s.factors);
    var constant;
    fs, constant, k := ClearDenominators(varFactors, s.constant);
    ScaledProper(varFactors, k, fs);
    var g := GcdOfCoefficients(fs);
    if g != 1 {
      var before := fs;
      DividedReal(constant, g);
      fs := DivideAll(before, g);
      DividedScaled(before, g, fs);
      ScaledTwice(varFactors, k, before, 1.0 / g as real, fs);
      DividedCoprime(before, g, fs);
      ProductAssoc(1.0 / g as real, k, RealOf(s.constant));
      k := PositiveProductOf(1.0 / g as real, k);
      constant := Div(constant, Q(g, 1));
    } else {
      ByOne(fs);
    }
    lhs := Neg(constant);
    NegIsExact(constant);
    NormalizedBy(s, lhs, fs, k);
  }

  ghost function PositiveProductOf(x: real, y: real): (z: real)
    requires x > 0.0 && y > 0.0
    ensures z > 0.0 && z == Product(x, y)
  {
    x * y
  }

  lemma ByOne(fs: seq<Factor>)
    requires forall d: nat :: DividesAll(d, fs) ==> Divides(d, 1)
    ensures CoprimeCoefficients(fs)
  {
    forall d: nat | DividesAll(d, fs) ensures d == 1 {
      DividesLe(d, 1);
      DividesElim(d, 1);
    }
  }

  /** A leading coefficient of one or minus one, and the constant on the other side. */
  method SumToNormalizedRealPair(s: Sum) returns (lhs: Q, fs: seq<Factor>, ghost k: real)
    requires ProperSum(s) && s.factors != []
    ensures Normalized(s, lhs, fs, k) && (RealOf(fs[0].coeff) == 1.0 || RealOf(fs[0].coeff) == -1.0)
  {
    fs := TermSort(s.factors);
    SortProper(s.factors);
    ScaledSelf(fs);
    var lead := fs[0].coeff;
    var norm := Q(Abs(lead.num), lead.den);
    var constant := s.constant;
    k := 1.0;
    AbsReal(lead);
    if norm != Q(1, 1) {
      var inverse := Inv(norm);
      InvIsExact(norm);
      ReciprocalPositive(norm);
      var before := fs;
      k := RealOf(inverse);
      fs := ScaleAll(before, inverse);
      constant := Div(constant, norm);
      LeadOne(lead, norm, RealOf(fs[0].coeff), k);
      QuotientByProduct(s.constant, norm, k);
    }
    lhs := Neg(constant);
    NegIsExact(constant);
    NormalizedBy(s, lhs, fs, k);
  }

  lemma AbsReal(q: Q)
    requires q.den > 0 && q.num != 0
    ensures var n := Q(Abs(q.num), q.den); RealOf(n) > 0.0 && (RealOf(q) == RealOf(n) || RealOf(q) == -RealOf(n))
    ensures Q(Abs(q.num), q.den) == Q(1, 1) ==> RealOf(q) == 1.0 || RealOf(q) == -1.0
  {
    NegIsExact(q);
    NonZeroReal(Q(Abs(q.num), q.den));
    assert q.num > 0 || Neg(q) == Q(Abs(q.num), q.den);
  }

  lemma ReciprocalPositive(q: Q)
    requires q.den > 0 && q.num > 0
    ensures 1.0 / RealOf(q) > 0.0
  {
    NonZeroReal(q);
  }

  lemma LeadOne(lead: Q, norm: Q, x: real, k: real)
    requires lead.den > 0 && norm.den > 0 && RealOf(norm) > 0.0 && k == 1.0 / RealOf(norm)
    requires RealOf(lead) == RealOf(norm) || RealOf(lead) == -RealOf(norm)
    requires x == Product(k, RealOf(lead))
    ensures x == 1.0 || x == -1.0
  {
    assert k * RealOf(norm) == 1.0;
  }

  lemma QuotientByProduct(c: Q, norm: Q, k: real)
    requires c.den > 0 && norm.den > 0 && norm.num != 0 && RealOf(norm) > 0.0 && k == 1.0 / RealOf(norm)
    ensures RealOf(Div(c, norm)) == Product(k, RealOf(c))
  {
    var x, y := RealOf(c), RealOf(norm);
    assert (x / y) * y == x && (k * x) * y == x * (k * y) && k * y == 1.0;
    assert (x / y - k * x) * y == 0.0;
  }

  // ---------- constraints ----------

  /** A truth value, a constant that is at most a sum of factors, or one that equals it. */
  datatype Constraint = Yes | No | AtMost(bound: Q, factors: seq<Factor>) | Equals(bound: Q, factors: seq<Factor>)

  ghost predicate ProperConstraint(c: Constraint) {
    c.AtMost? || c.Equals? ==>
      Canonical(c.bound) && ProperFactors(c.factors) && InOrder(c.factors) && c.factors != []
  }

  ghost predicate Satisfies(m: Reals, c: Constraint)
    requires ProperConstraint(c)
  {
    match c
    case Yes => true
    case No => false
    case AtMost(b, fs) => RealOf(b) <= Dot(fs, m)
    case Equals(b, fs) => RealOf(b) == Dot(fs, m)
  }

  ghost function AsReals(n: Integers): Reals {
    (v: nat) => n(v) as real
  }

  /** Coprime integer coefficients and an integer bound. */
  ghost predicate Tight(c: Constraint) {
    c.AtMost? || c.Equals? ==> c.bound.den == 1 && IntegerCoefficients(c.factors) && CoprimeCoefficients(c.factors)
  }

  /** The leading coefficient is one or minus one. */
  ghost predicate UnitLead(c: Constraint) {
    c.AtMost? || c.Equals? ==>
      c.factors != [] && c.factors[0].coeff.den > 0
        && (RealOf(c.factors[0].coeff) == 1.0 || RealOf(c.factors[0].coeff) == -1.0)
  }

  /** The constraint says what the relation between the sides says, for reals or for integers. */
  ghost predicate SaysLeq(lhs: Sum, rhs: Sum, isInt: bool, c: Constraint)
    requires ProperSum(lhs) && ProperSum(rhs)
  {
    && ProperConstraint(c) && !c.Equals?
    && (isInt ==> forall n: Integers :: Value(lhs, AsReals(n)) <= Value(rhs, AsReals(n)) <==> Satisfies(AsReals(n), c))
    && (!isInt ==> forall m: Reals :: Value(lhs, m) <= Value(rhs, m) <==> Satisfies(m, c))
    && if isInt then Tight(c) else UnitLead(c)
  }

  ghost predicate SaysEqual(lhs: Sum, rhs: Sum, isInt: bool, c: Constraint)
    requires ProperSum(lhs) && ProperSum(rhs)
  {
    && ProperConstraint(c) && !c.AtMost?
    && (isInt ==> forall n: Integers :: Value(lhs, AsReals(n)) == Value(rhs, AsReals(n)) <==> Satisfies(AsReals(n), c))
    && (!isInt ==> forall m: Reals :: Value(lhs, m) == Value(rhs, m) <==> Satisfies(m, c))
    && if isInt then Tight(c) else UnitLead(c)
  }

  // ---------- integers ----------

  ghost function IntDot(fs: seq<Factor>, n: Integers): int {
    if fs == [] then 0 else fs[0].coeff.num * n(fs[0].v) + IntDot(fs[1..], n)
  }

  lemma {:induction false} IntDotReal(fs: seq<Factor>, n: Integers)
    requires IntegerCoefficients(fs)
    ensures Dot(fs, AsReals(n)) == IntDot(fs, n) as real
  {
    if fs != [] {
      IntDotReal(fs[1..], n);
      var a, x := fs[0].coeff.num, n(fs[0].v);
      assert fs[0].coeff == Q(a, 1);
      IntegerCanonical(a);
      assert (a * x) as real == a as real * x as real;
    }
  }

  /** Rounding the bound up keeps the integers above it. */
  lemma CeilBound(q: Q, z: int)
    requires Canonical(q)
    ensures var c := FastRationals.CeilOf(q);
            Canonical(Q(c, 1)) && (RealOf(q) <= z as real <==> RealOf(Q(c, 1)) <= z as real)
  {
    FastRationals.CeilIsLeast(q);
    IntegerCanonical(FastRationals.CeilOf(q));
    hide *;
    RoundUp(RealOf(q), FastRationals.CeilOf(q), z);
  }

  lemma RoundUp(x: real, c: int, z: int)
    requires c as real - 1.0 < x <= c as real
    ensures x <= z as real <==> c as real <= z as real
  {
    assert z < c ==> z as real <= c as real - 1.0;
  }

  lemma IntegerValue(q: Q, z: int)
    requires Canonical(q) && RealOf(q) == z as real
    ensures q.den == 1
  {
    IntegerCanonical(z);
    CanonicalUnique(q, Q(z, 1));
  }

  /** Scaling by a positive number keeps order and equality. */
  lemma ScaledOrder(k: real, x: real, y: real)
    requires k > 0.0
    ensures -Product(k, x) <= Product(k, y) <==> 0.0 <= x + y
    ensures -Product(k, x) == Product(k, y) <==> 0.0 == x + y
  {
    ProductSum(x, y, k);
    PositiveTimes(k, x + y);
  }

  lemma PositiveTimes(k: real, x: real)
    requires k > 0.0
    ensures (Product(k, x) >= 0.0 <==> x >= 0.0) && (Product(k, x) == 0.0 <==> x == 0.0)
  {
  }

  /** The normalized pair relates to the sum as the sum to zero. */
  lemma NormalizedSays(s: Sum, lhs: Q, fs: seq<Factor>, k: real, m: Reals)
    requires ProperSum(s) && Normalized(s, lhs, fs, k)
    ensures RealOf(lhs) <= Dot(fs, m) <==> 0.0 <= Value(s, m)
    ensures RealOf(lhs) == Dot(fs, m) <==> 0.0 == Value(s, m)
  {
    ScaledOrder(k, RealOf(s.constant), Dot(s.factors, m));
  }

  // ---------- inequalities ----------

  method SumToNormalizedInequality(s: Sum, isInt: bool) returns (c: Constraint)
    requires ProperSum(s) && s.factors != []
    ensures SaysNonNegative(s, isInt, c)
  {
    var lhsVal, rhs;
    ghost var k;
    if isInt {
      lhsVal, rhs, k := SumToNormalizedIntPair(s);
      c := AtMost(Q(FastRationals.CeilOf(lhsVal), 1), rhs);
      IntInequality(s, lhsVal, rhs, k);
    } else {
      lhsVal, rhs, k := SumToNormalizedRealPair(s);
      c := AtMost(lhsVal, rhs);
      RealInequality(s, lhsVal, rhs, k);
    }
  }

  ghost predicate SaysNonNegative(s: Sum, isInt: bool, c: Constraint)
    requires ProperSum(s)
  {
    && ProperConstraint(c) && !c.Equals?
    && (isInt ==> forall n: Integers :: 0.0 <= Value(s, AsReals(n)) <==> Satisfies(AsReals(n), c))
    && (!isInt ==> forall m: Reals :: 0.0 <= Value(s, m) <==> Satisfies(m, c))
    && if isInt then Tight(c) else UnitLead(c)
  }

  lemma IntInequality(s: Sum, lhs: Q, fs: seq<Factor>, k: real)
    requires ProperSum(s) && Normalized(s, lhs, fs, k) && IntegerCoefficients(fs) && CoprimeCoefficients(fs)
    ensures SaysNonNegative(s, true, AtMost(Q(FastRationals.CeilOf(lhs), 1), fs))
  {
    var c := AtMost(Q(FastRationals.CeilOf(lhs), 1), fs);
    CeilBound(lhs, 0);
    forall n: Integers ensures 0.0 <= Value(s, AsReals(n)) <==> Satisfies(AsReals(n), c) {
      NormalizedSays(s, lhs, fs, k, AsReals(n));
      IntDotReal(fs, n);
      CeilBound(lhs, IntDot(fs, n));
    }
  }

  lemma RealInequality(s: Sum, lhs: Q, fs: seq<Factor>, k: real)
    requires ProperSum(s) && Normalized(s, lhs, fs, k) && (RealOf(fs[0].coeff) == 1.0 || RealOf(fs[0].coeff) == -1.0)
    ensures SaysNonNegative(s, false, AtMost(lhs, fs))
  {
    forall m: Reals ensures 0.0 <= Value(s, m) <==> Satisfies(m, AtMost(lhs, fs)) {
      NormalizedSays(s, lhs, fs, k, m);
    }
  }

  /** The right side minus the left side; a side that is zero is not added. */
  method Difference(lhs: Sum, rhs: Sum) returns (d: Sum)
    requires ProperSum(lhs) && ProperSum(rhs)
    ensures ProperSum(d) && forall m: Reals :: Value(d, m) == Value(rhs, m) - Value(lhs, m)
  {
    ZeroSum(lhs);
    ZeroSum(rhs);
    if lhs == Sum([], Q(0, 1)) { return rhs; }
    var neg := Negate(lhs);
    if rhs == Sum([], Q(0, 1)) { return neg; }
    d := Plus(rhs, neg);
  }

  lemma ZeroSum(s: Sum)
    requires ProperSum(s)
    ensures s == Sum([], Q(0, 1)) ==> forall m: Reals :: Value(s, m) == 0.0
  {
    IntegerCanonical(0);
    if s == Sum([], Q(0, 1)) {
      forall m: Reals ensures Value(s, m) == 0.0 {}
    }
  }

  /** A single variable with a coefficient: the sign of the coefficient is all that matters. */
  lemma OneVariable(s: Sum, m: Reals)
    requires ProperSum(s) && |s.factors| == 1 && s.constant.num == 0
    ensures var f := s.factors[0]; var u := Factor(f.v, Q(if f.coeff.num < 0 then -1 else 1, 1));
            && ProperFactors([u]) && CoprimeCoefficients([u])
            && (0.0 <= Value(s, m) <==> 0.0 <= Dot([u], m)) && (0.0 == Value(s, m) <==> 0.0 == m(f.v))
  {
    var f := s.factors[0];
    assert s.factors == [f];
    var u := Factor(f.v, Q(if f.coeff.num < 0 then -1 else 1, 1));
    IntegerCanonical(u.coeff.num);
    DotOne(f, m);
    DotOne(u, m);
    NonZeroReal(s.constant);
    NonZeroReal(f.coeff);
    SignOf(RealOf(f.coeff), m(f.v), RealOf(u.coeff));
    UnitCoprime(u);
  }

  lemma UnitCoprime(u: Factor)
    requires u.coeff.num == 1 || u.coeff.num == -1
    ensures CoprimeCoefficients([u])
  {
    forall d: nat | DividesAll(d, [u]) ensures d == 1 {
      assert Divides(d, [u][0].coeff.num);
      DividesAbs(d, u.coeff.num);
      DividesLe(d, 1);
    }
  }

  lemma SignOf(c: real, x: real, u: real)
    requires c != 0.0 && u == if c > 0.0 then 1.0 else -1.0
    ensures 0.0 <= Product(c, x) <==> 0.0 <= Product(u, x)
    ensures 0.0 == Product(c, x) <==> 0.0 == x
  {
  }

  lemma ConstantSum(s: Sum, m: Reals)
    requires ProperSum(s) && s.factors == []
    ensures (0.0 <= Value(s, m) <==> s.constant.num >= 0) && (0.0 == Value(s, m) <==> s.constant.num == 0)
  {
    NonZeroReal(s.constant);
  }

  /**
   The inequality between two sums: over the integers it holds at the same points, with coprime
   coefficients and a rounded bound; over the reals it keeps its solutions.
   */
  method MkBinaryLeq(lhs: Sum, rhs: Sum, isInt: bool) returns (c: Constraint)
    requires ProperSum(lhs) && ProperSum(rhs)
    ensures SaysLeq(lhs, rhs, isInt, c)
  {
    var sum := Difference(lhs, rhs);
    if sum.factors == [] {
      c := if sum.constant.num < 0 then No else Yes;
      forall m: Reals ensures 0.0 <= Value(sum, m) <==> Satisfies(m, c) { ConstantSum(sum, m); }
    } else if |sum.factors| == 1 && sum.constant.num == 0 {
      var f := sum.factors[0];
      c := AtMost(Q(0, 1), [Factor(f.v, Q(if f.coeff.num < 0 then -1 else 1, 1))]);
      OneVariable(sum, _ => 0.0);
      IntegerCanonical(0);
      IntegerCanonical(if f.coeff.num < 0 then -1 else 1);
      forall m: Reals ensures 0.0 <= Value(sum, m) <==> Satisfies(m, c) { OneVariable(sum, m); }
    } else {
      c := SumToNormalizedInequality(sum, isInt);
    }
    LeqFromDifference(lhs, rhs, sum, isInt, c);
  }

  lemma LeqFromDifference(lhs: Sum, rhs: Sum, d: Sum, isInt: bool, c: Constraint)
    requires ProperSum(lhs) && ProperSum(rhs) && ProperSum(d) && SaysNonNegative(d, isInt, c)
    requires forall m: Reals :: Value(d, m) == Value(rhs, m) - Value(lhs, m)
    ensures SaysLeq(lhs, rhs, isInt, c)
  {
    hide Value, Satisfies, Tight, UnitLead, ProperSum, ProperConstraint;
    forall m: Reals ensures 0.0 <= Value(d, m) <==> Value(lhs, m) <= Value(rhs, m) {
      assert Value(d, m) == Value(rhs, m) - Value(lhs, m);
    }
  }

  // ---------- equalities ----------

  ghost predicate SaysZero(s: Sum, isInt: bool, c: Constraint)
    requires ProperSum(s)
  {
    && ProperConstraint(c) && !c.AtMost?
    && (isInt ==> forall n: Integers :: 0.0 == Value(s, AsReals(n)) <==> Satisfies(AsReals(n), c))
    && (!isInt ==> forall m: Reals :: 0.0 == Value(s, m) <==> Satisfies(m, c))
    && if isInt then Tight(c) else UnitLead(c)
  }

  method SumToNormalizedEquality(s: Sum, isInt: bool) returns (c: Constraint)
    requires ProperSum(s) && s.factors != []
    ensures SaysZero(s, isInt, c)
  {
    var lhsVal, rhs;
    ghost var k;
    if isInt {
      lhsVal, rhs, k := SumToNormalizedIntPair(s);
      c := if lhsVal.den != 1 then No else Equals(lhsVal, rhs);
      IntEquality(s, lhsVal, rhs, k);
    } else {
      lhsVal, rhs, k := SumToNormalizedRealPair(s);
      c := Equals(lhsVal, rhs);
      RealEquality(s, lhsVal, rhs, k);
    }
  }

  lemma IntEquality(s: Sum, lhs: Q, fs: seq<Factor>, k: real)
    requires ProperSum(s) && Normalized(s, lhs, fs, k) && IntegerCoefficients(fs) && CoprimeCoefficients(fs)
    ensures SaysZero(s, true, if lhs.den != 1 then No else Equals(lhs, fs))
  {
    var c := if lhs.den != 1 then No else Equals(lhs, fs);
    forall n: Integers ensures 0.0 == Value(s, AsReals(n)) <==> Satisfies(AsReals(n), c) {
      NormalizedSays(s, lhs, fs, k, AsReals(n));
      IntDotReal(fs, n);
      if RealOf(lhs) == IntDot(fs, n) as real { IntegerValue(lhs, IntDot(fs, n)); }
    }
  }

  lemma RealEquality(s: Sum, lhs: Q, fs: seq<Factor>, k: real)
    requires ProperSum(s) && Normalized(s, lhs, fs, k) && (RealOf(fs[0].coeff) == 1.0 || RealOf(fs[0].coeff) == -1.0)
    ensures SaysZero(s, false, Equals(lhs, fs))
  {
    forall m: Reals ensures 0.0 == Value(s, m) <==> Satisfies(m, Equals(lhs, fs)) {
      NormalizedSays(s, lhs, fs, k, m);
    }
  }

  /** The equality of two sums. Over the integers it is false exactly if it has no solution. */
  method MkBinaryEq(lhs: Sum, rhs: Sum, isInt: bool) returns (c: Constraint)
    requires ProperSum(lhs) && ProperSum(rhs)
    ensures SaysEqual(lhs, rhs, isInt, c)
    ensures isInt ==> (c == No <==> forall n: Integers :: Value(lhs, AsReals(n)) != Value(rhs, AsReals(n)))
  {
    var diff := Difference(lhs, rhs);
    if diff.factors == [] {
      c := if diff.constant.num == 0 then Yes else No;
      forall m: Reals ensures 0.0 == Value(diff, m) <==> Satisfies(m, c) { ConstantSum(diff, m); }
    } else if |diff.factors| == 1 && diff.constant.num == 0 {
      var f := diff.factors[0];
      c := Equals(Q(0, 1), [Factor(f.v, Q(1, 1))]);
      IntegerCanonical(0);
      IntegerCanonical(1);
      UnitCoprime(Factor(f.v, Q(1, 1)));
      forall m: Reals ensures 0.0 == Value(diff, m) <==> Satisfies(m, c) {
        OneVariable(diff, m); DotOne(Factor(f.v, Q(1, 1)), m);
      }
    } else {
      c := SumToNormalizedEquality(diff, isInt);
    }
    EqualFromDifference(lhs, rhs, diff, isInt, c);
    if isInt { NoSolution(lhs, rhs, c); }
  }

  lemma EqualFromDifference(lhs: Sum, rhs: Sum, d: Sum, isInt: bool, c: Constraint)
    requires ProperSum(lhs) && ProperSum(rhs) && ProperSum(d) && SaysZero(d, isInt, c)
    requires forall m: Reals :: Value(d, m) == Value(rhs, m) - Value(lhs, m)
    ensures SaysEqual(lhs, rhs, isInt, c)
  {
    hide Value, Satisfies, Tight, UnitLead, ProperSum, ProperConstraint;
    forall m: Reals ensures 0.0 == Value(d, m) <==> Value(lhs, m) == Value(rhs, m) {
      assert Value(d, m) == Value(rhs, m) - Value(lhs, m);
    }
  }

  // ---------- coprime coefficients reach every integer ----------

  function GcdAll(fs: seq<Factor>): nat {
    if fs == [] then 0 else Gcd(Abs(fs[0].coeff.num), GcdAll(fs[1..]))
  }

  lemma {:induction false} GcdAllDivides(fs: seq<Factor>)
    requires fs != [] && forall i :: 0 <= i < |fs| ==> fs[i].coeff.num != 0
    ensures GcdAll(fs) > 0 && DividesAll(GcdAll(fs), fs)
  {
    var a, h, g := fs[0].coeff.num, GcdAll(fs[1..]), GcdAll(fs);
    GcdDivides(Abs(a), h);
    DividesAbs(g, a);
    if |fs| > 1 {
      GcdAllDivides(fs[1..]);
      forall i | 0 <= i < |fs| ensures Divides(g, fs[i].coeff.num) {
        if i > 0 {
          assert Divides(h, fs[1..][i - 1].coeff.num);
          DividesTransitive(g, h, fs[i].coeff.num);
        }
      }
    }
  }

  /** Values of other variables do not matter. */
  lemma {:induction false} IntDotAgree(fs: seq<Factor>, m: Integers, n: Integers)
    requires forall f :: f in fs ==> m(f.v) == n(f.v)
    ensures IntDot(fs, m) == IntDot(fs, n)
  {
    if fs != [] {
      assert fs == [fs[0]] + fs[1..];
      IntDotAgree(fs[1..], m, n);
    }
  }

  /** Every multiple of the greatest common divisor is reached. */
  lemma {:induction false} Reach(fs: seq<Factor>, s: int) returns (n: Integers)
    requires Apart(fs)
    ensures IntDot(fs, n) == GcdAll(fs) * s
  {
    if fs == [] {
      n := _ => 0;
    } else {
      ApartTail(fs);
      var f, h := fs[0], GcdAll(fs[1..]);
      var x, y := Bezout(Abs(f.coeff.num), h);
      var rest := Reach(fs[1..], y * s);
      var z := if f.coeff.num < 0 then -x * s else x * s;
      n := (v: nat) => if v == f.v then z else rest(v);
      IntDotAgree(fs[1..], n, rest);
      Combine(f.coeff.num, h, x, y, s, z);
    }
  }

  lemma Combine(a: int, h: nat, x: int, y: int, s: int, z: int)
    requires z == if a < 0 then -x * s else x * s
    ensures a * z + h * (y * s) == (Abs(a) * x + h * y) * s
  {
    assert a * z == (Abs(a) * x) * s by {
      if a < 0 { assert a * (-x * s) == (-a * x) * s; } else { assert a * (x * s) == (a * x) * s; }
    }
    assert h * (y * s) == (h * y) * s;
    assert (Abs(a) * x) * s + (h * y) * s == (Abs(a) * x + h * y) * s;
  }

  /** A tight equation has a solution. */
  lemma TightSolvable(b: int, fs: seq<Factor>) returns (n: Integers)
    requires ProperFactors(fs) && fs != [] && IntegerCoefficients(fs) && CoprimeCoefficients(fs)
    ensures Dot(fs, AsReals(n)) == b as real
  {
    GcdAllDivides(fs);
    n := Reach(fs, b);
    IntDotReal(fs, n);
  }

  lemma NoSolution(lhs: Sum, rhs: Sum, c: Constraint)
    requires ProperSum(lhs) && ProperSum(rhs) && SaysEqual(lhs, rhs, true, c)
    ensures c == No <==> forall n: Integers :: Value(lhs, AsReals(n)) != Value(rhs, AsReals(n))
  {
    if c == No {
      forall n: Integers ensures Value(lhs, AsReals(n)) != Value(rhs, AsReals(n)) { assert !Satisfies(AsReals(n), c); }
    } else {
      var n := SolutionOf(c);
      assert Value(lhs, AsReals(n)) == Value(rhs, AsReals(n));
    }
  }

  lemma SolutionOf(c: Constraint) returns (n: Integers)
    requires ProperConstraint(c) && !c.AtMost? && c != No && Tight(c)
    ensures Satisfies(AsReals(n), c)
  {
    if c.Equals? {
      n := TightSolvable(c.bound.num, c.factors);
      assert c.bound == Q(c.bound.num, 1);
      IntegerCanonical(c.bound.num);
    } else {
      n := _ => 0;
    }
  }
}
