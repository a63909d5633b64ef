/**
 Decimal literals as fractions: the three passes over the characters that turn a literal into
 the text of a fraction, and the buffer the text is written to.
 */
module DecimalLiterals {

  predicate IsDigit(c: char) {
    '0' <= c <= '9'
  }

  predicate IsPosDigit(c: char) {
    '1' <= c <= '9'
  }

  // ---------- what a literal means ----------

  /** Digits with at most one point. */
  predicate IsDecimal(s: string) {
    if s == [] then true
    else IsDecimal(s[..|s| - 1]) && (IsDigit(s[|s| - 1]) || (s[|s| - 1] == '.' && !HasPoint(s[..|s| - 1])))
  }

  predicate HasPoint(s: string) {
    '.' in s
  }

  predicate AllDigits(s: string) {
    forall c :: c in s ==> IsDigit(c)
  }

  /** Digits on both sides of a slash. */
  ghost predicate IsFraction(s: string) {
    exists k :: 0 <= k < |s| && s[k] == '/' && AllDigits(s[..k]) && AllDigits(s[k + 1..])
  }

  /** The digits, without the point. */
  function Digits(s: string): string {
    if s == [] then [] else Digits(s[..|s| - 1]) + if IsDigit(s[|s| - 1]) then [s[|s| - 1]] else []
  }

  /** The number of characters behind the point. */
  function Places(s: string): nat {
    if s == [] || !HasPoint(s[..|s| - 1]) then 0 else Places(s[..|s| - 1]) + 1
  }

  function DigitValue(c: char): nat
    requires IsDigit(c)
  {
    c as int - '0' as int
  }

  function Number(d: string): nat {
    if d == [] || !IsDigit(d[|d| - 1]) then 0 else 10 * Number(d[..|d| - 1]) + DigitValue(d[|d| - 1])
  }

  function Pow10(k: nat): nat
    ensures Pow10(k) > 0
  {
    if k == 0 then 1 else 10 * Pow10(k - 1)
  }

  /** The value of an unsigned decimal literal. */
  ghost function DecimalValue(s: string): real {
    Number(Digits(s)) as real / Pow10(Places(s)) as real
  }

  // ---------- leading and trailing zeros ----------

  function Strip(d: string): string {
    if d != [] && d[0] == '0' then Strip(d[1..]) else d
  }

  lemma {:induction false} StripPush(d: string, c: char)
    ensures Strip(d + [c]) == if Strip(d) == [] then (if c == '0' then [] else [c]) else Strip(d) + [c]
  {
    if d == [] {
      assert d + [c] == [c] && [c][1..] == [];
    } else if d[0] == '0' {
      assert (d + [c])[1..] == d[1..] + [c];
      StripPush(d[1..], c);
    }
  }

  function Zeros(k: nat): string
    ensures |Zeros(k)| == k
  {
    seq(k, _ => '0')
  }

  lemma {:induction false} StripZeros(d: string, k: nat)
    ensures Strip(d + Zeros(k)) == if Strip(d) == [] then [] else Strip(d) + Zeros(k)
  {
    if k == 0 {
      assert d + Zeros(0) == d;
      assert Strip(d) + Zeros(0) == Strip(d);
    } else {
      StripZeros(d, k - 1);
      assert d + Zeros(k) == (d + Zeros(k - 1)) + ['0'];
      StripPush(d + Zeros(k - 1), '0');
      assert Zeros(k) == Zeros(k - 1) + ['0'];
      assert Strip(d) + Zeros(k) == (Strip(d) + Zeros(k - 1)) + ['0'];
    }
  }

  /** The zeros at the end, as far as they are behind the point. */
  function Trailing(s: string): nat {
    if s == [] || s[|s| - 1] != '0' || !HasPoint(s[..|s| - 1]) then 0 else Trailing(s[..|s| - 1]) + 1
  }

  /** The digits without the trailing zeros, and those without the leading ones. */
  function Core(s: string): string
    requires Trailing(s) <= |Digits(s)|
  {
    Digits(s)[..|Digits(s)| - Trailing(s)]
  }

  function Significant(s: string): string
    requires Trailing(s) <= |Digits(s)|
  {
    Strip(Core(s))
  }

  lemma {:induction false} TrailingZeros(s: string)
    ensures Trailing(s) <= |Digits(s)| && Digits(s) == Core(s) + Zeros(Trailing(s))
    ensures Trailing(s) <= Places(s) && (Trailing(s) > 0 ==> HasPoint(s))
  {
    if Trailing(s) == 0 {
      assert Core(s) == Digits(s);
    } else {
      var r := s[..|s| - 1];
      TrailingZeros(r);
      assert s == r + ['0'];
      assert Digits(s) == Digits(r) + ['0'];
      assert Core(s) == Core(r);
      assert Zeros(Trailing(s)) == Zeros(Trailing(r)) + ['0'];
    }
  }

  // ---------- the passes ----------

  /** The first pass: the state of the automaton, the length of the nominator, the zeros put off. */
  datatype First = First(state: int, nomL: nat, zeroes: nat, isFrac: bool) | Bad

  function FirstStep(f: First, c: char): First
    requires f.First?
  {
    if f.state == 0 && c == '0' then f
    else if f.state == 0 && IsPosDigit(c) then f.(nomL := f.nomL + 1, state := 1)
    else if f.state == 0 && c == '.' then f.(state := 4)
    else if f.state == 0 && c == '/' then f.(state := 5, isFrac := true)
    else if f.state == 1 && IsDigit(c) then f.(nomL := f.nomL + 1, state := 1)
    else if f.state == 1 && c == '.' then f.(state := 2)
    else if f.state == 1 && c == '/' then f.(state := 5, isFrac := true)
    else if f.state == 2 && c == '0' then f.(zeroes := f.zeroes + 1, state := 3)
    else if f.state == 2 && IsPosDigit(c) then f.(nomL := f.nomL + 1, state := 2)
    else if f.state == 3 && c == '0' then f.(zeroes := f.zeroes + 1, state := 3)
    else if f.state == 3 && IsPosDigit(c) then f.(nomL := f.nomL + f.zeroes + 1, zeroes := 0, state := 2)
    else if f.state == 4 && c == '0' then f
    else if f.state == 4 && IsPosDigit(c) then f.(nomL := f.nomL + 1, state := 2)
    else if f.state == 5 && IsDigit(c) then f
    else Bad
  }

  /** What the states of the first pass mean for the characters read. */
  ghost predicate FirstMeans(p: string, f: First) {
    && f.First? && Trailing(p) <= |Digits(p)|
    && match f.state
       case 0 => IsDecimal(p) && !HasPoint(p) && Strip(Digits(p)) == [] && f == First(0, 0, 0, false)
       case 1 => IsDecimal(p) && !HasPoint(p) && Strip(Digits(p)) != [] && f == First(1, |Strip(Digits(p))|, 0, false)
       case 2 => IsDecimal(p) && HasPoint(p) && Strip(Digits(p)) != [] && Trailing(p) == 0
                 && f == First(2, |Significant(p)|, 0, false)
       case 3 => IsDecimal(p) && HasPoint(p) && Significant(p) != [] && Trailing(p) > 0
                 && f == First(3, |Significant(p)|, Trailing(p), false)
       case 4 => IsDecimal(p) && HasPoint(p) && Strip(Digits(p)) == [] && f == First(4, 0, 0, false)
       case 5 => f.isFrac && IsFraction(p)
       case _ => false
  }

  lemma PushFacts(p: string, c: char)
    ensures (p + [c])[..|p + [c]| - 1] == p
    ensures Digits(p + [c]) == Digits(p) + if IsDigit(c) then [c] else []
    ensures IsDecimal(p + [c]) <==> IsDecimal(p) && (IsDigit(c) || (c == '.' && !HasPoint(p)))
    ensures HasPoint(p + [c]) <==> HasPoint(p) || c == '.'
    ensures Trailing(p + [c]) == if c == '0' && HasPoint(p) then Trailing(p) + 1 else 0
    ensures Places(p + [c]) == if HasPoint(p) then Places(p) + 1 else 0
  {
    assert (p + [c])[..|p + [c]| - 1] == p;
  }

  /** Without trailing zeros the significant digits are all digits from the first that is not zero. */
  lemma NoTrailing(p: string)
    requires Trailing(p) == 0
    ensures Core(p) == Digits(p) && Significant(p) == Strip(Digits(p))
  {
    assert Digits(p)[..|Digits(p)|] == Digits(p);
  }

  lemma FirstStarts()
    ensures FirstMeans([], First(0, 0, 0, false))
  {
  }

  /** The digits from the first that is not zero: the significant ones and the trailing zeros. */
  lemma AllSignificant(p: string)
    ensures Trailing(p) <= |Digits(p)|
    ensures Strip(Digits(p)) == if Significant(p) == [] then [] else Significant(p) + Zeros(Trailing(p))
  {
    TrailingZeros(p);
    StripZeros(Core(p), Trailing(p));
  }

  lemma SlashMakesFraction(p: string)
    requires IsDecimal(p) && !HasPoint(p)
    ensures IsFraction(p + ['/'])
  {
    OnlyDigits(p);
    var s := p + ['/'];
    assert s[|p|] == '/' && s[..|p|] == p && s[|p| + 1..] == [];
  }

  lemma {:induction false} OnlyDigits(p: string)
    requires IsDecimal(p) && !HasPoint(p)
    ensures AllDigits(p)
  {
    if p != [] {
      var r := p[..|p| - 1];
      assert p == r + [p[|p| - 1]];
      assert HasPoint(r) ==> HasPoint(p);
      assert p[|p| - 1] in p;
      OnlyDigits(r);
    }
  }

  lemma FractionGrows(p: string, c: char)
    requires IsFraction(p) && IsDigit(c)
    ensures IsFraction(p + [c])
  {
    var k :| 0 <= k < |p| && p[k] == '/' && AllDigits(p[..k]) && AllDigits(p[k + 1..]);
    var s := p + [c];
    assert s[..k] == p[..k] && s[k + 1..] == p[k + 1..] + [c];
  }

  lemma FirstAdvances(p: string, f: First, c: char)
    requires FirstMeans(p, f) && FirstStep(f, c).First?
    ensures FirstMeans(p + [c], FirstStep(f, c))
  {
    PushFacts(p, c);
    StripPush(Digits(p), c);
    AllSignificant(p);
    AllSignificant(p + [c]);
    TrailingZeros(p + [c]);
    if f.state == 5 {
      FractionGrows(p, c);
    } else if c == '/' {
      SlashMakesFraction(p);
    } else {
      if Trailing(p) == 0 { NoTrailing(p); }
      if Trailing(p + [c]) == 0 { NoTrailing(p + [c]); } else { SameCore(p, c); }
    }
  }

  lemma SameCore(p: string, c: char)
    requires Trailing(p + [c]) > 0 && Trailing(p) <= |Digits(p)| && Trailing(p + [c]) <= |Digits(p + [c])|
    ensures Core(p + [c]) == Core(p)
  {
    PushFacts(p, c);
    assert Digits(p + [c]) == Digits(p) + [c];
  }

  // ---------- what is refused ----------

  lemma {:induction false} DecimalPrefix(s: string, k: nat)
    requires k <= |s|
    ensures IsDecimal(s) ==> IsDecimal(s[..k])
    decreases |s|
  {
    if k < |s| {
      var r := s[..|s| - 1];
      DecimalPrefix(r, k);
      assert r[..k] == s[..k];
    } else {
      assert s[..k] == s;
    }
  }

  lemma {:induction false} DecimalCharacters(s: string)
    ensures IsDecimal(s) ==> forall c :: c in s ==> IsDigit(c) || c == '.'
  {
    if s != [] {
      DecimalCharacters(s[..|s| - 1]);
      assert s == s[..|s| - 1] + [s[|s| - 1]];
    }
  }

  /** A fraction has one slash and otherwise digits. */
  lemma FractionCharacters(s: string)
    ensures IsFraction(s) ==> forall i :: 0 <= i < |s| ==> IsDigit(s[i]) || s[i] == '/'
    ensures IsFraction(s) ==> forall i, j :: 0 <= i < j < |s| ==> IsDigit(s[i]) || IsDigit(s[j])
  {
    if IsFraction(s) {
      var k :| 0 <= k < |s| && s[k] == '/' && AllDigits(s[..k]) && AllDigits(s[k + 1..]);
      forall i | 0 <= i < |s| && i != k ensures IsDigit(s[i]) {
        assert if i < k then s[..k][i] == s[i] else s[k + 1..][i - k - 1] == s[i];
        assert s[i] in s[..k] || s[i] in s[k + 1..];
      }
    }
  }

  lemma FirstRefuses(p: string, f: First, c: char, s: string)
    requires FirstMeans(p, f) && FirstStep(f, c) == Bad && p + [c] <= s
    ensures !IsDecimal(s) && !IsFraction(s)
  {
    PushFacts(p, c);
    assert s[|p|] == c && s[..|p| + 1] == p + [c];
    assert c in s;
    DecimalPrefix(s, |p| + 1);
    DecimalCharacters(s);
    FractionCharacters(s);
    PointStays(p, s);
    FractionSlash(p, s);
  }

  lemma PointStays(p: string, s: string)
    requires p <= s
    ensures HasPoint(p) ==> exists k :: 0 <= k < |s| && s[k] == '.'
  {
    if HasPoint(p) {
      var k :| 0 <= k < |p| && p[k] == '.';
      assert s[k] == '.';
    }
  }

  lemma FractionSlash(p: string, s: string)
    requires p <= s
    ensures IsFraction(p) ==> '/' in s && exists k :: 0 <= k < |p| && s[k] == '/'
  {
    if IsFraction(p) {
      var k :| 0 <= k < |p| && p[k] == '/' && AllDigits(p[..k]) && AllDigits(p[k + 1..]);
      assert s[k] == '/';
    }
  }

  // ---------- the length of the denominator ----------

  datatype Second = Second(state: int, denL: nat, zeroes: nat)

  function SecondStep(f: Second, c: char): Second {
    if f.state == 0 && IsDigit(c) then f
    else if f.state == 0 && c == '.' then f.(state := 1)
    else if f.state == 1 && IsPosDigit(c) then f.(denL := f.denL + 1)
    else if f.state == 1 && c == '0' then f.(state := 2, zeroes := f.zeroes + 1)
    else if f.state == 2 && c == '0' then f.(zeroes := f.zeroes + 1)
    else if f.state == 2 && IsPosDigit(c) then Second(1, f.denL + f.zeroes + 1, 0)
    else f
  }

  /** What the states of the second pass mean. */
  ghost predicate SecondMeans(p: string, f: Second) {
    && Trailing(p) <= Places(p)
    && f == (if !HasPoint(p) then Second(0, 1, 0)
             else if Trailing(p) == 0 then Second(1, 1 + Places(p), 0)
             else Second(2, 1 + Places(p) - Trailing(p), Trailing(p)))
  }

  lemma {:induction false} NoPlaces(p: string)
    requires !HasPoint(p)
    ensures Places(p) == 0 && Trailing(p) == 0
  {
    if p != [] { assert p == p[..|p| - 1] + [p[|p| - 1]]; }
  }

  lemma SecondAdvances(p: string, f: Second, c: char)
    requires SecondMeans(p, f) && IsDecimal(p + [c])
    ensures SecondMeans(p + [c], SecondStep(f, c))
  {
    PushFacts(p, c);
    TrailingZeros(p + [c]);
    if !HasPoint(p) { NoPlaces(p); }
  }

  // ---------- values ----------

  lemma NumberPush(d: string, c: char)
    requires IsDigit(c)
    ensures Number(d + [c]) == 10 * Number(d) + DigitValue(c)
  {
    assert (d + [c])[..|d + [c]| - 1] == d;
  }

  lemma {:induction false} NumberZeros(d: string, k: nat)
    ensures Number(d + Zeros(k)) == Number(d) * Pow10(k)
  {
    if k == 0 {
      assert d + Zeros(0) == d;
    } else {
      NumberZeros(d, k - 1);
      ZerosPush(d, k);
      NumberPush(d + Zeros(k - 1), '0');
      assert DigitValue('0') == 0 && Pow10(k) == 10 * Pow10(k - 1);
      hide *;
      TenTimes(Number(d), Pow10(k - 1));
    }
  }

  lemma ZerosPush(d: string, k: nat)
    requires k > 0
    ensures d + Zeros(k) == (d + Zeros(k - 1)) + ['0']
  {
  }

  lemma TenTimes(n: int, p: int)
    ensures 10 * (n * p) == n * (10 * p)
  {
  }

  lemma {:induction false} NumberStrip(d: string)
    requires AllDigits(d)
    ensures Number(Strip(d)) == Number(d) && AllDigits(Strip(d))
  {
    if d != [] {
      var r, c := d[..|d| - 1], d[|d| - 1];
      assert d == r + [c] && c in d;
      NumberStrip(r);
      StripPush(r, c);
      NumberPush(r, c);
      NumberPush(Strip(r), c);
      NumberDigit(c);
      hide Strip, Number;
    }
  }

  lemma NumberDigit(c: char)
    requires IsDigit(c)
    ensures Number([c]) == DigitValue(c) && Number([]) == 0 && (c == '0' ==> DigitValue(c) == 0)
  {
    NumberPush([], c);
    assert [] + [c] == [c];
  }

  lemma {:induction false} PowSum(a: nat, b: nat)
    ensures Pow10(a + b) == Pow10(a) * Pow10(b)
  {
    if b > 0 { PowSum(a, b - 1); }
  }

  lemma {:induction false} DigitsAreDigits(s: string)
    ensures AllDigits(Digits(s))
  {
    if s != [] { DigitsAreDigits(s[..|s| - 1]); }
  }

  lemma CancelFactor(x: int, y: int, k: int)
    requires y > 0 && k > 0
    ensures y * k > 0 && (x * k) as real / (y * k) as real == x as real / y as real
  {
    var q := x as real / y as real;
    assert q * y as real == x as real;
    assert (x * k) as real == x as real * k as real && (y * k) as real == y as real * k as real;
    assert q * (y as real * k as real) == x as real * k as real;
    assert y as real * k as real > 0.0;
  }

  /** The significant digits over the power of ten have the literal's value. */
  lemma ValueKept(s: string)
    ensures Trailing(s) <= |Digits(s)| && Trailing(s) <= Places(s) && AllDigits(Significant(s))
    ensures DecimalValue(s) == Number(Significant(s)) as real / Pow10(Places(s) - Trailing(s)) as real
  {
    TrailingZeros(s);
    DigitsAreDigits(s);
    assert forall c :: c in Core(s) ==> c in Digits(s);
    NumberStrip(Core(s));
    NumberZeros(Core(s), Trailing(s));
    hide *;
    ZerosCancel(s, Number(Core(s)), Number(Digits(s)));
  }

  lemma ZerosCancel(s: string, n: nat, d: nat)
    requires Trailing(s) <= Places(s) && d == n * Pow10(Trailing(s)) && d == Number(Digits(s))
    ensures DecimalValue(s) == n as real / Pow10(Places(s) - Trailing(s)) as real
  {
    var t, k := Trailing(s), Places(s) - Trailing(s);
    PowSum(k, t);
    CancelFactor(n, Pow10(k), Pow10(t));
    hide Pow10, Number, Digits, Trailing, Places;
  }

  lemma PowerText(k: nat)
    ensures AllDigits(['1'] + Zeros(k)) && Number(['1'] + Zeros(k)) == Pow10(k)
  {
    NumberZeros(['1'], k);
    NumberPush([], '1');
    assert [] + ['1'] == ['1'] && Number([]) == 0;
  }

  /** The text denotes the value: zero, or digits over digits. */
  ghost predicate Denotes(text: string, x: real) {
    || (text == "0" && x == 0.0)
    || exists n, d :: text == n + "/" + d && AllDigits(n) && AllDigits(d) && Number(d) > 0
                      && x == Number(n) as real / Number(d) as real
  }

  // ---------- the nominator ----------

  /** The digits copied so far. */
  ghost predicate Copied(s: string, i: nat, j: nat, out: string) {
    i <= |s| && out == Strip(Digits(s[..i])) && |out| == j
  }

  lemma {:induction false} StripPrefix(s: string, i: nat)
    requires i <= |s|
    ensures Strip(Digits(s[..i])) <= Strip(Digits(s))
    decreases |s| - i
  {
    if i < |s| {
      assert s[..i + 1] == s[..i] + [s[i]];
      StripGrows(s[..i], s[i]);
      StripPrefix(s, i + 1);
      hide *;
      PrefixTransitive(Strip(Digits(s[..i])), Strip(Digits(s[..i + 1])), Strip(Digits(s)));
    } else {
      assert s[..i] == s;
    }
  }

  /** One more character adds a digit behind the first that is not zero, or nothing. */
  lemma StripGrows(p: string, c: char)
    ensures var d := Strip(Digits(p));
            Strip(Digits(p + [c])) == if !IsDigit(c) || (d == [] && c == '0') then d else d + [c]
  {
    PushFacts(p, c);
    StripPush(Digits(p), c);
    assert Digits(p) + [] == Digits(p);
    hide Strip, Digits;
    assert [] + [c] == [c];
  }

  lemma PrefixTransitive(a: string, b: string, c: string)
    requires b <= c
    ensures a <= b ==> a <= c
  {
    if a <= b {
      assert a == b[..|a|] && b == c[..|b|];
      assert b[..|a|] == c[..|a|];
    }
  }

  /** The copy cannot run out of characters. */
  lemma CharactersLeft(s: string, i: nat, j: nat, out: string)
    requires Copied(s, i, j, out) && Trailing(s) <= |Digits(s)| && j < |Significant(s)|
    ensures i < |s|
  {
    AllSignificant(s);
    assert s[..|s|] == s;
  }

  lemma CopiedAll(s: string, i: nat, j: nat, out: string)
    requires Copied(s, i, j, out) && Trailing(s) <= |Digits(s)| && j == |Significant(s)|
    ensures out == Significant(s)
  {
    AllSignificant(s);
    StripPrefix(s, i);
  }

  lemma CopyStep(s: string, i: nat, j: nat, out: string, first: bool)
    requires Copied(s, i, j, out) && i < |s| && IsDecimal(s) && (first <==> j == 0)
    ensures var c := s[i];
            if c == '.' || (first && c == '0') then Copied(s, i + 1, j, out) else Copied(s, i + 1, j + 1, out + [c])
  {
    hide *;
    var c := s[i];
    NextCharacter(s, i);
    StripGrows(s[..i], c);
    CopiedIs(s, i, j, out);
    CopiedIs(s, i + 1, j, out);
    CopiedIs(s, i + 1, j + 1, out + [c]);
  }

  lemma NextCharacter(s: string, i: nat)
    requires IsDecimal(s) && i < |s|
    ensures s[..i + 1] == s[..i] + [s[i]] && (s[i] == '.' <==> !IsDigit(s[i]))
  {
    hide *;
    DecimalCharacter(s, i);
    PrefixStep(s, i);
    PointIsNoDigit(s[i]);
  }

  lemma PrefixStep(s: string, i: nat)
    requires i < |s|
    ensures s[..i + 1] == s[..i] + [s[i]]
  {
  }

  lemma PointIsNoDigit(c: char)
    ensures c == '.' ==> !IsDigit(c)
  {
  }

  lemma DecimalCharacter(s: string, i: nat)
    requires IsDecimal(s) && i < |s|
    ensures IsDigit(s[i]) || s[i] == '.'
  {
    DecimalCharacters(s);
    hide IsDecimal, IsDigit;
    assert s[i] in s;
  }

  lemma CopiedIs(s: string, i: nat, j: nat, out: string)
    requires i <= |s|
    ensures Copied(s, i, j, out) <==> out == Strip(Digits(s[..i])) && |out| == j
  {
  }

  // ---------- the conversion ----------

  datatype Converted = Refused | Text(text: string, neg: bool)

  method FirstPass(s: string) returns (f: First)
    ensures f.First? <==> IsDecimal(s) || IsFraction(s)
    ensures f.First? ==> FirstMeans(s, f)
  {
    f := First(0, 0, 0, false);
    FirstStarts();
    for i := 0 to |s|
      invariant FirstMeans(s[..i], f)
    {
      assert s[..i + 1] == s[..i] + [s[i]];
      var g := FirstStep(f, s[i]);
      if g == Bad {
        FirstRefuses(s[..i], f, s[i], s);
        return Bad;
      }
      FirstAdvances(s[..i], f, s[i]);
      f := g;
    }
    assert s[..|s|] == s;
  }

  method SecondPass(s: string) returns (denL: nat)
    requires IsDecimal(s)
    ensures Trailing(s) <= Places(s) && denL == 1 + Places(s) - Trailing(s)
  {
    var f := Second(0, 1, 0);
    assert SecondMeans([], f);
    assert s[..0] == [];
    for i := 0 to |s|
      invariant SecondMeans(s[..i], f)
    {
      assert s[..i + 1] == s[..i] + [s[i]];
      DecimalPrefix(s, i + 1);
      SecondAdvances(s[..i], f, s[i]);
      f := SecondStep(f, s[i]);
    }
    assert s[..|s|] == s;
    if !HasPoint(s) { NoPlaces(s); }
    denL := f.denL;
  }

  /** Writes the digits of the nominator to the buffer; the terminator is never passed. */
  method CopyNominator(s: string, nomL: nat, buffer: array<char>)
    requires IsDecimal(s) && Trailing(s) <= |Digits(s)| && nomL == |Significant(s)| && nomL <= buffer.Length
    modifies buffer
    ensures buffer[..nomL] == Significant(s)
  {
    var i, j, state := 0, 0, -1;
    assert s[..0] == [] && buffer[..0] == [];
    while j < nomL
      invariant 0 <= j <= nomL && 0 <= i <= |s| && Copied(s, i, j, buffer[..j]) && (state == -1 <==> j == 0)
        && (state == -1 || state == 0)
      decreases |s| - i
    {
      CharactersLeft(s, i, j, buffer[..j]);
      CopyStep(s, i, j, buffer[..j], state == -1);
      ghost var before := buffer[..j];
      if state == -1 && s[i] != '.' && s[i] != '0' {
        buffer[j] := s[i];
        j, state := j + 1, 0;
        assert buffer[..j] == before + [s[i]];
      } else if state == 0 && s[i] != '.' {
        buffer[j] := s[i];
        j := j + 1;
        assert buffer[..j] == before + [s[i]];
      }
      i := i + 1;
    }
    CopiedAll(s, i, j, buffer[..j]);
  }

  /** The text of the fraction with its terminator fills the buffer exactly. */
  method WriteFraction(s: string, nomL: nat, denL: nat) returns (text: string)
    requires IsDecimal(s) && Trailing(s) <= |Digits(s)| && nomL == |Significant(s)| && denL > 0
    ensures text == Significant(s) + "/" + (['1'] + Zeros(denL - 1))
  {
    var buffer := new char[nomL + denL + 2](_ => ' ');
    buffer[0] := '\0';
    CopyNominator(s, nomL, buffer);
    var j := nomL;
    buffer[j] := '/';
    j := j + 1;
    buffer[j] := '1';
    j := j + 1;
    ghost var before := Significant(s) + "/" + ['1'];
    assert buffer[..j] == before;
    for i := 0 to denL - 1
      invariant j == nomL + 2 + i && buffer[..j] == before + Zeros(i)
    {
      buffer[j] := '0';
      j := j + 1;
      assert buffer[..j] == buffer[..j - 1] + ['0'];
      assert Zeros(i + 1) == Zeros(i) + ['0'];
    }
    buffer[j] := '\0';
    assert j + 1 == buffer.Length;
    text := buffer[..j];
    assert text == before + Zeros(denL - 1);
    assert before + Zeros(denL - 1) == Significant(s) + "/" + (['1'] + Zeros(denL - 1));
  }

  /** The significant digits over the power of ten for the places that are not trailing zeros. */
  function FractionText(s: string): string {
    TrailingZeros(s);
    Significant(s) + "/" + (['1'] + Zeros(Places(s) - Trailing(s)))
  }

  lemma FractionTextIs(s: string)
    ensures Trailing(s) <= |Digits(s)| && Trailing(s) <= Places(s)
    ensures FractionText(s) == Significant(s) + "/" + (['1'] + Zeros(Places(s) - Trailing(s)))
  {
    TrailingZeros(s);
  }

  lemma {:induction false} StripLast(d: string)
    requires d != [] && d[|d| - 1] != '0'
    ensures Strip(d) != [] && Strip(d)[0] != '0' && Strip(d)[|Strip(d)| - 1] == d[|d| - 1]
  {
    if d[0] == '0' { StripLast(d[1..]); }
  }

  lemma {:induction false} CoreLast(s: string)
    requires IsDecimal(s) && Trailing(s) < Places(s)
    ensures Trailing(s) < |Digits(s)| && Core(s)[|Core(s)| - 1] != '0'
  {
    TrailingZeros(s);
    var n := |s| - 1;
    if Trailing(s) > 0 {
      TrailingZeros(s[..n]);
      CoreLast(s[..n]);
    }
  }

  /**
   The text is as short as it can be: no leading zero, and a last digit other than zero unless
   the denominator is one.
   */
  lemma FractionTextShort(s: string)
    requires IsDecimal(s) && DecimalValue(s) != 0.0
    ensures Trailing(s) <= |Digits(s)| && Trailing(s) <= Places(s) && Significant(s) != [] && Significant(s)[0] != '0'
    ensures Trailing(s) < Places(s) ==> Significant(s)[|Significant(s)| - 1] != '0'
  {
    ValueKept(s);
    if Significant(s) == [] { ZeroValue(s); }
    StripLeads(Core(s));
    if Trailing(s) < Places(s) {
      CoreLast(s);
      StripLast(Core(s));
    }
  }

  /** The literal without its sign. */
  function Unsigned(flo: string): string {
    if flo != [] && flo[0] == '-' then flo[1..] else flo
  }

  predicate Negative(flo: string) {
    flo != [] && flo[0] == '-'
  }

  /**
   Converts a literal. Decimals and fractions are accepted and nothing else. A fraction is
   passed on; the text of a decimal denotes its value, and zero has no sign.
   */
  method StringToRational(flo: string) returns (r: Converted)
    ensures r == Refused <==> !(IsDecimal(Unsigned(flo)) || IsFraction(Unsigned(flo)))
    ensures IsFraction(Unsigned(flo)) ==> r == Text(Unsigned(flo), Negative(flo))
    ensures IsDecimal(Unsigned(flo)) ==> r.Text? && Denotes(r.text, DecimalValue(Unsigned(flo)))
    ensures IsDecimal(Unsigned(flo)) ==>
      r.Text? && r.text == if DecimalValue(Unsigned(flo)) == 0.0 then "0" else FractionText(Unsigned(flo))
    ensures IsDecimal(Unsigned(flo)) ==> r.Text? && (r.neg <==> Negative(flo) && DecimalValue(Unsigned(flo)) != 0.0)
  {
    hide *;
    var s, isNeg := Unsigned(flo), Negative(flo);
    var f := FirstPass(s);
    if f == Bad { return Refused; }
    Exclusive(s);
    FirstDone(s, f);
    if f.isFrac { return Text(s, isNeg); }
    ValueKept(s);
    if f.nomL == 0 {
      ZeroValue(s);
      return Text("0", false);
    }
    var denL := SecondPass(s);
    var text := WriteFraction(s, f.nomL, denL);
    PowerText(denL - 1);
    NonZeroValue(s, denL - 1);
    FractionDenotes(text, Significant(s), ['1'] + Zeros(denL - 1), DecimalValue(s));
    FractionTextIs(s);
    r := Text(text, isNeg);
  }

  lemma FractionDenotes(text: string, n: string, d: string, x: real)
    requires text == n + "/" + d && AllDigits(n) && AllDigits(d) && Number(d) > 0
      && x == Number(n) as real / Number(d) as real
    ensures Denotes(text, x)
  {
  }

  lemma Exclusive(s: string)
    ensures !(IsDecimal(s) && IsFraction(s))
  {
    FractionSlash(s, s);
    DecimalCharacters(s);
  }

  lemma FirstDone(s: string, f: First)
    requires FirstMeans(s, f)
    ensures f.First? && (f.isFrac <==> IsFraction(s))
    ensures !f.isFrac ==> IsDecimal(s) && Trailing(s) <= |Digits(s)| && f.nomL == |Significant(s)|
  {
    AllSignificant(s);
    Exclusive(s);
    if Trailing(s) == 0 { NoTrailing(s); }
  }

  lemma ZeroValue(s: string)
    requires Trailing(s) <= |Digits(s)| && Trailing(s) <= Places(s) && |Significant(s)| == 0
    requires DecimalValue(s) == Number(Significant(s)) as real / Pow10(Places(s) - Trailing(s)) as real
    ensures DecimalValue(s) == 0.0 && Denotes("0", DecimalValue(s))
  {
    assert Significant(s) == [] && Number([]) == 0;
    hide *;
    ZeroQuotient(Number(Significant(s)), Pow10(Places(s) - Trailing(s)), DecimalValue(s));
    ZeroDenotes(DecimalValue(s));
  }

  lemma ZeroQuotient(n: nat, d: nat, x: real)
    requires n == 0 && d > 0 && x == n as real / d as real
    ensures x == 0.0
  {
  }

  lemma ZeroDenotes(x: real)
    requires x == 0.0
    ensures Denotes("0", x)
  {
  }

  lemma {:induction false} StripLeads(d: string)
    ensures Strip(d) != [] ==> Strip(d)[0] != '0'
  {
    if d != [] && d[0] == '0' { StripLeads(d[1..]); }
  }

  lemma {:induction false} NumberPositive(d: string)
    requires d != [] && AllDigits(d) && d[0] != '0'
    ensures Number(d) > 0
  {
    var r, c := d[..|d| - 1], d[|d| - 1];
    assert d == r + [c] && c in d && d[0] in d;
    NumberPush(r, c);
    if r != [] { NumberPositive(r); }
  }

  lemma NonZeroValue(s: string, k: nat)
    requires Trailing(s) <= |Digits(s)| && Trailing(s) <= Places(s) && |Significant(s)| > 0 && AllDigits(Significant(s))
    requires k == Places(s) - Trailing(s) && DecimalValue(s) == Number(Significant(s)) as real / Pow10(k) as real
    ensures DecimalValue(s) != 0.0
  {
    StripLeads(Core(s));
    NumberPositive(Significant(s));
    hide *;
    QuotientNotZero(Number(Significant(s)), Pow10(k), DecimalValue(s));
  }

  lemma QuotientNotZero(n: nat, d: nat, x: real)
    requires n > 0 && d > 0 && x == n as real / d as real
    ensures x != 0.0
  {
    assert x * d as real == n as real;
  }
}
