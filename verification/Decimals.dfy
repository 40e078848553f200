/** JSON number literals normalised to a text that names their exact value. */
module Decimals {
  import opened Bytes
  import opened JsonGrammar
  import opened FloatRange

  // ----- values -----

  /** c1 * 10^e1 == c2 * 10^e2. */
  predicate SameScaled(c1: nat, e1: int, c2: nat, e2: int) {
    var m := if e1 <= e2 then e1 else e2;
    c1 * Pow(10, e1 - m) == c2 * Pow(10, e2 - m)
  }

  /** The two literals denote the same rational. */
  predicate SameNumber(a: NumberText, b: NumberText)
    requires IsNumber(a) && IsNumber(b)
  {
    SameScaled(Coefficient(a), Scale(a), Coefficient(b), Scale(b))
    && (Coefficient(a) == 0 || a.minus == b.minus)
  }

  /** 10^e, for a negative e too. */
  function Ten(e: int): (r: real)
    ensures r > 0.0
  {
    if e >= 0 then Pow(10, e) as real else 1.0 / Pow(10, -e) as real
  }

  function Times(x: nat, u: real): real { x as real * u }

  function Signed(minus: bool, v: real): real { if minus then -v else v }

  /** The number a literal denotes. */
  function RealOf(n: NumberText): real
    requires IsNumber(n)
  {
    Signed(n.minus, Times(Coefficient(n), Ten(Scale(n))))
  }

  lemma {:induction false} TenUp(m: int, k: nat)
    ensures Ten(m + k) == Times(Pow(10, k), Ten(m))
  {
    if k > 0 {
      TenUp(m, k - 1);
      TenNext(m + k - 1);
      assert Pow(10, k) == 10 * Pow(10, k - 1);
      hide Ten, Pow, Times;
      Tenfold(Pow(10, k - 1), Ten(m));
    }
  }

  lemma Tenfold(p: nat, t: real)
    ensures Times(10 * p, t) == Times(10, Times(p, t))
  {
    RealAssoc(10.0, p as real, t);
  }

  lemma TenNext(e: int)
    ensures Ten(e + 1) == Times(10, Ten(e))
  {
    if e < 0 {
      var p := Pow(10, -e - 1);
      assert Pow(10, -e) == 10 * p && p > 0;
      Tenth(p as real);
    }
  }

  lemma Tenth(p: real)
    requires p > 0.0
    ensures 1.0 / p == 10.0 * (1.0 / (10.0 * p))
  {
  }

  lemma RealAssoc(a: real, b: real, c: real)
    ensures a * (b * c) == (a * b) * c
  {
  }

  /** Literals are the same exactly when they denote the same real number. */
  lemma SameNumberIsReal(a: NumberText, b: NumberText)
    requires IsNumber(a) && IsNumber(b)
    ensures SameNumber(a, b) <==> RealOf(a) == RealOf(b)
  {
    var c, d, e, f := Coefficient(a), Coefficient(b), Scale(a), Scale(b);
    var m := if e <= f then e else f;
    var p, q := Pow(10, e - m), Pow(10, f - m);
    hide Coefficient, Scale, Pow, Ten, Times, Signed;
    TenUp(m, e - m);
    TenUp(m, f - m);
    TimesTimes(c, p, Ten(m));
    TimesTimes(d, q, Ten(m));
    SignedEqual(a.minus, b.minus, c * p, d * q, Ten(m));
    SomethingLeft(c, p);
  }

  lemma SomethingLeft(c: nat, p: nat)
    requires p > 0
    ensures c * p == 0 <==> c == 0
  {
  }

  lemma TimesTimes(c: nat, p: nat, t: real)
    ensures Times(c, Times(p, t)) == Times(c * p, t)
  {
    RealAssoc(c as real, p as real, t);
  }

  lemma SignedEqual(s: bool, t: bool, x: nat, y: nat, u: real)
    requires u > 0.0
    ensures Signed(s, Times(x, u)) == Signed(t, Times(y, u)) <==> x == y && (x == 0 || s == t)
  {
    var v, w := Times(x, u), Times(y, u);
    assert v >= 0.0 && w >= 0.0 && (v == 0.0 <==> x == 0) && (w == 0.0 <==> y == 0);
    CancelReal(x as real, y as real, u);
  }

  lemma CancelReal(x: real, y: real, u: real)
    requires u > 0.0
    ensures x * u == y * u <==> x == y
  {
    if x * u == y * u { assert (x - y) * u == 0.0; }
  }

  lemma CancelRight(a: nat, b: nat, c: nat)
    requires c > 0
    ensures a * c == b * c <==> a == b
  {
    if a < b { MulStrict(a, b, c); }
    if b < a { MulStrict(b, a, c); }
  }

  /** The comparison may be made at any scale below both. */
  lemma SameAt(c1: nat, e1: int, c2: nat, e2: int, m: int)
    requires m <= e1 && m <= e2
    ensures SameScaled(c1, e1, c2, e2) <==> c1 * Pow(10, e1 - m) == c2 * Pow(10, e2 - m)
  {
    hide Pow;
    var l := if e1 <= e2 then e1 else e2;
    var k := Pow(10, l - m);
    PowAdd(10, e1 - l, l - m);
    PowAdd(10, e2 - l, l - m);
    MulAssoc(c1, Pow(10, e1 - l), k);
    MulAssoc(c2, Pow(10, e2 - l), k);
    CancelRight(c1 * Pow(10, e1 - l), c2 * Pow(10, e2 - l), k);
  }

  // ----- stripping zeros -----

  function StripLeading(s: bytes): (r: bytes) {
    if s != [] && s[0] == ZERO then StripLeading(s[1..]) else s
  }

  function StripTrailing(s: bytes): (r: bytes) {
    if s != [] && s[|s| - 1] == ZERO then StripTrailing(s[..|s| - 1]) else s
  }

  lemma {:induction false} LeadingZero(s: bytes)
    requires AllDigits(s) && s != [] && s[0] == ZERO
    ensures DigitsValue(s) == DigitsValue(s[1..])
  {
    if |s| > 1 {
      LeadingZero(s[..|s| - 1]);
      assert s[..|s| - 1][1..] == s[1..][..|s| - 2];
    }
  }

  lemma {:induction false} StripLeadingValue(s: bytes)
    requires AllDigits(s)
    ensures AllDigits(StripLeading(s)) && DigitsValue(StripLeading(s)) == DigitsValue(s)
    ensures StripLeading(s) != [] ==> StripLeading(s)[0] != ZERO
  {
    if s != [] && s[0] == ZERO {
      LeadingZero(s);
      StripLeadingValue(s[1..]);
    }
  }

  lemma {:induction false} StripTrailingValue(s: bytes)
    requires AllDigits(s)
    ensures var r := StripTrailing(s);
            && AllDigits(r) && |r| <= |s| && r == s[..|r|] && DigitsValue(s) == DigitsValue(r) * Pow(10, |s| - |r|)
            && (r != [] ==> r[|r| - 1] != ZERO)
  {
    if s != [] && s[|s| - 1] == ZERO {
      var t := s[..|s| - 1];
      StripTrailingValue(t);
      var r := StripTrailing(t);
      MulAssoc(DigitsValue(r), Pow(10, |t| - |r|), 10);
      MulAssoc(DigitsValue(r), 10, Pow(10, |t| - |r|));
      assert Pow(10, |s| - |r|) == 10 * Pow(10, |t| - |r|);
    }
  }

  /** The significant digits of a literal: no zero at either end. */
  function Significant(n: NumberText): bytes { StripTrailing(StripLeading(n.whole + n.frac)) }

  /** The power of ten that goes with them. */
  function FinalExponent(n: NumberText): int
    requires IsNumber(n)
  {
    Scale(n) + (|StripLeading(n.whole + n.frac)| - |Significant(n)|)
  }

  lemma SignificantValue(n: NumberText)
    requires IsNumber(n)
    ensures var d := Significant(n);
            && AllDigits(d) && FinalExponent(n) >= Scale(n)
            && Coefficient(n) == DigitsValue(d) * Pow(10, FinalExponent(n) - Scale(n))
            && (d != [] ==> d[0] != ZERO && d[|d| - 1] != ZERO)
            && (d == [] <==> Coefficient(n) == 0)
  {
    hide Pow, DigitsValue;
    var s := StripLeading(n.whole + n.frac);
    StripLeadingValue(n.whole + n.frac);
    StripTrailingValue(s);
    var d := Significant(n);
    if d != [] {
      DigitsPositive(d);
      MulStrict(0, DigitsValue(d), Pow(10, |s| - |d|));
    } else {
      assert DigitsValue(d) == 0 by { EmptyDigits(); }
    }
  }

  lemma EmptyDigits()
    ensures DigitsValue([]) == 0
  {
  }

  lemma DigitsPositive(d: bytes)
    requires AllDigits(d) && d != [] && d[|d| - 1] != ZERO
    ensures DigitsValue(d) > 0 && DigitsValue(d) % 10 != 0
  {
  }

  /** Digits with no leading zero are determined by their value. */
  lemma {:induction false} DigitsUnique(a: bytes, b: bytes)
    requires AllDigits(a) && AllDigits(b) && DigitsValue(a) == DigitsValue(b)
    requires (a != [] ==> a[0] != ZERO) && (b != [] ==> b[0] != ZERO)
    ensures a == b
  {
    LeadingPositive(a);
    LeadingPositive(b);
    if a != [] && b != [] {
      DigitsUnique(a[..|a| - 1], b[..|b| - 1]);
      assert a == a[..|a| - 1] + [a[|a| - 1]] && b == b[..|b| - 1] + [b[|b| - 1]];
    }
  }

  lemma {:induction false} LeadingPositive(a: bytes)
    requires AllDigits(a) && (a != [] ==> a[0] != ZERO)
    ensures a != [] ==> DigitsValue(a) > 0
  {
    if |a| > 1 { LeadingPositive(a[..|a| - 1]); }
  }

  lemma MultipleOfTen(v: nat, k: nat)
    requires k > 0
    ensures (v * Pow(10, k)) % 10 == 0
  {
    MulAssoc(v, 10, Pow(10, k - 1));
    MulAssoc(10, v, Pow(10, k - 1));
    assert v * Pow(10, k) == 10 * (v * Pow(10, k - 1));
  }

  /** Two normal forms of one value are one normal form. */
  lemma NormalFormUnique(d1: bytes, x1: int, d2: bytes, x2: int)
    requires AllDigits(d1) && d1 != [] && d1[0] != ZERO && d1[|d1| - 1] != ZERO
    requires AllDigits(d2) && d2 != [] && d2[0] != ZERO && d2[|d2| - 1] != ZERO
    requires SameScaled(DigitsValue(d1), x1, DigitsValue(d2), x2)
    ensures d1 == d2 && x1 == x2
  {
    DigitsPositive(d1);
    DigitsPositive(d2);
    assert Pow(10, 0) == 1;
    if x1 < x2 {
      MultipleOfTen(DigitsValue(d2), x2 - x1);
      assert false;
    } else if x2 < x1 {
      MultipleOfTen(DigitsValue(d1), x1 - x2);
      assert false;
    } else {
      DigitsUnique(d1, d2);
    }
  }

  /** Same value, read off the normal forms. */
  lemma SameByNormalForm(a: NumberText, b: NumberText)
    requires IsNumber(a) && IsNumber(b)
    ensures SameNumber(a, b) <==>
            if Significant(a) == [] || Significant(b) == [] then Significant(a) == Significant(b)
            else Significant(a) == Significant(b) && FinalExponent(a) == FinalExponent(b) && a.minus == b.minus
  {
    hide Pow, DigitsValue, Significant, FinalExponent, SameScaled, IsNumber;
    SignificantValue(a);
    SignificantValue(b);
    var d1, d2 := Significant(a), Significant(b);
    var x1, x2 := FinalExponent(a), FinalExponent(b);
    var v1, v2 := DigitsValue(d1), DigitsValue(d2);
    var m := if Scale(a) <= Scale(b) then Scale(a) else Scale(b);
    ScaledNormal(Coefficient(a), Scale(a), v1, x1, m);
    ScaledNormal(Coefficient(b), Scale(b), v2, x2, m);
    SameAt(Coefficient(a), Scale(a), Coefficient(b), Scale(b), m);
    SameAt(v1, x1, v2, x2, m);
    if d1 != [] && d2 != [] {
      if SameScaled(v1, x1, v2, x2) { NormalFormUnique(d1, x1, d2, x2); }
    } else {
      EmptyDigits();
      if d1 != [] { DigitsPositive(d1); MulStrict(0, v1, Pow(10, x1 - m)); }
      if d2 != [] { DigitsPositive(d2); MulStrict(0, v2, Pow(10, x2 - m)); }
    }
  }

  lemma ScaledNormal(c: nat, e: int, v: nat, x: int, m: int)
    requires m <= e <= x && c == v * Pow(10, x - e)
    ensures c * Pow(10, e - m) == v * Pow(10, x - m)
  {
    PowAdd(10, x - e, e - m);
    MulAssoc(v, Pow(10, x - e), Pow(10, e - m));
  }

  // ----- the normalised text -----

  const INT_MIN: int := -0x8000_0000_0000_0000
  const INT_MAX: int := 0x7FFF_FFFF_FFFF_FFFF

  predicate InInt(x: int) { INT_MIN <= x <= INT_MAX }

  /** Go's int: 64 bits, wrapping. */
  function Wrap(x: int): (r: int)
    ensures InInt(r) && (InInt(x) ==> r == x)
  {
    (x - INT_MIN) % 0x1_0000_0000_0000_0000 + INT_MIN
  }

  function NatDigits(x: nat): bytes {
    if x < 10 then [ZERO + x] else NatDigits(x / 10) + [ZERO + x % 10]
  }

  function Itoa(x: int): bytes {
    if x < 0 then [MINUS] + NatDigits(-x) else NatDigits(x)
  }

  lemma {:induction false} NatDigitsValue(x: nat)
    ensures AllDigits(NatDigits(x)) && NatDigits(x) != [] && DigitsValue(NatDigits(x)) == x
    ensures x > 0 ==> NatDigits(x)[0] != ZERO
  {
    var s := NatDigits(x);
    if x < 10 {
      assert s[..0] == [];
    } else {
      NatDigitsValue(x / 10);
      assert s[..|s| - 1] == NatDigits(x / 10);
    }
  }

  lemma ItoaInjective(x: int, y: int)
    requires Itoa(x) == Itoa(y)
    ensures x == y
  {
    NatDigitsValue(if x < 0 then -x else x);
    NatDigitsValue(if y < 0 then -y else y);
    if x < 0 && y < 0 {
      assert Itoa(x)[1..] == NatDigits(-x) && Itoa(y)[1..] == NatDigits(-y);
    }
  }

  function Spell(minus: bool, digits: bytes, exponent: int): bytes {
    MinusSpelling(minus) + (digits + ([LOWER_E] + Itoa(exponent)))
  }

  lemma SpellInjective(m1: bool, d1: bytes, x1: int, m2: bool, d2: bytes, x2: int)
    requires AllDigits(d1) && AllDigits(d2) && d1 != [] && d2 != []
    ensures Spell(m1, d1, x1) == Spell(m2, d2, x2) <==> m1 == m2 && d1 == d2 && x1 == x2
  {
    if Spell(m1, d1, x1) == Spell(m2, d2, x2) {
      var s := Spell(m1, d1, x1);
      assert s[0] == (if m1 then MINUS else d1[0]) && s[0] == (if m2 then MINUS else d2[0]);
      var k := if m1 then 1 else 0;
      assert s[k..] == d1 + ([LOWER_E] + Itoa(x1)) && s[k..] == d2 + ([LOWER_E] + Itoa(x2));
      SplitAtExponent(d1, Itoa(x1), d2, Itoa(x2));
      ItoaInjective(x1, x2);
    }
  }

  lemma SplitAtExponent(d1: bytes, t1: bytes, d2: bytes, t2: bytes)
    requires AllDigits(d1) && AllDigits(d2) && d1 + ([LOWER_E] + t1) == d2 + ([LOWER_E] + t2)
    ensures d1 == d2 && t1 == t2
  {
    var s := d1 + ([LOWER_E] + t1);
    assert s[|d1|] == LOWER_E && s[|d2|] == LOWER_E;
    assert forall k {:trigger s[k]} :: 0 <= k < |d1| ==> s[k] == d1[k];
    assert forall k {:trigger s[k]} :: 0 <= k < |d2| ==> s[k] == d2[k];
    assert d1 == s[..|d1|] && d2 == s[..|d2|];
    assert t1 == s[|d1| + 1..] && t2 == s[|d2| + 1..];
  }

  /** The normalised text of a literal, with Go's integer width. */
  function Canonical(n: NumberText): bytes
    requires IsNumber(n)
  {
    if !InInt(WrittenExponent(n.exp)) then NumberSpelling(n)
    else if Significant(n) == [] then [ZERO]
    else Spell(n.minus, Significant(n), Wrap(FinalExponent(n)))
  }

  /** The literals whose exponent arithmetic stays within an int. */
  predicate ExponentFits(n: NumberText)
    requires IsNumber(n)
  {
    InInt(WrittenExponent(n.exp)) && (Significant(n) == [] || InInt(FinalExponent(n)))
  }

  /** Scale, trailing zeros, exponent spelling and the sign of zero vanish, and nothing else. */
  lemma CanonicalIffSame(a: NumberText, b: NumberText)
    requires IsNumber(a) && IsNumber(b) && ExponentFits(a) && ExponentFits(b)
    ensures Canonical(a) == Canonical(b) <==> SameNumber(a, b)
  {
    hide Significant, FinalExponent, Spell, SameNumber, IsNumber, Wrap;
    SignificantValue(a);
    SignificantValue(b);
    SameByNormalForm(a, b);
    var d1, d2 := Significant(a), Significant(b);
    if d1 != [] && d2 != [] {
      SpellInjective(a.minus, d1, FinalExponent(a), b.minus, d2, FinalExponent(b));
    } else if d1 != [] {
      SpellNotZero(a.minus, d1, FinalExponent(a));
    } else if d2 != [] {
      SpellNotZero(b.minus, d2, FinalExponent(b));
    }
  }

  lemma SpellNotZero(minus: bool, d: bytes, x: int)
    ensures d != [] ==> Spell(minus, d, x) != [ZERO]
  {
    assert d != [] ==> |Spell(minus, d, x)| > 1;
  }

  /**
   And the condition is needed: a literal that does not meet it is told apart from one of
   the same value, or confused with one of another.
   */
  lemma CanonicalNeedsFit(a: NumberText) returns (b: NumberText)
    requires IsNumber(a) && !ExponentFits(a)
    ensures IsNumber(b) && (Canonical(a) == Canonical(b)) != SameNumber(a, b)
  {
    if !InInt(WrittenExponent(a.exp)) {
      b := a.(frac := a.frac + [ZERO]);
      assert |NumberSpelling(b)| != |NumberSpelling(a)|;
      AppendZero(a, b);
    } else {
      b := Wrapped(a);
    }
  }

  lemma AppendZero(a: NumberText, b: NumberText)
    requires IsNumber(a) && b == a.(frac := a.frac + [ZERO])
    ensures IsNumber(b) && SameNumber(a, b)
  {
    var s := a.whole + a.frac;
    assert b.whole + b.frac == s + [ZERO];
    assert (s + [ZERO])[..|s|] == s;
    assert Coefficient(b) == Coefficient(a) * 10;
    assert Pow(10, 1) == 10 && Pow(10, 0) == 1;
  }

  /** The literal written with the exponent the arithmetic wraps to. */
  lemma Wrapped(a: NumberText) returns (b: NumberText)
    requires IsNumber(a) && InInt(WrittenExponent(a.exp)) && Significant(a) != [] && !InInt(FinalExponent(a))
    ensures IsNumber(b) && Canonical(a) == Canonical(b) && !SameNumber(a, b)
  {
    var d, x := Significant(a), Wrap(FinalExponent(a));
    SignificantValue(a);
    var digits := NatDigits(if x < 0 then -x else x);
    NatDigitsValue(if x < 0 then -x else x);
    b := NumberText(a.minus, d, [], Exp(LOWER_E, if x < 0 then [MINUS] else [], digits));
    assert IsNumber(b);
    assert d + [] == d && StripLeading(d) == d && StripTrailing(d) == d;
    assert WrittenExponent(b.exp) == x && FinalExponent(b) == x;
    SameByNormalForm(a, b);
  }

  /** 0 and 0 with an exponent past an int are one number with two normal forms, and both decode. */
  lemma ZeroToldApart()
    ensures var zero := NumberText(false, [ZERO], [], NoExp);
            var tiny := NumberText(false, [ZERO], [], Exp(LOWER_E, [MINUS], NatDigits(0x8000_0000_0000_0001)));
            IsNumber(zero) && IsNumber(tiny) && InRange(zero) && InRange(tiny)
            && SameNumber(zero, tiny) && Canonical(zero) != Canonical(tiny)
  {
    hide NatDigits, InRange;
    NatDigitsValue(0x8000_0000_0000_0001);
    var zero := NumberText(false, [ZERO], [], NoExp);
    var tiny := NumberText(false, [ZERO], [], Exp(LOWER_E, [MINUS], NatDigits(0x8000_0000_0000_0001)));
    assert [ZERO] + [] == [ZERO];
    assert StripLeading([ZERO]) == [] && Significant(zero) == [] && Significant(tiny) == [];
    SameByNormalForm(zero, tiny);
    assert [ZERO][..0] == [] && DigitsValue([ZERO]) == 0;
    ZeroInRange(zero);
    ZeroInRange(tiny);
  }

  lemma ZeroInRange(n: NumberText)
    requires IsNumber(n) && Coefficient(n) == 0
    ensures InRange(n)
  {
    var p54, p970, e := Pow(2, 54), Pow(2, 970), Scale(n);
    PowMonotone(2, 1, 54);
    assert p54 > 1 by { assert Pow(2, 1) == 2 * Pow(2, 0); }
    MulStrict(0, p54 - 1, p970);
    hide Pow;
    if e < 0 { MulStrict(0, OverflowBound(), Pow(10, -e)); }
  }

  // ----- the function over text -----

  /** The position of the first byte that is `a` or `b`, or the length. */
  function FirstOf(s: bytes, a: byte, b: byte): (k: nat)
    ensures k <= |s| && (k < |s| ==> s[k] == a || s[k] == b)
    ensures forall h :: 0 <= h < k ==> s[h] != a && s[h] != b
  {
    if s == [] || s[0] == a || s[0] == b then 0 else 1 + FirstOf(s[1..], a, b)
  }

  /** strconv.Atoi: an optional sign, digits, and a value an int holds. */
  function Atoi(s: bytes): Option<int> {
    var signed := s != [] && (s[0] == PLUS || s[0] == MINUS);
    var digits := if signed then s[1..] else s;
    if digits == [] || !AllDigits(digits) then None
    else
      var v := if signed && s[0] == MINUS then -(DigitsValue(digits) as int) else DigitsValue(digits);
      if InInt(v) then Some(v) else None
  }

  function WithoutPoint(mantissa: bytes): bytes {
    var dot := FirstOf(mantissa, DOT, DOT);
    if dot < |mantissa| then mantissa[..dot] + mantissa[dot + 1..] else mantissa
  }

  function PlacesAfterPoint(mantissa: bytes): nat {
    var dot := FirstOf(mantissa, DOT, DOT);
    if dot < |mantissa| then |mantissa| - dot - 1 else 0
  }

  /** The tail of the computation, once sign, mantissa and exponent are apart. */
  function Normalised(negative: bool, mantissa: bytes, w: int): bytes {
    var s := StripLeading(WithoutPoint(mantissa));
    var d := StripTrailing(s);
    if d == [] then [ZERO] else Spell(negative, d, Wrap(w - PlacesAfterPoint(mantissa) + (|s| - |d|)))
  }

  /** What canonicalDecimal answers for any text, number literal or not. */
  function CanonicalText(literal: bytes): bytes {
    var negative := literal != [] && literal[0] == MINUS;
    var rest := if negative then literal[1..] else literal;
    var e := FirstOf(rest, LOWER_E, UPPER_E);
    var written := if e < |rest| then Atoi(rest[e + 1..]) else Some(0);
    if written.None? then literal else Normalised(negative, rest[..e], written.value)
  }

  method CanonicalDecimal(literal: bytes) returns (r: bytes)
    ensures r == CanonicalText(literal)
  {
    hide Normalised, Atoi;
    var rest := literal;
    var negative := |rest| > 0 && rest[0] == MINUS;
    if negative { rest := rest[1..]; }

    var mantissa, exponent := rest, 0;
    var i := FirstOf(rest, LOWER_E, UPPER_E);
    assert rest[..|rest|] == rest;
    if i < |rest| {
      mantissa := rest[..i];
      var parsed := Atoi(rest[i + 1..]);
      AtoiInInt(rest[i + 1..]);
      if parsed.None? { return literal; }
      exponent := parsed.value;
    }
    r := NormaliseDigits(negative, mantissa, exponent);
  }

  /** The loops of canonicalDecimal: drop the point, then zeros from both ends. */
  method NormaliseDigits(negative: bool, mantissa: bytes, w: int) returns (r: bytes)
    requires InInt(w)
    ensures r == Normalised(negative, mantissa, w)
  {
    hide Spell, Wrap, InInt;
    var digits, exponent := mantissa, w;
    var dot := FirstOf(mantissa, DOT, DOT);
    ghost var scale := w - PlacesAfterPoint(mantissa);
    if dot < |mantissa| {
      digits := mantissa[..dot] + mantissa[dot + 1..];
      exponent := Wrap(exponent - (|mantissa| - dot - 1));
    }
    while |digits| > 0 && digits[0] == ZERO
      invariant StripLeading(digits) == StripLeading(WithoutPoint(mantissa))
    {
      digits := digits[1..];
    }
    ghost var s := digits;
    while |digits| > 0 && digits[|digits| - 1] == ZERO
      invariant |digits| <= |s| && StripTrailing(digits) == StripTrailing(s)
      invariant exponent == Wrap(scale + (|s| - |digits|))
    {
      WrapStep(scale + (|s| - |digits|));
      digits := digits[..|digits| - 1];
      exponent := Wrap(exponent + 1);
    }
    if digits == [] { return [ZERO]; }
    return Spell(negative, digits, exponent);
  }

  lemma WrapStep(x: int)
    ensures Wrap(Wrap(x) + 1) == Wrap(x + 1)
  {
  }

  lemma AtoiInInt(s: bytes)
    ensures Atoi(s).Some? ==> InInt(Atoi(s).value)
  {
  }

  lemma FirstOfAt(s: bytes, a: byte, b: byte, k: nat)
    requires k <= |s| && (k < |s| ==> s[k] == a || s[k] == b)
    requires forall h :: 0 <= h < k ==> s[h] != a && s[h] != b
    ensures FirstOf(s, a, b) == k
  {
  }

  /** On a number literal, the text function is the normal form of its value. */
  lemma CanonicalTextOfNumber(n: NumberText)
    requires IsNumber(n)
    ensures CanonicalText(NumberSpelling(n)) == Canonical(n)
  {
    hide Significant, Normalised, NumberSpelling, FracSpelling, ExpSpelling, FirstOf, Atoi, DigitsValue, AllDigits, Spell, Wrap,
      FinalExponent, CanonicalText;
    var mantissa := n.whole + FracSpelling(n.frac);
    var rest := mantissa + ExpSpelling(n.exp);
    LiteralApart(n, rest);
    MantissaEnd(n, mantissa, rest);
    CanonicalTextApart(NumberSpelling(n), n.minus, rest, |mantissa|);
    if n.exp.Exp? { ExponentParsed(n); }
    NormalisedNumber(n, mantissa);
  }

  lemma CanonicalTextApart(literal: bytes, negative: bool, rest: bytes, k: nat)
    requires literal != [] && (literal[0] == MINUS <==> negative) && rest == (if negative then literal[1..] else literal)
    requires k == FirstOf(rest, LOWER_E, UPPER_E)
    ensures CanonicalText(literal) ==
            var written := if k < |rest| then Atoi(rest[k + 1..]) else Some(0);
            if written.None? then literal else Normalised(negative, rest[..k], written.value)
  {
    hide Atoi, Normalised, FirstOf;
  }

  lemma NormalisedNumber(n: NumberText, mantissa: bytes)
    requires IsNumber(n) && mantissa == n.whole + FracSpelling(n.frac)
    ensures Normalised(n.minus, mantissa, WrittenExponent(n.exp)) ==
            if Significant(n) == [] then [ZERO] else Spell(n.minus, Significant(n), Wrap(FinalExponent(n)))
  {
    hide StripLeading, StripTrailing, Spell, Wrap, WithoutPoint, PlacesAfterPoint, WrittenExponent;
    PointAt(n);
  }

  lemma LiteralApart(n: NumberText, rest: bytes)
    requires IsNumber(n) && rest == (n.whole + FracSpelling(n.frac)) + ExpSpelling(n.exp)
    ensures var literal := NumberSpelling(n);
            && literal != [] && (literal[0] == MINUS <==> n.minus)
            && (if n.minus then literal[1..] else literal) == rest
  {
    assert NumberSpelling(n) == MinusSpelling(n.minus) + rest;
    assert rest[0] == n.whole[0];
  }

  lemma MantissaEnd(n: NumberText, mantissa: bytes, rest: bytes)
    requires IsNumber(n) && mantissa == n.whole + FracSpelling(n.frac) && rest == mantissa + ExpSpelling(n.exp)
    ensures FirstOf(rest, LOWER_E, UPPER_E) == |mantissa| && rest[..|mantissa|] == mantissa
    ensures n.exp.Exp? ==> |mantissa| < |rest| && rest[|mantissa| + 1..] == n.exp.sign + n.exp.digits
    ensures n.exp.NoExp? ==> |mantissa| == |rest|
  {
    MantissaPlain(n);
    assert forall h :: 0 <= h < |mantissa| ==> rest[h] == mantissa[h];
    FirstOfAt(rest, LOWER_E, UPPER_E, |mantissa|);
  }

  lemma MantissaPlain(n: NumberText)
    requires IsNumber(n)
    ensures var m := n.whole + FracSpelling(n.frac);
            forall h :: 0 <= h < |m| ==> m[h] != LOWER_E && m[h] != UPPER_E
  {
  }

  lemma PointAt(n: NumberText)
    requires IsNumber(n)
    ensures var m := n.whole + FracSpelling(n.frac);
            WithoutPoint(m) == n.whole + n.frac && PlacesAfterPoint(m) == |n.frac|
  {
    var m := n.whole + FracSpelling(n.frac);
    FirstOfAt(m, DOT, DOT, |n.whole|);
    if n.frac == [] {
      assert m == n.whole && n.whole + n.frac == n.whole;
    } else {
      assert m[..|n.whole|] == n.whole && m[|n.whole| + 1..] == n.frac;
    }
  }

  lemma ExponentParsed(n: NumberText)
    requires IsNumber(n) && n.exp.Exp?
    ensures Atoi(n.exp.sign + n.exp.digits) ==
            if InInt(WrittenExponent(n.exp)) then Some(WrittenExponent(n.exp)) else None
  {
    var s := n.exp.sign + n.exp.digits;
    if n.exp.sign == [] {
      assert s == n.exp.digits;
    } else {
      assert s[1..] == n.exp.digits;
    }
  }
}
