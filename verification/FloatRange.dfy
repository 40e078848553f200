/** Why a literal with few enough digits before its scaled point cannot overflow a float64. */
module FloatRange {
  import opened Bytes
  import opened JsonGrammar

  lemma {:induction false} PowAdd(b: nat, m: nat, n: nat)
    ensures Pow(b, m + n) == Pow(b, m) * Pow(b, n)
  {
    if m > 0 {
      PowAdd(b, m - 1, n);
      MulAssoc(b, Pow(b, m - 1), Pow(b, n));
    }
  }

  lemma {:induction false} PowMul(a: nat, b: nat, e: nat)
    ensures Pow(a * b, e) == Pow(a, e) * Pow(b, e)
  {
    if e > 0 {
      PowMul(a, b, e - 1);
      var x, y := Pow(a, e - 1), Pow(b, e - 1);
      calc {
        a * b * (x * y);
        { MulAssoc(a, b, x * y); MulAssoc(b, x, y); MulAssoc(x, b, y); MulAssoc(a, x, b * y); }
        (a * x) * (b * y);
      }
    }
  }

  lemma MulAssoc(a: int, b: int, c: int)
    ensures a * (b * c) == (a * b) * c && (a * b) * c == a * (b * c) && a * b == b * a
  {
  }

  lemma MulLess(a: nat, b: nat, c: nat)
    requires a <= b
    ensures a * c <= b * c
  {
  }

  lemma {:induction false} PowMonotone(b: nat, m: nat, n: nat)
    requires b > 0 && m <= n
    ensures Pow(b, m) <= Pow(b, n)
  {
    if m < n {
      PowMonotone(b, m, n - 1);
      MulLess(1, b, Pow(b, n - 1));
    }
  }

  /** A power of a power, by squaring the exponent's halves. */
  lemma {:induction false} PowDouble(b: nat, e: nat)
    ensures Pow(b, 2 * e) == Pow(b, e) * Pow(b, e)
  {
    PowAdd(b, e, e);
  }

  lemma SquareBound(x: nat, c: nat, p: nat)
    requires x <= c * p
    ensures x * x <= (c * c) * (p * p)
  {
    MulLess(x, c * p, x);
    MulLess(x, c * p, c * p);
    MulAssoc(x, c * p, 1);
    calc {
      (c * p) * (c * p);
      { MulAssoc(c, p, c * p); MulAssoc(p, c, p); MulAssoc(c, p, p); MulAssoc(c, c, p * p); }
      (c * c) * (p * p);
    }
  }

  lemma SmallPowers()
    ensures Pow(5, 11) == 48828125
    ensures Pow(2, 7) == 128 && Pow(2, 19) == 524288
  {
    assert Pow(5, 4) == 625;
    assert Pow(5, 8) == 390625;
    assert Pow(2, 4) == 16;
    assert Pow(2, 10) == 1024;
    assert Pow(2, 14) == 16384;
  }

  lemma TwoPowers()
    ensures Pow(2, 38) == 274877906944 && Pow(2, 54) == 18014398509481984 && Pow(2, 175) == 47890485652059026823698344598447161988085597568237568
  {
    SmallPowers();
    hide Pow;
    PowDouble(2, 19);
    PowDouble(2, 38);
    PowDouble(2, 7);
    PowAdd(2, 7, 7);
    PowAdd(2, 38, 14);
    PowAdd(2, 19, 19);
    PowAdd(2, 76, 76);
    PowAdd(2, 152, 19);
    assert Pow(2, 171) == 2993155353253689176481146537402947624255349848014848;
    assert Pow(2, 4) == 16 && Pow(2, 2) == 4 by { TinyPowers(); }
    PowAdd(2, 52, 2);
    PowAdd(2, 171, 4);
  }

  lemma TinyPowers()
    ensures Pow(2, 2) == 4 && Pow(2, 4) == 16
  {
  }

  /** 5^77 <= 15 * 2^175. */
  lemma FivePower()
    ensures Pow(5, 77) <= 15 * Pow(2, 175)
  {
    SmallPowers();
    TwoPowers();
    hide Pow;
    PowDouble(5, 11);
    PowDouble(5, 22);
    PowAdd(5, 44, 22);
    PowAdd(5, 66, 11);
    assert Pow(5, 77) == 661744490042422139897126953655970282852649688720703125;
  }

  /** 10^308 is below the magnitude at which a float64 overflows. */
  lemma TenTo308()
    ensures Pow(10, 308) <= OverflowBound()
  {
    hide Pow;
    PowMul(2, 5, 308);
    FivePower();
    SquareBound(Pow(5, 77), 15, Pow(2, 175));
    PowDouble(5, 77);
    PowDouble(2, 175);
    SquareBound(Pow(5, 154), 225, Pow(2, 350));
    PowDouble(5, 154);
    PowDouble(2, 350);
    assert Pow(5, 308) <= 50625 * Pow(2, 700);
    PowAdd(2, 38, 662);
    TwoPowers();
    PowAdd(2, 308, 662);
    var a, b := Pow(2, 308), Pow(2, 662);
    assert 50625 * 274877906944 <= 18014398509481983;
    assert Pow(2, 700) == 274877906944 * b;
    MulAssoc(50625, 274877906944, b);
    MulLess(50625 * 274877906944, 18014398509481983, b);
    assert Pow(5, 308) <= 18014398509481983 * b;
    MulLess(Pow(5, 308), 18014398509481983 * b, a);
    MulAssoc(18014398509481983, b, a);
    assert Pow(2, 970) == b * a;
  }

  lemma {:induction false} DigitsBelow(s: bytes)
    requires AllDigits(s)
    ensures DigitsValue(s) < Pow(10, |s|)
  {
    if s != [] { DigitsBelow(s[..|s| - 1]); }
  }

  /**
   The scanner's shortcut: with `w` integer digits and exponent `e`, w + e <= 308 keeps
   the magnitude under 10^308, which a float64 holds.
   */
  lemma FewDigitsInRange(n: NumberText)
    requires IsNumber(n) && |n.whole| + WrittenExponent(n.exp) <= 308
    ensures InRange(n)
  {
    hide Pow, OverflowBound, DigitsValue;
    var c, e, w := Coefficient(n), Scale(n), |n.whole| + |n.frac|;
    DigitsBelow(n.whole + n.frac);
    TenTo308();
    if e >= 0 {
      PowAdd(10, w, e);
      PowMonotone(10, w + e, 308);
      MulStrict(c, Pow(10, w), Pow(10, e));
    } else {
      PowMonotone(10, w, 308 - e);
      PowAdd(10, 308, -e);
      MulLess(Pow(10, 308), OverflowBound(), Pow(10, -e));
    }
  }

  lemma MulStrict(a: nat, b: nat, c: nat)
    requires a < b && c > 0
    ensures a * c < b * c
  {
  }
}
