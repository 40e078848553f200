/** Normalised texts of the literals a float64 decode accepts: equal texts, equal values. */
module DecimalsInRange {
  import opened Bytes
  import opened JsonGrammar
  import opened JsonReader
  import opened JsonReaderSound
  import opened JsonReaderComplete
  import opened FloatRange
  import opened Decimals

  /** No document reaches this many bytes. */
  const DOCUMENT_LIMIT: int := 0x4000_0000_0000_0000

  /** A literal of a document that a float64 decode accepted. */
  predicate Decodable(n: NumberText) {
    IsNumber(n) && InRange(n) && |NumberSpelling(n)| < DOCUMENT_LIMIT
  }

  lemma SpellingUnique(a: NumberText, b: NumberText)
    requires IsNumber(a) && IsNumber(b) && NumberSpelling(a) == NumberSpelling(b)
    ensures a == b
  {
    hide IsNumber, NumberSpelling, ReadNumber;
    var s := NumberSpelling(a);
    assert At(s, 0, s);
    ReadNumberComplete(a, s, 0);
    ReadNumberComplete(b, s, 0);
  }

  lemma BelowTenTo1024()
    ensures OverflowBound() <= Pow(10, 1024)
  {
    hide Pow;
    PowAdd(2, 54, 970);
    MulLess(Pow(2, 54) - 1, Pow(2, 54), Pow(2, 970));
    PowMul(2, 5, 1024);
    MulLess(1, Pow(5, 1024), Pow(2, 1024));
  }

  /** Magnitude bounds the exponent of the normal form from above, length from below. */
  lemma FinalExponentWindow(n: NumberText)
    requires Decodable(n) && InInt(WrittenExponent(n.exp)) && Significant(n) != []
    ensures INT_MIN - DOCUMENT_LIMIT <= FinalExponent(n) <= 1024
  {
    hide Pow, DigitsValue, Significant, FinalExponent, OverflowBound;
    SignificantValue(n);
    assert |n.frac| < DOCUMENT_LIMIT by { FracShort(n); }
    var c, e, x, v := Coefficient(n), Scale(n), FinalExponent(n), DigitsValue(Significant(n));
    if x > 1024 {
      DigitsPositive(Significant(n));
      BelowTenTo1024();
      PowMonotone(10, 1024, x);
      if e >= 0 {
        PowAdd(10, x - e, e);
        MulAssoc(v, Pow(10, x - e), Pow(10, e));
        MulLess(1, v, Pow(10, x));
      } else {
        PowAdd(10, x, -e);
        MulLess(1, v, Pow(10, x - e));
        MulLess(OverflowBound(), Pow(10, x), Pow(10, -e));
      }
      assert false;
    }
  }

  lemma FracShort(n: NumberText)
    ensures |n.frac| <= |NumberSpelling(n)|
  {
  }

  /** A normalised text is itself a literal, whose exponent an int holds. */
  lemma SpellIsLiteral(minus: bool, d: bytes, x: int) returns (n: NumberText)
    requires AllDigits(d) && d != [] && d[0] != ZERO && InInt(x)
    ensures IsNumber(n) && NumberSpelling(n) == Spell(minus, d, x) && InInt(WrittenExponent(n.exp))
  {
    var digits := NatDigits(if x < 0 then -x else x);
    NatDigitsValue(if x < 0 then -x else x);
    n := NumberText(minus, d, [], Exp(LOWER_E, if x < 0 then [MINUS] else [], digits));
    assert ExpSpelling(n.exp) == [LOWER_E] + Itoa(x);
    assert [] + ExpSpelling(n.exp) == ExpSpelling(n.exp);
  }

  lemma LongLiteralApart(a: NumberText, b: NumberText)
    requires IsNumber(a) && IsNumber(b) && !InInt(WrittenExponent(a.exp)) && InInt(WrittenExponent(b.exp))
    ensures Canonical(a) != Canonical(b)
  {
    SignificantValue(b);
    hide Significant, FinalExponent, Wrap, IsNumber;
    if Significant(b) == [] {
      assert |NumberSpelling(a)| > 1 by { HasExponent(a); }
    } else {
      var n := SpellIsLiteral(b.minus, Significant(b), Wrap(FinalExponent(b)));
      if NumberSpelling(a) == NumberSpelling(n) { SpellingUnique(a, n); }
    }
  }

  lemma HasExponent(a: NumberText)
    requires IsNumber(a) && a.exp.Exp?
    ensures |NumberSpelling(a)| > 1
  {
  }

  lemma WrapApart(x: int, y: int)
    requires INT_MIN - DOCUMENT_LIMIT <= x <= 1024 && INT_MIN - DOCUMENT_LIMIT <= y <= 1024 && Wrap(x) == Wrap(y)
    ensures x == y
  {
  }

  /** Even where the exponent arithmetic wraps, it does not confuse two decodable values. */
  lemma CanonicalSound(a: NumberText, b: NumberText)
    requires Decodable(a) && Decodable(b) && Canonical(a) == Canonical(b)
    ensures SameNumber(a, b)
  {
    if !InInt(WrittenExponent(a.exp)) && !InInt(WrittenExponent(b.exp)) {
      SpellingUnique(a, b);
    } else if !InInt(WrittenExponent(a.exp)) {
      LongLiteralApart(a, b);
    } else if !InInt(WrittenExponent(b.exp)) {
      LongLiteralApart(b, a);
    } else {
      SoundNormal(a, b);
    }
  }

  lemma SoundNormal(a: NumberText, b: NumberText)
    requires Decodable(a) && Decodable(b) && Canonical(a) == Canonical(b)
    requires InInt(WrittenExponent(a.exp)) && InInt(WrittenExponent(b.exp))
    ensures SameNumber(a, b)
  {
    hide Significant, FinalExponent, Spell, SameNumber, IsNumber, Wrap, InRange;
    SignificantValue(a);
    SignificantValue(b);
    SameByNormalForm(a, b);
    var d1, d2 := Significant(a), Significant(b);
    if d1 != [] && d2 != [] {
      SpellInjective(a.minus, d1, Wrap(FinalExponent(a)), b.minus, d2, Wrap(FinalExponent(b)));
      FinalExponentWindow(a);
      FinalExponentWindow(b);
      WrapApart(FinalExponent(a), FinalExponent(b));
    } else if d1 != [] {
      SpellNotZero(a.minus, d1, Wrap(FinalExponent(a)));
    } else if d2 != [] {
      SpellNotZero(b.minus, d2, Wrap(FinalExponent(b)));
    }
  }
}
