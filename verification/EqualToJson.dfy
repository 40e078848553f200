/** The equalToJson matcher: compiled from its operand, applied to a document's bytes. */
module EqualToJson {
  import opened Bytes
  import opened JsonGrammar
  import opened JsonReader
  import opened JsonReaderSound
  import opened JsonReaderComplete
  import opened JsonScan
  import opened Decimals
  import opened DecimalsInRange
  import opened NumberFilter
  import opened JsonComparison
  import opened ExactNumbers

  // ----- what a decoded document holds -----

  /** A literal inside a text of `limit` bytes that a float64 decode accepts. */
  predicate Inside(limit: nat, n: NumberText) { IsNumber(n) && InRange(n) && |NumberSpelling(n)| <= limit }

  function InsideText(limit: nat): NumberText -> bool { n => Inside(limit, n) }

  lemma {:induction false} ItemInside(items: seq<Item>, k: nat)
    requires k < |items|
    ensures |Text(items[k].value)| <= |ItemsText(items)|
  {
    if k > 0 { ItemInside(items[1..], k - 1); }
  }

  lemma {:induction false} MemberInside(members: seq<Member>, k: nat)
    requires k < |members|
    ensures |Text(members[k].value)| <= |MembersText(members)|
  {
    if k > 0 { MemberInside(members[1..], k - 1); }
  }

  lemma {:induction false} DecodedFrom(members: seq<Member>, unquote: bytes -> bytes, key: bytes) returns (k: nat)
    requires key in DecodeMembers(members, unquote)
    ensures k < |members| && DecodeMembers(members, unquote)[key] == Decode(members[k].value, unquote)
  {
    var last := |members| - 1;
    if unquote(members[last].key) == key {
      k := last;
    } else {
      k := DecodedFrom(members[..last], unquote, key);
    }
  }

  lemma {:induction false} DecodedNumbers(t: Cst, unquote: bytes -> bytes, limit: nat)
    requires Wf(t) && |Text(t)| <= limit
    ensures AllJson(InsideText(limit), Decode(t, unquote))
    decreases t
  {
    hide IsNumber, InRange, NumberSpelling;
    match t
    case Array(_, items) =>
      forall k | 0 <= k < |items| ensures AllJson(InsideText(limit), Decode(items[k].value, unquote)) {
        ItemInside(items, k);
        DecodedNumbers(items[k].value, unquote, limit);
      }
    case Object(_, members) =>
      var m := DecodeMembers(members, unquote);
      forall key | key in m ensures AllJson(InsideText(limit), m[key]) {
        var k := DecodedFrom(members, unquote, key);
        MemberInside(members, k);
        DecodedNumbers(members[k].value, unquote, limit);
      }
    case _ =>
  }

  /** Decodable, and of a width float64 is trusted with. */
  predicate NarrowDecodable(n: NumberText) { Decodable(n) && !Wide(n) }

  lemma {:induction false} DecodedNarrow(t: Cst, unquote: bytes -> bytes)
    requires Wf(t) && AllNarrow(t) && |Text(t)| < DOCUMENT_LIMIT
    ensures AllJson(NarrowDecodable, Decode(t, unquote))
    decreases t
  {
    hide IsNumber, InRange, NumberSpelling, Wide;
    match t
    case Array(_, items) =>
      forall k | 0 <= k < |items| ensures AllJson(NarrowDecodable, Decode(items[k].value, unquote)) {
        ItemInside(items, k);
        DecodedNarrow(items[k].value, unquote);
      }
    case Object(_, members) =>
      var m := DecodeMembers(members, unquote);
      forall key | key in m ensures AllJson(NarrowDecodable, m[key]) {
        var k := DecodedFrom(members, unquote, key);
        MemberInside(members, k);
        DecodedNarrow(members[k].value, unquote);
      }
    case _ =>
  }

  /** What the bytes of a valid document say of its decoded numbers. */
  lemma DocumentNumbers(raw: bytes, unquote: bytes -> bytes)
    requires Unmarshal(raw, unquote).Some? && |raw| < DOCUMENT_LIMIT
    ensures AllJson(Decodable, Unmarshal(raw, unquote).value)
    ensures !NeedsFrom(raw, 0) ==> AllJson(NarrowDecodable, Unmarshal(raw, unquote).value)
  {
    hide Text, Wf, Fits, AllSpace, Decode, AllJson, AllNarrow, NeedsFrom;
    ReadDocumentSound(raw);
    var before, t, after :| IsDocument(before, t, after, raw);
    ReadDocumentComplete(before, t, after, raw);
    DecodedDecodable(t, unquote, |raw|);
    FilterIsExact(before, t, after, raw);
    if !NeedsFrom(raw, 0) { DecodedNarrow(t, unquote); }
  }

  lemma DecodedDecodable(t: Cst, unquote: bytes -> bytes, limit: nat)
    requires Wf(t) && |Text(t)| <= limit < DOCUMENT_LIMIT
    ensures AllJson(Decodable, Decode(t, unquote))
  {
    DecodedNumbers(t, unquote, limit);
    Weaken(InsideText(limit), Decodable, Decode(t, unquote));
  }

  lemma {:induction false} Weaken<N(!new)>(p: N -> bool, q: N -> bool, a: Json<N>)
    requires AllJson(p, a) && forall n :: p(n) ==> q(n)
    ensures AllJson(q, a)
  {
    match a
    case JArr(elems) => forall i | 0 <= i < |elems| ensures AllJson(q, elems[i]) { Weaken(p, q, elems[i]); }
    case JObj(members) => forall k | k in members ensures AllJson(q, members[k]) { Weaken(p, q, members[k]); }
    case _ =>
  }

  // ----- rounding -----

  /** Rounding is a function of the value: two spellings of one number round alike. */
  ghost predicate RoundsValues<F(!new)>(round: NumberText -> F) {
    forall a, b :: Decodable(a) && Decodable(b) && SameNumber(a, b) ==> round(a) == round(b)
  }

  /** And it keeps the literals of trusted width apart. */
  ghost predicate SeparatesNarrow<F(!new)>(round: NumberText -> F) {
    forall a, b :: NarrowDecodable(a) && NarrowDecodable(b) && round(a) == round(b) ==> SameNumber(a, b)
  }

  lemma ExactRefinesRounded<F(!new)>(round: NumberText -> F)
    requires RoundsValues(round)
    ensures Refines(Exactly<F>(), Rounded(round), Decodable, Decodable)
  {
    hide IsNumber, InRange, NumberSpelling, Canonical, SameNumber;
    forall a, b | Decodable(a) && Decodable(b) && Exactly<F>()(a) == Exactly<F>()(b)
      ensures Rounded(round)(a) == Rounded(round)(b)
    {
      CanonicalSound(a, b);
    }
  }

  lemma RoundedRefinesExact<F(!new)>(round: NumberText -> F)
    requires SeparatesNarrow(round)
    ensures Refines(Rounded(round), Exactly<F>(), NarrowDecodable, NarrowDecodable)
  {
    hide IsNumber, InRange, NumberSpelling, Canonical, SameNumber, ExponentFits, Wide;
    forall a, b | NarrowDecodable(a) && NarrowDecodable(b) && Rounded(round)(a) == Rounded(round)(b)
      ensures Exactly<F>()(a) == Exactly<F>()(b)
    {
      NarrowFits(a);
      NarrowFits(b);
      CanonicalIffSame(a, b);
    }
  }

  lemma NarrowFits(n: NumberText)
    requires IsNumber(n) && !Wide(n)
    ensures ExponentFits(n)
  {
    hide DigitsValue;
    SignificantValue(n);
    SignificantShorter(n);
  }

  lemma SignificantShorter(n: NumberText)
    requires IsNumber(n)
    ensures FinalExponent(n) <= Scale(n) + |n.whole| + |n.frac|
  {
    StripLeadingShorter(n.whole + n.frac);
  }

  lemma {:induction false} StripLeadingShorter(s: bytes)
    ensures |StripLeading(s)| <= |s|
  {
    if s != [] && s[0] == ZERO { StripLeadingShorter(s[1..]); }
  }

  // ----- the matcher -----

  datatype Width = Irrelevant | Narrow | VeryWide

  datatype Matcher<!F> = Matcher(expected: Expected<Carrier<F>>, exact: Option<Expected<Carrier<F>>>, numbers: Width, opts: Options)

  /** How the environment reads strings, numbers and patterns. */
  datatype Reading<!F> = Reading(unquote: bytes -> bytes, round: NumberText -> F, compileRegex: Compiler)

  /** The meaning of the operand: its resolved document over its number literals. */
  function Operand<F>(source: bytes, env: Reading<F>): Option<Expected<NumberText>> {
    match Unmarshal(source, env.unquote)
    case None => None
    case Some(d) => if Resolvable(d, env.compileRegex) then Some(Resolve(d, env.compileRegex)) else None
  }

  ghost predicate Compiled<F(!new)>(m: Matcher<F>, source: bytes, env: Reading<F>) {
    Operand(source, env).Some?
    && var e := Operand(source, env).value;
    && m.expected == MapExpected(Rounded(env.round), e)
    && m.exact == Some(MapExpected(Exactly<F>(), e))
    && m.numbers == (if !HasNumber(e) then Irrelevant else if NeedsFrom(source, 0) then VeryWide else Narrow)
  }

  function FloatDocument<F>(raw: bytes, env: Reading<F>): Option<Json<Carrier<F>>> {
    match Unmarshal(raw, env.unquote)
    case None => None
    case Some(d) => Some(MapJson(Rounded(env.round), d))
  }

  /** The second decode, of a document the first accepted. */
  function ExactDocument<F>(raw: bytes, env: Reading<F>): Option<Json<Carrier<F>>> {
    match Unmarshal(raw, env.unquote)
    case None => None
    case Some(d) => Some(MapJson(Exactly<F>(), d))
  }

  method Compile<F(!new)>(source: bytes, opts: Options, env: Reading<F>) returns (m: Option<Matcher<F>>)
    ensures m.Some? <==> Operand(source, env).Some?
    ensures m.Some? ==> Compiled(m.value, source, env) && m.value.opts == opts
  {
    hide Resolve, Resolvable, MapJson, MapExpected, HasNumber, PairExact, NeedsFrom, Unmarshal, Exactly, Rounded;
    var decoded := FloatDocument(source, env);
    if decoded.None? { return None; }
    ghost var d := Unmarshal(source, env.unquote).value;
    ResolveNatural(Rounded(env.round), d, env.compileRegex);
    ResolveNatural(Exactly<F>(), d, env.compileRegex);
    if !Resolvable(decoded.value, env.compileRegex) { return None; }
    var resolved := Resolve(decoded.value, env.compileRegex);
    var counterpart := ExactDocument(source, env);
    var (exact, found) := PairExact(resolved, counterpart.value);
    PairExactIsResolve(env.round, d, env.compileRegex);
    var numbers := Irrelevant;
    if found {
      var wide := DocumentNeedsExactNumbers(source);
      numbers := if wide then VeryWide else Narrow;
    }
    return Some(Matcher(resolved, Some(exact), numbers, opts));
  }

  method ConfirmNumbers<F(==)>(m: Matcher<F>, document: bytes, env: Reading<F>) returns (b: bool)
    ensures b <==> (m.numbers.Irrelevant? || (m.numbers.Narrow? && !NeedsFrom(document, 0)) || m.exact.None?
                    || (ExactDocument(document, env).Some?
                        && Equal(m.exact.value, ExactDocument(document, env).value, m.opts)))
  {
    if m.numbers == Irrelevant { return true; }
    if m.numbers == Narrow {
      var needed := DocumentNeedsExactNumbers(document);
      if !needed { return true; }
    }
    if m.exact.None? { return true; }
    var actual := ExactDocument(document, env);
    if actual.None? { return false; }
    b := JsonEqual(m.exact.value, actual.value, m.opts);
  }

  /** The document is valid and equal to the operand with numbers compared as exact decimals. */
  ghost predicate MatchesExactly<F>(source: bytes, document: bytes, opts: Options, env: Reading<F>) {
    Operand(source, env).Some? && Unmarshal(document, env.unquote).Some?
    && Equal(MapExpected(Exactly<F>(), Operand(source, env).value),
             MapJson(Exactly<F>(), Unmarshal(document, env.unquote).value), opts)
  }

  ghost predicate MatchesRounded<F>(source: bytes, document: bytes, opts: Options, env: Reading<F>) {
    Operand(source, env).Some? && Unmarshal(document, env.unquote).Some?
    && Equal(MapExpected(Rounded(env.round), Operand(source, env).value),
             MapJson(Rounded(env.round), Unmarshal(document, env.unquote).value), opts)
  }

  lemma OperandNumbers<F>(source: bytes, env: Reading<F>)
    requires Operand(source, env).Some? && |source| < DOCUMENT_LIMIT
    ensures AllExpected(Decodable, Operand(source, env).value)
    ensures !NeedsFrom(source, 0) ==> AllExpected(NarrowDecodable, Operand(source, env).value)
  {
    hide NeedsFrom, AllJson, AllExpected, Resolve, Resolvable, Unmarshal;
    DocumentNumbers(source, env.unquote);
    var d := Unmarshal(source, env.unquote).value;
    ResolveKeeps(Decodable, d, env.compileRegex);
    if !NeedsFrom(source, 0) { ResolveKeeps(NarrowDecodable, d, env.compileRegex); }
  }

  lemma ExactImpliesRounded<F(!new)>(source: bytes, document: bytes, opts: Options, env: Reading<F>)
    requires RoundsValues(env.round) && |source| < DOCUMENT_LIMIT && |document| < DOCUMENT_LIMIT
    requires MatchesExactly(source, document, opts, env)
    ensures MatchesRounded(source, document, opts, env)
  {
    hide Operand, Unmarshal, Equal, AllExpected, AllJson, Refines, MapExpected, MapJson, RoundsValues;
    OperandNumbers(source, env);
    DocumentNumbers(document, env.unquote);
    ExactRefinesRounded(env.round);
    EqualCarries(Exactly<F>(), Rounded(env.round), Decodable, Decodable, Operand(source, env).value,
                 Unmarshal(document, env.unquote).value, opts);
  }

  lemma NarrowRoundedImpliesExact<F(!new)>(source: bytes, document: bytes, opts: Options, env: Reading<F>)
    requires SeparatesNarrow(env.round) && |source| < DOCUMENT_LIMIT && |document| < DOCUMENT_LIMIT
    requires !NeedsFrom(source, 0) && !NeedsFrom(document, 0)
    requires MatchesRounded(source, document, opts, env)
    ensures MatchesExactly(source, document, opts, env)
  {
    hide Operand, Unmarshal, Equal, AllExpected, AllJson, Refines, MapExpected, MapJson, SeparatesNarrow, NeedsFrom;
    OperandNumbers(source, env);
    DocumentNumbers(document, env.unquote);
    RoundedRefinesExact(env.round);
    EqualCarries(Rounded(env.round), Exactly<F>(), NarrowDecodable, NarrowDecodable, Operand(source, env).value,
                 Unmarshal(document, env.unquote).value, opts);
  }

  /** With no number in the operand the precision cannot matter. */
  lemma NumberlessRoundedImpliesExact<F(!new)>(source: bytes, document: bytes, opts: Options, env: Reading<F>)
    requires MatchesRounded(source, document, opts, env) && !HasNumber(Operand(source, env).value)
    ensures MatchesExactly(source, document, opts, env)
  {
    hide Operand, Unmarshal, Equal, MapExpected, MapJson;
    var e, a := Operand(source, env).value, Unmarshal(document, env.unquote).value;
    NumberlessAll(e);
    AnyNumbers(a);
    EqualCarries(Rounded(env.round), Exactly<F>(), NoLiteral, AnyLiteral, e, a, opts);
  }

  predicate NoLiteral(n: NumberText) { false }

  predicate AnyLiteral(n: NumberText) { true }

  lemma {:induction false} NumberlessAll(e: Expected<NumberText>)
    requires !HasNumber(e)
    ensures AllExpected(NoLiteral, e)
  {
    match e
    case EArr(elems) => forall i | 0 <= i < |elems| ensures AllExpected(NoLiteral, elems[i]) { NumberlessAll(elems[i]); }
    case EObj(members) => forall k | k in members ensures AllExpected(NoLiteral, members[k]) { NumberlessAll(members[k]); }
    case _ =>
  }

  lemma {:induction false} AnyNumbers(a: Json<NumberText>)
    ensures AllJson(AnyLiteral, a)
  {
    match a
    case JArr(elems) => forall i | 0 <= i < |elems| ensures AllJson(AnyLiteral, elems[i]) { AnyNumbers(elems[i]); }
    case JObj(members) => forall k | k in members ensures AllJson(AnyLiteral, members[k]) { AnyNumbers(members[k]); }
    case _ =>
  }

  /**
   The two-precision comparison answers what the exact one answers, for every operand and
   every document.
   */
  method MatchOne<F(==, !new)>(m: Matcher<F>, document: bytes, env: Reading<F>, ghost source: bytes) returns (b: bool)
    requires Compiled(m, source, env) && RoundsValues(env.round) && SeparatesNarrow(env.round)
    requires |source| < DOCUMENT_LIMIT && |document| < DOCUMENT_LIMIT
    ensures b <==> MatchesExactly(source, document, m.opts, env)
  {
    hide Operand, Unmarshal, Equal, MapExpected, MapJson, RoundsValues, SeparatesNarrow, NeedsFrom, HasNumber, Exactly, Rounded;
    var actual := FloatDocument(document, env);
    if actual.None? { return false; }
    b := JsonEqual(m.expected, actual.value, m.opts);
    assert b <==> MatchesRounded(source, document, m.opts, env);
    if !b {
      if MatchesExactly(source, document, m.opts, env) { ExactImpliesRounded(source, document, m.opts, env); }
      return;
    }
    if m.numbers.Irrelevant? { NumberlessRoundedImpliesExact(source, document, m.opts, env); }
    if m.numbers.Narrow? && !NeedsFrom(document, 0) { NarrowRoundedImpliesExact(source, document, m.opts, env); }
    b := ConfirmNumbers(m, document, env);
  }

  // ----- exact decimals are rationals -----

  /** A rational in normal form, its exponent unbounded. */
  datatype Rational = Zero | Scaled(minus: bool, digits: bytes, exponent: int)

  function ValueOf(n: NumberText): Rational {
    if !IsNumber(n) || Significant(n) == [] then Zero else Scaled(n.minus, Significant(n), FinalExponent(n))
  }

  lemma ValueOfIffSame(a: NumberText, b: NumberText)
    requires IsNumber(a) && IsNumber(b)
    ensures ValueOf(a) == ValueOf(b) <==> SameNumber(a, b)
  {
    hide IsNumber, SameNumber, Significant, FinalExponent;
    SameByNormalForm(a, b);
  }

  predicate FitsInt(n: NumberText) { IsNumber(n) && ExponentFits(n) }

  /** Where every exponent fits an int, comparing exact decimals is comparing the rationals. */
  lemma ExactIsRational<F(!new)>(e: Expected<NumberText>, a: Json<NumberText>, opts: Options)
    requires AllExpected(FitsInt, e) && AllJson(FitsInt, a)
    ensures Equal(MapExpected(Exactly<F>(), e), MapJson(Exactly<F>(), a), opts)
       <==> Equal(MapExpected(ValueOf, e), MapJson(ValueOf, a), opts)
  {
    hide IsNumber, SameNumber, Canonical, ExponentFits, Equal, MapExpected, MapJson, AllExpected, AllJson, ValueOf;
    forall x, y | FitsInt(x) && FitsInt(y)
      ensures Exactly<F>()(x) == Exactly<F>()(y) <==> ValueOf(x) == ValueOf(y)
    {
      CanonicalIffSame(x, y);
      ValueOfIffSame(x, y);
    }
    if Equal(MapExpected(Exactly<F>(), e), MapJson(Exactly<F>(), a), opts) {
      EqualCarries(Exactly<F>(), ValueOf, FitsInt, FitsInt, e, a, opts);
    }
    if Equal(MapExpected(ValueOf, e), MapJson(ValueOf, a), opts) {
      EqualCarries(ValueOf, Exactly<F>(), FitsInt, FitsInt, e, a, opts);
    }
  }
}
