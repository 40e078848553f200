/**
 equalToJson at two precisions: a comparison of float64 values first, then of exact
 decimals when a literal is wide enough for rounding to have mattered.
 */
module ExactNumbers {
  import opened Bytes
  import opened JsonGrammar
  import opened JsonReader
  import opened JsonScan
  import opened Decimals
  import opened DecimalsInRange
  import opened NumberFilter
  import opened JsonComparison

  // ----- renaming the numbers of a document -----

  function MapJson<N, M>(f: N -> M, a: Json<N>): Json<M> {
    match a
    case JNull => JNull
    case JBool(b) => JBool(b)
    case JNum(n) => JNum(f(n))
    case JStr(s) => JStr(s)
    case JArr(elems) => JArr(seq(|elems|, i requires 0 <= i < |elems| => MapJson(f, elems[i])))
    case JObj(members) => JObj(map k | k in members :: MapJson(f, members[k]))
  }

  function MapExpected<N, M>(f: N -> M, e: Expected<N>): Expected<M> {
    match e
    case EPlaceholder(p) => EPlaceholder(p)
    case ENull => ENull
    case EBool(b) => EBool(b)
    case ENum(n) => ENum(f(n))
    case EStr(s) => EStr(s)
    case EArr(elems) => EArr(seq(|elems|, i requires 0 <= i < |elems| => MapExpected(f, elems[i])))
    case EObj(members) => EObj(map k | k in members :: MapExpected(f, members[k]))
  }

  /** Every number of the document satisfies `good`. */
  ghost predicate AllJson<N>(good: N -> bool, a: Json<N>) {
    match a
    case JNum(n) => good(n)
    case JArr(elems) => forall i :: 0 <= i < |elems| ==> AllJson(good, elems[i])
    case JObj(members) => forall k :: k in members ==> AllJson(good, members[k])
    case _ => true
  }

  ghost predicate AllExpected<N>(good: N -> bool, e: Expected<N>) {
    match e
    case ENum(n) => good(n)
    case EArr(elems) => forall i :: 0 <= i < |elems| ==> AllExpected(good, elems[i])
    case EObj(members) => forall k :: k in members ==> AllExpected(good, members[k])
    case _ => true
  }

  /** Whatever f does not tell apart, between these two documents, g does not either. */
  ghost predicate Refines<N(!new), M, L>(f: N -> M, g: N -> L, here: N -> bool, there: N -> bool) {
    forall x, y :: here(x) && there(y) && f(x) == f(y) ==> g(x) == g(y)
  }

  lemma {:induction false} EqualCarries<N(!new), M, L>(f: N -> M, g: N -> L, here: N -> bool, there: N -> bool,
                                                       e: Expected<N>, a: Json<N>, opts: Options)
    requires AllExpected(here, e) && AllJson(there, a) && Refines(f, g, here, there)
    requires Equal(MapExpected(f, e), MapJson(f, a), opts)
    ensures Equal(MapExpected(g, e), MapJson(g, a), opts)
    decreases e, 1
  {
    match e
    case EArr(elems) =>
      if opts.ignoreArrayOrder {
        PairingCarries(f, g, here, there, elems, a.elems, opts);
      } else {
        var fe, fa := MapExpected(f, e).elems, MapJson(f, a).elems;
        forall i | 0 <= i < |elems| ensures Equal(MapExpected(g, e).elems[i], MapJson(g, a).elems[i], opts) {
          assert Equal(fe[i], fa[i], opts);
          EqualCarries(f, g, here, there, elems[i], a.elems[i], opts);
        }
      }
    case EObj(members) =>
      MembersCarry(f, g, here, there, e, a, opts);
    case _ =>
  }

  lemma {:induction false} MembersCarry<N(!new), M, L>(f: N -> M, g: N -> L, here: N -> bool, there: N -> bool,
                                                       e: Expected<N>, a: Json<N>, opts: Options)
    requires e.EObj? && Refines(f, g, here, there) && AllExpected(here, e) && AllJson(there, a)
    requires Equal(MapExpected(f, e), MapJson(f, a), opts)
    ensures Equal(MapExpected(g, e), MapJson(g, a), opts)
    decreases e, 0
  {
    hide Refines;
    var fe, fa, ge, ga := MapExpected(f, e).members, MapJson(f, a).members, MapExpected(g, e).members, MapJson(g, a).members;
    assert fe.Keys == ge.Keys == e.members.Keys && fa.Keys == ga.Keys == a.members.Keys;
    forall k | k in ge
      ensures if k in ga then Equal(ge[k], ga[k], opts) else Optional(ge[k])
    {
      MemberOptional(f, g, e.members[k]);
      assert if k in fa then Equal(fe[k], fa[k], opts) else Optional(fe[k]);
      if k in a.members { EqualCarries(f, g, here, there, e.members[k], a.members[k], opts); }
    }
  }

  lemma MemberOptional<N, M, L>(f: N -> M, g: N -> L, e: Expected<N>)
    ensures Optional(MapExpected(f, e)) == Optional(MapExpected(g, e))
  {
  }

  /** The pairing found at one precision is a pairing at the other. */
  lemma {:induction false} PairingCarries<N(!new), M, L>(f: N -> M, g: N -> L, here: N -> bool, there: N -> bool,
                                                         elems: seq<Expected<N>>, actual: seq<Json<N>>, opts: Options)
    requires opts.ignoreArrayOrder && Refines(f, g, here, there)
    requires AllExpected(here, EArr(elems)) && AllJson(there, JArr(actual))
    requires Equal(MapExpected(f, EArr(elems)), MapJson(f, JArr(actual)), opts)
    ensures Equal(MapExpected(g, EArr(elems)), MapJson(g, JArr(actual)), opts)
    decreases elems
  {
    var fe, fa := MapExpected(f, EArr(elems)).elems, MapJson(f, JArr(actual)).elems;
    var ge, ga := MapExpected(g, EArr(elems)).elems, MapJson(g, JArr(actual)).elems;
    hide Equal, Refines;
    EqualUnordered(fe, fa, opts);
    EqualUnordered(ge, ga, opts);
    var p :| Assigns(p, fe, fa, opts);
    forall i | 0 <= i < |elems| ensures Equal(ge[i], ga[p[i]], opts) {
      assert Equal(fe[i], fa[p[i]], opts);
      EqualCarries(f, g, here, there, elems[i], actual[p[i]], opts);
    }
    assert Assigns(p, ge, ga, opts);
  }

  // ----- placeholders -----

  /** The bytes of a string, which is ASCII. */
  function Ascii(s: string): bytes { seq(|s|, k requires 0 <= k < |s| => s[k] as int % 256) }

  const PREFIX := Ascii("${json-unit.")
  const IGNORE := Ascii("${json-unit.ignore}")
  const IGNORE_ELEMENT := Ascii("${json-unit.ignore-element}")
  const ANY_STRING := Ascii("${json-unit.any-string}")
  const ANY_NUMBER := Ascii("${json-unit.any-number}")
  const ANY_BOOLEAN := Ascii("${json-unit.any-boolean}")
  const REGEX := Ascii("${json-unit.regex}")

  /** What a string of an expected document stands for. */
  datatype Rule = Literal | Stands(ph: Placeholder) | Refused

  type Compiler = bytes -> Option<bytes -> bool>

  function CompilePlaceholder(s: bytes, compileRegex: Compiler): Rule {
    if !(PREFIX <= s) then Literal
    else if s == IGNORE then Stands(Any)
    else if s == IGNORE_ELEMENT then Stands(AnyOrAbsent)
    else if s == ANY_STRING then Stands(AnyString)
    else if s == ANY_NUMBER then Stands(AnyNumber)
    else if s == ANY_BOOLEAN then Stands(AnyBoolean)
    else if REGEX <= s then
      match compileRegex(s[|REGEX|..])
      case None => Refused
      case Some(matches) => Stands(Regex(matches))
    else Refused
  }

  /** The expected document with its placeholder strings compiled; ENull where one is refused. */
  function Resolve<N>(a: Json<N>, re: Compiler): Expected<N> {
    match a
    case JNull => ENull
    case JBool(b) => EBool(b)
    case JNum(n) => ENum(n)
    case JStr(s) =>
      (match CompilePlaceholder(s, re)
       case Literal => EStr(s)
       case Stands(ph) => EPlaceholder(ph)
       case Refused => ENull)
    case JArr(elems) => EArr(seq(|elems|, i requires 0 <= i < |elems| => Resolve(elems[i], re)))
    case JObj(members) => EObj(map k | k in members :: Resolve(members[k], re))
  }

  predicate Resolvable<N>(a: Json<N>, re: Compiler) {
    match a
    case JStr(s) => !CompilePlaceholder(s, re).Refused?
    case JArr(elems) => forall i :: 0 <= i < |elems| ==> Resolvable(elems[i], re)
    case JObj(members) => forall k :: k in members ==> Resolvable(members[k], re)
    case _ => true
  }

  lemma {:induction false} ResolveNatural<N, M>(f: N -> M, a: Json<N>, re: Compiler)
    ensures Resolve(MapJson(f, a), re) == MapExpected(f, Resolve(a, re))
    ensures Resolvable(MapJson(f, a), re) == Resolvable(a, re)
  {
    hide CompilePlaceholder;
    match a
    case JArr(elems) =>
      forall i | 0 <= i < |elems|
        ensures Resolve(MapJson(f, elems[i]), re) == MapExpected(f, Resolve(elems[i], re))
        ensures Resolvable(MapJson(f, elems[i]), re) == Resolvable(elems[i], re)
      {
        ResolveNatural(f, elems[i], re);
      }
      assert Resolve(MapJson(f, a), re).elems == MapExpected(f, Resolve(a, re)).elems;
      assert forall i :: 0 <= i < |elems| ==> MapJson(f, a).elems[i] == MapJson(f, elems[i]);
    case JObj(members) =>
      forall k | k in members
        ensures Resolve(MapJson(f, members[k]), re) == MapExpected(f, Resolve(members[k], re))
        ensures Resolvable(MapJson(f, members[k]), re) == Resolvable(members[k], re)
      {
        ResolveNatural(f, members[k], re);
      }
      assert MapJson(f, a).members.Keys == members.Keys;
      assert Resolve(MapJson(f, a), re).members == MapExpected(f, Resolve(a, re)).members;
    case _ =>
  }

  lemma {:induction false} ResolveKeeps<N>(good: N -> bool, a: Json<N>, re: Compiler)
    requires AllJson(good, a)
    ensures AllExpected(good, Resolve(a, re))
  {
    match a
    case JArr(elems) =>
      forall i | 0 <= i < |elems| ensures AllExpected(good, Resolve(elems[i], re)) { ResolveKeeps(good, elems[i], re); }
    case JObj(members) =>
      forall k | k in members ensures AllExpected(good, Resolve(members[k], re)) { ResolveKeeps(good, members[k], re); }
    case _ =>
  }

  // ----- the exact reading -----

  /** What a number node carries: the float it decoded to, or an exact decimal. */
  datatype Carrier<+F> = Float(value: F) | Decimal(text: bytes)

  function Rounded<F>(round: NumberText -> F): NumberText -> Carrier<F> { n => Float(round(n)) }

  function Exactly<F>(): NumberText -> Carrier<F> {
    n => Decimal(if IsNumber(n) then Canonical(n) else NumberSpelling(n))
  }

  predicate HasNumber<N>(e: Expected<N>) {
    match e
    case ENum(_) => true
    case EArr(elems) => exists i :: 0 <= i < |elems| && HasNumber(elems[i])
    case EObj(members) => exists k :: k in members && HasNumber(members[k])
    case _ => false
  }

  /** The resolved document with each float replaced by the decimal the parallel decode read. */
  function PairExact<F>(resolved: Expected<Carrier<F>>, decoded: Json<Carrier<F>>): (r: (Expected<Carrier<F>>, bool))
    decreases resolved
  {
    match resolved
    case EObj(members) =>
      var source := if decoded.JObj? then decoded.members else map[];
      var at := k => if k in source then source[k] else JNull;
      (EObj(map k | k in members :: PairExact(members[k], at(k)).0),
       exists k :: k in members && PairExact(members[k], at(k)).1)
    case EArr(elems) =>
      var source := if decoded.JArr? then decoded.elems else [];
      var at := (i: int) => if 0 <= i < |source| then source[i] else JNull;
      (EArr(seq(|elems|, i requires 0 <= i < |elems| => PairExact(elems[i], at(i)).0)),
       exists i :: 0 <= i < |elems| && PairExact(elems[i], at(i)).1)
    case ENum(Float(_)) =>
      if decoded.JNum? && decoded.n.Decimal? then (ENum(decoded.n), true) else (resolved, false)
    case _ => (resolved, false)
  }

  /** The two readings have one shape, so pairing them is resolving the exact one. */
  lemma {:induction false} PairExactIsResolve<F>(round: NumberText -> F, d: Json<NumberText>, re: Compiler)
    ensures PairExact(Resolve(MapJson(Rounded(round), d), re), MapJson(Exactly(), d))
         == (Resolve(MapJson(Exactly<F>(), d), re), HasNumber(Resolve(d, re)))
    decreases d, 1
  {
    hide CompilePlaceholder, Canonical, IsNumber;
    match d
    case JArr(elems) => PairElements(round, elems, re);
    case JObj(members) => PairMembers(round, d, re);
    case _ =>
  }

  lemma {:induction false} PairElements<F>(round: NumberText -> F, elems: seq<Json<NumberText>>, re: Compiler)
    ensures PairExact(Resolve(MapJson(Rounded(round), JArr(elems)), re), MapJson(Exactly(), JArr(elems)))
         == (Resolve(MapJson(Exactly<F>(), JArr(elems)), re), HasNumber(Resolve(JArr(elems), re)))
    decreases elems
  {
    var f, g := Rounded(round), Exactly<F>();
    var e, a := Resolve(MapJson(f, JArr(elems)), re).elems, MapJson(g, JArr(elems)).elems;
    var x, r := Resolve(MapJson(g, JArr(elems)), re).elems, Resolve(JArr(elems), re).elems;
    var p := PairExact(EArr(e), JArr(a));
    assert |e| == |a| == |x| == |r| == |elems|;
    forall i | 0 <= i < |elems| ensures PairExact(e[i], a[i]) == (x[i], HasNumber(r[i])) {
      assert e[i] == Resolve(MapJson(f, elems[i]), re) && a[i] == MapJson(g, elems[i]);
      assert x[i] == Resolve(MapJson(g, elems[i]), re) && r[i] == Resolve(elems[i], re);
      PairExactIsResolve(round, elems[i], re);
    }
    hide Resolve, MapJson;
    assert p.0.elems == x;
    assert p.1 == exists i :: 0 <= i < |elems| && PairExact(e[i], a[i]).1;
  }

  lemma {:induction false} PairMembers<F>(round: NumberText -> F, d: Json<NumberText>, re: Compiler)
    requires d.JObj?
    ensures PairExact(Resolve(MapJson(Rounded(round), d), re), MapJson(Exactly(), d))
         == (Resolve(MapJson(Exactly<F>(), d), re), HasNumber(Resolve(d, re)))
    decreases d, 0
  {
    hide PairExact, HasNumber;
    var f, g, members := Rounded(round), Exactly<F>(), d.members;
    var fd, gd := MapJson(f, d).members, MapJson(g, d).members;
    assert fd.Keys == gd.Keys == members.Keys;
    var e, x, r := Resolve(JObj(fd), re).members, Resolve(JObj(gd), re).members, Resolve(d, re).members;
    forall k | k in e ensures PairExact(e[k], gd[k]) == (x[k], HasNumber(r[k])) {
      PairExactIsResolve(round, members[k], re);
    }
    PairMembersOf(e, gd, x, r);
  }

  lemma PairMembersOf<F>(e: map<bytes, Expected<Carrier<F>>>, a: map<bytes, Json<Carrier<F>>>,
                         x: map<bytes, Expected<Carrier<F>>>, r: map<bytes, Expected<NumberText>>)
    requires e.Keys == a.Keys == x.Keys == r.Keys
    requires forall k :: k in e ==> PairExact(e[k], a[k]) == (x[k], HasNumber(r[k]))
    ensures PairExact(EObj(e), JObj(a)) == (EObj(x), HasNumber(EObj(r)))
  {
    var p := PairExact(EObj(e), JObj(a));
    assert p.0.members == x;
    assert p.1 == exists k :: k in e && PairExact(e[k], a[k]).1;
  }
}
