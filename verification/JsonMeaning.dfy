/** What the JSON comparison accepts, said of documents: read back, trimmed, reordered, filled in. */
module JsonMeaning {
  import opened Bytes
  import opened JsonGrammar
  import opened JsonScan
  import opened Pairing
  import opened JsonComparison
  import opened ExactNumbers
  import opened EqualToJson

  // ----- an expected document and the document it writes down -----

  ghost predicate NoPlaceholders<N>(e: Expected<N>) {
    match e
    case EPlaceholder(_) => false
    case EArr(elems) => forall i :: 0 <= i < |elems| ==> NoPlaceholders(elems[i])
    case EObj(members) => forall k :: k in members ==> NoPlaceholders(members[k])
    case _ => true
  }

  function AsDocument<N>(e: Expected<N>): Json<N> {
    match e
    case EPlaceholder(_) => JNull
    case ENull => JNull
    case EBool(b) => JBool(b)
    case ENum(n) => JNum(n)
    case EStr(s) => JStr(s)
    case EArr(elems) => JArr(seq(|elems|, i requires 0 <= i < |elems| => AsDocument(elems[i])))
    case EObj(members) => JObj(map k | k in members :: AsDocument(members[k]))
  }

  function AsExpected<N>(a: Json<N>): Expected<N> {
    match a
    case JNull => ENull
    case JBool(b) => EBool(b)
    case JNum(n) => ENum(n)
    case JStr(s) => EStr(s)
    case JArr(elems) => EArr(seq(|elems|, i requires 0 <= i < |elems| => AsExpected(elems[i])))
    case JObj(members) => EObj(map k | k in members :: AsExpected(members[k]))
  }

  lemma {:induction false} AsExpectedReads<N>(a: Json<N>)
    ensures NoPlaceholders(AsExpected(a)) && AsDocument(AsExpected(a)) == a
  {
    match a
    case JArr(elems) =>
      forall i | 0 <= i < |elems| ensures NoPlaceholders(AsExpected(elems[i])) && AsDocument(AsExpected(elems[i])) == elems[i] {
        AsExpectedReads(elems[i]);
      }
    case JObj(members) =>
      forall k | k in members ensures NoPlaceholders(AsExpected(members[k])) && AsDocument(AsExpected(members[k])) == members[k] {
        AsExpectedReads(members[k]);
      }
      assert AsDocument(AsExpected(a)).members == members;
    case _ =>
  }

  // ----- in order, without placeholders -----

  function Fewer(a: nat, b: nat): nat { if a < b then a else b }

  /** At every depth, members nobody expects and elements past the expected ones taken out. */
  function Trimmed<N>(e: Expected<N>, a: Json<N>): Json<N> {
    match e
    case EArr(elems) =>
      if a.JArr? then JArr(seq(Fewer(|elems|, |a.elems|), i requires 0 <= i < Fewer(|elems|, |a.elems|) => Trimmed(elems[i], a.elems[i])))
      else a
    case EObj(members) =>
      if a.JObj? then JObj(map k | k in a.members && k in members :: Trimmed(members[k], a.members[k])) else a
    case _ => a
  }

  /** What is left of the actual document when the options have been applied to it. */
  function Kept<N>(e: Expected<N>, a: Json<N>, opts: Options): Json<N> { if opts.ignoreExtra then Trimmed(e, a) else a }

  /** The document matches exactly when what is left of it is the one written down. */
  lemma {:induction false} EqualInOrder<N>(e: Expected<N>, a: Json<N>, opts: Options)
    requires !opts.ignoreArrayOrder && NoPlaceholders(e)
    ensures Equal(e, a, opts) <==> Kept(e, a, opts) == AsDocument(e)
    decreases e
  {
    match e
    case EArr(elems) =>
      if a.JArr? {
        forall i | 0 <= i < |elems| && i < |a.elems|
          ensures Equal(elems[i], a.elems[i], opts) <==> Kept(elems[i], a.elems[i], opts) == AsDocument(elems[i])
        {
          EqualInOrder(elems[i], a.elems[i], opts);
        }
        ElementsInOrder(elems, a.elems, opts);
      }
    case EObj(members) =>
      if a.JObj? {
        forall k | k in members && k in a.members
          ensures Equal(members[k], a.members[k], opts) <==> Kept(members[k], a.members[k], opts) == AsDocument(members[k])
        {
          EqualInOrder(members[k], a.members[k], opts);
        }
        MembersInOrder(members, a.members, opts);
      }
    case _ =>
  }

  lemma ElementsInOrder<N>(elems: seq<Expected<N>>, actual: seq<Json<N>>, opts: Options)
    requires !opts.ignoreArrayOrder
    requires forall i :: 0 <= i < |elems| && i < |actual| ==>
               (Equal(elems[i], actual[i], opts) <==> Kept(elems[i], actual[i], opts) == AsDocument(elems[i]))
    ensures Equal(EArr(elems), JArr(actual), opts) <==> Kept(EArr(elems), JArr(actual), opts) == AsDocument(EArr(elems))
  {
    var kept, read := Kept(EArr(elems), JArr(actual), opts).elems, AsDocument(EArr(elems)).elems;
    assert |read| == |elems| && |kept| == if opts.ignoreExtra then Fewer(|elems|, |actual|) else |actual|;
    forall i | 0 <= i < |elems| && i < |actual| ensures kept[i] == Kept(elems[i], actual[i], opts) && read[i] == AsDocument(elems[i]) {}
    if Equal(EArr(elems), JArr(actual), opts) {
      forall i | 0 <= i < |elems| ensures kept[i] == read[i] { assert Equal(elems[i], actual[i], opts); }
      assert kept == read;
    }
    if kept == read {
      forall i | 0 <= i < |elems| ensures Equal(elems[i], actual[i], opts) { assert kept[i] == read[i]; }
    }
  }

  lemma MembersInOrder<N>(members: map<bytes, Expected<N>>, actual: map<bytes, Json<N>>, opts: Options)
    requires forall k :: k in members ==> NoPlaceholders(members[k])
    requires forall k :: k in members && k in actual ==>
               (Equal(members[k], actual[k], opts) <==> Kept(members[k], actual[k], opts) == AsDocument(members[k]))
    ensures Equal(EObj(members), JObj(actual), opts) <==> Kept(EObj(members), JObj(actual), opts) == AsDocument(EObj(members))
  {
    var kept, read := Kept(EObj(members), JObj(actual), opts).members, AsDocument(EObj(members)).members;
    assert read.Keys == members.Keys && kept.Keys == if opts.ignoreExtra then actual.Keys * members.Keys else actual.Keys;
    forall k | k in members && k in actual ensures kept[k] == Kept(members[k], actual[k], opts) && read[k] == AsDocument(members[k]) {}
    if Equal(EObj(members), JObj(actual), opts) {
      forall k | k in members ensures k in kept && kept[k] == read[k] {
        assert !Optional(members[k]) by { assert NoPlaceholders(members[k]); }
        assert k in actual && Equal(members[k], actual[k], opts);
      }
      assert kept.Keys == read.Keys;
      assert kept == read;
    }
    if kept == read {
      forall k | k in members ensures k in actual && Equal(members[k], actual[k], opts) {
        assert k in read && k in kept && kept[k] == read[k];
      }
      forall k | k in actual && !opts.ignoreExtra ensures k in members { assert k in kept && k in read; }
    }
  }

  // ----- placeholders: what they stand for, filled in -----

  /** Each placeholder replaced by the part of the document it accepts; an optional member that is not there dropped. */
  function Filled<N>(e: Expected<N>, a: Json<N>): Expected<N> {
    match e
    case EPlaceholder(p) => if PlaceholderMatches(p, a) then AsExpected(a) else e
    case EArr(elems) =>
      if !a.JArr? then e
      else EArr(seq(|elems|, i requires 0 <= i < |elems| => if i < |a.elems| then Filled(elems[i], a.elems[i]) else elems[i]))
    case EObj(members) =>
      if !a.JObj? then e
      else EObj(map k | k in members && (k in a.members || !Optional(members[k])) ::
                  if k in a.members then Filled(members[k], a.members[k]) else members[k])
    case _ => e
  }

  lemma {:induction false} EqualFilled<N>(e: Expected<N>, a: Json<N>, opts: Options)
    requires !opts.ignoreArrayOrder
    ensures Equal(e, a, opts) <==> NoPlaceholders(Filled(e, a)) && Equal(Filled(e, a), a, opts)
    decreases e
  {
    match e
    case EPlaceholder(p) =>
      if PlaceholderMatches(p, a) {
        AsExpectedReads(a);
        TrimmedWhole(a);
        EqualInOrder(AsExpected(a), a, opts);
      }
    case EArr(elems) =>
      if a.JArr? && |elems| <= |a.elems| {
        var f := Filled(e, a).elems;
        forall i | 0 <= i < |elems|
          ensures Equal(elems[i], a.elems[i], opts) <==> NoPlaceholders(f[i]) && Equal(f[i], a.elems[i], opts)
        {
          EqualFilled(elems[i], a.elems[i], opts);
        }
      }
    case EObj(members) =>
      if a.JObj? {
        forall k | k in members && k in a.members
          ensures Equal(members[k], a.members[k], opts)
             <==> NoPlaceholders(Filled(members[k], a.members[k])) && Equal(Filled(members[k], a.members[k]), a.members[k], opts)
        {
          EqualFilled(members[k], a.members[k], opts);
        }
        FilledMembers(members, a.members, opts);
      }
    case _ =>
  }

  lemma FilledMembers<N>(members: map<bytes, Expected<N>>, actual: map<bytes, Json<N>>, opts: Options)
    requires forall k :: k in members && k in actual ==>
               (Equal(members[k], actual[k], opts) <==>
                NoPlaceholders(Filled(members[k], actual[k])) && Equal(Filled(members[k], actual[k]), actual[k], opts))
    ensures Equal(EObj(members), JObj(actual), opts) <==>
            NoPlaceholders(Filled(EObj(members), JObj(actual))) && Equal(Filled(EObj(members), JObj(actual)), JObj(actual), opts)
  {
    var f := Filled(EObj(members), JObj(actual)).members;
    assert forall k :: k in f <==> k in members && (k in actual || !Optional(members[k]));
    assert forall k :: k in f ==> f[k] == if k in actual then Filled(members[k], actual[k]) else members[k];
    hide Filled;
    if Equal(EObj(members), JObj(actual), opts) {
      forall k | k in f ensures k in actual && NoPlaceholders(f[k]) && Equal(f[k], actual[k], opts) {}
    }
    if NoPlaceholders(EObj(f)) && Equal(EObj(f), JObj(actual), opts) { UnfilledMembers(members, f, actual, opts); }
  }

  lemma UnfilledMembers<N>(members: map<bytes, Expected<N>>, f: map<bytes, Expected<N>>, actual: map<bytes, Json<N>>, opts: Options)
    requires forall k :: k in f <==> k in members && (k in actual || !Optional(members[k]))
    requires forall k :: k in f && k in actual && NoPlaceholders(f[k]) && Equal(f[k], actual[k], opts) ==> Equal(members[k], actual[k], opts)
    requires NoPlaceholders(EObj(f)) && Equal(EObj(f), JObj(actual), opts)
    ensures Equal(EObj(members), JObj(actual), opts)
  {
    forall k | k in members
      ensures if k in actual then Equal(members[k], actual[k], opts) else Optional(members[k])
    {
      if k in f { assert NoPlaceholders(f[k]); }
    }
  }

  lemma {:induction false} TrimmedWhole<N>(a: Json<N>)
    ensures Trimmed(AsExpected(a), a) == a
  {
    match a
    case JArr(elems) =>
      forall i | 0 <= i < |elems| ensures Trimmed(AsExpected(elems[i]), elems[i]) == elems[i] { TrimmedWhole(elems[i]); }
      assert Trimmed(AsExpected(a), a).elems == elems;
    case JObj(members) =>
      forall k | k in members ensures Trimmed(AsExpected(members[k]), members[k]) == members[k] { TrimmedWhole(members[k]); }
      assert Trimmed(AsExpected(a), a).members == members;
    case _ =>
  }

  // ----- in any order -----

  /** Some p indexes below n, all different, and then the others. */
  lemma CompleteOrder(p: seq<nat>, n: nat) returns (at: seq<nat>)
    requires Injective(p) && forall i :: 0 <= i < |p| ==> p[i] < n
    ensures |at| == n && UsesEach(at) && p <= at
  {
    NoLonger(p, n);
    hide UsesEach;
    at := p;
    while |at| < n
      invariant |p| <= |at| <= n && p <= at && Injective(at) && forall i :: 0 <= i < |at| ==> at[i] < n
    {
      var next := Unused(at, n);
      at := at + [next];
    }
    assert UsesEach(at) by { EachUsed(at); }
  }

  lemma EachUsed(at: seq<nat>)
    requires Injective(at) && forall i :: 0 <= i < |at| ==> at[i] < |at|
    ensures UsesEach(at)
  {
  }

  lemma NoLonger(p: seq<nat>, n: nat)
    requires Injective(p) && forall i :: 0 <= i < |p| ==> p[i] < n
    ensures |p| <= n
  {
    BelowCard(|p|);
    BelowCard(n);
    ImageCard(Below(|p|), p);
    SubsetCard(set i | i in Below(|p|) :: p[i], Below(n));
  }

  lemma Unused(at: seq<nat>, n: nat) returns (next: nat)
    requires Injective(at) && |at| < n
    ensures next < n && forall i :: 0 <= i < |at| ==> at[i] != next
  {
    BelowCard(n);
    BelowCard(|at|);
    ImageCard(Below(|at|), at);
    var used := set i | i in Below(|at|) :: at[i];
    if Below(n) <= used { SubsetCard(Below(n), used); }
    next :| next in Below(n) && next !in used;
    forall i | 0 <= i < |at| ensures at[i] != next { assert i in Below(|at|); }
  }

  lemma {:induction false} SameOrder<N>(e: Expected<N>)
    ensures Reordered(e, e)
  {
    match e
    case EArr(elems) =>
      var at: seq<nat> := seq(|elems|, i requires 0 <= i < |elems| => i);
      forall i | 0 <= i < |elems| ensures Reordered(elems[at[i]], elems[i]) { SameOrder(elems[i]); }
    case EObj(members) => forall k | k in members ensures Reordered(members[k], members[k]) { SameOrder(members[k]); }
    case _ =>
  }

  lemma {:induction false} SameOrderJson<N>(a: Json<N>)
    ensures ReorderedJson(a, a)
  {
    match a
    case JArr(elems) =>
      var at: seq<nat> := seq(|elems|, i requires 0 <= i < |elems| => i);
      forall i | 0 <= i < |elems| ensures ReorderedJson(elems[at[i]], elems[i]) { SameOrderJson(elems[i]); }
    case JObj(members) => forall k | k in members ensures ReorderedJson(members[k], members[k]) { SameOrderJson(members[k]); }
    case _ =>
  }

  /** What matches in order matches without. */
  lemma {:induction false} InOrderMatches<N>(e: Expected<N>, a: Json<N>, opts: Options)
    requires opts.ignoreArrayOrder && Equal(e, a, opts.(ignoreArrayOrder := false))
    ensures Equal(e, a, opts)
    decreases e
  {
    match e
    case EArr(elems) =>
      var p: seq<nat> := seq(|elems|, i requires 0 <= i < |elems| => i);
      forall i | 0 <= i < |elems| ensures Equal(elems[i], a.elems[i], opts) { InOrderMatches(elems[i], a.elems[i], opts); }
      assert Assigns(p, elems, a.elems, opts);
      EqualUnordered(elems, a.elems, opts);
    case EObj(members) =>
      forall k | k in members && k in a.members ensures Equal(members[k], a.members[k], opts) {
        InOrderMatches(members[k], a.members[k], opts);
      }
    case _ =>
  }

  /** And what matches without order can be put in an order in which it matches. */
  lemma {:induction false} PutInOrder<N>(e: Expected<N>, a: Json<N>, opts: Options) returns (b: Json<N>)
    requires opts.ignoreArrayOrder && Equal(e, a, opts)
    ensures ReorderedJson(a, b) && Equal(e, b, opts.(ignoreArrayOrder := false))
    decreases e, 1
  {
    match e
    case EArr(elems) =>
      var put := PutElements(elems, a.elems, opts);
      b := JArr(put);
    case EObj(members) =>
      var put := PutMembers(e, a.members, opts);
      b := JObj(put);
    case _ =>
      b := a;
      SameOrderJson(a);
  }

  lemma {:induction false} PutElements<N>(elems: seq<Expected<N>>, actual: seq<Json<N>>, opts: Options) returns (put: seq<Json<N>>)
    requires opts.ignoreArrayOrder && Equal(EArr(elems), JArr(actual), opts)
    ensures ReorderedJson(JArr(actual), JArr(put)) && Equal(EArr(elems), JArr(put), opts.(ignoreArrayOrder := false))
    decreases elems
  {
    hide Equal, ReorderedJson;
    EqualUnordered(elems, actual, opts);
    var p :| Assigns(p, elems, actual, opts);
    var at := CompleteOrder(p, |actual|);
    put := [];
    while |put| < |actual|
      invariant |put| <= |actual|
      invariant forall i :: 0 <= i < |put| ==> ReorderedJson(actual[at[i]], put[i])
      invariant forall i :: 0 <= i < |put| && i < |elems| ==> Equal(elems[i], put[i], opts.(ignoreArrayOrder := false))
    {
      var i := |put|;
      if i < |elems| {
        assert at[i] == p[i];
        var next := PutInOrder(elems[i], actual[at[i]], opts);
        put := put + [next];
      } else {
        SameOrderJson(actual[at[i]]);
        put := put + [actual[at[i]]];
      }
    }
    InOrderArrays(elems, actual, put, at, opts);
  }

  lemma InOrderArrays<N>(elems: seq<Expected<N>>, actual: seq<Json<N>>, put: seq<Json<N>>, at: seq<nat>, opts: Options)
    requires |put| == |actual| == |at| && UsesEach(at) && Cardinality(|elems|, |actual|, opts)
    requires forall i :: 0 <= i < |put| ==> ReorderedJson(actual[at[i]], put[i])
    requires forall i :: 0 <= i < |elems| ==> Equal(elems[i], put[i], opts.(ignoreArrayOrder := false))
    ensures ReorderedJson(JArr(actual), JArr(put)) && Equal(EArr(elems), JArr(put), opts.(ignoreArrayOrder := false))
  {
  }

  lemma {:induction false} PutMembers<N>(e: Expected<N>, actual: map<bytes, Json<N>>, opts: Options) returns (put: map<bytes, Json<N>>)
    requires e.EObj? && opts.ignoreArrayOrder && Equal(e, JObj(actual), opts)
    ensures ReorderedJson(JObj(actual), JObj(put)) && Equal(e, JObj(put), opts.(ignoreArrayOrder := false))
    decreases e, 0
  {
    var members := e.members;
    put := map[];
    var keys := actual.Keys;
    while keys != {}
      invariant keys <= actual.Keys && put.Keys == actual.Keys - keys
      invariant forall k :: k in put ==> ReorderedJson(actual[k], put[k])
      invariant forall k :: k in put && k in members ==> Equal(members[k], put[k], opts.(ignoreArrayOrder := false))
    {
      var k :| k in keys;
      if k in members {
        var next := PutInOrder(members[k], actual[k], opts);
        put := put[k := next];
      } else {
        SameOrderJson(actual[k]);
        put := put[k := actual[k]];
      }
      keys := keys - {k};
    }
  }

  lemma AnyOrder<N>(e: Expected<N>, a: Json<N>, opts: Options)
    requires opts.ignoreArrayOrder
    ensures Equal(e, a, opts) <==> exists b :: ReorderedJson(a, b) && Equal(e, b, opts.(ignoreArrayOrder := false))
  {
    hide Equal, Reordered, ReorderedJson;
    if Equal(e, a, opts) {
      var b := PutInOrder(e, a, opts);
      assert ReorderedJson(a, b) && Equal(e, b, opts.(ignoreArrayOrder := false));
    }
    if b :| ReorderedJson(a, b) && Equal(e, b, opts.(ignoreArrayOrder := false)) {
      InOrderMatches(e, b, opts);
      SameOrder(e);
      OrderIrrelevant(e, e, a, b, opts);
    }
  }

  // ----- the whole meaning -----

  /** The placeholders filled in and the extras taken out, the document is the one written down. */
  ghost predicate WrittenDown<N>(e: Expected<N>, a: Json<N>, opts: Options) {
    var f := Filled(e, a);
    NoPlaceholders(f) && Kept(f, a, opts) == AsDocument(f)
  }

  /**
   What the comparison accepts, for all options and placeholders: the documents that are the
   one written down, or can be made so by putting their arrays, at every depth, in another order.
   */
  lemma EqualMeans<N>(e: Expected<N>, a: Json<N>, opts: Options)
    ensures Equal(e, a, opts) <==>
            if opts.ignoreArrayOrder then exists b :: ReorderedJson(a, b) && WrittenDown(e, b, opts) else WrittenDown(e, a, opts)
  {
    hide Equal, ReorderedJson, Filled, WrittenDown;
    forall b ensures Equal(e, b, opts.(ignoreArrayOrder := false)) <==> WrittenDown(e, b, opts) {
      InOrderMeans(e, b, opts.(ignoreArrayOrder := false), opts);
    }
    if opts.ignoreArrayOrder { AnyOrder(e, a, opts); }
  }

  lemma InOrderMeans<N>(e: Expected<N>, a: Json<N>, opts: Options, like: Options)
    requires !opts.ignoreArrayOrder && like.ignoreExtra == opts.ignoreExtra
    ensures Equal(e, a, opts) <==> WrittenDown(e, a, like)
  {
    hide Equal, Filled;
    EqualFilled(e, a, opts);
    if NoPlaceholders(Filled(e, a)) { EqualInOrder(Filled(e, a), a, opts); }
  }

  // ----- the operand as it was written -----

  /** No string value of the document is one a placeholder could be. */
  predicate LiteralOnly<N>(d: Json<N>) {
    match d
    case JStr(s) => !(Ascii("${json-unit.") <= s)
    case JArr(elems) => forall i :: 0 <= i < |elems| ==> LiteralOnly(elems[i])
    case JObj(members) => forall k :: k in members ==> LiteralOnly(members[k])
    case _ => true
  }

  /** Such an operand is the document itself. */
  lemma {:induction false} LiteralResolves<N>(d: Json<N>, re: Compiler)
    requires LiteralOnly(d)
    ensures Resolvable(d, re) && NoPlaceholders(Resolve(d, re)) && AsDocument(Resolve(d, re)) == d
  {
    match d
    case JArr(elems) =>
      forall i | 0 <= i < |elems|
        ensures Resolvable(elems[i], re) && NoPlaceholders(Resolve(elems[i], re)) && AsDocument(Resolve(elems[i], re)) == elems[i]
      {
        LiteralResolves(elems[i], re);
      }
      assert AsDocument(Resolve(d, re)).elems == elems;
    case JObj(members) =>
      forall k | k in members
        ensures Resolvable(members[k], re) && NoPlaceholders(Resolve(members[k], re)) && AsDocument(Resolve(members[k], re)) == members[k]
      {
        LiteralResolves(members[k], re);
      }
      assert AsDocument(Resolve(d, re)).members == members;
    case _ =>
  }

  lemma Spelled()
    ensures PREFIX <= IGNORE && PREFIX <= IGNORE_ELEMENT && PREFIX <= ANY_STRING && PREFIX <= ANY_NUMBER
    ensures PREFIX <= ANY_BOOLEAN && PREFIX <= REGEX && |REGEX| == 18 && REGEX[12] == 114
    ensures |IGNORE| == 19 && |IGNORE_ELEMENT| == 27 && |ANY_STRING| == |ANY_NUMBER| == 23 && |ANY_BOOLEAN| == 24
    ensures ANY_STRING[16] == 115 && ANY_NUMBER[16] == 110
    ensures IGNORE[12] == IGNORE_ELEMENT[12] == 105 && ANY_STRING[12] == ANY_NUMBER[12] == ANY_BOOLEAN[12] == 97
  {
  }

  /** Each placeholder string stands for one rule, and any other string with their prefix is refused. */
  lemma RulesOf(re: Compiler, pattern: bytes)
    ensures CompilePlaceholder(IGNORE, re) == Stands(Any) && CompilePlaceholder(IGNORE_ELEMENT, re) == Stands(AnyOrAbsent)
    ensures CompilePlaceholder(ANY_STRING, re) == Stands(AnyString) && CompilePlaceholder(ANY_NUMBER, re) == Stands(AnyNumber)
    ensures CompilePlaceholder(ANY_BOOLEAN, re) == Stands(AnyBoolean)
    ensures CompilePlaceholder(REGEX + pattern, re) == match re(pattern) case None => Refused case Some(m) => Stands(Regex(m))
  {
    Spelled();
    hide Ascii;
    var s := REGEX + pattern;
    assert s[12] == REGEX[12] && s[|REGEX|..] == pattern;
    assert PREFIX <= s by { assert s[..|PREFIX|] == REGEX[..|PREFIX|]; }
  }

  /** The values each placeholder accepts. */
  lemma PlaceholdersAccept<N>(a: Json<N>, opts: Options, re: Compiler)
    ensures Equal(Resolve<N>(JStr(Ascii("${json-unit.ignore}")), re), a, opts)
    ensures Equal(Resolve<N>(JStr(Ascii("${json-unit.ignore-element}")), re), a, opts)
    ensures Equal(Resolve<N>(JStr(Ascii("${json-unit.any-string}")), re), a, opts) <==> a.JStr?
    ensures Equal(Resolve<N>(JStr(Ascii("${json-unit.any-number}")), re), a, opts) <==> a.JNum?
    ensures Equal(Resolve<N>(JStr(Ascii("${json-unit.any-boolean}")), re), a, opts) <==> a.JBool?
  {
    RulesOf(re, []);
    hide CompilePlaceholder, Ascii, Resolve, Equal;
    StandsFor(Ascii("${json-unit.ignore}"), Any, a, opts, re);
    StandsFor(Ascii("${json-unit.ignore-element}"), AnyOrAbsent, a, opts, re);
    StandsFor(Ascii("${json-unit.any-string}"), AnyString, a, opts, re);
    StandsFor(Ascii("${json-unit.any-number}"), AnyNumber, a, opts, re);
    StandsFor(Ascii("${json-unit.any-boolean}"), AnyBoolean, a, opts, re);
  }

  lemma StandsFor<N>(s: bytes, ph: Placeholder, a: Json<N>, opts: Options, re: Compiler)
    requires CompilePlaceholder(s, re) == Stands(ph)
    ensures Equal(Resolve<N>(JStr(s), re), a, opts) <==> PlaceholderMatches(ph, a)
  {
  }

  /** A pattern that does not compile refuses the operand; one that does accepts the strings it matches. */
  lemma PatternAccepts<N>(a: Json<N>, opts: Options, re: Compiler, pattern: bytes)
    ensures var s := JStr(Ascii("${json-unit.regex}") + pattern);
            && (Resolvable<N>(s, re) <==> re(pattern).Some?)
            && (re(pattern).Some? ==> (Equal(Resolve<N>(s, re), a, opts) <==> a.JStr? && re(pattern).value(a.s)))
  {
    RulesOf(re, pattern);
    hide CompilePlaceholder, Ascii, Resolve, Equal;
    if re(pattern).Some? { StandsFor(REGEX + pattern, Regex(re(pattern).value), a, opts, re); }
  }

  /** Of all expectations only the ignored element lets its member be missing. */
  lemma MissingMember<N>(e: Expected<N>, opts: Options, re: Compiler, key: bytes)
    ensures Equal(EObj(map[key := e]), JObj(map[]), opts) <==> e == Resolve(JStr(Ascii("${json-unit.ignore-element}")), re)
  {
    RulesOf(re, []);
    hide CompilePlaceholder, Ascii;
    assert key in map[key := e];
  }

  /** Renaming the numbers of a document confuses nothing but numbers. */
  lemma {:induction false} MapTellsApart<N(!new), M>(f: N -> M, a: Json<N>, b: Json<N>)
    requires forall x, y :: f(x) == f(y) ==> x == y
    ensures MapJson(f, a) == MapJson(f, b) <==> a == b
  {
    match a
    case JArr(elems) =>
      if b.JArr? && |elems| == |b.elems| {
        forall i | 0 <= i < |elems| ensures MapJson(f, elems[i]) == MapJson(f, b.elems[i]) <==> elems[i] == b.elems[i] {
          MapTellsApart(f, elems[i], b.elems[i]);
        }
        if MapJson(f, a) == MapJson(f, b) {
          forall i | 0 <= i < |elems| ensures elems[i] == b.elems[i] { assert MapJson(f, a).elems[i] == MapJson(f, b).elems[i]; }
        }
      } else if b.JArr? {
        assert |MapJson(f, a).elems| != |MapJson(f, b).elems|;
      }
    case JObj(members) =>
      if b.JObj? {
        assert MapJson(f, a).members.Keys == members.Keys && MapJson(f, b).members.Keys == b.members.Keys;
        forall k | k in members && k in b.members
          ensures MapJson(f, members[k]) == MapJson(f, b.members[k]) <==> members[k] == b.members[k]
        {
          MapTellsApart(f, members[k], b.members[k]);
        }
        if MapJson(f, a) == MapJson(f, b) {
          forall k | k in members ensures k in b.members && members[k] == b.members[k] {
            assert k in MapJson(f, a).members && MapJson(f, a).members[k] == MapJson(f, b).members[k];
          }
          assert members == b.members;
        }
      }
    case _ =>
  }

  /** With no option and no placeholder, the operand matches the documents that are the same up to spelling of numbers. */
  lemma LiteralOperand<F>(source: bytes, document: bytes, env: Reading<F>)
    requires Unmarshal(source, env.unquote).Some? && LiteralOnly(Unmarshal(source, env.unquote).value)
    ensures MatchesExactly(source, document, Options(false, false), env) <==>
            Unmarshal(document, env.unquote).Some?
            && MapJson(Exactly<F>(), Unmarshal(source, env.unquote).value) == MapJson(Exactly<F>(), Unmarshal(document, env.unquote).value)
  {
    hide Unmarshal, Equal, MapJson, MapExpected, Resolve, Resolvable, LiteralOnly, Exactly;
    var d, re := Unmarshal(source, env.unquote).value, env.compileRegex;
    LiteralResolves(d, re);
    ResolveNatural(Exactly<F>(), d, re);
    MapKeepsLiteral(Exactly<F>(), d);
    LiteralResolves(MapJson(Exactly<F>(), d), re);
    if Unmarshal(document, env.unquote).Some? {
      EqualInOrder(Resolve(MapJson(Exactly<F>(), d), re), MapJson(Exactly<F>(), Unmarshal(document, env.unquote).value), Options(false, false));
    }
  }

  lemma {:induction false} MapKeepsLiteral<N, M>(f: N -> M, d: Json<N>)
    requires LiteralOnly(d)
    ensures LiteralOnly(MapJson(f, d))
  {
    match d
    case JArr(elems) => forall i | 0 <= i < |elems| ensures LiteralOnly(MapJson(f, elems[i])) { MapKeepsLiteral(f, elems[i]); }
    case JObj(members) => forall k | k in members ensures LiteralOnly(MapJson(f, members[k])) { MapKeepsLiteral(f, members[k]); }
    case _ =>
  }
}
