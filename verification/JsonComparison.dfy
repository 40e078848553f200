/** Structural JSON comparison under ignoreArrayOrder and ignoreExtraElements. */
module JsonComparison {
  import opened Bytes
  import opened JsonGrammar
  import opened Pairing

  datatype Placeholder =
    | Any
    | AnyOrAbsent
    | AnyString
    | AnyNumber
    | AnyBoolean
    | Regex(matches: bytes -> bool)

  /** An expected document whose placeholder strings are resolved, over its numbers. */
  datatype Expected<!N> =
    | EPlaceholder(ph: Placeholder)
    | ENull
    | EBool(b: bool)
    | ENum(n: N)
    | EStr(s: bytes)
    | EArr(elems: seq<Expected<N>>)
    | EObj(members: map<bytes, Expected<N>>)

  datatype Options = Options(ignoreArrayOrder: bool, ignoreExtra: bool)

  predicate PlaceholderMatches<N>(p: Placeholder, actual: Json<N>) {
    match p
    case Any => true
    case AnyOrAbsent => true
    case AnyString => actual.JStr?
    case AnyNumber => actual.JNum?
    case AnyBoolean => actual.JBool?
    case Regex(matches) => actual.JStr? && matches(actual.s)
  }

  predicate Optional<N>(e: Expected<N>) { e.EPlaceholder? && e.ph.AnyOrAbsent? }

  predicate Cardinality(expected: nat, actual: nat, opts: Options) {
    expected <= actual && (opts.ignoreExtra || expected == actual)
  }

  /**
   What the comparison means. Without order, an array matches when each expected element
   can be given an actual element of its own that matches it.
   */
  ghost predicate Equal<N>(e: Expected<N>, a: Json<N>, opts: Options)
    decreases e
  {
    match e
    case EPlaceholder(p) => PlaceholderMatches(p, a)
    case ENull => a.JNull?
    case EBool(b) => a.JBool? && a.b == b
    case ENum(n) => a.JNum? && a.n == n
    case EStr(s) => a.JStr? && a.s == s
    case EObj(members) =>
      a.JObj?
      && (opts.ignoreExtra || forall k :: k in a.members ==> k in members)
      && forall k :: k in members ==>
           if k in a.members then Equal(members[k], a.members[k], opts) else Optional(members[k])
    case EArr(elems) =>
      a.JArr? && Cardinality(|elems|, |a.elems|, opts)
      && if opts.ignoreArrayOrder then
           exists p: seq<nat> :: |p| == |elems| && Injective(p)
             && forall i :: 0 <= i < |elems| ==> p[i] < |a.elems| && Equal(elems[i], a.elems[p[i]], opts)
         else forall i :: 0 <= i < |elems| ==> Equal(elems[i], a.elems[i], opts)
  }

  /** `p` gives each expected element a matching actual element of its own. */
  ghost predicate Assigns<N>(p: seq<nat>, elems: seq<Expected<N>>, actual: seq<Json<N>>, opts: Options) {
    |p| == |elems| && Injective(p)
    && forall i :: 0 <= i < |elems| ==> p[i] < |actual| && Equal(elems[i], actual[p[i]], opts)
  }

  lemma EqualUnordered<N>(elems: seq<Expected<N>>, actual: seq<Json<N>>, opts: Options)
    requires opts.ignoreArrayOrder
    ensures Equal(EArr(elems), JArr(actual), opts) <==>
            Cardinality(|elems|, |actual|, opts) && exists p :: Assigns(p, elems, actual, opts)
  {
    if Equal(EArr(elems), JArr(actual), opts) {
      var p: seq<nat> :| |p| == |elems| && Injective(p)
        && forall i :: 0 <= i < |elems| ==> p[i] < |actual| && Equal(elems[i], actual[p[i]], opts);
      assert Assigns(p, elems, actual, opts);
    }
    if exists p :: Assigns(p, elems, actual, opts) {
      var p :| Assigns(p, elems, actual, opts);
      assert |p| == |elems| && Injective(p)
        && forall i :: 0 <= i < |elems| ==> p[i] < |actual| && Equal(elems[i], actual[p[i]], opts);
    }
  }

  // ----- the code -----

  method JsonEqual<N(==)>(expected: Expected<N>, actual: Json<N>, opts: Options) returns (b: bool)
    ensures b == Equal(expected, actual, opts)
    decreases expected, 1
  {
    match expected
    case EPlaceholder(p) => return PlaceholderMatches(p, actual);
    case ENull => return actual.JNull?;
    case EBool(eb) => return actual.JBool? && actual.b == eb;
    case ENum(n) => return actual.JNum? && actual.n == n;
    case EStr(s) => return actual.JStr? && actual.s == s;
    case EObj(members) =>
      if !actual.JObj? { return false; }
      b := ObjectEqual(expected, actual, opts);
    case EArr(elems) =>
      if !actual.JArr? { return false; }
      if opts.ignoreArrayOrder {
        b := ArrayEqualUnordered(elems, actual.elems, opts);
        return;
      }
      if |actual.elems| < |elems| || (!opts.ignoreExtra && |actual.elems| != |elems|) { return false; }
      for i := 0 to |elems|
        invariant forall k :: 0 <= k < i ==> Equal(elems[k], actual.elems[k], opts)
      {
        var same := JsonEqual(elems[i], actual.elems[i], opts);
        if !same { return false; }
      }
      return true;
  }

  method ObjectEqual<N(==)>(expected: Expected<N>, actual: Json<N>, opts: Options) returns (b: bool)
    requires expected.EObj? && actual.JObj?
    ensures b == Equal(expected, actual, opts)
    decreases expected, 0
  {
    var members := expected.members;
    if !opts.ignoreExtra {
      var keys := actual.members.Keys;
      while keys != {}
        invariant keys <= actual.members.Keys
        invariant forall k :: k in actual.members && k !in keys ==> k in members
      {
        var k :| k in keys;
        if k !in members { return false; }
        keys := keys - {k};
      }
    }
    var keys := members.Keys;
    while keys != {}
      invariant keys <= members.Keys
      invariant forall k :: k in members && k !in keys ==>
                  if k in actual.members then Equal(members[k], actual.members[k], opts) else Optional(members[k])
    {
      var k :| k in keys;
      if k !in actual.members {
        if !Optional(members[k]) { return false; }
      } else {
        var same := JsonEqual(members[k], actual.members[k], opts);
        if !same { return false; }
      }
      keys := keys - {k};
    }
    return true;
  }

  /** Greedy first; only a greedy failure pays for the full matching. */
  method ArrayEqualUnordered<N(==)>(expected: seq<Expected<N>>, actual: seq<Json<N>>, opts: Options) returns (b: bool)
    requires opts.ignoreArrayOrder
    ensures b == Equal(EArr(expected), JArr(actual), opts)
    decreases expected, 2
  {
    hide Equal;
    EqualUnordered(expected, actual, opts);
    if |actual| < |expected| || (!opts.ignoreExtra && |actual| != |expected|) { return false; }

    var used := new bool[|actual|](_ => false);
    ghost var p: seq<nat> := [];
    for n := 0 to |expected|
      invariant |p| == n && Injective(p)
      invariant forall i :: 0 <= i < n ==> p[i] < |actual| && used[p[i]] && Equal(expected[i], actual[p[i]], opts)
    {
      var matched := false;
      var i := 0;
      while i < |actual|
        invariant 0 <= i <= |actual| && !matched
        invariant forall k :: 0 <= k < n ==> used[p[k]]
      {
        if !used[i] {
          var same := JsonEqual(expected[n], actual[i], opts);
          if same {
            used[i] := true;
            matched := true;
            break;
          }
        }
        i := i + 1;
      }
      if !matched {
        b := ArrayMatchable(expected, actual, opts);
        return;
      }
      p := p + [i];
    }
    assert Assigns(p, expected, actual, opts);
    return true;
  }

  /** The indexes of the actual elements an expected one matches, in order. */
  method Candidates<N(==)>(expected: Expected<N>, actual: seq<Json<N>>, opts: Options) returns (c: seq<nat>)
    ensures forall k :: 0 <= k < |c| ==> c[k] < |actual|
    ensures forall j :: 0 <= j < |actual| ==> (j in c <==> Equal(expected, actual[j], opts))
    decreases expected, 2
  {
    hide Equal;
    c := [];
    for j := 0 to |actual|
      invariant forall k :: 0 <= k < |c| ==> c[k] < j
      invariant forall h :: 0 <= h < j ==> (h in c <==> Equal(expected, actual[h], opts))
    {
      var same := JsonEqual(expected, actual[j], opts);
      if same { c := c + [j]; }
    }
  }

  method ArrayMatchable<N(==)>(expected: seq<Expected<N>>, actual: seq<Json<N>>, opts: Options) returns (b: bool)
    ensures b <==> exists p :: Assigns(p, expected, actual, opts)
    decreases expected, 1
  {
    hide Equal;
    var candidates: seq<seq<nat>> := [];
    for i := 0 to |expected|
      invariant |candidates| == i && Edges(candidates, |actual|)
      invariant forall k, j :: 0 <= k < i && 0 <= j < |actual| ==> (j in candidates[k] <==> Equal(expected[k], actual[j], opts))
    {
      var c := Candidates(expected[i], actual, opts);
      if |c| == 0 {
        assert forall j :: 0 <= j < |actual| ==> !Equal(expected[i], actual[j], opts);
        return false;
      }
      candidates := candidates + [c];
    }
    ghost var lefts;
    b, lefts := FindPairing(candidates, |actual|);
    PairingIsAssignment(candidates, expected, actual, opts);
  }

  lemma PairingIsAssignment<N>(candidates: seq<seq<nat>>, expected: seq<Expected<N>>, actual: seq<Json<N>>, opts: Options)
    requires |candidates| == |expected| && Edges(candidates, |actual|)
    requires forall k, j :: 0 <= k < |expected| && 0 <= j < |actual| ==> (j in candidates[k] <==> Equal(expected[k], actual[j], opts))
    ensures Pairable(candidates) <==> exists p :: Assigns(p, expected, actual, opts)
  {
    hide Equal;
    forall p | IsPairing(p, candidates) ensures Assigns(p, expected, actual, opts) {
      forall i | 0 <= i < |expected| ensures p[i] < |actual| {
        var k :| 0 <= k < |candidates[i]| && candidates[i][k] == p[i];
      }
    }
    forall p | Assigns(p, expected, actual, opts) ensures IsPairing(p, candidates) {
    }
  }

  // ----- order does not matter -----

  /** `at` lists each of its own indexes exactly once. */
  predicate UsesEach(at: seq<nat>) { Injective(at) && forall i :: 0 <= i < |at| ==> at[i] < |at| }

  lemma {:induction false} EveryIndexUsed(at: seq<nat>, k: nat)
    requires UsesEach(at) && k < |at|
    ensures k in at
  {
    if k !in at {
      var all := Below(|at|);
      BelowCard(|at|);
      ImageCard(all, at);
      var image := set i | i in all :: at[i];
      assert image <= all - {k};
      SubsetCard(image, all - {k});
    }
  }

  lemma Inverse(at: seq<nat>) returns (inv: seq<nat>)
    requires UsesEach(at)
    ensures |inv| == |at| && UsesEach(inv)
    ensures forall k :: 0 <= k < |at| ==> at[inv[k]] == k && inv[at[k]] == k
  {
    inv := [];
    while |inv| < |at|
      invariant |inv| <= |at|
      invariant forall k :: 0 <= k < |inv| ==> inv[k] < |at| && at[inv[k]] == k
    {
      EveryIndexUsed(at, |inv|);
      var i :| 0 <= i < |at| && at[i] == |inv|;
      inv := inv + [i];
    }
    forall k | 0 <= k < |at| ensures inv[at[k]] == k {
      assert at[inv[at[k]]] == at[k];
    }
  }

  /** `f` is `e` with its arrays, at every depth, in any other order. */
  ghost predicate Reordered<N>(e: Expected<N>, f: Expected<N>)
    decreases e
  {
    match e
    case EArr(elems) =>
      f.EArr? && |f.elems| == |elems|
      && exists at: seq<nat> :: |at| == |elems| && UsesEach(at)
           && forall i :: 0 <= i < |elems| ==> Reordered(elems[at[i]], f.elems[i])
    case EObj(members) =>
      f.EObj? && f.members.Keys == members.Keys
      && forall k :: k in members ==> Reordered(members[k], f.members[k])
    case _ => f == e
  }

  /** The same of an actual document. */
  ghost predicate ReorderedJson<N>(a: Json<N>, b: Json<N>)
    decreases a
  {
    match a
    case JArr(elems) =>
      b.JArr? && |b.elems| == |elems|
      && exists at: seq<nat> :: |at| == |elems| && UsesEach(at)
           && forall i :: 0 <= i < |elems| ==> ReorderedJson(elems[at[i]], b.elems[i])
    case JObj(members) =>
      b.JObj? && b.members.Keys == members.Keys
      && forall k :: k in members ==> ReorderedJson(members[k], b.members[k])
    case _ => b == a
  }

  lemma {:induction false} ReorderedBack<N>(e: Expected<N>, f: Expected<N>)
    requires Reordered(e, f)
    ensures Reordered(f, e)
    decreases e
  {
    match e
    case EArr(elems) =>
      var at: seq<nat> :| |at| == |elems| && UsesEach(at)
        && forall i :: 0 <= i < |elems| ==> Reordered(elems[at[i]], f.elems[i]);
      var inv := Inverse(at);
      forall i | 0 <= i < |elems| ensures Reordered(f.elems[inv[i]], elems[i]) {
        ReorderedBack(elems[at[inv[i]]], f.elems[inv[i]]);
      }
    case EObj(members) =>
      forall k | k in members ensures Reordered(f.members[k], members[k]) {
        ReorderedBack(members[k], f.members[k]);
      }
    case _ =>
  }

  lemma {:induction false} ReorderedJsonBack<N>(a: Json<N>, b: Json<N>)
    requires ReorderedJson(a, b)
    ensures ReorderedJson(b, a)
    decreases a
  {
    match a
    case JArr(elems) =>
      var at: seq<nat> :| |at| == |elems| && UsesEach(at)
        && forall i :: 0 <= i < |elems| ==> ReorderedJson(elems[at[i]], b.elems[i]);
      var inv := Inverse(at);
      forall i | 0 <= i < |elems| ensures ReorderedJson(b.elems[inv[i]], elems[i]) {
        ReorderedJsonBack(elems[at[inv[i]]], b.elems[inv[i]]);
      }
    case JObj(members) =>
      forall k | k in members ensures ReorderedJson(b.members[k], members[k]) {
        ReorderedJsonBack(members[k], b.members[k]);
      }
    case _ =>
  }

  lemma {:induction false} EqualReordered<N>(e: Expected<N>, f: Expected<N>, a: Json<N>, b: Json<N>, opts: Options)
    requires opts.ignoreArrayOrder && Reordered(e, f) && ReorderedJson(a, b) && Equal(e, a, opts)
    ensures Equal(f, b, opts)
    decreases e
  {
    match e
    case EArr(elems) =>
      ArrayReordered(elems, f.elems, a.elems, b.elems, opts);
    case EObj(members) =>
      forall k | k in members
        ensures if k in b.members then Equal(f.members[k], b.members[k], opts) else Optional(f.members[k])
      {
        if k in a.members {
          EqualReordered(members[k], f.members[k], a.members[k], b.members[k], opts);
        }
      }
    case _ =>
  }

  lemma OrderOf<N>(elems: seq<Expected<N>>, elems': seq<Expected<N>>) returns (at: seq<nat>)
    requires Reordered(EArr(elems), EArr(elems'))
    ensures |elems| == |elems'| == |at| && UsesEach(at)
    ensures forall i :: 0 <= i < |elems| ==> Reordered(elems[at[i]], elems'[i])
  {
    at :| |at| == |elems| && UsesEach(at) && forall i :: 0 <= i < |elems| ==> Reordered(elems[at[i]], elems'[i]);
  }

  lemma OrderOfJson<N>(elems: seq<Json<N>>, elems': seq<Json<N>>) returns (at: seq<nat>)
    requires ReorderedJson(JArr(elems), JArr(elems'))
    ensures |elems| == |elems'| == |at| && UsesEach(at)
    ensures forall i :: 0 <= i < |elems| ==> ReorderedJson(elems[at[i]], elems'[i])
  {
    at :| |at| == |elems| && UsesEach(at) && forall i :: 0 <= i < |elems| ==> ReorderedJson(elems[at[i]], elems'[i]);
  }

  lemma {:induction false} ArrayReordered<N>(elems: seq<Expected<N>>, elems': seq<Expected<N>>,
                                             actual: seq<Json<N>>, actual': seq<Json<N>>, opts: Options)
    requires opts.ignoreArrayOrder && Equal(EArr(elems), JArr(actual), opts)
    requires Reordered(EArr(elems), EArr(elems')) && ReorderedJson(JArr(actual), JArr(actual'))
    ensures Equal(EArr(elems'), JArr(actual'), opts)
    decreases elems
  {
    hide Equal, Reordered, ReorderedJson;
    EqualUnordered(elems, actual, opts);
    EqualUnordered(elems', actual', opts);
    var p :| Assigns(p, elems, actual, opts);
    var atE := OrderOf(elems, elems');
    var atA := OrderOfJson(actual, actual');
    var inv := Inverse(atA);
    var q := seq(|elems|, i requires 0 <= i < |elems| => inv[p[atE[i]]]);
    forall i, k | 0 <= i < k < |q| ensures q[i] != q[k] {
      assert p[atE[i]] != p[atE[k]];
      assert atA[q[i]] == p[atE[i]] && atA[q[k]] == p[atE[k]];
    }
    forall i | 0 <= i < |elems| ensures q[i] < |actual'| && Equal(elems'[i], actual'[q[i]], opts) {
      assert atA[q[i]] == p[atE[i]];
      EqualReordered(elems[atE[i]], elems'[i], actual[atA[q[i]]], actual'[q[i]], opts);
    }
    assert Assigns(q, elems', actual', opts);
  }

  /** Reordering the arrays of either document, at any depth, does not change the answer. */
  lemma OrderIrrelevant<N>(e: Expected<N>, f: Expected<N>, a: Json<N>, b: Json<N>, opts: Options)
    requires opts.ignoreArrayOrder && Reordered(e, f) && ReorderedJson(a, b)
    ensures Equal(e, a, opts) <==> Equal(f, b, opts)
  {
    if Equal(e, a, opts) { EqualReordered(e, f, a, b, opts); }
    if Equal(f, b, opts) {
      ReorderedBack(e, f);
      ReorderedJsonBack(a, b);
      EqualReordered(f, e, b, a, opts);
    }
  }
}
