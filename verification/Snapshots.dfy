/** The immutable snapshot: stubs in selection order, indexed, and the lookup over them. */
module Snapshots {
  import opened Bytes
  import opened PathTemplate
  import opened Stubs

  type Index = map<bytes, seq<nat>>

  const METHOD_SEP: bytes := [0]
  const ANY_METHOD: bytes := [65, 78, 89]
  const STARTED: bytes := [83, 116, 97, 114, 116, 101, 100]

  datatype Snapshot = Snapshot(epoch: nat, ordered: seq<Stub>, byFullURL: Index, byPath: Index, patterns: seq<nat>,
                               byID: map<bytes, Stub>, scenarios: map<bytes, set<bytes>>, settings: Option<nat>)

  // ----- the indexes, as functions of the ordered list -----

  function MethodKey(m: bytes): bytes { if m == [] then ANY_METHOD else m }

  function KeyOf(m: bytes, url: bytes): bytes { m + METHOD_SEP + url }

  function Append(index: Index, key: bytes, k: nat): Index {
    index[key := (if key in index then index[key] else []) + [k]]
  }

  function ListAt(index: Index, key: bytes): seq<nat> { if key in index then index[key] else [] }

  function FullIndex(s: seq<Stub>): Index {
    if s == [] then map[]
    else
      var n := |s| - 1;
      var m := FullIndex(s[..n]);
      if s[n].url.ExactFull? then Append(m, KeyOf(MethodKey(s[n].httpMethod), s[n].url.literal), n) else m
  }

  function PathIndex(s: seq<Stub>): Index {
    if s == [] then map[]
    else
      var n := |s| - 1;
      var m := PathIndex(s[..n]);
      if s[n].url.ExactPath? then Append(m, KeyOf(MethodKey(s[n].httpMethod), s[n].url.literal), n) else m
  }

  function PatternList(s: seq<Stub>): seq<nat> {
    if s == [] then []
    else
      var n := |s| - 1;
      PatternList(s[..n]) + if s[n].url.ExactFull? || s[n].url.ExactPath? then [] else [n]
  }

  function ById(s: seq<Stub>): map<bytes, Stub> {
    if s == [] then map[] else ById(s[..|s| - 1])[s[|s| - 1].id := s[|s| - 1]]
  }

  function States(ref: ScenarioRef): set<bytes> { {STARTED, ref.requiredState, ref.newState} - {[]} }

  /** Every state a scenario's stubs mention. */
  function ScenarioStates(s: seq<Stub>): map<bytes, set<bytes>> {
    if s == [] then map[]
    else
      var m := ScenarioStates(s[..|s| - 1]);
      match s[|s| - 1].scenario
      case None => m
      case Some(ref) => m[ref.name := (if ref.name in m then m[ref.name] else {}) + States(ref)]
  }

  function Indexed(ordered: seq<Stub>, epoch: nat, settings: Option<nat>): Snapshot {
    Snapshot(epoch, ordered, FullIndex(ordered), PathIndex(ordered), PatternList(ordered), ById(ordered),
             ScenarioStates(ordered), settings)
  }

  /** The snapshot a set of stubs makes. */
  function Build(stubs: seq<Stub>, epoch: nat, settings: Option<nat>): Snapshot {
    Indexed(Sorted(stubs), epoch, settings)
  }

  /** A snapshot is one that some build produced. */
  predicate Consistent(s: Snapshot) {
    InOrder(s.ordered) && s.byFullURL == FullIndex(s.ordered) && s.byPath == PathIndex(s.ordered)
    && s.patterns == PatternList(s.ordered)
  }

  lemma BuildConsistent(stubs: seq<Stub>, epoch: nat, settings: Option<nat>)
    ensures Consistent(Build(stubs, epoch, settings))
  {
    SortedInOrder(stubs);
  }

  // ----- building -----

  /** A library stable sort, for which an insertion sort stands in. */
  method SortSelectionOrder(stubs: seq<Stub>) returns (ordered: seq<Stub>)
    ensures ordered == Sorted(stubs)
  {
    ordered := [];
    for i := 0 to |stubs|
      invariant ordered == Sorted(stubs[..i])
    {
      assert stubs[..i + 1][..i] == stubs[..i];
      ordered := Insert(ordered, stubs[i]);
    }
    assert stubs[..|stubs|] == stubs;
  }

  method BuildSnapshot(stubs: seq<Stub>, epoch: nat) returns (s: Snapshot)
    ensures s == Build(stubs, epoch, None)
  {
    hide FullIndex, PathIndex, PatternList, ById, ScenarioStates;
    var ordered := SortSelectionOrder(stubs);
    var byFullURL: Index, byPath: Index, patterns: seq<nat> := map[], map[], [];
    var byID: map<bytes, Stub>, scenarios := map[], map[];
    NothingIndexed();
    for i := 0 to |ordered|
      invariant byFullURL == FullIndex(ordered[..i]) && byPath == PathIndex(ordered[..i])
      invariant patterns == PatternList(ordered[..i]) && byID == ById(ordered[..i])
      invariant scenarios == ScenarioStates(ordered[..i])
    {
      var cs := ordered[i];
      NextIndexed(ordered, i);
      byID := byID[cs.id := cs];
      var m := if cs.httpMethod == [] then ANY_METHOD else cs.httpMethod;
      match cs.url {
        case ExactFull(literal) =>
          byFullURL := Append(byFullURL, m + METHOD_SEP + literal, i);
        case ExactPath(literal) =>
          byPath := Append(byPath, m + METHOD_SEP + literal, i);
        case _ =>
          patterns := patterns + [i];
      }
      if cs.scenario.Some? {
        scenarios := RecordScenario(scenarios, cs.scenario.value);
      }
    }
    assert ordered[..|ordered|] == ordered;
    s := Snapshot(epoch, ordered, byFullURL, byPath, patterns, byID, scenarios, None);
  }

  method RecordScenario(scenarios: map<bytes, set<bytes>>, ref: ScenarioRef) returns (r: map<bytes, set<bytes>>)
    ensures r == scenarios[ref.name := (if ref.name in scenarios then scenarios[ref.name] else {}) + States(ref)]
  {
    var states := if ref.name in scenarios then scenarios[ref.name] else {};
    ghost var before := states;
    states := states + {STARTED};
    if ref.requiredState != [] { states := states + {ref.requiredState}; }
    if ref.newState != [] { states := states + {ref.newState}; }
    assert states == before + States(ref);
    r := scenarios[ref.name := states];
  }

  lemma NothingIndexed()
    ensures FullIndex([]) == map[] && PathIndex([]) == map[] && PatternList([]) == []
    ensures ById([]) == map[] && ScenarioStates([]) == map[]
  {
  }

  lemma NextIndexed(s: seq<Stub>, n: nat)
    requires n < |s|
    ensures FullIndex(s[..n + 1]) ==
            var m := FullIndex(s[..n]);
            if s[n].url.ExactFull? then Append(m, KeyOf(MethodKey(s[n].httpMethod), s[n].url.literal), n) else m
    ensures PathIndex(s[..n + 1]) ==
            var m := PathIndex(s[..n]);
            if s[n].url.ExactPath? then Append(m, KeyOf(MethodKey(s[n].httpMethod), s[n].url.literal), n) else m
    ensures PatternList(s[..n + 1]) == PatternList(s[..n]) + if s[n].url.ExactFull? || s[n].url.ExactPath? then [] else [n]
    ensures ById(s[..n + 1]) == ById(s[..n])[s[n].id := s[n]]
    ensures ScenarioStates(s[..n + 1]) ==
            var m := ScenarioStates(s[..n]);
            match s[n].scenario
            case None => m
            case Some(ref) => m[ref.name := (if ref.name in m then m[ref.name] else {}) + States(ref)]
  {
    assert s[..n + 1][..n] == s[..n];
  }

  // ----- what an index holds -----

  predicate Ascending(list: seq<nat>, bound: nat) {
    (forall i, k :: 0 <= i < k < |list| ==> list[i] < list[k]) && forall i :: 0 <= i < |list| ==> list[i] < bound
  }

  lemma {:induction false} FullIndexHolds(s: seq<Stub>, key: bytes)
    ensures Ascending(ListAt(FullIndex(s), key), |s|)
    ensures forall k :: 0 <= k < |s| ==>
              (k in ListAt(FullIndex(s), key) <==> s[k].url.ExactFull? && KeyOf(MethodKey(s[k].httpMethod), s[k].url.literal) == key)
  {
    hide KeyOf, MethodKey;
    if s != [] {
      var n := |s| - 1;
      FullIndexHolds(s[..n], key);
      var was := ListAt(FullIndex(s[..n]), key);
      assert ListAt(FullIndex(s), key) ==
        if s[n].url.ExactFull? && KeyOf(MethodKey(s[n].httpMethod), s[n].url.literal) == key then was + [n] else was;
      hide FullIndex, ListAt;
    }
  }

  lemma {:induction false} PathIndexHolds(s: seq<Stub>, key: bytes)
    ensures Ascending(ListAt(PathIndex(s), key), |s|)
    ensures forall k :: 0 <= k < |s| ==>
              (k in ListAt(PathIndex(s), key) <==> s[k].url.ExactPath? && KeyOf(MethodKey(s[k].httpMethod), s[k].url.literal) == key)
  {
    hide KeyOf, MethodKey;
    if s != [] {
      var n := |s| - 1;
      PathIndexHolds(s[..n], key);
      var was := ListAt(PathIndex(s[..n]), key);
      assert ListAt(PathIndex(s), key) ==
        if s[n].url.ExactPath? && KeyOf(MethodKey(s[n].httpMethod), s[n].url.literal) == key then was + [n] else was;
      hide PathIndex, ListAt;
    }
  }

  lemma {:induction false} PatternListHolds(s: seq<Stub>)
    ensures Ascending(PatternList(s), |s|)
    ensures forall k :: 0 <= k < |s| ==> (k in PatternList(s) <==> !s[k].url.ExactFull? && !s[k].url.ExactPath?)
  {
    if s != [] { PatternListHolds(s[..|s| - 1]); }
  }

  /** A stub is found under its id, and nothing under any other. */
  lemma {:induction false} IdsHold(s: seq<Stub>, id: bytes)
    requires DistinctIds(s)
    ensures id in ById(s) <==> exists k :: 0 <= k < |s| && s[k].id == id
    ensures forall k :: 0 <= k < |s| && s[k].id == id ==> ById(s)[id] == s[k]
  {
    if s != [] {
      var n := |s| - 1;
      IdsHold(s[..n], id);
      if k :| 0 <= k < n && s[k].id == id { assert s[..n][k].id == id; }
      assert forall k :: 0 <= k < n ==> s[..n][k] == s[k];
    }
  }

  /** The stub mentions the state of the scenario. */
  predicate Mentions(cs: Stub, name: bytes, state: bytes) {
    match cs.scenario
    case None => false
    case Some(ref) =>
      ref.name == name && state != [] &&
      (state == [83, 116, 97, 114, 116, 101, 100] || state == ref.requiredState || state == ref.newState)
  }

  /** A scenario is recorded with the states its stubs mention, Started among them. */
  lemma {:induction false} ScenarioStatesHold(s: seq<Stub>, name: bytes, state: bytes)
    ensures name in ScenarioStates(s) && state in ScenarioStates(s)[name] <==> exists k :: 0 <= k < |s| && Mentions(s[k], name, state)
  {
    if s != [] {
      var n := |s| - 1;
      ScenarioStatesHold(s[..n], name, state);
      if k :| 0 <= k < n && Mentions(s[k], name, state) { assert Mentions(s[..n][k], name, state); }
      if k :| 0 <= k < n && Mentions(s[..n][k], name, state) { assert Mentions(s[k], name, state); }
      if Mentions(s[n], name, state) { assert name in ScenarioStates(s); }
    }
  }

  // ----- what a stub accepts -----

  predicate AcceptsMethod(cs: Stub, m: bytes) { cs.httpMethod == [] || cs.httpMethod == m }

  predicate AcceptsUrl(cs: Stub, r: Request) {
    match cs.url
    case AnyUrl => true
    case ExactFull(literal) => literal == r.fullURL
    case ExactPath(literal) => literal == r.path
    case PatternFull(prefix, regex) => prefix <= r.fullURL && regex(r.fullURL)
    case PatternPath(prefix, regex) => prefix <= r.path && regex(r.path)
    case Templated(t) => Fits(t.segments, r.path)
  }

  /** A stub's own path variables for a request it fits. */
  function OwnVars(cs: Stub, r: Request): map<bytes, bytes> {
    if cs.url.Templated? && AcceptsUrl(cs, r) then BoundBy(cs.url.template.segments, Split(r.path[1..])) else map[]
  }

  function Lookup(vars: map<bytes, bytes>, name: bytes): Option<bytes> {
    if name in vars then Some(vars[name]) else None
  }

  predicate CheckHolds(c: Check, r: Request, vars: map<bytes, bytes>) {
    match c
    case OnRequest(test) => test(r)
    case OnPathVar(name, holds) => holds(Lookup(vars, name))
  }

  /** Every criterion of the stub holds, path parameters over the stub's own bindings. */
  predicate Accepts(cs: Stub, r: Request) {
    AcceptsMethod(cs, r.httpMethod) && AcceptsUrl(cs, r)
    && forall k :: 0 <= k < |cs.checks| ==> CheckHolds(cs.checks[k], r, OwnVars(cs, r))
  }

  // ----- what applying means, said without the code's own tests -----

  /** The URL criterion by its kind, and the path variables it binds. */
  ghost predicate UrlMet(cs: Stub, r: Request, vars: map<bytes, bytes>) {
    match cs.url
    case Templated(t) => vars.Keys == NamesOf(t.segments) && Covers(vars, t.segments) && r.path == Slashed(Fill(t.segments, vars))
    case AnyUrl => vars == map[]
    case ExactFull(literal) => vars == map[] && r.fullURL == literal
    case ExactPath(literal) => vars == map[] && r.path == literal
    case PatternFull(prefix, regex) => vars == map[] && regex(r.fullURL) && r.fullURL[..Least(|prefix|, |r.fullURL|)] == prefix
    case PatternPath(prefix, regex) => vars == map[] && regex(r.path) && r.path[..Least(|prefix|, |r.path|)] == prefix
  }

  function Least(a: nat, b: nat): nat { if a < b then a else b }

  ghost predicate CheckMet(c: Check, r: Request, vars: map<bytes, bytes>) {
    match c
    case OnRequest(test) => test(r)
    case OnPathVar(name, holds) => if name in vars then holds(Some(vars[name])) else holds(None)
  }

  /** Its own method or any, its URL for some values of its variables, its checks for those, and its scenario's gate. */
  ghost predicate Applies(cs: Stub, r: Request, gate: Option<Gate>) {
    && (cs.httpMethod == [] || cs.httpMethod == r.httpMethod)
    && (exists vars :: UrlMet(cs, r, vars) && forall k :: 0 <= k < |cs.checks| ==> CheckMet(cs.checks[k], r, vars))
    && (gate.Some? && cs.scenario.Some? ==> gate.value(cs.scenario.value))
  }

  lemma UrlMetIff(cs: Stub, r: Request, vars: map<bytes, bytes>)
    requires WellFormed(cs)
    ensures UrlMet(cs, r, vars) <==> AcceptsUrl(cs, r) && vars == OwnVars(cs, r)
  {
    hide Fits, BoundBy, Split, Covers, Fill, NamesOf, Slashed, IsTemplate;
    if cs.url.Templated? { MatchIsSubstitution(cs.url.template, r.path, vars); }
  }

  lemma SelectsIffApplies(cs: Stub, r: Request, gate: Option<Gate>)
    requires WellFormed(cs)
    ensures Selects(cs, r, gate) <==> Applies(cs, r, gate)
    ensures Accepts(cs, r) <==> Applies(cs, r, None)
  {
    hide AcceptsUrl, OwnVars, UrlMet;
    forall vars ensures UrlMet(cs, r, vars) <==> AcceptsUrl(cs, r) && vars == OwnVars(cs, r) { UrlMetIff(cs, r, vars); }
    var own := OwnVars(cs, r);
    assert forall k :: 0 <= k < |cs.checks| ==> (CheckMet(cs.checks[k], r, own) <==> CheckHolds(cs.checks[k], r, own));
    if Accepts(cs, r) { assert UrlMet(cs, r, own); }
  }

  /** The first of the list that applies, or none where none does. */
  ghost predicate FirstApplying(s: seq<Stub>, r: Request, gate: Option<Gate>, winner: Option<Stub>) {
    match winner
    case None => forall k :: 0 <= k < |s| ==> !Applies(s[k], r, gate)
    case Some(w) => exists k :: 0 <= k < |s| && s[k] == w && Applies(w, r, gate) && forall j :: 0 <= j < k ==> !Applies(s[j], r, gate)
  }

  lemma {:induction false} FirstSelectedApplies(s: seq<Stub>, r: Request, gate: Option<Gate>, winner: Option<Stub>)
    requires AllWellFormed(s)
    ensures winner == FirstSelected(s, r, gate) ==> FirstApplying(s, r, gate, winner)
    decreases s
  {
    hide Applies, Selects, WellFormed;
    if s != [] {
      SelectsIffApplies(s[0], r, gate);
      FirstSelectedApplies(s[1..], r, gate, winner);
      if winner == FirstSelected(s, r, gate) && !Selects(s[0], r, gate) {
        if winner.Some? {
          var k :| 0 <= k < |s| - 1 && s[1..][k] == winner.value && forall j :: 0 <= j < k ==> !Applies(s[1..][j], r, gate);
          forall j | 0 <= j < k + 1 ensures !Applies(s[j], r, gate) { if j > 0 { assert !Applies(s[1..][j - 1], r, gate); } }
          assert s[k + 1] == winner.value;
        } else {
          forall j | 0 <= j < |s| ensures !Applies(s[j], r, gate) { if j > 0 { assert !Applies(s[1..][j - 1], r, gate); } }
        }
      }
    }
  }

  /**
   Over the stubs a snapshot is built from: none is served exactly when none applies, and the
   one served applies and has the least priority number of those that do, the newest of them.
   */
  lemma ServedIffApplies(stubs: seq<Stub>, epoch: nat, settings: Option<nat>, r: Request, gate: Option<Gate>)
    requires AllWellFormed(stubs)
    ensures var w := FirstSelected(Build(stubs, epoch, settings).ordered, r, gate);
            && (w == None <==> forall x :: x in stubs ==> !Applies(x, r, gate))
            && (w.Some? ==> w.value in stubs && Applies(w.value, r, gate))
            && (w.Some? ==> forall x :: x in stubs && Applies(x, r, gate) ==>
                  w.value.priority < x.priority || (w.value.priority == x.priority && w.value.seqNo >= x.seqNo))
  {
    hide Applies, Selects, WellFormed;
    var s := Sorted(stubs);
    var w := FirstSelected(s, r, gate);
    SortedContents(stubs);
    forall x | x in stubs ensures WellFormed(x) && (Selects(x, r, gate) <==> Applies(x, r, gate)) {
      SelectsIffApplies(x, r, gate);
    }
    forall x | x in stubs && Applies(x, r, gate)
      ensures w.Some? && w.value in stubs && Applies(w.value, r, gate)
              && (w.value.priority < x.priority || (w.value.priority == x.priority && w.value.seqNo >= x.seqNo))
    {
      SelectedComesFirst(stubs, r, gate, x);
    }
    if w.Some? {
      var k := SelectedAt(s, r, gate);
      assert s[k] in multiset(s);
    }
  }

  lemma {:induction false} SelectedAt(s: seq<Stub>, r: Request, gate: Option<Gate>) returns (k: nat)
    requires FirstSelected(s, r, gate).Some?
    ensures k < |s| && Some(s[k]) == FirstSelected(s, r, gate) && Selects(s[k], r, gate)
  {
    if Selects(s[0], r, gate) {
      k := 0;
    } else {
      k := SelectedAt(s[1..], r, gate);
      k := k + 1;
    }
  }

  // ----- the path variables a lookup leaves behind -----

  /** What a candidate's URL criterion leaves bound, whether or not it is accepted. */
  function LeftBy(cs: Stub, r: Request): map<bytes, bytes> {
    if cs.url.Templated? && cs.url.template.literalPrefix <= r.path then BoundOn(cs.url.template.segments, r.path) else map[]
  }

  /** Only a template candidate whose method agrees clears what was bound before it. */
  predicate Rebinds(cs: Stub, r: Request) { cs.url.Templated? && AcceptsMethod(cs, r.httpMethod) }

  function VarsAfter(cs: Stub, r: Request, before: map<bytes, bytes>): map<bytes, bytes> {
    if Rebinds(cs, r) then LeftBy(cs, r) else before
  }

  function VarsThrough(s: seq<Stub>, r: Request, before: map<bytes, bytes>): map<bytes, bytes> {
    if s == [] then before else VarsAfter(s[|s| - 1], r, VarsThrough(s[..|s| - 1], r, before))
  }

  /** The last template stub of the list whose method agrees with the request. */
  predicate LastRebinding(s: seq<Stub>, r: Request, k: nat) {
    k < |s| && Rebinds(s[k], r) && forall j :: k < j < |s| ==> !Rebinds(s[j], r)
  }

  /** From nothing bound, nothing is left bound unless the last of those binds something. */
  lemma {:induction false} NothingLeftIff(s: seq<Stub>, r: Request)
    ensures VarsThrough(s, r, map[]) == map[] <==> forall k: nat :: LastRebinding(s, r, k) ==> LeftBy(s[k], r) == map[]
  {
    hide LeftBy, Rebinds;
    if s != [] {
      var n := |s| - 1;
      NothingLeftIff(s[..n], r);
      if Rebinds(s[n], r) {
        assert LastRebinding(s, r, n);
      } else {
        forall k: nat ensures LastRebinding(s, r, k) <==> LastRebinding(s[..n], r, k) {}
      }
    }
  }

  lemma {:induction false} VarsUnmoved(s: seq<Stub>, r: Request, before: map<bytes, bytes>, i: nat, k: nat)
    requires i <= k <= |s| && forall j :: i <= j < k ==> !Rebinds(s[j], r)
    ensures VarsThrough(s[..k], r, before) == VarsThrough(s[..i], r, before)
  {
    if i < k {
      VarsUnmoved(s, r, before, i, k - 1);
      VarsNext(s, r, before, k - 1);
    }
  }

  lemma VarsNext(s: seq<Stub>, r: Request, before: map<bytes, bytes>, n: nat)
    requires n < |s|
    ensures VarsThrough(s[..n + 1], r, before) == VarsAfter(s[n], r, VarsThrough(s[..n], r, before))
  {
    assert s[..n + 1][..n] == s[..n];
  }

  lemma OwnIsLeft(cs: Stub, r: Request)
    requires WellFormed(cs) && cs.url.Templated? && AcceptsUrl(cs, r)
    ensures LeftBy(cs, r) == OwnVars(cs, r)
  {
    hide Fits, BoundBy, BoundOn, Prefix;
    TemplateParts(cs.url.template);
    PrefixNeverRejects(cs.url.template.segments, r.path);
    BoundOnFit(cs.url.template.segments, r.path);
  }

  type Gate = ScenarioRef -> bool

  predicate Selects(cs: Stub, r: Request, gate: Option<Gate>) {
    Accepts(cs, r) && (cs.scenario.None? || gate.None? || gate.value(cs.scenario.value))
  }

  /** The linear scan: the first stub in selection order that accepts the request. */
  function FirstSelected(s: seq<Stub>, r: Request, gate: Option<Gate>): Option<Stub> {
    if s == [] then None
    else if Selects(s[0], r, gate) then Some(s[0])
    else FirstSelected(s[1..], r, gate)
  }

  /** How far the scan reads: up to the stub selected, or to the end. */
  function ScanLength(s: seq<Stub>, r: Request, gate: Option<Gate>): (n: nat)
    ensures n <= |s|
  {
    if s == [] then 0 else if Selects(s[0], r, gate) then 1 else 1 + ScanLength(s[1..], r, gate)
  }

  lemma {:induction false} FirstSelectedAt(s: seq<Stub>, r: Request, gate: Option<Gate>, k: nat)
    requires k < |s| && Selects(s[k], r, gate) && forall j :: 0 <= j < k ==> !Selects(s[j], r, gate)
    ensures FirstSelected(s, r, gate) == Some(s[k]) && ScanLength(s, r, gate) == k + 1
  {
    if k > 0 { FirstSelectedAt(s[1..], r, gate, k - 1); }
  }

  lemma {:induction false} NoneSelected(s: seq<Stub>, r: Request, gate: Option<Gate>)
    requires forall j :: 0 <= j < |s| ==> !Selects(s[j], r, gate)
    ensures FirstSelected(s, r, gate) == None && ScanLength(s, r, gate) == |s|
  {
    if s != [] { NoneSelected(s[1..], r, gate); }
  }

  /** The answer is the stub with the lowest priority number that applies, the newest of those. */
  lemma SelectedComesFirst(stubs: seq<Stub>, r: Request, gate: Option<Gate>, x: Stub)
    requires x in stubs && Selects(x, r, gate)
    ensures var w := FirstSelected(Sorted(stubs), r, gate);
            && w.Some? && w.value in stubs && Selects(w.value, r, gate)
            && (w.value.priority < x.priority || (w.value.priority == x.priority && w.value.seqNo >= x.seqNo))
  {
    hide Selects;
    var s := Sorted(stubs);
    SortedInOrder(stubs);
    SortedContents(stubs);
    assert x in multiset(s);
    var k :| 0 <= k < |s| && s[k] == x;
    var n := FirstAt(s, r, gate, k);
    assert s[n] in multiset(stubs);
  }

  lemma {:induction false} FirstAt(s: seq<Stub>, r: Request, gate: Option<Gate>, k: nat) returns (n: nat)
    requires k < |s| && Selects(s[k], r, gate)
    ensures n <= k && Selects(s[n], r, gate) && FirstSelected(s, r, gate) == Some(s[n])
  {
    if Selects(s[0], r, gate) {
      n := 0;
    } else {
      n := FirstAt(s[1..], r, gate, k - 1);
      n := n + 1;
    }
  }

  // ----- matching -----

  /** The pooled working set of one request. */
  class ParsedRequest {
    const request: Request
    const pathVars: PathVars
    var keyBuf: bytes

    constructor (r: Request)
      ensures request == r && pathVars.vars == map[] && fresh(pathVars)
    {
      request := r;
      pathVars := new PathVars();
      keyBuf := [];
    }

    /** Probes an index, assembling the key in the request's own buffer. */
    method IndexLookup(index: Index, m: bytes, url: bytes) returns (list: seq<nat>)
      modifies this`keyBuf
      ensures list == ListAt(index, KeyOf(m, url))
    {
      keyBuf := m;
      keyBuf := keyBuf + METHOD_SEP;
      keyBuf := keyBuf + url;
      list := if keyBuf in index then index[keyBuf] else [];
    }
  }

  method MatchURL(cs: Stub, req: ParsedRequest) returns (ok: bool)
    requires WellFormed(cs)
    modifies req.pathVars
    ensures ok == AcceptsUrl(cs, req.request)
    ensures req.pathVars.vars == old(req.pathVars.vars) + LeftBy(cs, req.request)
  {
    hide BoundBy, BoundOn, Fits, IsTemplate, Prefix;
    var r := req.request;
    match cs.url
    case AnyUrl => return true;
    case ExactFull(literal) => return literal == r.fullURL;
    case ExactPath(literal) => return literal == r.path;
    case PatternFull(prefix, regex) => return prefix <= r.fullURL && regex(r.fullURL);
    case PatternPath(prefix, regex) => return prefix <= r.path && regex(r.path);
    case Templated(t) =>
      TemplateParts(t);
      if !(t.literalPrefix <= r.path) {
        if Fits(t.segments, r.path) { PrefixNeverRejects(t.segments, r.path); }
        return false;
      }
      ok := PathTemplate.Match(t.segments, r.path, req.pathVars);
  }

  lemma TemplateParts(t: Template)
    requires IsTemplate(t)
    ensures t.segments != [] && t.literalPrefix == Prefix(t.segments)
  {
  }

  /** Every criterion, the bindings of an earlier candidate cleared first. */
  method FullMatch(cs: Stub, req: ParsedRequest) returns (ok: bool)
    requires WellFormed(cs)
    modifies req.pathVars
    ensures ok == Accepts(cs, req.request) == Applies(cs, req.request, None)
    ensures req.pathVars.vars == VarsAfter(cs, req.request, old(req.pathVars.vars))
    ensures cs.url.Templated? && ok ==> req.pathVars.vars == OwnVars(cs, req.request)
  {
    hide AcceptsUrl, OwnVars, LeftBy, CheckHolds, IsTemplate, WellFormed, Applies;
    var r := req.request;
    SelectsIffApplies(cs, r, None);
    if !AcceptsMethod(cs, r.httpMethod) { return false; }
    ghost var before := req.pathVars.vars;
    if cs.url.Templated? { req.pathVars.Clear(); }
    var fits := MatchURL(cs, req);
    assert req.pathVars.vars == VarsAfter(cs, r, before) by { LaidOver(cs, r, before); }
    if !fits { return false; }
    if cs.url.Templated? { OwnIsLeft(cs, r); }
    for k := 0 to |cs.checks|
      invariant req.pathVars.vars == VarsAfter(cs, r, before)
      invariant forall h :: 0 <= h < k ==> CheckHolds(cs.checks[h], r, OwnVars(cs, r))
    {
      var c := cs.checks[k];
      CheckReads(cs, k, r, req.pathVars.vars);
      if !CheckHolds(c, r, req.pathVars.vars) { return false; }
    }
    return true;
  }

  lemma LaidOver(cs: Stub, r: Request, before: map<bytes, bytes>)
    ensures map[] + LeftBy(cs, r) == LeftBy(cs, r)
    ensures !cs.url.Templated? ==> before + LeftBy(cs, r) == before
  {
    hide BoundOn;
  }

  lemma CheckReads(cs: Stub, k: nat, r: Request, vars: map<bytes, bytes>)
    requires WellFormed(cs) && k < |cs.checks| && (cs.url.Templated? ==> vars == OwnVars(cs, r))
    ensures CheckHolds(cs.checks[k], r, vars) == CheckHolds(cs.checks[k], r, OwnVars(cs, r))
  {
  }

  const LISTS: nat := 5

  /** The two URL indexes under the request's method and under any, and the patterns. */
  predicate CandidateLists(s: Snapshot, r: Request, lists: seq<seq<nat>>) {
    && |lists| == LISTS && lists[4] == s.patterns
    && lists[0] == ListAt(s.byFullURL, KeyOf(r.httpMethod, r.fullURL))
    && lists[1] == ListAt(s.byFullURL, KeyOf(ANY_METHOD, r.fullURL))
    && lists[2] == ListAt(s.byPath, KeyOf(r.httpMethod, r.path))
    && lists[3] == ListAt(s.byPath, KeyOf(ANY_METHOD, r.path))
  }

  /** The five candidate lists reach every stub that accepts the request. */
  lemma Reached(s: Snapshot, r: Request, lists: seq<seq<nat>>, k: nat)
    requires Consistent(s) && k < |s.ordered| && Accepts(s.ordered[k], r)
    requires CandidateLists(s, r, lists)
    ensures k in lists[0] || k in lists[1] || k in lists[2] || k in lists[3] || k in lists[4]
  {
    FullIndexHolds(s.ordered, KeyOf(MethodKey(s.ordered[k].httpMethod), r.fullURL));
    PathIndexHolds(s.ordered, KeyOf(MethodKey(s.ordered[k].httpMethod), r.path));
    PatternListHolds(s.ordered);
  }

  /**
   Where the merge stands: every stub below `done` that a list holds was tried, none of the
   pattern list from there on, and nothing before the one last tried is left in any list.
   */
  ghost predicate Followed(lists: seq<seq<nat>>, cursor: seq<nat>, done: nat)
    requires |lists| == |cursor| == LISTS
  {
    && (forall i :: 0 <= i < LISTS ==> cursor[i] <= |lists[i]|)
    && (forall i :: 0 <= i < LISTS && cursor[i] < |lists[i]| ==> done <= lists[i][cursor[i]] + 1)
    && (cursor[4] < |lists[4]| ==> done <= lists[4][cursor[4]])
    && (forall k :: 0 <= k < cursor[4] ==> lists[4][k] < done)
  }

  /** No template stub lies between what was tried and the next candidate. */
  lemma NoTemplateBetween(s: Snapshot, r: Request, lists: seq<seq<nat>>, cursor: seq<nat>, done: nat, next: nat)
    requires Consistent(s) && |lists| == |cursor| == LISTS && lists[4] == s.patterns && Followed(lists, cursor, done)
    requires next <= |s.ordered| && (cursor[4] < |lists[4]| ==> next <= lists[4][cursor[4]])
    ensures forall j :: done <= j < next ==> !Rebinds(s.ordered[j], r)
  {
    PatternListHolds(s.ordered);
    forall j | done <= j < next ensures !s.ordered[j].url.Templated? {
      if s.ordered[j].url.Templated? { StillAhead(lists[4], cursor[4], done, next, j); }
    }
  }

  lemma StillAhead(list: seq<nat>, cursor: nat, done: nat, next: nat, j: nat)
    requires j in list && done <= j && cursor <= |list| && forall i, k :: 0 <= i < k < |list| ==> list[i] < list[k]
    requires (forall k :: 0 <= k < cursor ==> list[k] < done) && (cursor < |list| ==> next <= list[cursor])
    ensures cursor < |list| && next <= j
  {
    var k :| 0 <= k < |list| && list[k] == j;
    assert k >= cursor;
  }

  /** The first four lists hold exact stubs, the last one none. */
  ghost predicate Sorts(s: Snapshot, lists: seq<seq<nat>>) {
    |lists| == LISTS
    && (forall i :: 0 <= i < LISTS ==> Ascending(lists[i], |s.ordered|))
    && (forall i, k :: 0 <= i < 4 && 0 <= k < |lists[i]| && lists[i][k] < |s.ordered| ==> IsExact(s.ordered[lists[i][k]]))
    && (forall k :: 0 <= k < |lists[4]| && lists[4][k] < |s.ordered| ==> !IsExact(s.ordered[lists[4][k]]))
  }

  predicate IsExact(cs: Stub) { cs.url.ExactFull? || cs.url.ExactPath? }

  lemma ListsSort(s: Snapshot, r: Request, lists: seq<seq<nat>>)
    requires Consistent(s) && CandidateLists(s, r, lists)
    ensures Sorts(s, lists)
  {
    hide ListAt, KeyOf, InOrder;
    FullIndexHolds(s.ordered, KeyOf(r.httpMethod, r.fullURL));
    FullIndexHolds(s.ordered, KeyOf(ANY_METHOD, r.fullURL));
    PathIndexHolds(s.ordered, KeyOf(r.httpMethod, r.path));
    PathIndexHolds(s.ordered, KeyOf(ANY_METHOD, r.path));
    PatternListHolds(s.ordered);
    forall i, k | 0 <= i < 4 && 0 <= k < |lists[i]| && lists[i][k] < |s.ordered| ensures IsExact(s.ordered[lists[i][k]]) {
      assert lists[i][k] in lists[i];
    }
    forall k | 0 <= k < |lists[4]| && lists[4][k] < |s.ordered| ensures !IsExact(s.ordered[lists[4][k]]) {
      assert lists[4][k] in lists[4];
    }
  }

  /** The next candidate is new, or an exact stub met again in another list. */
  lemma NextFollowed(s: Snapshot, r: Request, lists: seq<seq<nat>>, cursor: seq<nat>, done: nat, from: nat, next: nat)
    requires |lists| == |cursor| == LISTS && Sorts(s, lists) && Followed(lists, cursor, done) && from < LISTS
    requires IsLeastHead(lists, cursor, from, next) && next < |s.ordered|
    ensures done <= next + 1 && (next < done ==> !Rebinds(s.ordered[next], r))
    ensures Followed(lists, cursor[from := cursor[from] + 1], next + 1)
  {
    assert IsExact(s.ordered[next]) <==> from != 4;
    var after := cursor[from := cursor[from] + 1];
    forall i | 0 <= i < LISTS && after[i] < |lists[i]| ensures next + 1 <= lists[i][after[i]] + 1 {
      if i == from { assert lists[i][cursor[i]] < lists[i][after[i]]; }
    }
    if from != 4 && cursor[4] < |lists[4]| { assert lists[4][cursor[4]] != next; }
  }

  /** One candidate of the merge, seen as the next step of the scan. */
  lemma MergeStep(s: Snapshot, r: Request, lists: seq<seq<nat>>, cursor: seq<nat>, done: nat, from: nat, next: nat,
                  before: map<bytes, bytes>)
    requires Consistent(s) && |lists| == |cursor| == LISTS && CandidateLists(s, r, lists)
    requires Sorts(s, lists) && Followed(lists, cursor, done) && from < LISTS && done <= |s.ordered|
    requires IsLeastHead(lists, cursor, from, next) && next < |s.ordered|
    ensures VarsThrough(s.ordered[..next + 1], r, before) ==
            VarsAfter(s.ordered[next], r, VarsThrough(s.ordered[..done], r, before))
    ensures Followed(lists, cursor[from := cursor[from] + 1], next + 1)
  {
    hide VarsThrough, VarsAfter, Rebinds, ListAt, KeyOf;
    NextFollowed(s, r, lists, cursor, done, from, next);
    hide Followed;
    NoTemplateBetween(s, r, lists, cursor, done, next);
    VarsReached(s.ordered, r, before, done, next);
  }

  lemma MergeEnd(s: Snapshot, r: Request, lists: seq<seq<nat>>, cursor: seq<nat>, done: nat, before: map<bytes, bytes>)
    requires Consistent(s) && |lists| == |cursor| == LISTS && CandidateLists(s, r, lists) && Followed(lists, cursor, done)
    requires done <= |s.ordered| && cursor[4] >= |lists[4]|
    ensures VarsThrough(s.ordered[..|s.ordered|], r, before) == VarsThrough(s.ordered[..done], r, before)
  {
    hide VarsThrough, Rebinds, ListAt, KeyOf;
    NoTemplateBetween(s, r, lists, cursor, done, |s.ordered|);
    VarsUnmoved(s.ordered, r, before, done, |s.ordered|);
  }

  /** Everything a list holds before its cursor was tried, and not selected. */
  ghost predicate Tried(list: seq<nat>, cursor: nat, s: seq<Stub>, r: Request, gate: Option<Gate>) {
    cursor <= |list| && Ascending(list, |s|) && forall k :: 0 <= k < cursor ==> !Selects(s[list[k]], r, gate)
  }

  /**
   The lists merged lazily in ascending order: the answer is the linear scan's. A winner that
   is a template leaves its own path variables bound, and nothing else.
   */
  method Match(s: Snapshot, req: ParsedRequest, gate: Option<Gate>) returns (winner: Option<Stub>)
    requires Consistent(s) && AllWellFormed(s.ordered)
    modifies req, req.pathVars
    ensures winner == FirstSelected(s.ordered, req.request, gate) && FirstApplying(s.ordered, req.request, gate, winner)
    ensures req.pathVars.vars ==
            VarsThrough(s.ordered[..ScanLength(s.ordered, req.request, gate)], req.request, old(req.pathVars.vars))
    ensures winner.Some? && winner.value.url.Templated? ==> req.pathVars.vars == OwnVars(winner.value, req.request)
  {
    hide Accepts, Selects, OwnVars, WellFormed, ListAt, KeyOf, Consistent, Merging, FirstSelected, Remaining, VarsAfter, VarsThrough,
      ScanLength, IsLeastHead, Exhausted, FirstApplying, Applies;
    FirstSelectedApplies(s.ordered, req.request, gate, FirstSelected(s.ordered, req.request, gate));
    ghost var before := req.pathVars.vars;
    NothingTried(s.ordered, req.request, before);
    if |s.ordered| == 0 { NoneSelected(s.ordered, req.request, gate); return None; }
    var r := req.request;
    var l0 := req.IndexLookup(s.byFullURL, r.httpMethod, r.fullURL);
    var l1 := req.IndexLookup(s.byFullURL, ANY_METHOD, r.fullURL);
    var l2 := req.IndexLookup(s.byPath, r.httpMethod, r.path);
    var l3 := req.IndexLookup(s.byPath, ANY_METHOD, r.path);
    var lists := [l0, l1, l2, l3, s.patterns];
    var cursor := new nat[5](_ => 0);
    MergeStarts(s, r, gate, lists, cursor[..]);
    hide CandidateLists, AllWellFormed;
    ghost var done: nat := 0;
    while true
      invariant fresh(cursor) && cursor.Length == LISTS && done <= |s.ordered|
      invariant Merging(s, r, gate, lists, cursor[..], done)
      invariant req.pathVars.vars == VarsThrough(s.ordered[..done], r, before)
      decreases Remaining(lists, cursor[..])
    {
      var next, from := LeastHead(lists, cursor);
      if from == -1 { break; }
      ghost var was := cursor[..];
      MergePicks(s, r, gate, lists, was, done, from, next, before);
      cursor[from] := cursor[from] + 1;
      assert cursor[..] == was[from := was[from] + 1];

      var cs := s.ordered[next];
      AllWellFormedAt(s.ordered, next);
      var accepted := FullMatch(cs, req);
      SelectsIf(cs, r, gate);
      if !accepted || (cs.scenario.Some? && gate.Some? && !gate.value(cs.scenario.value)) {
        MergeMoves(s, r, gate, lists, was, done, from, next);
        done := next + 1;
        continue;
      }
      MergeWins(s, r, gate, lists, was, done, from, next);
      return Some(cs);
    }
    MergeEnds(s, r, gate, lists, cursor[..], done, before);
    return None;
  }

  lemma AllWellFormedAt(s: seq<Stub>, k: nat)
    requires AllWellFormed(s) && k < |s|
    ensures WellFormed(s[k])
  {
  }

  /** The state of the merge between two candidates. */
  ghost predicate Merging(s: Snapshot, r: Request, gate: Option<Gate>, lists: seq<seq<nat>>, cursor: seq<nat>, done: nat) {
    && CandidateLists(s, r, lists) && Sorts(s, lists) && |cursor| == LISTS && done <= |s.ordered|
    && Followed(lists, cursor, done) && forall i :: 0 <= i < LISTS ==> Tried(lists[i], cursor[i], s.ordered, r, gate)
  }

  lemma MergeStarts(s: Snapshot, r: Request, gate: Option<Gate>, lists: seq<seq<nat>>, cursor: seq<nat>)
    requires Consistent(s) && CandidateLists(s, r, lists)
    requires |cursor| == LISTS && forall i :: 0 <= i < LISTS ==> cursor[i] == 0
    ensures Merging(s, r, gate, lists, cursor, 0)
  {
    ListsSort(s, r, lists);
    hide Consistent, CandidateLists, ListAt, KeyOf, Selects, IsExact, Ascending, Sorts;
    FollowedStart(lists, cursor);
    forall i | 0 <= i < LISTS ensures Tried(lists[i], cursor[i], s.ordered, r, gate) {
      SortsAt(s, lists, i);
    }
  }

  lemma FollowedStart(lists: seq<seq<nat>>, cursor: seq<nat>)
    requires |lists| == |cursor| == LISTS && forall i :: 0 <= i < LISTS ==> cursor[i] == 0
    ensures Followed(lists, cursor, 0)
  {
  }

  lemma SortsAt(s: Snapshot, lists: seq<seq<nat>>, i: nat)
    requires Sorts(s, lists) && i < LISTS
    ensures Ascending(lists[i], |s.ordered|)
  {
  }

  lemma MergePicks(s: Snapshot, r: Request, gate: Option<Gate>, lists: seq<seq<nat>>, cursor: seq<nat>, done: nat, from: nat,
                   next: nat, before: map<bytes, bytes>)
    requires Consistent(s) && |lists| == |cursor| == LISTS && done <= |s.ordered|
    requires Merging(s, r, gate, lists, cursor, done) && IsLeastHead(lists, cursor, from, next)
    ensures from < LISTS && cursor[from] < |lists[from]| && next < |s.ordered|
    ensures VarsThrough(s.ordered[..next + 1], r, before) == VarsAfter(s.ordered[next], r, VarsThrough(s.ordered[..done], r, before))
    ensures Remaining(lists, cursor[from := cursor[from] + 1]) < Remaining(lists, cursor)
  {
    hide Consistent, Selects, VarsAfter, VarsThrough, Rebinds, Followed, Sorts, Remaining, ListAt, KeyOf;
    assert Tried(lists[from], cursor[from], s.ordered, r, gate);
    Bounded(lists[from], cursor[from], s.ordered, r, gate);
    MergeStep(s, r, lists, cursor, done, from, next, before);
    Shrinks(lists, cursor, from);
  }

  lemma MergeMoves(s: Snapshot, r: Request, gate: Option<Gate>, lists: seq<seq<nat>>, cursor: seq<nat>, done: nat, from: nat, next: nat)
    requires |lists| == |cursor| == LISTS && from < LISTS && cursor[from] < |lists[from]| && next < |s.ordered|
    requires Merging(s, r, gate, lists, cursor, done) && IsLeastHead(lists, cursor, from, next) && !Selects(s.ordered[next], r, gate)
    ensures Merging(s, r, gate, lists, cursor[from := cursor[from] + 1], next + 1)
  {
    hide Selects, Followed, Sorts, Tried, CandidateLists, Rebinds;
    NextFollowed(s, r, lists, cursor, done, from, next);
    TriedOne(lists[from], cursor[from], s.ordered, r, gate);
  }

  lemma MergeWins(s: Snapshot, r: Request, gate: Option<Gate>, lists: seq<seq<nat>>, cursor: seq<nat>, done: nat, from: nat, next: nat)
    requires Consistent(s) && |lists| == |cursor| == LISTS && next < |s.ordered|
    requires Merging(s, r, gate, lists, cursor, done) && IsLeastHead(lists, cursor, from, next) && Selects(s.ordered[next], r, gate)
    ensures FirstSelected(s.ordered, r, gate) == Some(s.ordered[next]) && ScanLength(s.ordered, r, gate) == next + 1
  {
    hide Selects, Followed, Sorts, Tried, CandidateLists, Consistent;
    Unselected(s, r, lists, cursor, gate, next);
    FirstSelectedAt(s.ordered, r, gate, next);
  }

  lemma MergeEnds(s: Snapshot, r: Request, gate: Option<Gate>, lists: seq<seq<nat>>, cursor: seq<nat>, done: nat,
                  before: map<bytes, bytes>)
    requires Consistent(s) && |lists| == |cursor| == LISTS && done <= |s.ordered|
    requires Merging(s, r, gate, lists, cursor, done) && Exhausted(lists, cursor)
    ensures FirstSelected(s.ordered, r, gate) == None && ScanLength(s.ordered, r, gate) == |s.ordered|
    ensures VarsThrough(s.ordered[..|s.ordered|], r, before) == VarsThrough(s.ordered[..done], r, before)
  {
    hide Selects, Followed, Sorts, Tried, CandidateLists, Consistent, VarsThrough;
    Unselected(s, r, lists, cursor, gate, |s.ordered|);
    MergeEnd(s, r, lists, cursor, done, before);
    NoneSelected(s.ordered, r, gate);
  }

  lemma NothingTried(s: seq<Stub>, r: Request, before: map<bytes, bytes>)
    ensures VarsThrough(s[..0], r, before) == before
  {
  }

  /** Trying a candidate from where the merge stands is scanning up to it. */
  lemma VarsReached(s: seq<Stub>, r: Request, before: map<bytes, bytes>, done: nat, next: nat)
    requires next < |s| && done <= next + 1 && (next < done ==> !Rebinds(s[next], r))
    requires forall j :: done <= j < next ==> !Rebinds(s[j], r)
    ensures VarsThrough(s[..next + 1], r, before) == VarsAfter(s[next], r, VarsThrough(s[..done], r, before))
  {
    hide Rebinds, VarsThrough;
    VarsNext(s, r, before, next);
    if done <= next { VarsUnmoved(s, r, before, done, next); }
  }

  predicate IsLeastHead(lists: seq<seq<nat>>, cursor: seq<nat>, from: nat, next: nat)
    requires |lists| == |cursor|
  {
    from < |lists| && cursor[from] < |lists[from]| && next == lists[from][cursor[from]]
    && forall i :: 0 <= i < |lists| && cursor[i] < |lists[i]| ==> next <= lists[i][cursor[i]]
  }

  predicate Exhausted(lists: seq<seq<nat>>, cursor: seq<nat>)
    requires |lists| == |cursor|
  {
    forall i :: 0 <= i < |lists| ==> cursor[i] >= |lists[i]|
  }

  /** The least candidate not yet tried, and the list it heads; -1 when every list is exhausted. */
  method LeastHead(lists: seq<seq<nat>>, cursor: array<nat>) returns (next: nat, from: int)
    requires |lists| == cursor.Length
    ensures if from >= 0 then IsLeastHead(lists, cursor[..], from, next) else from == -1 && Exhausted(lists, cursor[..])
  {
    next, from := 0, -1;
    for i := 0 to |lists|
      invariant -1 <= from < i && (from >= 0 ==> cursor[from] < |lists[from]| && next == lists[from][cursor[from]])
      invariant forall h :: 0 <= h < i && cursor[h] < |lists[h]| ==> from >= 0 && next <= lists[h][cursor[h]]
    {
      if cursor[i] >= |lists[i]| { continue; }
      var idx := lists[i][cursor[i]];
      if from == -1 || idx < next { next, from := idx, i; }
    }
  }

  function Remaining(lists: seq<seq<nat>>, cursor: seq<nat>): nat
    requires |lists| <= |cursor|
  {
    if lists == [] then 0
    else (if cursor[0] <= |lists[0]| then |lists[0]| - cursor[0] else 0) + Remaining(lists[1..], cursor[1..])
  }

  lemma {:induction false} Shrinks(lists: seq<seq<nat>>, cursor: seq<nat>, k: nat)
    requires |lists| <= |cursor| && k < |lists| && cursor[k] < |lists[k]|
    ensures Remaining(lists, cursor[k := cursor[k] + 1]) < Remaining(lists, cursor)
  {
    var after := cursor[k := cursor[k] + 1];
    if k > 0 {
      Shrinks(lists[1..], cursor[1..], k - 1);
      assert after[1..] == cursor[1..][k - 1 := cursor[k] + 1];
    } else {
      assert after[1..] == cursor[1..];
    }
  }

  lemma Bounded(list: seq<nat>, cursor: nat, s: seq<Stub>, r: Request, gate: Option<Gate>)
    requires Tried(list, cursor, s, r, gate) && cursor < |list|
    ensures list[cursor] < |s|
  {
  }

  lemma SelectsIf(cs: Stub, r: Request, gate: Option<Gate>)
    ensures Selects(cs, r, gate) <==>
            Accepts(cs, r) && !(cs.scenario.Some? && gate.Some? && !gate.value(cs.scenario.value))
  {
  }

  lemma TriedOne(list: seq<nat>, cursor: nat, s: seq<Stub>, r: Request, gate: Option<Gate>)
    requires Tried(list, cursor, s, r, gate) && cursor < |list| && list[cursor] < |s| && !Selects(s[list[cursor]], r, gate)
    ensures Tried(list, cursor + 1, s, r, gate)
  {
  }

  /** A selected stub in a list is at the cursor or after it, so the head is no greater. */
  lemma HeadPast(list: seq<nat>, cursor: nat, s: seq<Stub>, r: Request, gate: Option<Gate>, j: nat)
    requires Tried(list, cursor, s, r, gate) && j < |s| && j in list && Selects(s[j], r, gate)
    ensures cursor < |list| && list[cursor] <= j
  {
    hide Selects;
    var k :| 0 <= k < |list| && list[k] == j;
    assert k >= cursor;
  }

  /** Nothing is selected below every head. */
  lemma Unselected(s: Snapshot, r: Request, lists: seq<seq<nat>>, cursor: seq<nat>, gate: Option<Gate>, bound: nat)
    requires Consistent(s) && |cursor| == LISTS
    requires CandidateLists(s, r, lists)
    requires forall i :: 0 <= i < LISTS ==> Tried(lists[i], cursor[i], s.ordered, r, gate)
    requires bound <= |s.ordered| && forall i :: 0 <= i < LISTS && cursor[i] < |lists[i]| ==> bound <= lists[i][cursor[i]]
    ensures forall j :: 0 <= j < bound ==> !Selects(s.ordered[j], r, gate)
  {
    hide Selects, Accepts, Tried, ListAt, KeyOf, Consistent;
    forall j | 0 <= j < bound ensures !Selects(s.ordered[j], r, gate) {
      if Selects(s.ordered[j], r, gate) {
        SelectsIf(s.ordered[j], r, gate);
        Reached(s, r, lists, j);
        var i: nat :| i < LISTS && j in lists[i];
        HeadPast(lists[i], cursor[i], s.ordered, r, gate, j);
      }
    }
  }

  // ----- variables of a stub that has no template -----

  /** What the response of the winner finds bound, from a cleared request. */
  ghost predicate LeftoversBefore(s: seq<Stub>, r: Request) {
    exists k: nat :: LastRebinding(s, r, k) && LeftBy(s[k], r) != map[]
  }

  /**
   A stub without a template is served with no path variables if and only if, of the template
   stubs before it whose method agrees, the last one binds nothing on this path, or there is none.
   */
  method LeftoverVars(s: Snapshot, req: ParsedRequest, gate: Option<Gate>) returns (winner: Option<Stub>)
    requires Consistent(s) && AllWellFormed(s.ordered) && req.pathVars.vars == map[]
    modifies req, req.pathVars
    ensures winner == FirstSelected(s.ordered, req.request, gate)
    ensures winner.Some? && !winner.value.url.Templated? ==>
              (req.pathVars.vars == map[] <==>
               !LeftoversBefore(s.ordered[..ScanLength(s.ordered, req.request, gate) - 1], req.request))
  {
    hide Consistent, AllWellFormed;
    winner := Match(s, req, gate);
    if winner.Some? && !winner.value.url.Templated? {
      LastScanned(s.ordered, req.request, gate);
      var n := ScanLength(s.ordered, req.request, gate) - 1;
      VarsNext(s.ordered, req.request, map[], n);
      NothingLeftIff(s.ordered[..n], req.request);
    }
  }

  lemma {:induction false} LastScanned(s: seq<Stub>, r: Request, gate: Option<Gate>)
    requires FirstSelected(s, r, gate).Some?
    ensures var n := ScanLength(s, r, gate); n > 0 && s[n - 1] == FirstSelected(s, r, gate).value
  {
    if !Selects(s[0], r, gate) { LastScanned(s[1..], r, gate); }
  }

  // An input on which it happens.

  /** /{x} with a criterion that never holds, and after it a stub for any URL. */
  function FailingTemplate(): Stub {
    Stub([1], 1, 1, false, [], Templated(Template([Var([120])], [[120]], [SLASH])), [OnRequest(_ => false)], None, Response([], false, []))
  }

  function CatchAll(): Stub { Stub([2], 2, 2, false, [], AnyUrl, [], None, Response([], false, [])) }

  /** GET /a finds the second stub, and x bound to "a". */
  lemma VariableLeftOver()
    ensures var s := Build([FailingTemplate(), CatchAll()], 1, None);
            var r := Request([71, 69, 84], [SLASH, 97], [SLASH, 97], map[], []);
            && Consistent(s) && AllWellFormed(s.ordered) && FirstSelected(s.ordered, r, None) == Some(CatchAll())
            && ScanLength(s.ordered, r, None) == 2 && LeftoversBefore(s.ordered[..1], r)
            && VarsThrough(s.ordered[..2], r, map[]) == map[[120] := [97]]
  {
    var t, e := FailingTemplate(), CatchAll();
    var s := Build([t, e], 1, None);
    var r := Request([71, 69, 84], [SLASH, 97], [SLASH, 97], map[], []);
    BuildConsistent([t, e], 1, None);
    TwoSorted(t, e);
    assert s.ordered == [t, e];
    LeftOverIn(s.ordered, r);
    TemplateIsOne();
  }

  lemma LeftOverIn(s: seq<Stub>, r: Request)
    requires s == [FailingTemplate(), CatchAll()] && r.path == [SLASH, 97]
    ensures FirstSelected(s, r, None) == Some(CatchAll()) && ScanLength(s, r, None) == 2 && LeftoversBefore(s[..1], r)
    ensures VarsThrough(s[..2], r, map[]) == map[[120] := [97]]
  {
    var t, e := FailingTemplate(), CatchAll();
    BindsSegment(r);
    hide BoundOn, Fits;
    assert !CheckHolds(t.checks[0], r, OwnVars(t, r)) && !Selects(t, r, None) && Selects(e, r, None);
    assert s[1..] == [e];
    VarsNext(s, r, map[], 0);
    VarsNext(s, r, map[], 1);
    assert [120] in LeftBy(s[..1][0], r);
    assert LastRebinding(s[..1], r, 0);
  }

  lemma TwoSorted(t: Stub, e: Stub)
    requires Before(t, e)
    ensures Sorted([t, e]) == [t, e]
  {
    assert [t, e][..1] == [t] && [t][..0] == [];
    assert Sorted([t]) == [t];
  }

  lemma TemplateIsOne()
    ensures IsTemplate(FailingTemplate().url.template)
  {
    var t := FailingTemplate().url.template;
    assert t.segments[..0] == [] && VarNames([]) == [];
    assert VarNames(t.segments) == [] + [[120]];
  }

  lemma BindsSegment(r: Request)
    requires r.path == [SLASH, 97]
    ensures LeftBy(FailingTemplate(), r) == map[[120] := [97]]
  {
    var t := FailingTemplate().url.template;
    var parts := Split(r.path[1..]);
    assert r.path[1..] == [97] && IndexByte([97], SLASH) == None && parts == [[97]];
    assert Walked(t.segments, parts, 1) == 1 && FitsAt(t.segments, parts, 0);
    assert Walked(t.segments, parts, 0) == 1;
    BoundByNext(t.segments, parts, 0);
    assert t.segments[..0] == [] && parts[..0] == [] && BoundBy([], []) == map[];
    assert BoundOn(t.segments, r.path) == map[[120] := [97]];
  }
}
