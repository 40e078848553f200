/** URL path templates: literal segments and variables that bind whole segments. */
module PathTemplate {
  import opened Bytes

  datatype Segment = Literal(text: bytes) | Var(name: bytes)

  datatype Template = Template(segments: seq<Segment>, vars: seq<bytes>, literalPrefix: bytes)

  // ----- splitting on slashes -----

  function IndexByte(s: bytes, c: byte): (r: Option<nat>)
    ensures r.Some? ==> r.value < |s| && s[r.value] == c && c !in s[..r.value]
    ensures r.None? ==> c !in s
  {
    if s == [] then None
    else if s[0] == c then Some(0)
    else match IndexByte(s[1..], c)
         case None => None
         case Some(k) =>
           assert s[..k + 1] == [s[0]] + s[1..][..k];
           Some(k + 1)
  }

  function Split(s: bytes): (r: seq<bytes>)
    ensures r != []
  {
    match IndexByte(s, SLASH)
    case None => [s]
    case Some(k) => [s[..k]] + Split(s[k + 1..])
  }

  /** Each part behind a slash of its own. */
  function Slashed(parts: seq<bytes>): bytes {
    if parts == [] then [] else [SLASH] + parts[0] + Slashed(parts[1..])
  }

  ghost predicate NoSlash(parts: seq<bytes>) {
    forall k :: 0 <= k < |parts| ==> SLASH !in parts[k]
  }

  lemma {:induction false} SlashedSplit(s: bytes)
    ensures Slashed(Split(s)) == [SLASH] + s && NoSlash(Split(s))
  {
    var r := Split(s);
    match IndexByte(s, SLASH)
    case None =>
      assert Slashed(r[1..]) == [];
    case Some(k) =>
      SlashedSplit(s[k + 1..]);
      assert r[1..] == Split(s[k + 1..]);
      assert s == s[..k] + ([SLASH] + s[k + 1..]);
  }

  lemma FirstSlash(a: bytes, rest: bytes)
    requires SLASH !in a
    ensures IndexByte(a + [SLASH] + rest, SLASH) == Some(|a|)
  {
    var s := a + [SLASH] + rest;
    assert s[|a|] == SLASH;
    assert forall k {:trigger s[k]} :: 0 <= k < |a| ==> s[k] == a[k] != SLASH;
    var k := IndexByte(s, SLASH).value;
    assert forall h {:trigger s[..k][h]} :: 0 <= h < k ==> s[..k][h] == s[h];
  }

  lemma {:induction false} SplitSlashed(parts: seq<bytes>)
    requires parts != [] && NoSlash(parts)
    ensures Split(Slashed(parts)[1..]) == parts
  {
    var s := Slashed(parts)[1..];
    if |parts| == 1 {
      assert Slashed(parts[1..]) == [];
      assert s == parts[0];
    } else {
      var rest := Slashed(parts[1..]);
      assert NoSlash(parts[1..]);
      SplitSlashed(parts[1..]);
      assert rest == [SLASH] + rest[1..];
      assert s == parts[0] + [SLASH] + rest[1..];
      FirstSlash(parts[0], rest[1..]);
      assert s[|parts[0]| + 1..] == rest[1..];
      assert s[..|parts[0]|] == parts[0];
    }
  }

  // ----- compiling a template -----

  function SegmentText(seg: Segment): bytes {
    match seg
    case Literal(text) => text
    case Var(name) => [LBRACE] + name + [RBRACE]
  }

  function Texts(segments: seq<Segment>): seq<bytes> {
    seq(|segments|, i requires 0 <= i < |segments| => SegmentText(segments[i]))
  }

  function Spelling(segments: seq<Segment>): bytes { Slashed(Texts(segments)) }

  predicate Plain(s: bytes) { LBRACE !in s && RBRACE !in s && SLASH !in s }

  /** A segment a template may hold. */
  predicate IsSegment(seg: Segment) {
    match seg
    case Literal(text) => Plain(text)
    case Var(name) => name != [] && Plain(name)
  }

  ghost predicate DistinctVars(segments: seq<Segment>) {
    forall i, k :: 0 <= i < k < |segments| && segments[i].Var? && segments[k].Var? ==> segments[i].name != segments[k].name
  }

  /** The leading literal text, or "/". */
  function Prefix(segments: seq<Segment>): bytes {
    var p := LeadingText(segments);
    if p == [] then [SLASH] else p
  }

  function LeadingText(segments: seq<Segment>): bytes {
    if segments == [] || segments[0].Var? then [] else [SLASH] + segments[0].text + LeadingText(segments[1..])
  }

  function VarNames(segments: seq<Segment>): seq<bytes> {
    if segments == [] then []
    else
      var last := segments[|segments| - 1];
      VarNames(segments[..|segments| - 1]) + if last.Var? then [last.name] else []
  }

  ghost predicate IsTemplate(t: Template) {
    && t.segments != [] && DistinctVars(t.segments)
    && (forall k :: 0 <= k < |t.segments| ==> IsSegment(t.segments[k]))
    && t.vars == VarNames(t.segments) && t.literalPrefix == Prefix(t.segments)
  }

  /** The segment a part of the source is, unless it is malformed. */
  function SegmentOf(part: bytes): Option<Segment> {
    if part != [] && part[0] == LBRACE && part[|part| - 1] == RBRACE then
      var name := part[1..|part| - 1];
      if name == [] || !Plain(name) then None else Some(Var(name))
    else if LBRACE in part || RBRACE in part then None
    else Some(Literal(part))
  }

  lemma SegmentOfText(seg: Segment)
    requires IsSegment(seg)
    ensures SegmentOf(SegmentText(seg)) == Some(seg) && SLASH !in SegmentText(seg)
  {
    if seg.Var? { assert SegmentText(seg)[1..|SegmentText(seg)| - 1] == seg.name; }
  }

  lemma TextOfSegment(part: bytes)
    requires SegmentOf(part).Some? && SLASH !in part
    ensures IsSegment(SegmentOf(part).value) && SegmentText(SegmentOf(part).value) == part
  {
    if SegmentOf(part).value.Var? {
      assert part == [LBRACE] + part[1..|part| - 1] + [RBRACE];
    }
  }

  /** Reads back exactly the sources that spell a template. */
  method ParsePathTemplate(source: bytes) returns (t: Option<Template>)
    ensures t.Some? ==> IsTemplate(t.value) && Spelling(t.value.segments) == source
    ensures t.None? ==> forall u :: IsTemplate(u) ==> Spelling(u.segments) != source
  {
    hide Split, Slashed, Spelling, SegmentText, IsSegment, VarNames, IndexByte;
    if source == [] || source[0] != SLASH {
      forall u | IsTemplate(u) ensures Spelling(u.segments) != source { SpellingStart(u.segments); }
      return None;
    }
    var parts := Split(source[1..]);
    SlashedSplit(source[1..]);
    var seen: set<bytes> := {};
    var segments: seq<Segment> := [];
    var vars: seq<bytes> := [];
    EmptyVarNames();
    for i := 0 to |parts|
      invariant |segments| == i && forall k :: 0 <= k < i ==> SegmentOf(parts[k]) == Some(segments[k])
      invariant seen == NamesOf(segments) && DistinctVars(segments) && vars == VarNames(segments)
    {
      var part := parts[i];
      ghost var before := segments;
      if part != [] && part[0] == LBRACE && part[|part| - 1] == RBRACE {
        var name := part[1..|part| - 1];
        if name == [] || !Plain(name) { NoSegment(source, parts, i); return None; }
        if name in seen { Repeats(source, parts, segments, i, name); return None; }
        seen := seen + {name};
        segments := segments + [Var(name)];
        vars := vars + [name];
      } else if LBRACE in part || RBRACE in part {
        NoSegment(source, parts, i);
        return None;
      } else {
        segments := segments + [Literal(part)];
      }
      NextVarNames(before, segments[i]);
    }
    var prefix := ComputeTemplatePrefix(segments);
    t := Some(Template(segments, vars, prefix));
    SpellingOf(source, parts, segments);
  }

  method ComputeTemplatePrefix(segments: seq<Segment>) returns (p: bytes)
    ensures p == Prefix(segments)
  {
    hide LeadingText;
    p := [];
    assert segments[0..] == segments;
    LeadingEnd(segments, |segments|);
    for i := 0 to |segments|
      invariant LeadingText(segments) == p + LeadingText(segments[i..])
    {
      LeadingNext(segments, i);
      if segments[i].Var? { break; }
      p := p + ([SLASH] + segments[i].text);
    }
    if |p| == 0 { return [SLASH]; }
  }

  lemma LeadingNext(segments: seq<Segment>, i: nat)
    requires i < |segments|
    ensures LeadingText(segments[i..]) ==
            if segments[i].Var? then [] else [SLASH] + segments[i].text + LeadingText(segments[i + 1..])
  {
    assert segments[i..][1..] == segments[i + 1..];
  }

  lemma LeadingEnd(segments: seq<Segment>, i: nat)
    requires i == |segments|
    ensures LeadingText(segments[i..]) == []
  {
  }

  function NamesOf(segments: seq<Segment>): set<bytes> {
    set k | 0 <= k < |segments| && segments[k].Var? :: segments[k].name
  }

  lemma EmptyVarNames()
    ensures VarNames([]) == [] && NamesOf([]) == {}
  {
  }

  lemma NextVarNames(segments: seq<Segment>, seg: Segment)
    ensures VarNames(segments + [seg]) == VarNames(segments) + if seg.Var? then [seg.name] else []
    ensures NamesOf(segments + [seg]) == NamesOf(segments) + if seg.Var? then {seg.name} else {}
    ensures DistinctVars(segments) && (seg.Var? ==> seg.name !in NamesOf(segments)) ==> DistinctVars(segments + [seg])
  {
    var next := segments + [seg];
    assert next[..|next| - 1] == segments;
    forall x | x in NamesOf(segments) ensures x in NamesOf(next) {
      var k :| 0 <= k < |segments| && segments[k].Var? && segments[k].name == x;
      assert next[k] == segments[k];
    }
    if seg.Var? { assert next[|segments|].name == seg.name; }
  }

  lemma SpellingStart(segments: seq<Segment>)
    requires segments != []
    ensures Spelling(segments) != [] && Spelling(segments)[0] == SLASH
  {
  }

  /** The parts of a template's spelling are its segments'. */
  lemma PartsOfSpelling(t: Template, source: bytes, parts: seq<bytes>)
    requires IsTemplate(t) && Spelling(t.segments) == source && source != [] && parts == Split(source[1..])
    ensures |parts| == |t.segments| && forall k :: 0 <= k < |parts| ==> SegmentOf(parts[k]) == Some(t.segments[k])
  {
    hide Split, Slashed, SegmentText, SegmentOf, IsSegment;
    var texts := Texts(t.segments);
    forall k | 0 <= k < |texts| ensures SegmentOf(texts[k]) == Some(t.segments[k]) && SLASH !in texts[k] {
      SegmentOfText(t.segments[k]);
    }
    SplitSlashed(texts);
  }

  lemma NoSegment(source: bytes, parts: seq<bytes>, i: nat)
    requires source != [] && parts == Split(source[1..]) && i < |parts| && SegmentOf(parts[i]).None?
    ensures forall u :: IsTemplate(u) ==> Spelling(u.segments) != source
  {
    forall u | IsTemplate(u) ensures Spelling(u.segments) != source {
      if Spelling(u.segments) == source { PartsOfSpelling(u, source, parts); }
    }
  }

  lemma Repeats(source: bytes, parts: seq<bytes>, segments: seq<Segment>, i: nat, name: bytes)
    requires source != [] && parts == Split(source[1..]) && |segments| == i < |parts|
    requires forall k :: 0 <= k < i ==> SegmentOf(parts[k]) == Some(segments[k])
    requires SegmentOf(parts[i]) == Some(Var(name)) && name in NamesOf(segments)
    ensures forall u :: IsTemplate(u) ==> Spelling(u.segments) != source
  {
    hide SegmentOf, Split, Spelling, IsSegment, VarNames;
    var h :| 0 <= h < |segments| && segments[h].Var? && segments[h].name == name;
    forall u | IsTemplate(u) ensures Spelling(u.segments) != source {
      if Spelling(u.segments) == source { PartsOfSpelling(u, source, parts); }
    }
  }

  lemma SpellingOf(source: bytes, parts: seq<bytes>, segments: seq<Segment>)
    requires Slashed(parts) == source && NoSlash(parts) && |segments| == |parts|
    requires forall k :: 0 <= k < |parts| ==> SegmentOf(parts[k]) == Some(segments[k])
    ensures Spelling(segments) == source
    ensures forall k :: 0 <= k < |segments| ==> IsSegment(segments[k])
  {
    hide SegmentOf, SegmentText, Slashed;
    forall k | 0 <= k < |parts| ensures SegmentText(segments[k]) == parts[k] && IsSegment(segments[k]) {
      TextOfSegment(parts[k]);
    }
    assert parts == Texts(segments);
  }

  // ----- matching a path -----

  /** The request's bindings, which a match writes into. */
  class PathVars {
    var vars: map<bytes, bytes>

    constructor ()
      ensures vars == map[]
    {
      vars := map[];
    }

    method Clear()
      modifies this
      ensures vars == map[]
    {
      vars := map[];
    }

    method Bind(name: bytes, value: bytes)
      modifies this
      ensures vars == old(vars)[name := value]
    {
      vars := vars[name := value];
    }
  }

  predicate SegmentFits(seg: Segment, part: bytes) {
    match seg
    case Literal(text) => part == text
    case Var(_) => part != []
  }

  predicate PartsFit(segments: seq<Segment>, parts: seq<bytes>) {
    |parts| == |segments| && forall k :: 0 <= k < |segments| ==> SegmentFits(segments[k], parts[k])
  }

  /** Segment by segment, a variable taking any non-empty one. */
  predicate Fits(segments: seq<Segment>, path: bytes) {
    path != [] && path[0] == SLASH && PartsFit(segments, Split(path[1..]))
  }

  /** The bindings of the segments, in order. */
  function BoundBy(segments: seq<Segment>, parts: seq<bytes>): map<bytes, bytes>
    requires |segments| == |parts|
  {
    if segments == [] then map[]
    else
      var n := |segments| - 1;
      var m := BoundBy(segments[..n], parts[..n]);
      if segments[n].Var? then m[segments[n].name := parts[n]] else m
  }

  lemma BoundByNext(segments: seq<Segment>, parts: seq<bytes>, n: nat)
    requires n < |segments| && n < |parts|
    ensures BoundBy(segments[..n + 1], parts[..n + 1])
         == var m := BoundBy(segments[..n], parts[..n]); if segments[n].Var? then m[segments[n].name := parts[n]] else m
  {
    assert segments[..n + 1][..n] == segments[..n] && parts[..n + 1][..n] == parts[..n];
  }

  /** The first m segments are consumed: each fits, and template and path run out together. */
  ghost predicate FitUpTo(segments: seq<Segment>, parts: seq<bytes>, m: nat) {
    m <= |segments| && m <= |parts| && forall k :: 0 <= k < m ==> FitsAt(segments, parts, k)
  }

  predicate FitsAt(segments: seq<Segment>, parts: seq<bytes>, k: nat)
    requires k < |segments| && k < |parts|
  {
    SegmentFits(segments[k], parts[k]) && (k == |segments| - 1 <==> k == |parts| - 1)
  }

  /** How many leading segments a walk consumes before it stops. */
  function Walked(segments: seq<Segment>, parts: seq<bytes>, from: nat): (m: nat)
    requires from <= |segments| && from <= |parts|
    ensures from <= m <= |segments| && m <= |parts|
    decreases |segments| - from
  {
    if from == |segments| || from == |parts| then from
    else if !FitsAt(segments, parts, from) then from
    else Walked(segments, parts, from + 1)
  }

  /** It is the longest run of them that fits. */
  lemma {:induction false} WalkedLongest(segments: seq<Segment>, parts: seq<bytes>, from: nat, m: nat)
    requires FitUpTo(segments, parts, from)
    ensures FitUpTo(segments, parts, Walked(segments, parts, from))
    ensures FitUpTo(segments, parts, m) ==> m <= Walked(segments, parts, from)
    decreases |segments| - from
  {
    if from < |segments| && from < |parts| && FitsAt(segments, parts, from) {
      WalkedLongest(segments, parts, from + 1, m);
    }
  }

  lemma WalkedAll(segments: seq<Segment>, parts: seq<bytes>)
    requires segments != []
    ensures Walked(segments, parts, 0) == |segments| <==> PartsFit(segments, parts)
  {
    hide Walked, SegmentFits;
    WalkedLongest(segments, parts, 0, |segments|);
    var last := |segments| - 1;
    if Walked(segments, parts, 0) == |segments| {
      assert FitsAt(segments, parts, last);
      forall k | 0 <= k < |segments| ensures SegmentFits(segments[k], parts[k]) { assert FitsAt(segments, parts, k); }
    }
  }

  /** What a walk binds, whether or not the path fits in the end. */
  function BoundOn(segments: seq<Segment>, path: bytes): map<bytes, bytes> {
    if path == [] || path[0] != SLASH then map[]
    else
      var parts := Split(path[1..]);
      var m := Walked(segments, parts, 0);
      BoundBy(segments[..m], parts[..m])
  }

  lemma BoundOnFit(segments: seq<Segment>, path: bytes)
    requires segments != [] && Fits(segments, path)
    ensures BoundOn(segments, path) == BoundBy(segments, Split(path[1..]))
  {
    hide Split, Walked, BoundBy, SegmentFits;
    var parts := Split(path[1..]);
    WalkedAll(segments, parts);
    assert segments[..|segments|] == segments && parts[..|parts|] == parts;
  }

  /** A walk leaves nothing bound exactly when it consumes no variable. */
  lemma BindsNothing(segments: seq<Segment>, path: bytes)
    requires path != [] && path[0] == SLASH
    ensures BoundOn(segments, path) == map[] <==>
            forall k :: 0 <= k < Walked(segments, Split(path[1..]), 0) ==> segments[k].Literal?
  {
    var parts := Split(path[1..]);
    var m := Walked(segments, parts, 0);
    BoundKeys(segments[..m], parts[..m]);
    if k :| 0 <= k < m && segments[k].Var? {
      assert segments[..m][k] == segments[k];
      assert segments[k].name in NamesOf(segments[..m]);
    }
  }

  /** Walks the path in place, binding as it goes. */
  method Match(segments: seq<Segment>, path: bytes, bind: PathVars) returns (ok: bool)
    requires segments != []
    modifies bind
    ensures ok <==> Fits(segments, path)
    ensures bind.vars == old(bind.vars) + BoundOn(segments, path)
    ensures ok ==> bind.vars == old(bind.vars) + BoundBy(segments, Split(path[1..]))
  {
    hide BoundBy, SegmentFits, Split, Walked, PartsFit;
    if path == [] || path[0] != SLASH { return false; }
    ghost var parts := Split(path[1..]);
    ghost var walked := Walked(segments, parts, 0);
    WalkedAll(segments, parts);
    if Fits(segments, path) { BoundOnFit(segments, path); }
    var rest := path[1..];
    EmptyBound();
    for i := 0 to |segments|
      invariant i <= |parts| && Walked(segments, parts, i) == walked
      invariant i < |segments| ==> i < |parts| && Split(rest) == parts[i..]
      invariant i == |segments| ==> rest == []
      invariant bind.vars == old(bind.vars) + BoundBy(segments[..i], parts[..i])
    {
      var seg := segments[i];
      var part;
      var last := i == |segments| - 1;
      SplitStep(rest);
      WalkedStep(segments, parts, i);
      var slash := IndexByte(rest, SLASH);
      if slash.Some? {
        part, rest := rest[..slash.value], rest[slash.value + 1..];
        assert parts[i..] == [part] + Split(rest);
        assert parts[i + 1..] == Split(rest);
        if last { return false; }
      } else {
        part, rest := rest, [];
        assert parts[i..] == [part];
        if !last { return false; }
      }
      assert part == parts[i..][0] == parts[i];
      BoundByNext(segments, parts, i);
      if seg.Var? {
        if part == [] { EmptyUnfit(seg, part); return false; }
        VarFits(seg, part);
        bind.Bind(seg.name, part);
        continue;
      }
      LiteralFits(seg, part);
      if part != seg.text { return false; }
    }
    WalkedEnd(segments, parts);
    return rest == [];
  }

  lemma WalkedStep(segments: seq<Segment>, parts: seq<bytes>, i: nat)
    requires i < |segments| && i < |parts|
    ensures Walked(segments, parts, i) ==
            if (i == |segments| - 1) != (i == |parts| - 1) || !SegmentFits(segments[i], parts[i]) then i else Walked(segments, parts, i + 1)
  {
  }

  lemma WalkedEnd(segments: seq<Segment>, parts: seq<bytes>)
    requires |segments| <= |parts|
    ensures Walked(segments, parts, |segments|) == |segments|
  {
  }

  lemma EmptyUnfit(seg: Segment, part: bytes)
    requires seg.Var? && part == []
    ensures !SegmentFits(seg, part)
  {
  }

  lemma SplitStep(rest: bytes)
    ensures Split(rest) == match IndexByte(rest, SLASH)
                           case None => [rest]
                           case Some(k) => [rest[..k]] + Split(rest[k + 1..])
  {
  }

  lemma EmptyBound()
    ensures BoundBy([], []) == map[]
  {
  }

  lemma VarFits(seg: Segment, part: bytes)
    requires seg.Var? && part != []
    ensures SegmentFits(seg, part)
  {
  }

  lemma LiteralFits(seg: Segment, part: bytes)
    requires seg.Literal?
    ensures SegmentFits(seg, part) <==> part == seg.text
  {
  }

  /** The literal prefix rejects no path the template matches. */
  lemma PrefixNeverRejects(segments: seq<Segment>, path: bytes)
    requires Fits(segments, path)
    ensures Prefix(segments) <= path
  {
    SlashedSplit(path[1..]);
    LeadingTextOf(segments, Split(path[1..]));
    assert path == [SLASH] + path[1..];
  }

  lemma {:induction false} LeadingTextOf(segments: seq<Segment>, parts: seq<bytes>)
    requires PartsFit(segments, parts)
    ensures LeadingText(segments) <= Slashed(parts)
  {
    if segments != [] && segments[0].Literal? {
      assert SegmentFits(segments[0], parts[0]);
      assert PartsFit(segments[1..], parts[1..]);
      LeadingTextOf(segments[1..], parts[1..]);
    }
  }

  // ----- a match is a substitution -----

  /** Each variable has a value: non-empty text without a slash. */
  ghost predicate Covers(vars: map<bytes, bytes>, segments: seq<Segment>) {
    forall k :: 0 <= k < |segments| && segments[k].Var? ==>
      segments[k].name in vars && vars[segments[k].name] != [] && SLASH !in vars[segments[k].name]
  }

  function FillOne(seg: Segment, vars: map<bytes, bytes>): bytes {
    match seg
    case Literal(text) => text
    case Var(name) => if name in vars then vars[name] else []
  }

  function Fill(segments: seq<Segment>, vars: map<bytes, bytes>): seq<bytes> {
    seq(|segments|, i requires 0 <= i < |segments| => FillOne(segments[i], vars))
  }

  lemma {:induction false} BoundAt(segments: seq<Segment>, parts: seq<bytes>, k: nat)
    requires |segments| == |parts| && DistinctVars(segments) && k < |segments| && segments[k].Var?
    ensures segments[k].name in BoundBy(segments, parts) && BoundBy(segments, parts)[segments[k].name] == parts[k]
  {
    var n := |segments| - 1;
    if k < n {
      assert segments[..n][k] == segments[k];
      BoundAt(segments[..n], parts[..n], k);
    }
  }

  lemma {:induction false} BoundKeys(segments: seq<Segment>, parts: seq<bytes>)
    requires |segments| == |parts|
    ensures BoundBy(segments, parts).Keys == NamesOf(segments)
  {
    if segments != [] {
      var n := |segments| - 1;
      BoundKeys(segments[..n], parts[..n]);
      NextVarNames(segments[..n], segments[n]);
      assert segments == segments[..n] + [segments[n]];
    }
  }

  /**
   A template matches exactly the paths that come of giving its variables non-empty values
   without a slash, and the values are then the bindings, and no others.
   */
  lemma MatchIsSubstitution(t: Template, path: bytes, vars: map<bytes, bytes>)
    requires IsTemplate(t)
    ensures (Fits(t.segments, path) && vars == BoundBy(t.segments, Split(path[1..])))
       <==> (vars.Keys == NamesOf(t.segments) && Covers(vars, t.segments) && path == Slashed(Fill(t.segments, vars)))
  {
    hide Split, Slashed, BoundBy, FillOne, Prefix, VarNames;
    var segs := t.segments;
    if Fits(segs, path) && vars == BoundBy(segs, Split(path[1..])) {
      SlashedSplit(path[1..]);
      assert path == [SLASH] + path[1..];
      FitsFills(segs, Split(path[1..]), vars);
    }
    if vars.Keys == NamesOf(segs) && Covers(vars, segs) && path == Slashed(Fill(segs, vars)) {
      FilledFits(segs, path, vars);
    }
  }

  lemma FitsFills(segs: seq<Segment>, parts: seq<bytes>, vars: map<bytes, bytes>)
    requires DistinctVars(segs) && PartsFit(segs, parts) && NoSlash(parts) && vars == BoundBy(segs, parts)
    ensures vars.Keys == NamesOf(segs) && Covers(vars, segs) && Fill(segs, vars) == parts
  {
    hide BoundBy;
    BoundKeys(segs, parts);
    forall k | 0 <= k < |segs| ensures FillOne(segs[k], vars) == parts[k] && (segs[k].Var? ==> parts[k] != []) {
      assert SegmentFits(segs[k], parts[k]);
      if segs[k].Var? { BoundAt(segs, parts, k); }
    }
    forall k | 0 <= k < |segs| && segs[k].Var?
      ensures segs[k].name in vars && vars[segs[k].name] == parts[k]
    {
      BoundAt(segs, parts, k);
    }
  }

  lemma SlashedStart(parts: seq<bytes>)
    requires parts != []
    ensures Slashed(parts) != [] && Slashed(parts)[0] == SLASH
  {
  }

  lemma FilledParts(segs: seq<Segment>, vars: map<bytes, bytes>)
    requires (forall k :: 0 <= k < |segs| ==> IsSegment(segs[k])) && Covers(vars, segs)
    ensures NoSlash(Fill(segs, vars)) && PartsFit(segs, Fill(segs, vars))
  {
    forall k | 0 <= k < |segs| ensures SLASH !in Fill(segs, vars)[k] && SegmentFits(segs[k], Fill(segs, vars)[k]) {
      assert IsSegment(segs[k]);
    }
  }

  lemma FilledBound(segs: seq<Segment>, vars: map<bytes, bytes>)
    requires DistinctVars(segs) && vars.Keys == NamesOf(segs)
    ensures vars == BoundBy(segs, Fill(segs, vars))
  {
    hide BoundBy;
    var parts := Fill(segs, vars);
    BoundKeys(segs, parts);
    forall x | x in vars ensures vars[x] == BoundBy(segs, parts)[x] {
      var k :| 0 <= k < |segs| && segs[k].Var? && segs[k].name == x;
      BoundAt(segs, parts, k);
    }
  }

  lemma FilledFits(segs: seq<Segment>, path: bytes, vars: map<bytes, bytes>)
    requires segs != [] && DistinctVars(segs) && forall k :: 0 <= k < |segs| ==> IsSegment(segs[k])
    requires vars.Keys == NamesOf(segs) && Covers(vars, segs) && path == Slashed(Fill(segs, vars))
    ensures Fits(segs, path) && vars == BoundBy(segs, Split(path[1..]))
  {
    hide Split, BoundBy, Slashed, Covers, IsSegment, PartsFit, NoSlash, DistinctVars, NamesOf;
    var parts := Fill(segs, vars);
    FilledParts(segs, vars);
    SlashedStart(parts);
    SplitSlashed(parts);
    FilledBound(segs, vars);
  }
}
