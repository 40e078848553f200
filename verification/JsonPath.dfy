/** JSONPath evaluation over a decoded document: the reference side of the byte scanner. */
module JsonPath {
  import opened Bytes
  import opened JsonGrammar

  /**
   A compiled step. `Branching` stands for every step that makes a path indefinite:
   wildcard, descent, slice, filter and index union.
   */
  datatype Step<!N> =
    | Child(name: bytes)
    | Index(index: int)
    | Length(render: nat -> N)
    | UnionName(names: seq<bytes>, merge: bool)
    | Branching(select: Json<N> -> seq<Json<N>>)

  datatype Path<!N> = Path(steps: seq<Step<N>>, definite: bool, scannable: bool)

  datatype Result<N> = Result(found: bool, definite: bool, node: Option<Json<N>>, hits: seq<Json<N>>)

  // ----- compilation: the shape flags -----

  predicate MergesAt<N>(steps: seq<Step<N>>, i: nat)
    requires i < |steps|
  {
    forall j :: i < j < |steps| ==> steps[j].Length?
  }

  /** Each name union carries the flag its place in the path gives it. */
  predicate UnionsMarked<N>(steps: seq<Step<N>>) {
    forall i :: 0 <= i < |steps| ==> steps[i].UnionName? ==> (steps[i].merge <==> MergesAt(steps, i))
  }

  predicate SelectsOne<N>(s: Step<N>) {
    s.Child? || s.Index? || s.Length? || (s.UnionName? && s.merge)
  }

  predicate Definite<N>(steps: seq<Step<N>>) { forall i :: 0 <= i < |steps| ==> SelectsOne(steps[i]) }

  predicate ScannerTakes<N>(s: Step<N>) { s.Child? || (s.Index? && s.index >= 0) }

  predicate Scannable<N>(steps: seq<Step<N>>) { forall i :: 0 <= i < |steps| ==> ScannerTakes(steps[i]) }

  predicate WellFormedPath<N>(p: Path<N>) {
    UnionsMarked(p.steps) && (p.definite <==> Definite(p.steps)) && (p.scannable <==> Scannable(p.steps))
  }

  method MarkMergingUnions<N>(steps: seq<Step<N>>) returns (marked: seq<Step<N>>)
    ensures |marked| == |steps| && UnionsMarked(marked)
    ensures forall i :: 0 <= i < |steps| ==>
              if steps[i].UnionName? then marked[i] == steps[i].(merge := MergesAt(steps, i)) else marked[i] == steps[i]
    ensures forall i :: 0 <= i < |steps| && marked[i].UnionName? ==>
              (marked[i].merge <==> !exists j :: i < j < |steps| && !steps[j].Length?)
  {
    marked := steps;
    for i := 0 to |steps|
      invariant |marked| == |steps|
      invariant forall k :: i <= k < |steps| ==> marked[k] == steps[k]
      invariant forall k :: 0 <= k < i ==>
                  if steps[k].UnionName? then marked[k] == steps[k].(merge := MergesAt(steps, k)) else marked[k] == steps[k]
    {
      if marked[i].UnionName? {
        var merge := true;
        var j := i + 1;
        while j < |steps|
          invariant i < j <= |steps|
          invariant merge <==> forall k :: i < k < j ==> steps[k].Length?
        {
          if !marked[j].Length? {
            merge := false;
            break;
          }
          j := j + 1;
        }
        marked := marked[i := marked[i].(merge := merge)];
      }
    }
    forall i | 0 <= i < |steps| && marked[i].UnionName?
      ensures MergesAt(marked, i) == MergesAt(steps, i)
    {
      assert forall j :: i < j < |steps| ==> marked[j].Length? == steps[j].Length?;
    }
  }

  method SelectsAtMostOneNode<N>(steps: seq<Step<N>>) returns (b: bool)
    ensures b <==> Definite(steps)
    ensures b <==> forall i :: 0 <= i < |steps| ==> !steps[i].Branching? && (steps[i].UnionName? ==> steps[i].merge)
  {
    for i := 0 to |steps|
      invariant forall k :: 0 <= k < i ==> SelectsOne(steps[k])
    {
      if !(steps[i].Child? || steps[i].Index? || steps[i].Length?) {
        if !steps[i].UnionName? || !steps[i].merge { return false; }
      }
    }
    return true;
  }

  method StepsTheScannerTakes<N>(steps: seq<Step<N>>) returns (b: bool)
    ensures b <==> Scannable(steps)
    ensures b <==> forall i :: 0 <= i < |steps| ==> steps[i].Child? || (steps[i].Index? && steps[i].index >= 0)
  {
    for i := 0 to |steps|
      invariant forall k :: 0 <= k < i ==> ScannerTakes(steps[k])
    {
      match steps[i]
      case Child(_) =>
      case Index(index) => if index < 0 { return false; }
      case _ => return false;
    }
    return true;
  }

  /** The end of compilation, once the expression is parsed into steps. */
  method CompileSteps<N>(steps: seq<Step<N>>) returns (p: Path<N>)
    ensures |p.steps| == |steps| && WellFormedPath(p)
  {
    var marked := MarkMergingUnions(steps);
    var definite := SelectsAtMostOneNode(marked);
    var takes := StepsTheScannerTakes(marked);
    assert Scannable(marked) ==> Definite(marked);
    p := Path(marked, definite, definite && takes);
  }

  // ----- evaluation -----

  function Resolve(i: int, n: nat): int { if i < 0 then i + n else i }

  function Apply<N>(st: Step<N>, node: Json<N>): seq<Json<N>> {
    match st
    case Child(name) => if node.JObj? && name in node.members then [node.members[name]] else []
    case Index(i) =>
      if node.JArr? && 0 <= Resolve(i, |node.elems|) < |node.elems| then [node.elems[Resolve(i, |node.elems|)]] else []
    case Length(render) =>
      if node.JArr? then [JNum(render(|node.elems|))]
      else if node.JObj? then [JNum(render(|node.members|))]
      else []
    case UnionName(names, merge) =>
      if !node.JObj? then []
      else if merge then [JObj(map k | k in node.members && k in names :: node.members[k])]
      else PickNames(names, node.members)
    case Branching(select) => select(node)
  }

  function PickNames<N>(names: seq<bytes>, members: map<bytes, Json<N>>): seq<Json<N>> {
    if names == [] then []
    else (if names[0] in members then [members[names[0]]] else []) + PickNames(names[1..], members)
  }

  function ApplyAll<N>(st: Step<N>, nodes: seq<Json<N>>): seq<Json<N>> {
    if nodes == [] then [] else ApplyAll(st, nodes[..|nodes| - 1]) + Apply(st, nodes[|nodes| - 1])
  }

  function Walk<N>(steps: seq<Step<N>>, nodes: seq<Json<N>>): seq<Json<N>> {
    if steps == [] then nodes else ApplyAll(steps[|steps| - 1], Walk(steps[..|steps| - 1], nodes))
  }

  /** What an evaluation of the whole path returns. */
  function EvalResult<N>(p: Path<N>, doc: Json<N>): Result<N> {
    var nodes := Walk(p.steps, [doc]);
    if p.definite then
      if nodes == [] then Result(false, true, None, []) else Result(true, true, Some(nodes[0]), [])
    else Result(nodes != [], false, None, nodes)
  }

  lemma {:induction false} WalkFromNothing<N>(steps: seq<Step<N>>, k: nat, nodes: seq<Json<N>>)
    requires k <= |steps| && Walk(steps[..k], nodes) == []
    ensures Walk(steps, nodes) == []
    decreases |steps| - k
  {
    if k < |steps| {
      assert steps[..k + 1][..k] == steps[..k];
      WalkFromNothing(steps, k + 1, nodes);
    } else {
      assert steps[..k] == steps;
    }
  }

  method Eval<N>(p: Path<N>, doc: Json<N>) returns (r: Result<N>)
    ensures r == EvalResult(p, doc)
  {
    hide Apply;
    var current := [doc];
    var i := 0;
    while i < |p.steps|
      invariant 0 <= i <= |p.steps|
      invariant current == Walk(p.steps[..i], [doc])
    {
      var next := [];
      for k := 0 to |current|
        invariant next == ApplyAll(p.steps[i], current[..k])
      {
        assert current[..k + 1][..k] == current[..k];
        next := next + Apply(p.steps[i], current[k]);
      }
      assert current[..|current|] == current;
      assert p.steps[..i + 1][..i] == p.steps[..i];
      current := next;
      i := i + 1;
      if current == [] {
        break;
      }
    }
    if current == [] {
      WalkFromNothing(p.steps, i, [doc]);
    } else {
      assert p.steps[..i] == p.steps;
    }
    if p.definite {
      if current == [] {
        return Result(false, true, None, []);
      }
      return Result(true, true, Some(current[0]), []);
    }
    return Result(current != [], false, None, current);
  }

  predicate NonEmptyNode<N>(v: Json<N>) {
    match v
    case JNull => false
    case JArr(elems) => |elems| > 0
    case JObj(members) => |members| > 0
    case _ => true
  }

  predicate Matches<N>(r: Result<N>) {
    r.found && (if r.definite then r.node.Some? && NonEmptyNode(r.node.value) else |r.hits| > 0)
  }

  // ----- what definiteness and scannability buy -----

  /** A definite path selects at most one node of any document. */
  lemma {:induction false} DefiniteSelectsAtMostOne<N>(steps: seq<Step<N>>, doc: Json<N>)
    requires Definite(steps)
    ensures |Walk(steps, [doc])| <= 1
  {
    if steps != [] {
      var init := steps[..|steps| - 1];
      DefiniteSelectsAtMostOne(init, doc);
      var nodes := Walk(init, [doc]);
      assert SelectsOne(steps[|steps| - 1]);
      if nodes != [] {
        assert nodes[..|nodes| - 1] == [];
        assert ApplyAll(steps[|steps| - 1], nodes[..|nodes| - 1]) == [];
      }
    }
  }

  /** The node a path of member names and forward indexes selects, step by step inwards. */
  function Select<N>(steps: seq<Step<N>>, v: Json<N>): Option<Json<N>>
    requires Scannable(steps)
  {
    if steps == [] then Some(v)
    else match steps[0]
         case Child(name) => if v.JObj? && name in v.members then Select(steps[1..], v.members[name]) else None
         case Index(i) => if v.JArr? && i < |v.elems| then Select(steps[1..], v.elems[i]) else None
         case _ => None
  }

  lemma {:induction false} SelectThenStep<N>(steps: seq<Step<N>>, v: Json<N>)
    requires Scannable(steps) && steps != []
    ensures var init := steps[..|steps| - 1]; var last := steps[|steps| - 1];
            Select(steps, v) == match Select(init, v) case None => None case Some(x) => Select([last], x)
  {
    if |steps| == 1 {
      assert steps == [steps[0]];
    } else {
      var init := steps[..|steps| - 1];
      assert init[1..] == steps[1..][..|steps| - 2];
      match steps[0]
      case Child(name) => if v.JObj? && name in v.members { SelectThenStep(steps[1..], v.members[name]); }
      case Index(i) => if v.JArr? && i < |v.elems| { SelectThenStep(steps[1..], v.elems[i]); }
      case _ =>
    }
  }

  /** On a scannable path the list evaluation returns exactly the node selected. */
  lemma {:induction false} WalkIsSelect<N>(steps: seq<Step<N>>, doc: Json<N>)
    requires Scannable(steps)
    ensures Walk(steps, [doc]) == match Select(steps, doc) case None => [] case Some(v) => [v]
  {
    if steps != [] {
      var init := steps[..|steps| - 1];
      var last := steps[|steps| - 1];
      WalkIsSelect(init, doc);
      SelectThenStep(steps, doc);
      if Select(init, doc).Some? {
        var x := Select(init, doc).value;
        assert [x][..|[x]| - 1] == [];
        assert ApplyAll(last, [x]) == ApplyAll(last, []) + Apply(last, x);
        assert [last][1..] == [];
      }
    }
  }

  // ----- what a path selects, node by node -----

  /** The step leads from one node into another: a member by name, or an element by position. */
  predicate LeadsTo<N(==)>(st: Step<N>, from: Json<N>, to: Json<N>) {
    match st
    case Child(name) => from.JObj? && name in from.members && from.members[name] == to
    case Index(i) => from.JArr? && 0 <= i < |from.elems| && from.elems[i] == to
    case _ => false
  }

  /** The nodes from the document inwards to what is selected. */
  predicate Trail<N(==)>(steps: seq<Step<N>>, nodes: seq<Json<N>>) {
    |nodes| == |steps| + 1 && forall k :: 0 <= k < |steps| ==> LeadsTo(steps[k], nodes[k], nodes[k + 1])
  }

  /** The steps lead from the document to this node. */
  ghost predicate Reaches<N(!new)>(steps: seq<Step<N>>, doc: Json<N>, x: Json<N>) {
    exists nodes :: Trail(steps, nodes) && nodes[0] == doc && nodes[|steps|] == x
  }

  lemma {:induction false} SelectReaches<N(!new)>(steps: seq<Step<N>>, doc: Json<N>, x: Json<N>)
    requires Scannable(steps)
    ensures Select(steps, doc) == Some(x) <==> Reaches(steps, doc, x)
  {
    if steps == [] {
      assert Trail(steps, [doc]);
    } else {
      if Select(steps, doc) == Some(x) {
        var y := Apply(steps[0], doc)[0];
        SelectReaches(steps[1..], y, x);
        ReachesFirst(steps, doc, y, x);
      }
      if Reaches(steps, doc, x) {
        var nodes :| Trail(steps, nodes) && nodes[0] == doc && nodes[|steps|] == x;
        assert LeadsTo(steps[0], nodes[0], nodes[1]) && nodes[1..][0] == nodes[1];
        TrailRest(steps, nodes);
        SelectReaches(steps[1..], nodes[1], x);
      }
    }
  }

  lemma TrailRest<N(!new)>(steps: seq<Step<N>>, nodes: seq<Json<N>>)
    requires steps != [] && Trail(steps, nodes)
    ensures Trail(steps[1..], nodes[1..])
  {
    hide LeadsTo;
    forall k | 0 <= k < |steps| - 1 ensures LeadsTo(steps[1..][k], nodes[1..][k], nodes[1..][k + 1]) {
      assert LeadsTo(steps[k + 1], nodes[k + 1], nodes[k + 2]);
    }
  }

  lemma ReachesFirst<N(!new)>(steps: seq<Step<N>>, doc: Json<N>, y: Json<N>, x: Json<N>)
    requires steps != [] && LeadsTo(steps[0], doc, y) && Reaches(steps[1..], y, x)
    ensures Reaches(steps, doc, x)
  {
    hide LeadsTo;
    var nodes :| Trail(steps[1..], nodes) && nodes[0] == y && nodes[|steps| - 1] == x;
    var longer := [doc] + nodes;
    forall k | 0 <= k < |steps| ensures LeadsTo(steps[k], longer[k], longer[k + 1]) {
      if k > 0 { assert LeadsTo(steps[1..][k - 1], nodes[k - 1], nodes[k]); }
    }
    assert Trail(steps, longer) && longer[|steps|] == x;
  }

  /** What the steps select inside one node, the nodes of its first step taken one after the other. */
  function Inward<N>(steps: seq<Step<N>>, node: Json<N>): seq<Json<N>>
    decreases |steps|, 0
  {
    if steps == [] then [node] else InwardAll(steps[1..], Apply(steps[0], node))
  }

  function InwardAll<N>(steps: seq<Step<N>>, nodes: seq<Json<N>>): seq<Json<N>>
    decreases |steps|, 1, |nodes|
  {
    if nodes == [] then [] else Inward(steps, nodes[0]) + InwardAll(steps, nodes[1..])
  }

  lemma {:induction false} ApplyAllConcat<N>(st: Step<N>, a: seq<Json<N>>, b: seq<Json<N>>)
    ensures ApplyAll(st, a + b) == ApplyAll(st, a) + ApplyAll(st, b)
  {
    hide Apply;
    if b == [] {
      assert a + b == a;
    } else {
      var n := |b| - 1;
      assert (a + b)[..|a + b| - 1] == a + b[..n];
      ApplyAllConcat(st, a, b[..n]);
    }
  }

  lemma ApplyAllFirst<N>(st: Step<N>, nodes: seq<Json<N>>)
    requires nodes != []
    ensures ApplyAll(st, nodes) == Apply(st, nodes[0]) + ApplyAll(st, nodes[1..])
  {
    hide Apply;
    ApplyAllConcat(st, [nodes[0]], nodes[1..]);
    assert [nodes[0]] + nodes[1..] == nodes && [nodes[0]][..0] == [];
    assert ApplyAll(st, [nodes[0]]) == ApplyAll(st, []) + Apply(st, nodes[0]);
  }

  lemma {:induction false} OnlyApplied<N>(st: Step<N>, nodes: seq<Json<N>>)
    ensures InwardAll([st], nodes) == ApplyAll(st, nodes)
  {
    hide Apply;
    if nodes != [] {
      OnlyApplied(st, nodes[1..]);
      ApplyAllFirst(st, nodes);
      Themselves(Apply(st, nodes[0]));
      assert [st][1..] == [];
    }
  }

  lemma {:induction false} Themselves<N>(nodes: seq<Json<N>>)
    ensures InwardAll([], nodes) == nodes
  {
    if nodes != [] { Themselves(nodes[1..]); }
  }

  lemma {:induction false} LastApplied<N>(steps: seq<Step<N>>, nodes: seq<Json<N>>)
    requires steps != []
    ensures InwardAll(steps, nodes) == ApplyAll(steps[|steps| - 1], InwardAll(steps[..|steps| - 1], nodes))
    decreases |steps|, |nodes|
  {
    hide Apply;
    var n := |steps| - 1;
    if n == 0 {
      assert steps == [steps[0]];
      OnlyApplied(steps[0], nodes);
      Themselves(nodes);
    } else if nodes != [] {
      var init := steps[..n];
      LastApplied(steps, nodes[1..]);
      LastApplied(steps[1..], Apply(steps[0], nodes[0]));
      assert steps[1..][..n - 1] == init[1..];
      ApplyAllConcat(steps[n], Inward(init, nodes[0]), InwardAll(init, nodes[1..]));
    }
  }

  /** The step-by-step walk of all nodes collects what going inwards from each does, in that order. */
  lemma {:induction false} WalkIsInward<N>(steps: seq<Step<N>>, nodes: seq<Json<N>>)
    ensures Walk(steps, nodes) == InwardAll(steps, nodes)
  {
    if steps == [] {
      Themselves(nodes);
    } else {
      WalkIsInward(steps[..|steps| - 1], nodes);
      LastApplied(steps, nodes);
    }
  }

  /** What the bare form takes for something: any value but null and an empty collection. */
  lemma MatchesMeans<N(!new)>(p: Path<N>, doc: Json<N>)
    requires WellFormedPath(p)
    ensures p.definite ==>
              (Matches(EvalResult(p, doc)) <==>
               exists x :: Walk(p.steps, [doc]) == [x] && x != JNull && x != JArr([]) && x != JObj(map[]))
    ensures !p.definite ==> (Matches(EvalResult(p, doc)) <==> Walk(p.steps, [doc]) != [])
  {
    var nodes := Walk(p.steps, [doc]);
    hide Walk;
    if p.definite {
      DefiniteSelectsAtMostOne(p.steps, doc);
      assert nodes != [] ==> nodes == [nodes[0]];
    }
  }

  /** An index counts from the front, or where negative from the end, and selects nothing past either. */
  lemma IndexSelects<N>(elems: seq<Json<N>>, i: nat)
    ensures Apply(Index(i), JArr(elems)) == if i < |elems| then [elems[i]] else []
    ensures Apply(Index(-1 - i), JArr(elems)) == if i < |elems| then [elems[|elems| - 1 - i]] else []
  {
  }

  /** length() is the number of indexes, or of names, that select something; a scalar has none. */
  lemma LengthCounts<N(!new)>(render: nat -> N, node: Json<N>)
    ensures node.JArr? ==> Apply(Length(render), node) == [JNum(render(|node.elems|))]
                           && forall i: nat :: i < |node.elems| <==> Apply(Index(i), node) != []
    ensures node.JObj? ==> Apply(Length(render), node) == [JNum(render(|node.members.Keys|))]
                           && forall name :: name in node.members.Keys <==> Apply(Child(name), node) != []
    ensures !node.JArr? && !node.JObj? ==> Apply(Length(render), node) == []
  {
  }

  /**
   A name union selects what its names select one after the other; a merged one selects a
   single object, in which each of its names finds what it finds in the node, and no other does.
   */
  lemma UnionSelects<N(!new)>(names: seq<bytes>, node: Json<N>)
    ensures Apply(UnionName(names, false), node) ==
            if names == [] then [] else Apply(Child(names[0]), node) + Apply(UnionName(names[1..], false), node)
    ensures node.JObj? <==> Apply(UnionName(names, true), node) != []
    ensures node.JObj? ==> exists x: Json<N> ::
              Apply(UnionName(names, true), node) == [x] && x.JObj?
              && forall name :: Apply(Child(name), x) == if name in names then Apply(Child(name), node) else []
  {
    if node.JObj? {
      var x := Apply(UnionName(names, true), node)[0];
      assert forall name :: Apply(Child(name), x) == if name in names then Apply(Child(name), node) else [];
    }
  }
}
