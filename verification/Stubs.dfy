/** Compiled stubs, requests, and the order in which stubs are tried. */
module Stubs {
  import opened Bytes
  import opened PathTemplate

  // ----- stubs and requests -----

  /** A request as a criterion sees it. */
  datatype Request = Request(httpMethod: bytes, path: bytes, fullURL: bytes, headers: map<bytes, seq<bytes>>, body: bytes)

  datatype Url =
    | AnyUrl
    | ExactFull(literal: bytes)
    | ExactPath(literal: bytes)
    | PatternFull(prefix: bytes, regex: bytes -> bool)
    | PatternPath(prefix: bytes, regex: bytes -> bool)
    | Templated(template: Template)

  /** A criterion beyond method and URL, over the request or over one path variable. */
  datatype Check = OnRequest(test: Request -> bool) | OnPathVar(name: bytes, holds: Option<bytes> -> bool)

  datatype ScenarioRef = ScenarioRef(name: bytes, requiredState: bytes, newState: bytes)

  datatype Response = Response(bodyFileName: bytes, bodyFileMissing: bool, body: bytes)

  /** An empty method is any method. */
  datatype Stub = Stub(id: bytes, priority: int, seqNo: nat, persistent: bool, httpMethod: bytes, url: Url,
                       checks: seq<Check>, scenario: Option<ScenarioRef>, response: Response)

  /** Registration demands a template for path parameters to bind against. */
  ghost predicate WellFormed(cs: Stub) {
    match cs.url
    case Templated(t) => IsTemplate(t)
    case _ => forall k :: 0 <= k < |cs.checks| ==> cs.checks[k].OnRequest?
  }

  ghost predicate AllWellFormed(stubs: seq<Stub>) {
    forall k :: 0 <= k < |stubs| ==> WellFormed(stubs[k])
  }

  // ----- selection order -----

  /** a is tried strictly before b: lower priority number first, newest first within one. */
  predicate Before(a: Stub, b: Stub) {
    a.priority < b.priority || (a.priority == b.priority && a.seqNo > b.seqNo)
  }

  predicate InOrder(s: seq<Stub>) {
    forall i, k :: 0 <= i < k < |s| ==> !Before(s[k], s[i])
  }

  /** After every element it does not precede, which is what keeps the sort stable. */
  function Insert(s: seq<Stub>, x: Stub): (r: seq<Stub>)
    ensures |r| == |s| + 1
  {
    if s == [] then [x]
    else if Before(x, s[|s| - 1]) then Insert(s[..|s| - 1], x) + [s[|s| - 1]]
    else s + [x]
  }

  function Sorted(s: seq<Stub>): (r: seq<Stub>)
    ensures |r| == |s|
  {
    if s == [] then [] else Insert(Sorted(s[..|s| - 1]), s[|s| - 1])
  }

  lemma {:induction false} InsertContents(s: seq<Stub>, x: Stub)
    ensures multiset(Insert(s, x)) == multiset(s) + multiset{x}
  {
    if s != [] && Before(x, s[|s| - 1]) {
      InsertContents(s[..|s| - 1], x);
      assert s == s[..|s| - 1] + [s[|s| - 1]];
    }
  }

  lemma {:induction false} SortedContents(s: seq<Stub>)
    ensures multiset(Sorted(s)) == multiset(s)
  {
    if s != [] {
      SortedContents(s[..|s| - 1]);
      InsertContents(Sorted(s[..|s| - 1]), s[|s| - 1]);
      assert s == s[..|s| - 1] + [s[|s| - 1]];
    }
  }

  lemma InsertElement(s: seq<Stub>, x: Stub, k: nat)
    requires k <= |s|
    ensures Insert(s, x)[k] == x || Insert(s, x)[k] in s
  {
    InsertContents(s, x);
    assert Insert(s, x)[k] in multiset(Insert(s, x));
  }

  lemma {:induction false} InsertInOrder(s: seq<Stub>, x: Stub)
    requires InOrder(s)
    ensures InOrder(Insert(s, x))
  {
    var r := Insert(s, x);
    if s != [] {
      var n := |s| - 1;
      var last := s[n];
      if Before(x, last) {
        InsertInOrder(s[..n], x);
        forall i | 0 <= i < |r| - 1 ensures !Before(last, r[i]) {
          InsertElement(s[..n], x, i);
          assert r[i] == Insert(s[..n], x)[i];
        }
      }
    }
  }

  lemma {:induction false} SortedInOrder(s: seq<Stub>)
    ensures InOrder(Sorted(s))
  {
    if s != [] {
      SortedInOrder(s[..|s| - 1]);
      InsertInOrder(Sorted(s[..|s| - 1]), s[|s| - 1]);
    }
  }

  /** Elements neither of which precedes the other. */
  predicate Tied(a: Stub, b: Stub) { a.priority == b.priority && a.seqNo == b.seqNo }

  function TiedWith(s: seq<Stub>, x: Stub): seq<Stub> {
    if s == [] then []
    else TiedWith(s[..|s| - 1], x) + if Tied(s[|s| - 1], x) then [s[|s| - 1]] else []
  }

  lemma {:induction false} InsertKeepsTies(s: seq<Stub>, x: Stub, y: Stub)
    requires InOrder(s)
    ensures TiedWith(Insert(s, x), y) == TiedWith(s, y) + if Tied(x, y) then [x] else []
  {
    var r, n := Insert(s, x), |s| - 1;
    if s != [] && Before(x, s[n]) {
      InsertKeepsTies(s[..n], x, y);
      assert r[..|r| - 1] == Insert(s[..n], x);
    } else {
      assert r[..|r| - 1] == s;
    }
  }

  /** The sort is stable: tied elements keep the order they came in. */
  lemma {:induction false} SortedStable(s: seq<Stub>, y: Stub)
    ensures TiedWith(Sorted(s), y) == TiedWith(s, y)
  {
    if s != [] {
      SortedStable(s[..|s| - 1], y);
      SortedInOrder(s[..|s| - 1]);
      InsertKeepsTies(Sorted(s[..|s| - 1]), s[|s| - 1], y);
    }
  }

  // ----- with distinct sequence numbers the input order is irrelevant -----

  predicate DistinctSeq(s: seq<Stub>) {
    forall i, k :: 0 <= i < k < |s| ==> s[i].seqNo != s[k].seqNo
  }

  predicate DistinctIds(s: seq<Stub>) {
    forall i, k :: 0 <= i < k < |s| ==> s[i].id != s[k].id
  }

  ghost function Elements(s: seq<Stub>): set<Stub> { set k | 0 <= k < |s| :: s[k] }

  lemma SortedElements(s: seq<Stub>)
    ensures Elements(Sorted(s)) == Elements(s)
  {
    SortedContents(s);
    forall x ensures x in Elements(s) <==> x in Elements(Sorted(s)) {
      assert x in s <==> x in multiset(s);
      assert x in Sorted(s) <==> x in multiset(Sorted(s));
    }
  }

  /** Distinct ids and sequence numbers survive any rearrangement. */
  lemma {:induction false} RearrangedDistinct(s: seq<Stub>, t: seq<Stub>)
    requires multiset(s) == multiset(t) && DistinctSeq(s) && DistinctIds(s)
    ensures DistinctSeq(t) && DistinctIds(t)
  {
    forall i, k | 0 <= i < k < |t| ensures t[i].seqNo != t[k].seqNo && t[i].id != t[k].id {
      assert t[i] in multiset(t) && t[k] in multiset(t);
      var a :| 0 <= a < |s| && s[a] == t[i];
      var b :| 0 <= b < |s| && s[b] == t[k];
      if a == b {
        TwoCopies(t, i, k);
        OneCopy(s, a);
      } else if a < b {
      } else {
        assert b < a;
      }
    }
  }

  lemma TwoCopies(t: seq<Stub>, i: nat, k: nat)
    requires i < k < |t| && t[i] == t[k]
    ensures multiset(t)[t[i]] >= 2
  {
    var u := t[..k];
    assert t == u + [t[k]] + t[k + 1..];
    assert multiset(t) == multiset(u) + multiset{t[k]} + multiset(t[k + 1..]);
    assert t[i] == u[i] && u[i] in multiset(u);
  }

  lemma {:induction false} OneCopy(s: seq<Stub>, a: nat)
    requires DistinctSeq(s) && a < |s|
    ensures multiset(s)[s[a]] == 1
  {
    assert s == s[..a] + [s[a]] + s[a + 1..];
    assert multiset(s) == multiset(s[..a]) + multiset{s[a]} + multiset(s[a + 1..]);
    assert s[a] !in s[..a] && s[a] !in s[a + 1..];
  }

  lemma {:induction false} OrderUnique(s: seq<Stub>, t: seq<Stub>)
    requires InOrder(s) && InOrder(t) && DistinctSeq(s) && DistinctSeq(t) && Elements(s) == Elements(t)
    ensures s == t
  {
    assert (s != [] ==> s[0] in Elements(s)) && (t != [] ==> t[0] in Elements(t));
    if s != [] && t != [] {
      assert s[0] in Elements(t) && t[0] in Elements(s);
      var a :| 0 <= a < |t| && t[a] == s[0];
      var b :| 0 <= b < |s| && s[b] == t[0];
      assert s[0] == t[0];
      RestElements(s);
      RestElements(t);
      OrderUnique(s[1..], t[1..]);
    }
  }

  lemma RestElements(s: seq<Stub>)
    requires s != [] && DistinctSeq(s)
    ensures Elements(s[1..]) == Elements(s) - {s[0]}
  {
    forall x | x in Elements(s) - {s[0]} ensures x in Elements(s[1..]) {
      var k :| 0 <= k < |s| && s[k] == x;
      assert s[1..][k - 1] == x;
    }
  }

  /** Distinct ids survive the sort. */
  lemma SortedDistinctIds(s: seq<Stub>)
    requires DistinctIds(s)
    ensures DistinctIds(Sorted(s))
  {
    SortedContents(s);
    forall i, k | 0 <= i < k < |s| ensures Sorted(s)[i].id != Sorted(s)[k].id {
      ApartIds(s, Sorted(s), i, k);
    }
  }

  lemma {:induction false} IdCount(s: seq<Stub>, x: Stub)
    requires DistinctIds(s)
    ensures multiset(s)[x] <= 1
    ensures forall y :: y in s && x in s && y.id == x.id ==> y == x
  {
    if s != [] {
      var n := |s| - 1;
      IdCount(s[..n], x);
      assert s == s[..n] + [s[n]];
    }
  }

  lemma ApartIds(s: seq<Stub>, t: seq<Stub>, i: nat, k: nat)
    requires DistinctIds(s) && multiset(t) == multiset(s) && i < k < |t|
    ensures t[i].id != t[k].id
  {
    assert t[i] in multiset(t) && t[k] in multiset(t);
    assert t[i] in s && t[k] in s;
    IdCount(s, t[i]);
    if t[i] == t[k] { TwoCopies(t, i, k); }
  }

  /** The same stubs, in whatever order they arrive, sort to one list. */
  lemma SortedOfElements(s: seq<Stub>, t: seq<Stub>)
    requires DistinctSeq(s) && DistinctIds(s) && DistinctSeq(t) && DistinctIds(t) && Elements(s) == Elements(t)
    ensures Sorted(s) == Sorted(t)
  {
    SortedContents(s);
    SortedContents(t);
    SortedElements(s);
    SortedElements(t);
    SortedInOrder(s);
    SortedInOrder(t);
    RearrangedDistinct(s, Sorted(s));
    RearrangedDistinct(t, Sorted(t));
    OrderUnique(Sorted(s), Sorted(t));
  }
}
