/** Levenshtein distance on two rows, and the scripts it counts. */
module EditDistance {
  import opened Bytes

  // ----- scripts -----

  datatype Edit = Insert(at: nat, c: byte) | Delete(at: nat) | Substitute(at: nat, c: byte)

  function Apply(s: bytes, e: Edit): Option<bytes> {
    match e
    case Insert(at, c) => if at <= |s| then Some(s[..at] + [c] + s[at..]) else None
    case Delete(at) => if at < |s| then Some(s[..at] + s[at + 1..]) else None
    case Substitute(at, c) => if at < |s| then Some(s[..at] + [c] + s[at + 1..]) else None
  }

  /** The edits, in order, turn a into b. */
  predicate Turns(a: bytes, script: seq<Edit>, b: bytes)
    decreases script
  {
    if script == [] then a == b
    else Apply(a, script[0]).Some? && Turns(Apply(a, script[0]).value, script[1..], b)
  }

  // ----- distance -----

  function Min(a: nat, b: nat): nat { if b < a then b else a }

  function Max(a: nat, b: nat): nat { if b > a then b else a }

  function Cost(a: bytes, b: bytes): nat
    requires a != [] && b != []
  {
    if a[|a| - 1] == b[|b| - 1] then 0 else 1
  }

  function Butlast(s: bytes): bytes
    requires s != []
  {
    s[..|s| - 1]
  }

  function Lev(a: bytes, b: bytes): nat
    decreases |a| + |b|
  {
    if a == [] then |b|
    else if b == [] then |a|
    else Min(Min(Lev(a, Butlast(b)) + 1, Lev(Butlast(a), b) + 1), Lev(Butlast(a), Butlast(b)) + Cost(a, b))
  }

  /** Two rows, swapped. */
  method EditDistance(a: bytes, b: bytes) returns (d: nat)
    ensures d == Lev(a, b)
  {
    hide Lev;
    var prev, curr := new nat[|b| + 1], new nat[|b| + 1];
    for j := 0 to prev.Length
      invariant forall h :: 0 <= h < j ==> prev[h] == Lev([], b[..h])
    {
      LevEmpty(b[..j]);
      prev[j] := j;
    }
    assert a[..0] == [];
    for i := 1 to |a| + 1
      invariant prev != curr && prev.Length == curr.Length == |b| + 1 && fresh(prev) && fresh(curr)
      invariant forall h :: 0 <= h <= |b| ==> prev[h] == Lev(a[..i - 1], b[..h])
    {
      curr[0] := i;
      LevEmpty(a[..i]);
      assert b[..0] == [];
      for j := 1 to |b| + 1
        modifies curr
        invariant forall h :: 0 <= h < j ==> curr[h] == Lev(a[..i], b[..h])
      {
        var cost := if a[i - 1] == b[j - 1] then 0 else 1;
        LevStep(a, b, i, j);
        curr[j] := Min(Min(curr[j - 1] + 1, prev[j] + 1), prev[j - 1] + cost);
      }
      prev, curr := curr, prev;
    }
    assert a[..|a|] == a && b[..|b|] == b;
    return prev[|b|];
  }

  lemma LevEmpty(s: bytes)
    ensures Lev([], s) == |s| && Lev(s, []) == |s|
  {
  }

  lemma LevStep(a: bytes, b: bytes, i: nat, j: nat)
    requires 1 <= i <= |a| && 1 <= j <= |b|
    ensures Lev(a[..i], b[..j]) == Min(Min(Lev(a[..i], b[..j - 1]) + 1, Lev(a[..i - 1], b[..j]) + 1),
                                       Lev(a[..i - 1], b[..j - 1]) + if a[i - 1] == b[j - 1] then 0 else 1)
  {
    hide Lev;
    LevUnfold(a[..i], b[..j]);
    assert Butlast(a[..i]) == a[..i - 1] && Butlast(b[..j]) == b[..j - 1];
  }

  lemma LevUnfold(s: bytes, t: bytes)
    requires s != [] && t != []
    ensures Lev(s, t) == Min(Min(Lev(s, Butlast(t)) + 1, Lev(Butlast(s), t) + 1), Lev(Butlast(s), Butlast(t)) + Cost(s, t))
  {
    hide Min, Cost, Butlast;
  }

  // ----- no script is shorter -----

  /** One optional byte, in the middle of s. */
  predicate AtMostOne(u: bytes) { |u| <= 1 }

  lemma LevAppend(p: bytes, y: byte, b: bytes)
    ensures Lev(p + [y], b) <= Lev(p, b) + 1
  {
    assert Butlast(p + [y]) == p;
    if b == [] { LevEmpty(p); LevEmpty(p + [y]); }
  }

  lemma LevAppendBoth(p: bytes, y: byte, b: bytes)
    requires b != []
    ensures Lev(p + [y], b) <= Lev(p, Butlast(b)) + 1
    ensures Lev(p, b) <= Lev(p, Butlast(b)) + 1
  {
    assert Butlast(p + [y]) == p;
    if p == [] { LevEmpty(b); LevEmpty(Butlast(b)); }
  }

  lemma {:induction false} EndEdit(p: bytes, u: bytes, v: bytes, b: bytes)
    requires AtMostOne(u) && AtMostOne(v)
    ensures Lev(p + u, b) <= Lev(p + v, b) + 1
    decreases |b|
  {
    assert p + [] == p;
    if u != [] { LevAppend(p, u[0], b); }
    if b == [] {
      LevEmpty(p + u);
      LevEmpty(p + v);
    } else if v != [] {
      assert Butlast(p + v) == p;
      EndEdit(p, u, v, Butlast(b));
      LevAppendBoth(p, if u != [] then u[0] else 0, b);
      if p + u == [] { LevEmpty(b); LevEmpty(Butlast(b)); }
    }
  }

  /** Changing one place changes the distance by at most one. */
  lemma {:induction false} OneEdit(p: bytes, u: bytes, v: bytes, q: bytes, b: bytes)
    requires AtMostOne(u) && AtMostOne(v)
    ensures Lev(p + u + q, b) <= Lev(p + v + q, b) + 1
    decreases |q|, |b|
  {
    if q == [] {
      assert p + u + q == p + u && p + v + q == p + v;
      EndEdit(p, u, v, b);
    } else if b == [] {
      LevEmpty(p + u + q);
      LevEmpty(p + v + q);
    } else {
      var s, t, r := p + u + q, p + v + q, Butlast(q);
      assert Butlast(s) == p + u + r && Butlast(t) == p + v + r;
      OneEdit(p, u, v, r, b);
      OneEdit(p, u, v, r, Butlast(b));
      OneEdit(p, u, v, q, Butlast(b));
      assert s[|s| - 1] == q[|q| - 1] == t[|t| - 1];
    }
  }

  lemma ApplyClose(s: bytes, e: Edit, b: bytes)
    requires Apply(s, e).Some?
    ensures Lev(s, b) <= Lev(Apply(s, e).value, b) + 1
  {
    hide Lev;
    var t := Apply(s, e).value;
    match e
    case Insert(at, c) =>
      assert s == s[..at] + [] + s[at..];
      OneEdit(s[..at], [], [c], s[at..], b);
    case Delete(at) =>
      assert s == s[..at] + [s[at]] + s[at + 1..] && t == s[..at] + [] + s[at + 1..];
      OneEdit(s[..at], [s[at]], [], s[at + 1..], b);
    case Substitute(at, c) =>
      assert s == s[..at] + [s[at]] + s[at + 1..];
      OneEdit(s[..at], [s[at]], [c], s[at + 1..], b);
  }

  lemma {:induction false} LevSelf(a: bytes)
    ensures Lev(a, a) == 0
  {
    if a != [] { LevSelf(Butlast(a)); }
  }

  lemma {:induction false} NoShorterScript(a: bytes, script: seq<Edit>, b: bytes)
    requires Turns(a, script, b)
    ensures Lev(a, b) <= |script|
    decreases script
  {
    if script == [] {
      LevSelf(a);
    } else {
      ApplyClose(a, script[0], b);
      NoShorterScript(Apply(a, script[0]).value, script[1..], b);
    }
  }

  // ----- and one is that long -----

  lemma {:induction false} TurnsConcat(a: bytes, s: seq<Edit>, b: bytes, t: seq<Edit>, c: bytes)
    requires Turns(a, s, b) && Turns(b, t, c)
    ensures Turns(a, s + t, c)
    decreases s
  {
    if s == [] {
      assert s + t == t;
    } else {
      TurnsConcat(Apply(a, s[0]).value, s[1..], b, t, c);
      assert (s + t)[1..] == s[1..] + t;
    }
  }

  lemma ApplyBefore(a: bytes, e: Edit, z: byte)
    requires Apply(a, e).Some?
    ensures Apply(a + [z], e) == Some(Apply(a, e).value + [z])
  {
    var t, at := a + [z], e.at;
    assert t[..at] == a[..at];
    match e
    case Insert(_, c) =>
      assert t[at..] == a[at..] + [z];
      assert Apply(a, e).value + [z] == a[..at] + [c] + (a[at..] + [z]);
    case Delete(_) =>
      assert t[at + 1..] == a[at + 1..] + [z];
      assert Apply(a, e).value + [z] == a[..at] + (a[at + 1..] + [z]);
    case Substitute(_, c) =>
      assert t[at + 1..] == a[at + 1..] + [z];
      assert Apply(a, e).value + [z] == a[..at] + [c] + (a[at + 1..] + [z]);
  }

  /** A script works as well with one more byte behind. */
  lemma {:induction false} TurnsBefore(a: bytes, s: seq<Edit>, b: bytes, z: byte)
    requires Turns(a, s, b)
    ensures Turns(a + [z], s, b + [z])
    decreases s
  {
    if s != [] {
      var e := s[0];
      var next := Apply(a, e).value;
      ApplyBefore(a, e, z);
      TurnsBefore(next, s[1..], b, z);
    }
  }

  lemma TurnsOne(a: bytes, e: Edit)
    requires Apply(a, e).Some?
    ensures Turns(a, [e], Apply(a, e).value)
  {
    assert [e][1..] == [];
  }

  lemma ScriptByDelete(a: bytes, rest: seq<Edit>, b: bytes) returns (script: seq<Edit>)
    requires a != [] && Turns(Butlast(a), rest, b)
    ensures Turns(a, script, b) && |script| == |rest| + 1
  {
    var e := Delete(|a| - 1);
    assert Apply(a, e).value == Butlast(a);
    script := [e] + rest;
    assert script[1..] == rest;
  }

  lemma ScriptByInsert(a: bytes, rest: seq<Edit>, b: bytes) returns (script: seq<Edit>)
    requires b != [] && Turns(a, rest, Butlast(b))
    ensures Turns(a, script, b) && |script| == |rest| + 1
  {
    var e := Insert(|b| - 1, b[|b| - 1]);
    assert Apply(Butlast(b), e).value == b;
    TurnsOne(Butlast(b), e);
    TurnsConcat(a, rest, Butlast(b), [e], b);
    script := rest + [e];
  }

  lemma ScriptBySubstitute(a: bytes, rest: seq<Edit>, b: bytes) returns (script: seq<Edit>)
    requires a != [] && b != [] && Turns(Butlast(a), rest, Butlast(b))
    ensures Turns(a, script, b) && |script| == |rest| + Cost(a, b)
  {
    var y, z := a[|a| - 1], b[|b| - 1];
    TurnsBefore(Butlast(a), rest, Butlast(b), y);
    assert Butlast(a) + [y] == a && Butlast(b) + [z] == b;
    if y == z {
      script := rest;
    } else {
      var e := Substitute(|b| - 1, z);
      var mid := Butlast(b) + [y];
      assert mid[..|b| - 1] == Butlast(b) && mid[|b|..] == [];
      assert Apply(mid, e).value == b;
      TurnsOne(mid, e);
      TurnsConcat(a, rest, mid, [e], b);
      script := rest + [e];
    }
  }

  lemma {:induction false} ScriptOfLength(a: bytes, b: bytes) returns (script: seq<Edit>)
    ensures Turns(a, script, b) && |script| == Lev(a, b)
    decreases |a| + |b|
  {
    if a == [] && b == [] {
      script := [];
    } else if b == [] || (a != [] && Lev(a, b) == Lev(Butlast(a), b) + 1) {
      var rest := ScriptOfLength(Butlast(a), b);
      script := ScriptByDelete(a, rest, b);
      LevEmpty(Butlast(a));
    } else if a == [] || Lev(a, b) == Lev(a, Butlast(b)) + 1 {
      var rest := ScriptOfLength(a, Butlast(b));
      script := ScriptByInsert(a, rest, b);
      LevEmpty(Butlast(b));
    } else {
      var rest := ScriptOfLength(Butlast(a), Butlast(b));
      script := ScriptBySubstitute(a, rest, b);
    }
  }

  /** The distance is the length of the shortest script, no more and no less. */
  lemma LevIsShortest(a: bytes, b: bytes, n: nat)
    ensures Lev(a, b) <= n <==> exists script :: Turns(a, script, b) && |script| <= n
  {
    hide Lev;
    var best := ScriptOfLength(a, b);
    if script :| Turns(a, script, b) && |script| <= n { NoShorterScript(a, script, b); }
  }

  // ----- a metric -----

  lemma {:induction false} Symmetric(a: bytes, b: bytes)
    ensures Lev(a, b) == Lev(b, a)
    decreases |a| + |b|
  {
    if a != [] && b != [] {
      Symmetric(a, Butlast(b));
      Symmetric(Butlast(a), b);
      Symmetric(Butlast(a), Butlast(b));
    }
  }

  lemma Triangle(a: bytes, b: bytes, c: bytes)
    ensures Lev(a, c) <= Lev(a, b) + Lev(b, c)
  {
    hide Lev;
    var s := ScriptOfLength(a, b);
    var t := ScriptOfLength(b, c);
    TurnsConcat(a, s, b, t, c);
    NoShorterScript(a, s + t, c);
  }

  lemma ZeroIffEqual(a: bytes, b: bytes)
    ensures Lev(a, b) == 0 <==> a == b
  {
    var s := ScriptOfLength(a, b);
    if a == b { LevSelf(a); }
  }

  lemma {:induction false} AtMostLonger(a: bytes, b: bytes)
    ensures Lev(a, b) <= Max(|a|, |b|)
    decreases |a| + |b|
  {
    if a != [] && b != [] { AtMostLonger(Butlast(a), Butlast(b)); }
  }

  // ----- the normalized score -----

  const MAX_INPUT: nat := 512

  function Truncated(s: bytes): bytes { if |s| > MAX_INPUT then s[..MAX_INPUT] else s }

  /** The share of the longer operand that has to change, over what is compared of each. */
  function Score(a: bytes, b: bytes): real {
    var s, t := Truncated(a), Truncated(b);
    if s == t then 0.0 else Lev(s, t) as real / Max(|s|, |t|) as real
  }

  lemma EmptyScore(a: bytes, b: bytes)
    requires a != b && (a == [] || b == [])
    ensures Score(a, b) == 1.0
  {
    var s, t := Truncated(a), Truncated(b);
    LevEmpty(s);
    LevEmpty(t);
    var n := Max(|s|, |t|);
    assert Lev(s, t) == n > 0;
    assert n as real / n as real == 1.0;
  }

  method NormalizedEditDistance(a: bytes, b: bytes) returns (r: real)
    ensures r == Score(a, b)
  {
    hide Lev;
    if a == b { return 0.0; }
    if a == [] || b == [] {
      EmptyScore(a, b);
      return 1.0;
    }
    var s, t := a, b;
    if |s| > MAX_INPUT { s := s[..MAX_INPUT]; }
    if |t| > MAX_INPUT { t := t[..MAX_INPUT]; }
    var longest := |s|;
    if |t| > longest { longest := |t|; }
    var d := EditDistance(s, t);
    ZeroIffEqual(s, t);
    AtMostLonger(s, t);
    assert longest as real / longest as real == 1.0;
    if d >= longest { return 1.0; }
    return d as real / longest as real;
  }

  /** The score is a share, the same both ways, and zero only where nothing compared differs. */
  lemma ScoreIsShare(a: bytes, b: bytes)
    ensures 0.0 <= Score(a, b) <= 1.0 && Score(a, b) == Score(b, a)
    ensures Score(a, b) == 0.0 <==> Truncated(a) == Truncated(b)
  {
    hide Lev;
    var s, t := Truncated(a), Truncated(b);
    Symmetric(s, t);
    AtMostLonger(s, t);
    ZeroIffEqual(s, t);
    if s != t { Share(Lev(s, t), Max(|s|, |t|)); }
  }

  lemma Share(d: nat, n: nat)
    requires 0 < d <= n
    ensures 0.0 < d as real / n as real <= 1.0
  {
  }

  /** Different strings can score zero: those that differ only past what is compared. */
  lemma DifferYetZero()
    ensures exists a: bytes, b: bytes :: a != b && Score(a, b) == 0.0
  {
    var a: bytes := seq(MAX_INPUT + 1, _ => 97);
    var b := a[..MAX_INPUT] + [98];
    assert a[MAX_INPUT] == 97 && b[MAX_INPUT] == 98;
    assert Truncated(a) == a[..MAX_INPUT] == Truncated(b);
    assert Score(a, b) == 0.0;
  }

  /** The start of the string that is compared: all of it, or its first 512 bytes. */
  predicate Compared(whole: bytes, part: bytes) { part <= whole && (part == whole || (|part| == 512 && |whole| > 512)) && |part| <= 512 }

  /** The score times the longer of the compared parts is the length of a shortest script between them. */
  lemma ScoreTimesLonger(a: bytes, b: bytes, s: bytes, t: bytes, script: seq<Edit>, longer: nat)
    requires Compared(a, s) && Compared(b, t) && Turns(s, script, t)
    requires longer >= |s| && longer >= |t| && (longer == |s| || longer == |t|)
    requires forall other :: Turns(s, other, t) ==> |script| <= |other|
    ensures Score(a, b) * longer as real == |script| as real
  {
    hide Score, Lev;
    ScoreOf(a, b, s, t, longer);
    ShortestScript(s, t, script);
  }

  lemma ShortestScript(s: bytes, t: bytes, script: seq<Edit>)
    requires Turns(s, script, t) && forall other :: Turns(s, other, t) ==> |script| <= |other|
    ensures |script| == Lev(s, t)
  {
    hide Lev;
    var shortest := ScriptOfLength(s, t);
    NoShorterScript(s, script, t);
  }

  lemma ScoreOf(a: bytes, b: bytes, s: bytes, t: bytes, longer: nat)
    requires Compared(a, s) && Compared(b, t) && longer == Max(|s|, |t|)
    ensures Score(a, b) * longer as real == Lev(s, t) as real
  {
    hide Lev;
    assert s == Truncated(a) && t == Truncated(b);
    ZeroIffEqual(s, t);
    if s != t { Times(Lev(s, t), Max(|s|, |t|)); }
  }

  lemma Times(d: nat, n: nat)
    requires n > 0
    ensures d as real / n as real * n as real == d as real
  {
  }
}
