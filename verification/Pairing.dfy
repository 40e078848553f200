/** Bipartite matching by augmenting paths, with a Hall violator for every failure. */
module Pairing {

  /** `candidates[i]` lists the right-hand indexes, below `m`, that i may be paired with. */
  predicate Edges(candidates: seq<seq<nat>>, m: nat) {
    forall i, k :: 0 <= i < |candidates| && 0 <= k < |candidates[i]| ==> candidates[i][k] < m
  }

  predicate Injective(p: seq<nat>) {
    forall i, k :: 0 <= i < k < |p| ==> p[i] != p[k]
  }

  predicate IsPairing(p: seq<nat>, candidates: seq<seq<nat>>) {
    |p| == |candidates| && Injective(p) && forall i :: 0 <= i < |p| ==> p[i] in candidates[i]
  }

  ghost predicate Pairable(candidates: seq<seq<nat>>) {
    exists p :: IsPairing(p, candidates)
  }

  function Below(n: nat): (r: set<nat>)
    ensures forall k :: k in r <==> 0 <= k < n
  {
    if n == 0 then {} else Below(n - 1) + {n - 1}
  }

  lemma {:induction false} BelowCard(n: nat)
    ensures |Below(n)| == n
  {
    if n > 0 { BelowCard(n - 1); }
  }

  // ----- Hall's condition -----

  function Neighbours(candidates: seq<seq<nat>>, lefts: set<nat>): set<nat> {
    set i, k | i in lefts && 0 <= i < |candidates| && 0 <= k < |candidates[i]| :: candidates[i][k]
  }

  /** More left-hand elements than there are places any of them could go. */
  predicate HallViolator(candidates: seq<seq<nat>>, lefts: set<nat>) {
    (forall i :: i in lefts ==> i < |candidates|) && |Neighbours(candidates, lefts)| < |lefts|
  }

  lemma {:induction false} SubsetCard(a: set<nat>, b: set<nat>)
    requires a <= b
    ensures |a| <= |b|
  {
    assert b == a + (b - a);
    assert |a + (b - a)| == |a| + |b - a|;
  }

  lemma {:induction false} ImageCard(lefts: set<nat>, p: seq<nat>)
    requires Injective(p) && forall i :: i in lefts ==> i < |p|
    ensures |set i | i in lefts :: p[i]| == |lefts|
  {
    if lefts != {} {
      var i :| i in lefts;
      var rest := lefts - {i};
      ImageCard(rest, p);
      assert (set k | k in lefts :: p[k]) == (set k | k in rest :: p[k]) + {p[i]};
      assert p[i] !in (set k | k in rest :: p[k]);
    }
  }

  lemma HallRefutes(candidates: seq<seq<nat>>, lefts: set<nat>)
    requires HallViolator(candidates, lefts)
    ensures !Pairable(candidates)
  {
    forall p | IsPairing(p, candidates) ensures false {
      ImageCard(lefts, p);
      var image := set i | i in lefts :: p[i];
      forall x | x in image ensures x in Neighbours(candidates, lefts) {
        var i :| i in lefts && p[i] == x;
        var k :| 0 <= k < |candidates[i]| && candidates[i][k] == p[i];
      }
      SubsetCard(image, Neighbours(candidates, lefts));
    }
  }

  // ----- the state of a search -----

  /** Right-hand j is unpaired or paired along an edge. */
  predicate Matched(paired: seq<int>, candidates: seq<seq<nat>>) {
    forall j :: 0 <= j < |paired| ==> paired[j] == -1 || (0 <= paired[j] < |candidates| && j in candidates[paired[j]])
  }

  predicate InjectiveOutside(paired: seq<int>, visited: seq<bool>)
    requires |paired| == |visited|
  {
    forall j, k :: 0 <= j < k < |paired| && !visited[j] && !visited[k] && paired[j] != -1 ==> paired[j] != paired[k]
  }

  /** The left-hand elements paired with something not visited. */
  function PairedOutside(paired: seq<int>, visited: seq<bool>): set<int>
    requires |paired| == |visited|
  {
    set j | 0 <= j < |paired| && !visited[j] && paired[j] != -1 :: paired[j]
  }

  predicate Grows(before: seq<bool>, after: seq<bool>) {
    |before| == |after| && forall j :: 0 <= j < |before| && before[j] ==> after[j]
  }

  predicate AllVisited(s: seq<nat>, visited: seq<bool>) {
    forall k :: 0 <= k < |s| ==> s[k] < |visited| && visited[s[k]]
  }

  /** What a failed search leaves behind: whatever it reached is paired, and closed under candidates. */
  predicate Closed(paired: seq<int>, candidates: seq<seq<nat>>, before: seq<bool>, after: seq<bool>)
    requires |paired| == |before| == |after|
  {
    forall j :: 0 <= j < |paired| && after[j] && !before[j] ==>
      0 <= paired[j] < |candidates| && AllVisited(candidates[paired[j]], after)
  }

  function Unvisited(visited: seq<bool>): set<nat> {
    set j: nat | 0 <= j < |visited| && !visited[j]
  }

  lemma ClosedTrans(paired: seq<int>, candidates: seq<seq<nat>>, a: seq<bool>, b: seq<bool>, c: seq<bool>, j: nat)
    requires |paired| == |a| == |b| == |c| && Grows(a, b) && j < |b| && Grows(b[j := true], c)
    requires Closed(paired, candidates, a, b) && Closed(paired, candidates, b[j := true], c)
    requires 0 <= paired[j] < |candidates| && AllVisited(candidates[paired[j]], c)
    ensures Grows(a, c) && Closed(paired, candidates, a, c)
  {
    forall k | 0 <= k < |paired| && c[k] && !a[k]
      ensures 0 <= paired[k] < |candidates| && AllVisited(candidates[paired[k]], c)
    {
      if b[k] {
        assert AllVisited(candidates[paired[k]], b);
        forall h | 0 <= h < |candidates[paired[k]]| ensures c[candidates[paired[k]][h]] {
          assert b[j := true][candidates[paired[k]][h]];
        }
      } else if k != j {
        assert !b[j := true][k];
      }
    }
  }

  /** Re-pairing the head of a path: i takes j over, and j's owner has found another place. */
  lemma TakeOver(paired: seq<int>, before: seq<bool>, now: seq<bool>, j: nat, moved: seq<int>, i: int)
    requires |paired| == |before| == |now| == |moved| && Grows(before, now) && j < |paired| && !now[j]
    requires InjectiveOutside(paired, before) && i !in PairedOutside(paired, before) && i != -1 && paired[j] != -1
    requires forall k :: 0 <= k < |paired| && now[j := true][k] ==> moved[k] == paired[k]
    requires InjectiveOutside(moved, now[j := true])
    requires PairedOutside(moved, now[j := true]) == PairedOutside(paired, now[j := true]) + {paired[j]}
    ensures InjectiveOutside(moved[j := i], before)
    ensures PairedOutside(moved[j := i], before) == PairedOutside(paired, before) + {i}
  {
    var later := now[j := true];
    var next := moved[j := i];
    forall k | 0 <= k < |paired| && !before[k] && k != j && next[k] != -1
      ensures next[k] != i && next[k] in PairedOutside(paired, before)
    {
      if later[k] {
        assert paired[k] in PairedOutside(paired, before);
      } else {
        assert moved[k] in PairedOutside(moved, later);
        if moved[k] == paired[j] {
          assert paired[j] in PairedOutside(paired, before);
        } else {
          var h :| 0 <= h < |paired| && !later[h] && paired[h] != -1 && paired[h] == moved[k];
          assert paired[h] in PairedOutside(paired, before);
        }
      }
    }
    forall k, h | 0 <= k < h < |paired| && !before[k] && !before[h] && next[k] != -1
      ensures next[k] != next[h]
    {
      if k != j && h != j {
        if later[k] && !later[h] {
          KeptApart(paired, before, later, moved, j, k, h);
        } else if later[h] && !later[k] {
          KeptApart(paired, before, later, moved, j, h, k);
        }
      }
    }
    forall x | x in PairedOutside(paired, before) ensures x in PairedOutside(next, before) {
      var k :| 0 <= k < |paired| && !before[k] && paired[k] != -1 && paired[k] == x;
      if later[k] && k != j {
        assert next[k] == x;
      } else {
        assert x in PairedOutside(moved, later);
        var h :| 0 <= h < |paired| && !later[h] && moved[h] != -1 && moved[h] == x;
        assert next[h] == x;
      }
    }
    assert next[j] == i;
  }

  /** A pairing left alone stays distinct from the ones re-made. */
  lemma KeptApart(paired: seq<int>, before: seq<bool>, later: seq<bool>, moved: seq<int>, j: nat, k: nat, h: nat)
    requires |paired| == |before| == |later| == |moved| && Grows(before, later) && j < |paired| && later[j]
    requires InjectiveOutside(paired, before) && !before[j]
    requires forall k :: 0 <= k < |paired| && later[k] ==> moved[k] == paired[k]
    requires PairedOutside(moved, later) == PairedOutside(paired, later) + {paired[j]}
    requires k < |paired| && h < |paired| && k != j && !before[k] && later[k] && !later[h]
    ensures moved[k] == -1 || moved[k] != moved[h]
  {
    if moved[k] != -1 && moved[k] == moved[h] {
      assert moved[h] in PairedOutside(moved, later);
      if moved[h] in PairedOutside(paired, later) {
        var g :| 0 <= g < |paired| && !later[g] && paired[g] != -1 && paired[g] == moved[h];
        assert false;
      }
    }
  }

  /** A free place is simply taken. */
  lemma TakeFree(paired: seq<int>, before: seq<bool>, j: nat, i: int)
    requires |paired| == |before| && j < |paired| && !before[j] && paired[j] == -1 && i != -1
    requires InjectiveOutside(paired, before) && i !in PairedOutside(paired, before)
    ensures InjectiveOutside(paired[j := i], before)
    ensures PairedOutside(paired[j := i], before) == PairedOutside(paired, before) + {i}
  {
    var next := paired[j := i];
    assert next[j] == i;
    forall k | 0 <= k < |paired| && !before[k] && paired[k] != -1 ensures paired[k] != i && next[k] == paired[k] {
      assert paired[k] in PairedOutside(paired, before);
    }
    forall x | x in PairedOutside(paired, before) ensures x in PairedOutside(next, before) {
      var k :| 0 <= k < |paired| && !before[k] && paired[k] != -1 && paired[k] == x;
      assert next[k] == x;
    }
  }

  /** Searching one place deeper: j's owner is not paired anywhere else not visited. */
  lemma OwnerElsewhere(paired: seq<int>, before: seq<bool>, now: seq<bool>, j: nat)
    requires |paired| == |before| == |now| && Grows(before, now) && j < |paired| && !now[j] && paired[j] != -1
    requires InjectiveOutside(paired, before)
    ensures InjectiveOutside(paired, now[j := true]) && paired[j] !in PairedOutside(paired, now[j := true])
  {
  }

  /** An augmenting path from left-hand element i, re-pairing along it. */
  method AugmentPairing(i: nat, candidates: seq<seq<nat>>, pairedWith: array<int>, visited: array<bool>) returns (ok: bool)
    requires i < |candidates| && pairedWith.Length == visited.Length && Edges(candidates, visited.Length)
    requires Matched(pairedWith[..], candidates) && InjectiveOutside(pairedWith[..], visited[..])
    requires i !in PairedOutside(pairedWith[..], visited[..])
    modifies pairedWith, visited
    ensures Matched(pairedWith[..], candidates) && Grows(old(visited[..]), visited[..])
    ensures ok ==>
              && InjectiveOutside(pairedWith[..], old(visited[..]))
              && PairedOutside(pairedWith[..], old(visited[..])) == PairedOutside(old(pairedWith[..]), old(visited[..])) + {i}
              && forall j :: 0 <= j < visited.Length && old(visited[j]) ==> pairedWith[j] == old(pairedWith[j])
    ensures !ok ==>
              && pairedWith[..] == old(pairedWith[..])
              && AllVisited(candidates[i], visited[..])
              && Closed(pairedWith[..], candidates, old(visited[..]), visited[..])
    decreases Unvisited(visited[..])
  {
    hide PairedOutside, InjectiveOutside, Closed, Matched;
    ghost var paired, before := pairedWith[..], visited[..];
    ClosedRefl(paired, candidates, before);
    for k := 0 to |candidates[i]|
      invariant pairedWith[..] == paired && Grows(before, visited[..])
      invariant AllVisited(candidates[i][..k], visited[..]) && Closed(paired, candidates, before, visited[..])
    {
      var j := candidates[i][k];
      assert candidates[i][..k + 1] == candidates[i][..k] + [j];
      if visited[j] { continue; }
      ghost var now := visited[..];
      visited[j] := true;
      assert visited[..] == now[j := true];
      assert before[j] == false;
      if pairedWith[j] == -1 {
        TakeFree(paired, before, j, i);
        MatchedTake(paired, candidates, j, i);
        pairedWith[j] := i;
        assert pairedWith[..] == paired[j := i];
        return true;
      }
      OwnerElsewhere(paired, before, now, j);
      Smaller(before, now, j);
      MatchedAt(paired, candidates, j);
      var deeper := AugmentPairing(pairedWith[j], candidates, pairedWith, visited);
      if deeper {
        ghost var moved := pairedWith[..];
        TakeOver(paired, before, now, j, moved, i);
        MatchedTake(moved, candidates, j, i);
        pairedWith[j] := i;
        assert pairedWith[..] == moved[j := i];
        return true;
      }
      ClosedTrans(paired, candidates, before, now, visited[..], j);
    }
    assert candidates[i][..|candidates[i]|] == candidates[i];
    return false;
  }

  lemma ClosedRefl(paired: seq<int>, candidates: seq<seq<nat>>, v: seq<bool>)
    requires |paired| == |v|
    ensures Closed(paired, candidates, v, v)
  {
  }

  lemma MatchedTake(paired: seq<int>, candidates: seq<seq<nat>>, j: nat, i: nat)
    requires Matched(paired, candidates) && j < |paired| && i < |candidates| && j in candidates[i]
    ensures Matched(paired[j := i], candidates)
  {
  }

  lemma MatchedAt(paired: seq<int>, candidates: seq<seq<nat>>, j: nat)
    requires Matched(paired, candidates) && j < |paired| && paired[j] != -1
    ensures 0 <= paired[j] < |candidates|
  {
  }

  lemma Smaller(before: seq<bool>, now: seq<bool>, j: nat)
    requires Grows(before, now) && j < |now| && !now[j]
    ensures Unvisited(now[j := true]) < Unvisited(before)
  {
    assert j in Unvisited(before) && j !in Unvisited(now[j := true]);
  }

  /** Whether every left-hand element can have a place of its own. */
  method FindPairing(candidates: seq<seq<nat>>, m: nat) returns (ok: bool, ghost lefts: set<nat>)
    requires Edges(candidates, m)
    ensures ok <==> Pairable(candidates)
    ensures !ok ==> HallViolator(candidates, lefts)
  {
    hide PairedOutside, InjectiveOutside, Closed, Matched, Edges;
    lefts := {};
    var pairedWith := new int[m](_ => -1);
    var visited := new bool[m](_ => false);
    ghost var none := seq(m, _ => false);
    NothingPaired(pairedWith[..], none, candidates);
    for i := 0 to |candidates|
      invariant Matched(pairedWith[..], candidates) && InjectiveOutside(pairedWith[..], none)
      invariant PairedOutside(pairedWith[..], none) == Below(i)
    {
      ghost var paired := pairedWith[..];
      for j := 0 to visited.Length
        modifies visited
        invariant forall h :: 0 <= h < j ==> !visited[h]
      {
        visited[j] := false;
      }
      assert visited[..] == none && pairedWith[..] == paired;
      ok := AugmentPairing(i, candidates, pairedWith, visited);
      if !ok {
        lefts := Violator(i, pairedWith[..], visited[..], candidates, none);
        HallRefutes(candidates, lefts);
        return false, lefts;
      }
    }
    ReadPairing(pairedWith[..], candidates, none);
    return true, lefts;
  }

  lemma NothingPaired(paired: seq<int>, none: seq<bool>, candidates: seq<seq<nat>>)
    requires |paired| == |none| && forall j :: 0 <= j < |paired| ==> paired[j] == -1
    ensures Matched(paired, candidates) && InjectiveOutside(paired, none) && PairedOutside(paired, none) == {}
  {
  }

  lemma ReadPairing(paired: seq<int>, candidates: seq<seq<nat>>, none: seq<bool>)
    requires |paired| == |none| && (forall j :: 0 <= j < |none| ==> !none[j])
    requires Matched(paired, candidates) && PairedOutside(paired, none) == Below(|candidates|)
    ensures Pairable(candidates)
  {
    var p: seq<nat> := [];
    while |p| < |candidates|
      invariant |p| <= |candidates|
      invariant forall i :: 0 <= i < |p| ==> p[i] < |paired| && paired[p[i]] == i
    {
      assert |p| in PairedOutside(paired, none);
      var j: nat :| j < |paired| && !none[j] && paired[j] != -1 && paired[j] == |p|;
      p := p + [j];
    }
    assert IsPairing(p, candidates);
  }

  function Owners(reached: set<nat>, paired: seq<int>): set<int>
    requires forall j :: j in reached ==> j < |paired|
  {
    set j | j in reached :: paired[j]
  }

  lemma {:induction false} OwnersCard(reached: set<nat>, paired: seq<int>)
    requires forall j :: j in reached ==> j < |paired|
    requires forall j, k :: j in reached && k in reached && j != k ==> paired[j] != paired[k]
    ensures |Owners(reached, paired)| == |reached|
  {
    if reached != {} {
      var j :| j in reached;
      var rest := reached - {j};
      OwnersCard(rest, paired);
      assert Owners(reached, paired) == Owners(rest, paired) + {paired[j]};
      assert paired[j] !in Owners(rest, paired);
    }
  }

  /** A failed search from i: i and the owners of all it reached, all of whose places it reached. */
  lemma Violator(i: nat, paired: seq<int>, visited: seq<bool>, candidates: seq<seq<nat>>, none: seq<bool>)
    returns (lefts: set<nat>)
    requires i < |candidates| && |paired| == |visited| == |none| && (forall j :: 0 <= j < |none| ==> !none[j])
    requires InjectiveOutside(paired, none) && PairedOutside(paired, none) == Below(i)
    requires AllVisited(candidates[i], visited) && Closed(paired, candidates, none, visited)
    ensures HallViolator(candidates, lefts)
  {
    var reached := set j: nat | 0 <= j < |visited| && visited[j];
    var owners := Owners(reached, paired);
    forall x | x in owners ensures 0 <= x < i {
      var j :| j in reached && paired[j] == x;
      assert x in PairedOutside(paired, none);
    }
    OwnersCard(reached, paired);
    lefts := owners + {i};
    assert i !in owners && |owners + {i}| == |owners| + 1;
    forall x | x in Neighbours(candidates, lefts) ensures x in reached {
      var l, k :| l in lefts && 0 <= l < |candidates| && 0 <= k < |candidates[l]| && candidates[l][k] == x;
      ReachedPlace(i, l, k, paired, visited, candidates, none, reached, owners);
    }
    SubsetCard(Neighbours(candidates, lefts), reached);
  }

  lemma ReachedPlace(i: nat, l: nat, k: nat, paired: seq<int>, visited: seq<bool>, candidates: seq<seq<nat>>,
                     none: seq<bool>, reached: set<nat>, owners: set<int>)
    requires i < |candidates| && |paired| == |visited| == |none| && (forall j :: 0 <= j < |none| ==> !none[j])
    requires AllVisited(candidates[i], visited) && Closed(paired, candidates, none, visited)
    requires reached == set j: nat | 0 <= j < |visited| && visited[j]
    requires owners == Owners(reached, paired)
    requires l < |candidates| && k < |candidates[l]| && (l == i || l in owners)
    ensures candidates[l][k] in reached
  {
    if l != i {
      var j :| j in reached && paired[j] == l;
      assert AllVisited(candidates[paired[j]], visited);
    }
  }
}
