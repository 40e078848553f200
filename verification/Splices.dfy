/** Any run of splices leaves the snapshot one rebuild of the resulting stubs would make. */
module Splices {
  import opened Bytes
  import opened Stubs
  import opened Snapshots
  import opened SnapshotBuilder

  /** The list holds each stub of the table once, in some order. */
  ghost predicate Lists(s: seq<Stub>, table: map<bytes, Stub>) {
    && DistinctIds(s)
    && (forall k :: 0 <= k < |s| ==> s[k].id in table && table[s[k].id] == s[k])
    && (forall id :: id in table ==> HasId(s, id))
  }

  predicate DistinctSeqs(table: map<bytes, Stub>) {
    forall a, b :: a in table && b in table && a != b ==> table[a].seqNo != table[b].seqNo
  }

  lemma ListsDistinctSeq(s: seq<Stub>, table: map<bytes, Stub>)
    requires Lists(s, table) && DistinctSeqs(table)
    ensures DistinctSeq(s)
  {
  }

  lemma ListsElements(s: seq<Stub>, t: seq<Stub>, table: map<bytes, Stub>)
    requires Lists(s, table) && Lists(t, table)
    ensures Elements(s) == Elements(t)
  {
    forall x ensures x in Elements(s) ==> x in Elements(t) { ListedIn(s, t, table, x); }
    forall x ensures x in Elements(t) ==> x in Elements(s) { ListedIn(t, s, table, x); }
  }

  lemma ListedIn(s: seq<Stub>, t: seq<Stub>, table: map<bytes, Stub>, x: Stub)
    requires Lists(s, table) && Lists(t, table)
    ensures x in Elements(s) ==> x in Elements(t)
  {
    if x in Elements(s) {
      var k :| 0 <= k < |s| && s[k] == x;
      assert HasId(t, x.id);
      var j :| 0 <= j < |t| && t[j].id == x.id;
      assert t[j] == table[x.id] == x;
    }
  }

  /** With distinct sequence numbers a snapshot depends on the set of stubs, not on their order. */
  lemma BuildIgnoresOrder(s: seq<Stub>, t: seq<Stub>, table: map<bytes, Stub>, epoch: nat, settings: Option<nat>)
    requires Lists(s, table) && Lists(t, table) && DistinctSeqs(table)
    ensures Build(s, epoch, settings) == Build(t, epoch, settings)
  {
    ListsDistinctSeq(s, table);
    ListsDistinctSeq(t, table);
    ListsElements(s, t, table);
    SortedOfElements(s, t);
  }

  lemma SortedLists(s: seq<Stub>, table: map<bytes, Stub>)
    requires Lists(s, table)
    ensures Lists(Sorted(s), table)
  {
    SortedDistinctIds(s);
    SortedElements(s);
    forall k | 0 <= k < |Sorted(s)| ensures Sorted(s)[k].id in table && table[Sorted(s)[k].id] == Sorted(s)[k] {
      assert Sorted(s)[k] in Elements(Sorted(s));
      var j :| 0 <= j < |s| && s[j] == Sorted(s)[k];
    }
    forall id | id in table ensures HasId(Sorted(s), id) {
      var k :| 0 <= k < |s| && s[k].id == id;
      assert s[k] in Elements(s);
      var j :| 0 <= j < |Sorted(s)| && Sorted(s)[j] == s[k];
    }
  }

  lemma SplicedAt(s: seq<Stub>, cs: Stub)
    ensures var t := Spliced(s, cs);
            && |t| == (if HasId(s, cs.id) then |s| else |s| + 1)
            && (forall k :: 0 <= k < |s| ==> t[k] == if s[k].id == cs.id then cs else s[k])
            && (!HasId(s, cs.id) ==> t[|s|] == cs)
  {
    ReplacedAt(s, cs);
  }

  lemma SplicedLists(s: seq<Stub>, table: map<bytes, Stub>, cs: Stub)
    requires Lists(s, table)
    ensures Lists(Spliced(s, cs), table[cs.id := cs])
  {
    SplicedAt(s, cs);
    hide Spliced;
    var t := Spliced(s, cs);
    forall id | id in table[cs.id := cs] ensures HasId(t, id) {
      var k := if id == cs.id && !HasId(s, id) then |s| else var k :| 0 <= k < |s| && s[k].id == id; k;
      assert t[k].id == id;
    }
  }

  lemma {:induction false} WithoutHolds(s: seq<Stub>, id: bytes)
    requires DistinctIds(s)
    ensures DistinctIds(Without(s, id))
    ensures forall k :: 0 <= k < |Without(s, id)| ==> Without(s, id)[k].id != id && Without(s, id)[k] in s
    ensures forall k :: 0 <= k < |s| && s[k].id != id ==> s[k] in Without(s, id)
  {
    if s != [] {
      var n := |s| - 1;
      WithoutHolds(s[..n], id);
      forall k | 0 <= k < |Without(s[..n], id)| ensures Without(s[..n], id)[k].id != s[n].id {
        assert Without(s[..n], id)[k] in s[..n];
      }
    }
  }

  lemma WithoutLists(s: seq<Stub>, table: map<bytes, Stub>, id: bytes)
    requires Lists(s, table)
    ensures Lists(Without(s, id), table - {id})
  {
    WithoutHolds(s, id);
    var t := Without(s, id);
    forall x | x in table - {id} ensures HasId(t, x) {
      var k :| 0 <= k < |s| && s[k].id == x;
      assert s[k] in t;
      var j :| 0 <= j < |t| && t[j] == s[k];
    }
    forall k | 0 <= k < |t| ensures t[k].id in table - {id} && (table - {id})[t[k].id] == t[k] {
      assert t[k] in s;
    }
  }

  // ----- runs -----

  /** A splice a handler asks for, with what the point read of the body file answered. */
  datatype Op = Put(cs: Stub, file: Option<bytes>) | Delete(id: bytes)

  function Applied(table: map<bytes, Stub>, op: Op): map<bytes, Stub> {
    match op
    case Put(cs, file) => table[cs.id := SplicedBody(cs, file)]
    case Delete(id) => table - {id}
  }

  function AppliedAll(table: map<bytes, Stub>, ops: seq<Op>): map<bytes, Stub> {
    if ops == [] then table else Applied(AppliedAll(table, ops[..|ops| - 1]), ops[|ops| - 1])
  }

  /** The snapshot is what one rebuild of the table makes, in whatever order it is loaded. */
  ghost predicate Serves(s: Snapshot, table: map<bytes, Stub>, epoch: nat, settings: Option<nat>) {
    (exists list :: Lists(list, table)) && forall list :: Lists(list, table) ==> s == Build(list, epoch, settings)
  }

  lemma ServesIf(s: Snapshot, list: seq<Stub>, table: map<bytes, Stub>, epoch: nat, settings: Option<nat>)
    requires Lists(list, table) && DistinctSeqs(table) && s == Build(list, epoch, settings)
    ensures Serves(s, table, epoch, settings)
  {
    forall t | Lists(t, table) ensures s == Build(t, epoch, settings) {
      BuildIgnoresOrder(list, t, table, epoch, settings);
    }
  }

  lemma ServedOrder(s: Snapshot, table: map<bytes, Stub>, epoch: nat, settings: Option<nat>)
    requires Serves(s, table, epoch, settings) && DistinctSeqs(table)
    ensures Lists(s.ordered, table) && s.epoch == epoch && s.settings == settings
    ensures s == Build(s.ordered, epoch, settings)
  {
    var list :| Lists(list, table);
    SortedLists(list, table);
    assert s == Build(list, epoch, settings);
  }

  lemma PutServes(s: Snapshot, table: map<bytes, Stub>, cs: Stub, epoch: nat, settings: Option<nat>, next: Snapshot)
    requires Serves(s, table, epoch, settings) && DistinctSeqs(table) && DistinctSeqs(table[cs.id := cs])
    requires next == Build(Spliced(s.ordered, cs), epoch, settings)
    ensures Serves(next, table[cs.id := cs], epoch, settings)
  {
    ServedOrder(s, table, epoch, settings);
    SplicedLists(s.ordered, table, cs);
    ServesIf(next, Spliced(s.ordered, cs), table[cs.id := cs], epoch, settings);
  }

  lemma DeleteServes(s: Snapshot, table: map<bytes, Stub>, id: bytes, epoch: nat, settings: Option<nat>, next: Snapshot)
    requires Serves(s, table, epoch, settings) && DistinctSeqs(table)
    requires next == if HasId(s.ordered, id) then Build(Without(s.ordered, id), epoch, settings) else s
    ensures Serves(next, table - {id}, epoch, settings)
  {
    hide Build;
    ServedOrder(s, table, epoch, settings);
    if HasId(s.ordered, id) {
      WithoutLists(s.ordered, table, id);
      ServesIf(next, Without(s.ordered, id), table - {id}, epoch, settings);
    } else {
      assert id in table ==> HasId(s.ordered, id);
      assert table - {id} == table;
    }
  }

  lemma SplicedBodyId(cs: Stub, file: Option<bytes>)
    ensures SplicedBody(cs, file).id == cs.id
  {
  }

  method RunSplices(b: Builder, ops: seq<Op>, ghost table: map<bytes, Stub>)
    requires Serves(b.engine.snapshot, table, b.engine.snapshot.epoch, b.engine.snapshot.settings)
    requires forall n :: 0 <= n <= |ops| ==> DistinctSeqs(AppliedAll(table, ops[..n]))
    modifies b.engine
    ensures Serves(b.engine.snapshot, AppliedAll(table, ops), old(b.engine.snapshot.epoch), old(b.engine.snapshot.settings))
  {
    hide Serves, Build, DistinctSeqs, Spliced, SplicedBody, Without, HasId;
    ghost var epoch, settings := b.engine.snapshot.epoch, b.engine.snapshot.settings;
    assert AppliedAll(table, ops[..0]) == table;
    for i := 0 to |ops|
      invariant Serves(b.engine.snapshot, AppliedAll(table, ops[..i]), epoch, settings)
    {
      ghost var before := AppliedAll(table, ops[..i]);
      assert ops[..i + 1][..i] == ops[..i];
      assert AppliedAll(table, ops[..i + 1]) == Applied(before, ops[i]);
      ghost var was := b.engine.snapshot;
      ServedOrder(was, before, epoch, settings);
      match ops[i] {
        case Put(cs, file) =>
          b.SpliceStub(cs, file);
          SplicedBodyId(cs, file);
          PutServes(was, before, SplicedBody(cs, file), epoch, settings, b.engine.snapshot);
        case Delete(id) =>
          b.SpliceDelete(id);
          DeleteServes(was, before, id, epoch, settings, b.engine.snapshot);
      }
    }
    assert ops[..|ops|] == ops;
  }
}
