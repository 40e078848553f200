/** What a pod serves after its own splice, over every interleaving, and when it does not last. */
module ReadYourWrites {
  import opened Bytes
  import opened Stubs
  import opened Snapshots
  import opened SnapshotBuilder
  import opened Splices
  import opened Cluster
  import opened Convergence

  /** Another write's splice reaches this pod for the same id, and leaves something else there. */
  ghost predicate InstallsOther(w: World, c: State, a: Action, p: nat, cs: Stub) {
    a.Splice? && Enabled(w, c, a) && c.handlers[a.h].pod == p
    && ChangeId(c.handlers[a.h].change) == Some(cs.id)
    && !(c.handlers[a.h].change.PutDoc? && Made(w, c.handlers[a.h].change.doc) == Some(cs))
  }

  /** A rebuild of this pod compiles the id from a document its cache holds apart. */
  ghost predicate ReinstallsOld(w: World, c: State, a: Action, p: nat, doc: StoredStub) {
    a.Swap? && a.p == p && Enabled(w, c, a) && HeldApart(w, c.pods[p].held, doc)
  }

  /** The step takes the document's stub away from this pod. */
  ghost predicate Displaces(w: World, c: State, a: Action, p: nat, doc: StoredStub)
    requires Made(w, doc).Some?
  {
    InstallsOther(w, c, a, p, Made(w, doc).value) || ReinstallsOld(w, c, a, p, doc)
  }

  ghost predicate Serving(c: State, p: nat, cs: Stub) {
    p < |c.pods| && cs in c.pods[p].ordered
  }

  /** The store holds this document under its id. */
  ghost predicate Holds(c: State, doc: StoredStub) {
    doc.id in c.docs && c.docs[doc.id] == doc
  }

  // ----- splices and membership -----

  lemma WithoutMembers(s: seq<Stub>, id: bytes, x: Stub)
    requires DistinctIds(s)
    ensures x in Sorted(Without(s, id)) <==> x in s && x.id != id
  {
    InSorted(Without(s, id), x);
    WithoutHolds(s, id);
  }

  /** What a splice leaves under an id. */
  lemma SplicedListMembers(w: World, s: seq<Stub>, change: Change, x: Stub)
    requires DistinctIds(s) && !change.Bulk? && (change.PutDoc? ==> Made(w, change.doc).Some? && Stamped(w, change.doc))
    ensures x in SplicedList(w, s, change) <==>
            if ChangeId(change) == Some(x.id) then change.PutDoc? && Made(w, change.doc) == Some(x) else x in s
  {
    match change
    case PutDoc(doc) => SplicedMembers(s, Made(w, doc).value, x);
    case RemoveDoc(id) =>
      if HasId(s, id) {
        WithoutMembers(s, id, x);
      }
  }

  /** A swap installs, under the id, what the cache answers for the document loaded. */
  lemma ListedMember(w: World, docs: Docs, held: Fillers, list: seq<Stub>, doc: StoredStub)
    requires Lists(list, Table(w, Sources(w, docs, held))) && doc.id in docs && docs[doc.id] == doc
    requires Made(w, doc).Some? && Made(w, doc).value.id == doc.id
    ensures Made(w, doc).value in Sorted(list) <==> Made(w, Source(w, doc, held)) == Made(w, doc)
  {
    var cs, t := Made(w, doc).value, Table(w, Sources(w, docs, held));
    SourceAt(w, docs, held, doc.id);
    StubOfDoc(w, Sources(w, docs, held), doc.id);
    InSorted(list, cs);
    hide Table, Sources, Source, Made, Sorted;
    if cs in list {
      var k :| 0 <= k < |list| && list[k] == cs;
      assert list[k].id in t && t[list[k].id] == list[k];
    }
    if StubAt(t, doc.id) == Some(cs) {
      assert HasId(list, doc.id);
      var k :| 0 <= k < |list| && list[k].id == doc.id;
    }
  }

  // ----- one step -----

  lemma SpliceServes(w: World, c: State, h: nat)
    requires Inv(w, c) && Enabled(w, c, Splice(h)) && c.handlers[h].change.PutDoc?
    ensures var d := Next(w, c, Splice(h)); var p := c.handlers[h].pod;
            Serving(d, p, Made(w, c.handlers[h].change.doc).value) && d.pods[p].phase.Idle?
  {
    hide Sources, HeldAfter, ServesTable, Overlaid, GoodHeld;
    var p := c.handlers[h].pod;
    assert GoodPod(w, c, c.pods[p]) && GoodHandler(w, c.handlers[h]);
    SplicedListMembers(w, c.pods[p].ordered, c.handlers[h].change, Made(w, c.handlers[h].change.doc).value);
  }

  /** A rebuild in flight holds the document too, and the cache nothing of its hash but its mapping. */
  ghost predicate Carries(w: World, c: State, p: nat, doc: StoredStub) {
    p < |c.pods| && !Collides(w, c.pods[p].held, doc)
    && (c.pods[p].phase.Loaded? ==> doc.id in c.pods[p].phase.docs && c.pods[p].phase.docs[doc.id] == doc)
  }

  lemma CarriesOn(w: World, c: State, a: Action, p: nat, doc: StoredStub)
    requires Inv(w, c) && Holds(c, doc) && Carries(w, c, p, doc)
    ensures var d := Next(w, c, a);
            Carries(w, d, p, doc) && (HeldApart(w, d.pods[p].held, doc) <==> HeldApart(w, c.pods[p].held, doc))
  {
    hide Table, Lists, SplicedList, SplicedOrigin, ServesTable, Overlaid, Made, Sources, HeldAfter, HeldApart, Collides, GoodDocs, GoodHeld;
    assert GoodPod(w, c, c.pods[p]);
    if a.Swap? && Enabled(w, c, a) && a.p == p { HeldApartStays(w, c.pods[p].phase.docs, c.pods[p].held, doc.id); }
  }

  lemma KeepsServing(w: World, c: State, a: Action, p: nat, doc: StoredStub)
    requires Inv(w, c) && CarriesSeq(w.env) && Made(w, doc).Some? && Holds(c, doc) && Carries(w, c, p, doc)
    requires Serving(c, p, Made(w, doc).value)
    ensures Serving(Next(w, c, a), p, Made(w, doc).value) <==> !Displaces(w, c, a, p, doc)
  {
    hide Table, Lists, SplicedList, SplicedOrigin, ServesTable, Overlaid, Fresh, Made, Sources, Source, HeldAfter, HeldApart, Collides,
      CarriesSeq;
    assert GoodPod(w, c, c.pods[p]) && Stamped(w, doc);
    var cs := Made(w, doc).value;
    if Enabled(w, c, a) {
      if a.Splice? && c.handlers[a.h].pod == p {
        assert GoodHandler(w, c.handlers[a.h]);
        SplicedListMembers(w, c.pods[p].ordered, c.handlers[a.h].change, cs);
      }
      if a.Swap? && a.p == p {
        ListedMember(w, c.pods[p].phase.docs, c.pods[p].held, a.list, doc);
        SourceIff(w, c.pods[p].held, doc);
      }
    }
  }

  // ----- whole runs -----

  /** A pod that has just spliced this document's stub, which the store holds. */
  ghost predicate JustSpliced(w: World, c: State, p: nat, doc: StoredStub) {
    && Inv(w, c) && CarriesSeq(w.env) && Made(w, doc).Some? && Holds(c, doc)
    && p < |c.pods| && c.pods[p].phase.Idle? && Serving(c, p, Made(w, doc).value)
    && !Collides(w, c.pods[p].held, doc)
  }

  /** The store keeps the document at every point of the run. */
  ghost predicate KeepsDoc(w: World, c: State, run: seq<Action>, doc: StoredStub) {
    forall n :: 0 <= n <= |run| ==> Holds(After(w, c, run, n), doc)
  }

  ghost predicate ServesThroughout(w: World, c: State, run: seq<Action>, p: nat, cs: Stub) {
    forall n :: 0 <= n <= |run| ==> Serving(After(w, c, run, n), p, cs)
  }

  /** At each point of the run a rebuild in flight holds the document, and what is held apart has not changed. */
  lemma {:induction false} Carried(w: World, c: State, run: seq<Action>, p: nat, doc: StoredStub, n: nat)
    requires JustSpliced(w, c, p, doc) && KeepsDoc(w, c, run, doc) && n <= |run|
    ensures Inv(w, After(w, c, run, n)) && Carries(w, After(w, c, run, n), p, doc)
    ensures HeldApart(w, After(w, c, run, n).pods[p].held, doc) <==> HeldApart(w, c.pods[p].held, doc)
  {
    hide Made, Next, Inv, HeldApart, Collides, CarriesSeq;
    RunInv(w, c, run[..n]);
    if n > 0 {
      Carried(w, c, run, p, doc, n - 1);
      AfterNext(w, c, run, n - 1);
      assert Holds(After(w, c, run, n - 1), doc);
      CarriesOn(w, After(w, c, run, n - 1), run[n - 1], p, doc);
    }
  }

  /**
   Read-your-writes, of one run in which the store keeps the document: the pod serves the stub
   in every later state if and only if no other splice of the id leaves something else on that
   pod, and no rebuild of it compiles the id from a document held apart.
   */
  lemma ReadYourWrites(w: World, c: State, run: seq<Action>, p: nat, doc: StoredStub)
    requires JustSpliced(w, c, p, doc) && KeepsDoc(w, c, run, doc)
    ensures ServesThroughout(w, c, run, p, Made(w, doc).value)
       <==> forall n :: 0 <= n < |run| ==> !Displaces(w, After(w, c, run, n), run[n], p, doc)
  {
    hide Made, Next, Displaces, Serving, Holds, Inv, CarriesSeq, Carries;
    var cs := Made(w, doc).value;
    if ServesThroughout(w, c, run, p, cs) {
      forall n | 0 <= n < |run| ensures !Displaces(w, After(w, c, run, n), run[n], p, doc) {
        assert Serving(After(w, c, run, n), p, cs) && Serving(After(w, c, run, n + 1), p, cs);
        StepServes(w, c, run, p, doc, n);
      }
    }
    if forall n :: 0 <= n < |run| ==> !Displaces(w, After(w, c, run, n), run[n], p, doc) {
      forall n | 0 <= n <= |run| ensures Serving(After(w, c, run, n), p, cs) {
        StaysIf(w, c, run, p, doc, n);
      }
    }
  }

  lemma StepServes(w: World, c: State, run: seq<Action>, p: nat, doc: StoredStub, n: nat)
    requires JustSpliced(w, c, p, doc) && KeepsDoc(w, c, run, doc) && n < |run|
    requires Serving(After(w, c, run, n), p, Made(w, doc).value)
    ensures Serving(After(w, c, run, n + 1), p, Made(w, doc).value) <==> !Displaces(w, After(w, c, run, n), run[n], p, doc)
  {
    hide Made, Next, Displaces, Serving, Inv, CarriesSeq, Carries;
    Carried(w, c, run, p, doc, n);
    AfterNext(w, c, run, n);
    assert Holds(After(w, c, run, n), doc);
    KeepsServing(w, After(w, c, run, n), run[n], p, doc);
  }

  lemma {:induction false} StaysIf(w: World, c: State, run: seq<Action>, p: nat, doc: StoredStub, n: nat)
    requires JustSpliced(w, c, p, doc) && KeepsDoc(w, c, run, doc) && n <= |run|
    requires forall k :: 0 <= k < n ==> !Displaces(w, After(w, c, run, k), run[k], p, doc)
    ensures Serving(After(w, c, run, n), p, Made(w, doc).value)
  {
    hide Made, Next, Displaces, Inv, CarriesSeq, Holds, Collides;
    if n > 0 {
      StaysIf(w, c, run, p, doc, n - 1);
      StepServes(w, c, run, p, doc, n - 1);
    }
  }

  // ----- the condition, read off one state -----

  /** A handler of this pod still has to splice something else under this id. */
  ghost predicate Threatens(w: World, c: State, h: nat, p: nat, cs: Stub) {
    h < |c.handlers| && c.handlers[h].pod == p && (c.handlers[h].stage.Written? || c.handlers[h].stage.Bumped?)
    && ChangeId(c.handlers[h].change) == Some(cs.id)
    && !(c.handlers[h].change.PutDoc? && Made(w, c.handlers[h].change.doc) == Some(cs))
  }

  ghost predicate Unthreatened(w: World, c: State, p: nat, cs: Stub) {
    forall h :: 0 <= h < |c.handlers| ==> !Threatens(w, c, h, p, cs)
  }

  /** A write of another document under the id breaks the hold; one of the same is no threat. */
  lemma StaysUnthreatened(w: World, c: State, a: Action, p: nat, doc: StoredStub)
    requires Inv(w, c) && Made(w, doc).Some? && Holds(c, doc) && Holds(Next(w, c, a), doc)
    requires Unthreatened(w, c, p, Made(w, doc).value)
    ensures Unthreatened(w, Next(w, c, a), p, Made(w, doc).value)
    ensures !InstallsOther(w, c, a, p, Made(w, doc).value)
  {
    hide Table, Lists, SplicedList, SplicedOrigin, Fresh, Made, Sources, HeldAfter;
    var d, cs := Next(w, c, a), Made(w, doc).value;
    assert Stamped(w, doc);
    forall h | 0 <= h < |d.handlers| ensures !Threatens(w, d, h, p, cs) {
      assert !Threatens(w, c, h, p, cs);
    }
    if a.Splice? && Enabled(w, c, a) { assert !Threatens(w, c, a.h, p, cs); }
  }

  lemma {:induction false} UnthreatenedRun(w: World, c: State, run: seq<Action>, p: nat, doc: StoredStub, n: nat)
    requires Inv(w, c) && Made(w, doc).Some? && KeepsDoc(w, c, run, doc) && n <= |run|
    requires Unthreatened(w, c, p, Made(w, doc).value)
    ensures Unthreatened(w, After(w, c, run, n), p, Made(w, doc).value)
    ensures n < |run| ==> !InstallsOther(w, After(w, c, run, n), run[n], p, Made(w, doc).value)
  {
    hide Made, Next, InstallsOther, Inv, Unthreatened, Holds;
    if n > 0 {
      UnthreatenedRun(w, c, run, p, doc, n - 1);
      RunInv(w, c, run[..n - 1]);
      AfterNext(w, c, run, n - 1);
      assert Holds(After(w, c, run, n - 1), doc) && Holds(After(w, c, run, n), doc);
      StaysUnthreatened(w, After(w, c, run, n - 1), run[n - 1], p, doc);
    }
    if n < |run| {
      RunInv(w, c, run[..n]);
      AfterNext(w, c, run, n);
      assert Holds(After(w, c, run, n), doc) && Holds(After(w, c, run, n + 1), doc);
      StaysUnthreatened(w, After(w, c, run, n), run[n], p, doc);
    }
  }

  /** What a threatening handler still has to do. */
  function Remaining(c: State, h: nat): seq<Action>
    requires h < |c.handlers|
  {
    if c.handlers[h].stage.Written? then [Bump(h), Splice(h)] else [Splice(h)]
  }

  lemma BumpKeeps(w: World, c: State, h: nat, p: nat, doc: StoredStub)
    requires Inv(w, c) && Made(w, doc).Some? && Holds(c, doc) && p < |c.pods| && c.pods[p].phase.Idle?
    requires Threatens(w, c, h, p, Made(w, doc).value) && c.handlers[h].stage.Written?
    ensures var d := Next(w, c, Bump(h));
            && Inv(w, d) && Holds(d, doc) && d.pods == c.pods
            && Threatens(w, d, h, p, Made(w, doc).value) && d.handlers[h].stage.Bumped?
  {
    NextInv(w, c, Bump(h));
    hide Inv, Made, Sources, HeldAfter;
  }

  /** The threat carried out. */
  lemma ThreatSplices(w: World, c: State, h: nat, p: nat, doc: StoredStub)
    requires Inv(w, c) && Made(w, doc).Some? && Holds(c, doc) && p < |c.pods| && c.pods[p].phase.Idle?
    requires Threatens(w, c, h, p, Made(w, doc).value) && c.handlers[h].stage.Bumped?
    ensures var d := Next(w, c, Splice(h)); Holds(d, doc) && !Serving(d, p, Made(w, doc).value)
  {
    hide Table, Lists, SplicedOrigin, Made, SplicedList, Sources, HeldAfter, ServesTable, Overlaid, GoodHeld;
    assert GoodPod(w, c, c.pods[p]) && GoodHandler(w, c.handlers[h]) && Stamped(w, doc);
    SplicedListMembers(w, c.pods[p].ordered, c.handlers[h].change, Made(w, doc).value);
  }

  lemma ThreatEnds(w: World, c: State, h: nat, p: nat, doc: StoredStub)
    requires Inv(w, c) && Made(w, doc).Some? && Holds(c, doc) && p < |c.pods| && c.pods[p].phase.Idle?
    requires Threatens(w, c, h, p, Made(w, doc).value)
    ensures KeepsDoc(w, c, Remaining(c, h), doc) && !ServesThroughout(w, c, Remaining(c, h), p, Made(w, doc).value)
  {
    var run := Remaining(c, h);
    if c.handlers[h].stage.Written? {
      BumpKeeps(w, c, h, p, doc);
      ThreatSplices(w, Next(w, c, Bump(h)), h, p, doc);
    } else {
      ThreatSplices(w, c, h, p, doc);
    }
    hide Made, Next, Inv, Threatens, Run, Holds;
    RunFrom(w, c, run, 0, c);
    RunFrom(w, c, run, 1, Next(w, c, run[0]));
    if |run| == 2 { RunFrom(w, c, run, 2, Next(w, Next(w, c, run[0]), run[1])); }
    assert !Serving(After(w, c, run, |run|), p, Made(w, doc).value);
  }

  /** The next rebuild of a pod whose cache holds the document apart takes the stub away. */
  lemma RebuildEnds(w: World, c: State, p: nat, doc: StoredStub) returns (run: seq<Action>)
    requires JustSpliced(w, c, p, doc) && HeldApart(w, c.pods[p].held, doc)
    ensures KeepsDoc(w, c, run, doc) && !ServesThroughout(w, c, run, p, Made(w, doc).value)
  {
    assert GoodPod(w, c, c.pods[p]) && Stamped(w, doc);
    var docs, held := c.docs, c.pods[p].held;
    SourcesGood(w, docs, held);
    var list := CanBeListed(Table(w, Sources(w, docs, held)));
    hide Made, Inv, Table, Sources, Source, HeldAfter, Lists, HeldApart, CarriesSeq, GoodDocs, GoodHeld, Sorted, Collides;
    run := Rebuild(p, list);
    RebuildFromRest(w, c, p, list);
    ListedMember(w, docs, held, list, doc);
    SourceIff(w, held, doc);
    assert run[..3] == run;
    assert !Serving(After(w, c, run, 3), p, Made(w, doc).value);
    forall n | 0 <= n <= 3 ensures Holds(After(w, c, run, n), doc) { OnlyPods(w, c, p, list, n); }
  }

  lemma SourcesGood(w: World, docs: Docs, held: Fillers)
    requires GoodDocs(w, docs) && GoodHeld(w, held)
    ensures forall id :: id in Table(w, Sources(w, docs, held)) ==> Table(w, Sources(w, docs, held))[id].id == id
  {
    hide Made;
  }

  lemma OnlyPods(w: World, c: State, p: nat, list: seq<Stub>, n: nat)
    requires n <= 3
    ensures After(w, c, Rebuild(p, list), n).docs == c.docs
  {
    hide Table, Sources, HeldAfter, Lists, Sorted;
    var run := Rebuild(p, list);
    if n > 0 {
      OnlyPods(w, c, p, list, n - 1);
      AfterNext(w, c, run, n - 1);
    }
  }

  /**
   Read-your-writes, over every run. When a splice has just put the stub in place and the store
   holds its document, the pod serves it for as long as the store keeps the document, whatever
   happens, if and only if no other handler of that pod has written the id, and not yet spliced
   it, with something else to leave there, and the pod's cache does not hold the same mapping
   for the id under another sequence number or persistence.
   */
  lemma ServedWhileStored(w: World, c: State, p: nat, doc: StoredStub)
    requires JustSpliced(w, c, p, doc)
    ensures (forall run :: KeepsDoc(w, c, run, doc) ==> ServesThroughout(w, c, run, p, Made(w, doc).value))
       <==> Unthreatened(w, c, p, Made(w, doc).value) && !HeldApart(w, c.pods[p].held, doc)
  {
    hide Made, Next, Inv, Threatens, InstallsOther, Run, Serving, Holds, HeldApart, Collides, CarriesSeq, Carries;
    var cs := Made(w, doc).value;
    if HeldApart(w, c.pods[p].held, doc) {
      var run := RebuildEnds(w, c, p, doc);
    } else if Unthreatened(w, c, p, cs) {
      forall run | KeepsDoc(w, c, run, doc) ensures ServesThroughout(w, c, run, p, cs) {
        forall n | 0 <= n < |run| ensures !Displaces(w, After(w, c, run, n), run[n], p, doc) {
          UnthreatenedRun(w, c, run, p, doc, n);
          Carried(w, c, run, p, doc, n);
        }
        ReadYourWrites(w, c, run, p, doc);
      }
    } else {
      var h :| 0 <= h < |c.handlers| && Threatens(w, c, h, p, cs);
      ThreatEnds(w, c, h, p, doc);
    }
  }

  // ----- two runs in which it does not last -----

  function OnePod(changes: seq<Change>): State {
    State(map[], 0, 0, [Pod([], 0, Idle, Unbuilt, map[])], seq(|changes|, i requires 0 <= i < |changes| => Handler(0, changes[i], Ready)), 0)
  }

  lemma SingleSplice(cs: Stub, other: Stub)
    requires cs.id == other.id
    ensures Sorted(SnapshotBuilder.Spliced([], cs)) == [cs]
    ensures Sorted(SnapshotBuilder.Spliced([other], cs)) == [cs]
  {
    assert [cs][..0] == [] && [other][..0] == [];
    assert Replaced([], cs) == [] && Replaced([other], cs) == [cs];
    assert !HasId([], cs.id);
    assert [other][0].id == cs.id;
  }

  lemma RacedWrites(w: World, d1: StoredStub, d2: StoredStub)
    requires d1.id == d2.id && Made(w, d1).Some? && Made(w, d2).Some?
    ensures Next(w, Next(w, OnePod([PutDoc(d1), PutDoc(d2)]), Mutate(0)), Mutate(1))
         == State(map[d2.id := d2], 0, 0, [Pod([], 0, Idle, Unbuilt, map[])], [Handler(0, PutDoc(d1), Written), Handler(0, PutDoc(d2), Written)], 2)
  {
    hide Next, Effect, Made;
    var c := OnePod([PutDoc(d1), PutDoc(d2)]);
    WriteStep(w, c, 0);
    WriteStep(w, Next(w, c, Mutate(0)), 1);
  }

  lemma RacedSplices(w: World, c: State, d1: StoredStub, d2: StoredStub)
    requires d1.id == d2.id && Stamped(w, d1) && Stamped(w, d2) && Made(w, d1).Some? && Made(w, d2).Some?
    requires c.pods == [Pod([], 0, Idle, Unbuilt, map[])]
    requires c.handlers == [Handler(0, PutDoc(d1), Bumped), Handler(0, PutDoc(d2), Bumped)]
    ensures var e := Next(w, c, Splice(1)); var f := Next(w, e, Splice(0));
            e.docs == f.docs == c.docs
            && e.pods == [Pod([Made(w, d2).value], 0, Idle, Unbuilt, map[])] && f.pods == [Pod([Made(w, d1).value], 0, Idle, Unbuilt, map[])]
  {
    SingleSplice(Made(w, d2).value, Made(w, d2).value);
    SingleSplice(Made(w, d1).value, Made(w, d2).value);
    hide Next, Effect, Made, Sorted, SnapshotBuilder.Spliced;
    SpliceStep(w, c, 1);
    SpliceStep(w, Next(w, c, Splice(1)), 0);
  }

  lemma RacedBumps(w: World, c: State, d1: StoredStub, d2: StoredStub)
    requires c.handlers == [Handler(0, PutDoc(d1), Written), Handler(0, PutDoc(d2), Written)]
    ensures var b := Next(w, c, Bump(0)); var e := Next(w, b, Bump(1));
            b.docs == e.docs == c.docs && e.pods == c.pods
            && e.handlers == [Handler(0, PutDoc(d1), Bumped), Handler(0, PutDoc(d2), Bumped)]
  {
    hide Next, Effect, Made;
    BumpStep(w, c, 0);
    BumpStep(w, Next(w, c, Bump(0)), 1);
  }

  /**
   Two handlers of one pod write one id; the later write splices first. The earlier write's
   splice then replaces it, though the store holds the later one throughout.
   */
  lemma RacingHandlers(w: World, d1: StoredStub, d2: StoredStub)
    requires d1.id == d2.id && Stamped(w, d1) && Stamped(w, d2) && Made(w, d1).Some? && Made(w, d2).Some?
    ensures var c := OnePod([PutDoc(d1), PutDoc(d2)]);
            var run := [Mutate(0), Mutate(1), Bump(0), Bump(1), Splice(1), Splice(0)];
            && Initial(w, c)
            && (forall n :: 2 <= n <= 6 ==> Holds(After(w, c, run, n), d2))
            && After(w, c, run, 5).pods == [Pod([Made(w, d2).value], 0, Idle, Unbuilt, map[])]
            && After(w, c, run, 6).pods == [Pod([Made(w, d1).value], 0, Idle, Unbuilt, map[])]
  {
    hide Made, Run, Next;
    var c := OnePod([PutDoc(d1), PutDoc(d2)]);
    var run := [Mutate(0), Mutate(1), Bump(0), Bump(1), Splice(1), Splice(0)];
    RunFrom(w, c, run, 0, c);
    RunFrom(w, c, run, 1, Next(w, c, run[0]));
    RunFrom(w, c, run, 2, Next(w, Next(w, c, run[0]), run[1]));
    RacedWrites(w, d1, d2);
    var c2 := After(w, c, run, 2);
    RunFrom(w, c, run, 3, Next(w, c2, run[2]));
    RunFrom(w, c, run, 4, Next(w, Next(w, c2, run[2]), run[3]));
    RacedBumps(w, c2, d1, d2);
    var c4 := After(w, c, run, 4);
    RunFrom(w, c, run, 5, Next(w, c4, run[4]));
    RunFrom(w, c, run, 6, Next(w, Next(w, c4, run[4]), run[5]));
    RacedSplices(w, c4, d1, d2);
  }

  /** Reading a run step by step. */
  lemma RunFrom(w: World, c: State, run: seq<Action>, n: nat, d: State)
    requires n <= |run|
    requires if n == 0 then d == c else d == Next(w, After(w, c, run, n - 1), run[n - 1])
    ensures After(w, c, run, n) == d
  {
    if n > 0 { AfterNext(w, c, run, n - 1); }
  }

  lemma WriteStep(w: World, c: State, h: nat)
    requires Enabled(w, c, Mutate(h))
    ensures Next(w, c, Mutate(h)) == WithStage(c, h, Written).(docs := Changed(c.docs, c.handlers[h].change), clock := c.clock + 1)
  {
  }

  lemma BumpStep(w: World, c: State, h: nat)
    requires Enabled(w, c, Bump(h))
    ensures Next(w, c, Bump(h)) == WithStage(c, h, Bumped).(epoch := c.epoch + 1, clock := c.clock + 1)
  {
  }

  lemma SpliceStep(w: World, c: State, h: nat)
    requires Enabled(w, c, Splice(h))
    ensures var p := c.handlers[h].pod;
            Next(w, c, Splice(h)) ==
            WithStage(WithPod(c, p, c.pods[p].(ordered := SplicedList(w, c.pods[p].ordered, c.handlers[h].change),
                                               origin := SplicedOrigin(w, c.pods[p].origin, c.handlers[h].change))), h, Finished).(clock := c.clock + 1)
  {
  }

  // The states of the second run, at the points named by their step counts. Pod 0 handles the
  // registration, pod 1 the delete.

  function Stale(docs: Docs, epoch: nat, pod: Pod, put: StoredStub, first: Stage, second: Stage, clock: nat): State {
    State(docs, epoch, 0, [pod, Pod([], 0, Idle, Unbuilt, map[])], [Handler(0, PutDoc(put), first), Handler(1, RemoveDoc(put.id), second)], clock)
  }

  function Stale0(d: StoredStub): State { Stale(map[], 0, Pod([], 0, Idle, Unbuilt, map[]), d, Ready, Ready, 0) }

  function Stale2(d: StoredStub): State { Stale(map[d.id := d], 1, Pod([], 0, Idle, Unbuilt, map[]), d, Bumped, Ready, 2) }

  function Stale4(d: StoredStub): State { Stale(map[], 2, Pod([], 0, Idle, Unbuilt, map[]), d, Bumped, Bumped, 4) }

  function Stale5(d: StoredStub): State { Stale(map[], 2, Pod([], 0, Idle, Unbuilt, map[]), d, Bumped, Finished, 5) }

  function Stale8(d: StoredStub): State { Stale(map[], 2, Pod([], 2, Idle, Built(map[], 6, map[]), map[]), d, Bumped, Finished, 8) }

  function Stale9(w: World, d: StoredStub): State
    requires Made(w, d).Some?
  {
    Stale(map[], 2, Pod([Made(w, d).value], 2, Idle, Built(map[], 6, map[d.id := Made(w, d)]), map[]), d, Finished, Finished, 9)
  }

  lemma StaleTo2(w: World, d: StoredStub)
    requires Made(w, d).Some?
    ensures Next(w, Next(w, Stale0(d), Mutate(0)), Bump(0)) == Stale2(d)
  {
    hide Next, Effect, Made;
    var c := Stale0(d);
    WriteStep(w, c, 0);
    BumpStep(w, Next(w, c, Mutate(0)), 0);
  }

  lemma StaleTo4(w: World, d: StoredStub)
    ensures Next(w, Next(w, Stale2(d), Mutate(1)), Bump(1)) == Stale4(d)
  {
    hide Next, Effect, Made;
    var c := Stale2(d);
    WriteStep(w, c, 1);
    assert map[d.id := d] - {d.id} == map[];
    BumpStep(w, Next(w, c, Mutate(1)), 1);
  }

  lemma StaleTo8(w: World, d: StoredStub)
    ensures Next(w, Stale4(d), Splice(1)) == Stale5(d)
    ensures Run(w, Stale5(d), Rebuild(0, [])) == Stale8(d)
  {
    NothingSorted();
    hide Next, Effect, Made, Sorted, Run, Rebuild;
    SpliceStep(w, Stale4(d), 1);
    assert Sources(w, map[], map[]) == map[] && HeldAfter(w, map[], map[]) == map[] && Lists([], Table(w, map[]));
    RebuildFromRest(w, Stale5(d), 0, []);
  }

  lemma StaleTo9(w: World, d: StoredStub)
    requires Made(w, d).Some? && Stamped(w, d)
    ensures Next(w, Stale8(d), Splice(0)) == Stale9(w, d)
  {
    SingleSplice(Made(w, d).value, Made(w, d).value);
    hide Next, Effect, Made, Sorted;
    SpliceStep(w, Stale8(d), 0);
  }

  /**
   A splice that lands after another pod's delete was reloaded: the stub is served again, the
   store no longer holds it, and the equal epochs give the poller nothing to notice.
   */
  lemma StaleSpliceUnnoticed(w: World, d: StoredStub)
    requires Stamped(w, d) && Made(w, d).Some?
    ensures var run := [Mutate(0), Bump(0), Mutate(1), Bump(1), Splice(1), Lock(0), LoadAll(0), Swap(0, []), Splice(0)];
            var e := Run(w, Stale0(d), run);
            && Initial(w, Stale0(d)) && Settled(e) && e.docs == map[] && |e.pods| == 2
            && e.pods[0].epoch == e.epoch && e.pods[0].ordered == [Made(w, d).value]
  {
    hide Made, Run;
    StaleRun(w, d);
  }

  lemma StaleRun(w: World, d: StoredStub)
    requires Stamped(w, d) && Made(w, d).Some?
    ensures Run(w, Stale0(d), [Mutate(0), Bump(0), Mutate(1), Bump(1), Splice(1), Lock(0), LoadAll(0), Swap(0, []), Splice(0)])
         == Stale9(w, d)
  {
    hide Next, Run, Made, Stale0, Stale2, Stale4, Stale5, Stale8, Stale9;
    StaleTo2(w, d);
    StaleTo4(w, d);
    StaleTo8(w, d);
    StaleTo9(w, d);
    var first := [Mutate(0), Bump(0), Mutate(1), Bump(1)];
    RunFour(w, Stale0(d), Mutate(0), Bump(0), Mutate(1), Bump(1), []);
    assert first + [] == first;
    RunConcat(w, Stale0(d), first, [Splice(1)]);
    RunOne(w, Stale4(d), Splice(1));
    RunConcat(w, Stale0(d), first + [Splice(1)], Rebuild(0, []));
    RunConcat(w, Stale0(d), first + [Splice(1)] + Rebuild(0, []), [Splice(0)]);
    RunOne(w, Stale8(d), Splice(0));
    assert first + [Splice(1)] + Rebuild(0, []) + [Splice(0)]
        == [Mutate(0), Bump(0), Mutate(1), Bump(1), Splice(1), Lock(0), LoadAll(0), Swap(0, []), Splice(0)];
    NothingRun(w, Stale4(d));
  }

  lemma NothingRun(w: World, c: State)
    ensures Run(w, c, []) == c
  {
  }

  lemma RunOne(w: World, c: State, a: Action)
    ensures Run(w, c, [a]) == Next(w, c, a)
  {
    assert [a][..0] == [];
  }

  lemma {:induction false} RunConcat(w: World, c: State, a: seq<Action>, b: seq<Action>)
    ensures Run(w, c, a + b) == Run(w, Run(w, c, a), b)
  {
    if b == [] {
      assert a + b == a;
    } else {
      var n := |b| - 1;
      assert (a + b)[..|a + b| - 1] == a + b[..n];
      RunConcat(w, c, a, b[..n]);
    }
  }

  lemma RunFour(w: World, c: State, a1: Action, a2: Action, a3: Action, a4: Action, rest: seq<Action>)
    ensures Run(w, c, [a1, a2, a3, a4] + rest) == Run(w, Next(w, Next(w, Next(w, Next(w, c, a1), a2), a3), a4), rest)
  {
    hide Next;
    RunConcat(w, c, [a1, a2, a3, a4], rest);
    RunConcat(w, c, [a1, a2, a3], [a4]);
    RunConcat(w, c, [a1, a2], [a3]);
    RunConcat(w, c, [a1], [a2]);
    RunOne(w, c, a1);
    RunOne(w, Run(w, c, [a1]), a2);
    RunOne(w, Run(w, c, [a1, a2]), a3);
    RunOne(w, Run(w, c, [a1, a2, a3]), a4);
    assert [a1] + [a2] == [a1, a2] && [a1, a2] + [a3] == [a1, a2, a3] && [a1, a2, a3] + [a4] == [a1, a2, a3, a4];
  }

  lemma NothingSorted()
    ensures Sorted([]) == []
  {
  }
}
