/** When pods agree with the store and with one another, and when the compile cache keeps them apart. */
module Convergence {
  import opened Bytes
  import opened Stubs
  import opened Snapshots
  import opened SnapshotBuilder
  import opened Splices
  import opened Cluster

  /** The served list is the sorted compilation of these documents, loaded in whatever order. */
  ghost predicate ServesDocs(w: World, ordered: seq<Stub>, docs: Docs) {
    forall list :: Lists(list, Table(w, docs)) ==> ordered == Sorted(list)
  }

  lemma ServedListing(w: World, ordered: seq<Stub>, docs: Docs)
    requires ServesTable(ordered, Table(w, docs)) && DistinctSeqs(Table(w, docs))
    ensures ServesDocs(w, ordered, docs)
  {
    hide Table;
    var t := Table(w, docs);
    var list :| Lists(list, t) && ordered == Sorted(list);
    forall other | Lists(other, t) ensures ordered == Sorted(other) {
      BuildIgnoresOrder(list, other, t, 0, None);
      assert Build(list, 0, None).ordered == Sorted(list);
    }
  }

  /** A list is a listing of one table only. */
  lemma OneTable(ordered: seq<Stub>, s: map<bytes, Stub>, t: map<bytes, Stub>)
    requires ServesTable(ordered, s) && ServesTable(ordered, t)
    ensures s == t
  {
    hide Lists, Sorted;
    var ls := ServedBy(ordered, s);
    var lt := ServedBy(ordered, t);
    SortedLists(ls, s);
    SortedLists(lt, t);
    ListedOnce(ordered, s, t);
  }

  lemma ListedOnce(ordered: seq<Stub>, s: map<bytes, Stub>, t: map<bytes, Stub>)
    requires Lists(ordered, s) && Lists(ordered, t)
    ensures s == t
  {
    hide Lists;
    forall id ensures (id in s ==> id in t && s[id] == t[id]) && (id in t ==> id in s) {
      SameAt(ordered, s, t, id);
      SameAt(ordered, t, s, id);
    }
  }

  lemma SameAt(ordered: seq<Stub>, s: map<bytes, Stub>, t: map<bytes, Stub>, id: bytes)
    requires Lists(ordered, s) && Lists(ordered, t)
    ensures id in s ==> id in t && s[id] == t[id]
  {
    if id in s {
      assert HasId(ordered, id);
      var k :| 0 <= k < |ordered| && ordered[k].id == id;
    }
  }

  /** Every table of stubs under their own ids can be listed. */
  lemma {:induction false} CanBeListed(t: map<bytes, Stub>) returns (list: seq<Stub>)
    requires forall id :: id in t ==> t[id].id == id
    ensures Lists(list, t)
    decreases |t|
  {
    if t == map[] {
      list := [];
    } else {
      var id :| id in t;
      var rest := t - {id};
      assert t == rest[id := t[id]];
      var before := CanBeListed(rest);
      SplicedLists(before, rest, t[id]);
      list := SnapshotBuilder.Spliced(before, t[id]);
    }
  }

  // ----- the conditions -----

  /** Every id spliced since the last rebuild was left as the store has it. */
  ghost predicate LeftAsStored(w: World, overlay: Overlay, docs: Docs) {
    forall id :: id in overlay ==> overlay[id] == StubAt(Table(w, docs), id)
  }

  /** The cache holds the same mapping under another sequence number or persistence. */
  predicate HeldApart(w: World, held: Fillers, doc: StoredStub) {
    Readable(doc, w.env) && doc.id in held && held[doc.id].mapping == doc.mapping
    && (held[doc.id].seqNo != doc.seqNo || held[doc.id].persistent != doc.persistent)
  }

  /** The cache holds nothing apart from the store, for the ids not spliced since. */
  predicate HeldAsStored(w: World, held: Fillers, overlay: Overlay, docs: Docs) {
    forall id :: id in docs && id !in overlay ==> !HeldApart(w, held, docs[id])
  }

  /** What is held for the id has another mapping of the same hash. */
  predicate Collides(w: World, held: Fillers, doc: StoredStub) {
    SameHash(held, doc, w.env) && held[doc.id].mapping != doc.mapping
  }

  predicate NoCollision(w: World, held: Fillers, docs: Docs) {
    forall id :: id in docs ==> !Collides(w, held, docs[id])
  }

  /** What the cache answers is the fresh compilation exactly when nothing is held apart. */
  lemma SourceIff(w: World, held: Fillers, doc: StoredStub)
    requires CarriesSeq(w.env) && GoodHeld(w, held) && !Collides(w, held, doc)
    ensures Made(w, Source(w, doc, held)) == Made(w, doc) <==> !HeldApart(w, held, doc)
  {
    if Readable(doc, w.env) && SameHash(held, doc, w.env) {
      var old_ := held[doc.id];
      var was, now := w.env.compile(doc.mapping, old_.seqNo), w.env.compile(doc.mapping, doc.seqNo);
      assert now == Some(was.value.(seqNo := doc.seqNo)) && was == Some(was.value.(seqNo := old_.seqNo));
    }
  }

  lemma StubOfDoc(w: World, docs: Docs, id: bytes)
    ensures StubAt(Table(w, docs), id) == if id in docs then Made(w, docs[id]) else None
  {
  }

  lemma OverlaidAt(table: map<bytes, Stub>, overlay: Overlay, id: bytes)
    ensures StubAt(Overlaid(table, overlay), id) == StubOver(table, overlay, id)
  {
  }

  lemma SameTable(s: map<bytes, Stub>, t: map<bytes, Stub>)
    requires forall id :: StubAt(s, id) == StubAt(t, id)
    ensures s == t
  {
    forall id ensures (id in s <==> id in t) && (id in s ==> s[id] == t[id]) {
      assert StubAt(s, id) == StubAt(t, id);
    }
  }

  lemma ServedIff(w: World, held: Fillers, overlay: Overlay, docs: Docs)
    requires CarriesSeq(w.env) && GoodDocs(w, docs) && GoodHeld(w, held) && NoCollision(w, held, docs)
    ensures Overlaid(Table(w, Sources(w, docs, held)), overlay) == Table(w, docs)
       <==> LeftAsStored(w, overlay, docs) && HeldAsStored(w, held, overlay, docs)
  {
    var s, t := Table(w, Sources(w, docs, held)), Table(w, docs);
    var o := Overlaid(s, overlay);
    hide Table, Overlaid, Made, HeldApart, CarriesSeq, GoodHeld;
    forall id
      ensures StubAt(o, id) == StubAt(t, id) <==>
              if id in overlay then overlay[id] == StubAt(t, id) else id in docs ==> !HeldApart(w, held, docs[id])
    {
      OverlaidAt(s, overlay, id);
      StubOfDoc(w, docs, id);
      StubOfDoc(w, Sources(w, docs, held), id);
      if id in docs { SourceIff(w, held, docs[id]); }
    }
    if LeftAsStored(w, overlay, docs) && HeldAsStored(w, held, overlay, docs) {
      SameTable(o, t);
    }
  }

  /**
   With every mutation bumped, a pod at the store's epoch serves the sorted compilation of the
   store if and only if each id spliced since its last rebuild was left as the store has it,
   and its cache holds no other id's mapping under another sequence number or persistence.
   */
  lemma EqualEpochsConverged(w: World, c: State, run: seq<Action>, p: nat)
    requires Inv(w, c) && p < |c.pods| && CarriesSeq(w.env)
    ensures |Run(w, c, run).pods| == |c.pods|
    ensures var d := Run(w, c, run); var pod := d.pods[p];
            Settled(d) && pod.origin.Built? && pod.epoch == d.epoch && NoCollision(w, pod.held, d.docs) ==>
              && (ServesTable(pod.ordered, Table(w, d.docs)) <==> AsStored(w, pod, d.docs))
              && (DistinctSeqs(Table(w, d.docs)) ==> (ServesDocs(w, pod.ordered, d.docs) <==> AsStored(w, pod, d.docs)))
  {
    hide Table, ServesTable, ServesDocs, DistinctSeqs, Overlaid, AsStored, GoodDocs, GoodHeld, Run, Sources, CarriesSeq, NoCollision;
    EpochNeverFalls(w, c, run, p);
    RunInv(w, c, run);
    var d := Run(w, c, run);
    var pod := d.pods[p];
    assert GoodPod(w, d, pod);
    if Settled(d) && pod.origin.Built? && pod.epoch == d.epoch && NoCollision(w, pod.held, d.docs) { SettledIff(w, pod, d.docs); }
  }

  ghost predicate AsStored(w: World, pod: Pod, docs: Docs) {
    pod.origin.Built? && LeftAsStored(w, pod.origin.overlay, docs) && HeldAsStored(w, pod.held, pod.origin.overlay, docs)
  }

  lemma SettledIff(w: World, pod: Pod, docs: Docs)
    requires pod.origin.Built? && pod.origin.docs == docs && GoodDocs(w, docs)
    requires CarriesSeq(w.env) && GoodHeld(w, pod.held) && NoCollision(w, pod.held, docs)
    requires ServesTable(pod.ordered, Overlaid(Table(w, Sources(w, docs, pod.held)), pod.origin.overlay))
    ensures ServesTable(pod.ordered, Table(w, docs)) <==> AsStored(w, pod, docs)
    ensures DistinctSeqs(Table(w, docs)) ==> (ServesDocs(w, pod.ordered, docs) <==> AsStored(w, pod, docs))
  {
    var t := Table(w, docs);
    var list := CanBeListed(t);
    var served := Overlaid(Table(w, Sources(w, docs, pod.held)), pod.origin.overlay);
    ServedIff(w, pod.held, pod.origin.overlay, docs);
    hide Table, Made, GoodDocs, Overlaid, Sources, LeftAsStored, HeldAsStored, CarriesSeq, GoodHeld;
    if ServesTable(pod.ordered, t) { OneTable(pod.ordered, t, served); }
    if ServesDocs(w, pod.ordered, docs) {
      assert pod.ordered == Sorted(list);
      assert ServesTable(pod.ordered, t);
    }
    if DistinctSeqs(t) && ServesTable(pod.ordered, t) { ServedListing(w, pod.ordered, docs); }
  }

  // ----- runs without writes -----

  /** No write and no splice: only bumps still on their way, and rebuilds. */
  predicate Quiet(a: Action) { a.Bump? || a.BumpFails? || a.Lock? || a.LoadAll? || a.Swap? || a.Abandon? }

  ghost predicate LoadedSince(c: State, since: nat) {
    forall p :: 0 <= p < |c.pods| ==>
      && (c.pods[p].phase.Loaded? && c.pods[p].phase.at >= since ==> c.pods[p].phase.docs == c.docs)
      && (c.pods[p].origin.Built? && c.pods[p].origin.at >= since ==>
            c.pods[p].origin.docs == c.docs && c.pods[p].origin.overlay == map[])
  }

  lemma QuietStep(w: World, b: State, a: Action, since: nat)
    requires LoadedSince(b, since) && Quiet(a)
    ensures var d := Next(w, b, a); d.docs == b.docs && |d.pods| == |b.pods| && LoadedSince(d, since)
  {
    hide Table, Lists, Sorted, SplicedList, Sources, HeldAfter;
  }

  lemma {:induction false} QuietRun(w: World, c: State, run: seq<Action>)
    requires LoadedSince(c, c.clock) && forall k :: 0 <= k < |run| ==> Quiet(run[k])
    ensures var d := Run(w, c, run); d.docs == c.docs && |d.pods| == |c.pods| && LoadedSince(d, c.clock)
  {
    if run != [] {
      var before := run[..|run| - 1];
      QuietRun(w, c, before);
      assert Quiet(run[|run| - 1]);
      QuietStep(w, Run(w, c, before), run[|run| - 1], c.clock);
    }
  }

  /** Times of loads lie in the past. */
  ghost predicate Dated(c: State) {
    forall p :: 0 <= p < |c.pods| ==>
      (c.pods[p].phase.Loaded? ==> c.pods[p].phase.at < c.clock) && (c.pods[p].origin.Built? ==> c.pods[p].origin.at < c.clock)
  }

  lemma {:induction false} RunDated(w: World, c: State, run: seq<Action>)
    requires Dated(c)
    ensures Dated(Run(w, c, run))
  {
    if run != [] {
      RunDated(w, c, run[..|run| - 1]);
      hide Table, Lists, SplicedList, Sources, HeldAfter;
    }
  }

  /**
   With no further write or splice, once every pod has made one rebuild from a load that came
   after, a pod serves the store if and only if its cache holds nothing apart from it. Where
   that is so of all pods, they serve alike.
   */
  lemma OneRebuildEach(w: World, c: State, run: seq<Action>)
    requires Inv(w, c) && Dated(c) && CarriesSeq(w.env) && forall k :: 0 <= k < |run| ==> Quiet(run[k])
    requires DistinctSeqs(Table(w, c.docs))
    requires var d := Run(w, c, run);
             forall p :: 0 <= p < |d.pods| ==>
               d.pods[p].origin.Built? && d.pods[p].origin.at >= c.clock && NoCollision(w, d.pods[p].held, c.docs)
    ensures var d := Run(w, c, run);
            && d.docs == c.docs
            && (forall p :: 0 <= p < |d.pods| ==>
                  (ServesDocs(w, d.pods[p].ordered, c.docs) <==> HeldAsStored(w, d.pods[p].held, map[], c.docs)))
            && ((forall p :: 0 <= p < |d.pods| ==> HeldAsStored(w, d.pods[p].held, map[], c.docs)) ==>
                  forall p, q :: 0 <= p < |d.pods| && 0 <= q < |d.pods| ==> d.pods[p].ordered == d.pods[q].ordered)
  {
    hide Table, Lists, ServesDocs, ServesTable, DistinctSeqs, GoodDocs, GoodHeld, Overlaid, Sources, CarriesSeq, NoCollision, HeldAsStored;
    QuietRun(w, c, run);
    RunInv(w, c, run);
    var d := Run(w, c, run);
    var t := Table(w, c.docs);
    assert LeftAsStored(w, map[], c.docs);
    forall p | 0 <= p < |d.pods|
      ensures ServesDocs(w, d.pods[p].ordered, c.docs) <==> HeldAsStored(w, d.pods[p].held, map[], c.docs)
      ensures ServesTable(d.pods[p].ordered, t) <==> HeldAsStored(w, d.pods[p].held, map[], c.docs)
    {
      assert GoodPod(w, d, d.pods[p]);
      SettledIff(w, d.pods[p], c.docs);
    }
    if forall p :: 0 <= p < |d.pods| ==> HeldAsStored(w, d.pods[p].held, map[], c.docs) {
      forall p, q | 0 <= p < |d.pods| && 0 <= q < |d.pods| ensures d.pods[p].ordered == d.pods[q].ordered {
        var list := ServedBy(d.pods[q].ordered, t);
        ServedList(w, d.pods[p].ordered, c.docs, list);
      }
    }
  }

  lemma ServedBy(ordered: seq<Stub>, table: map<bytes, Stub>) returns (list: seq<Stub>)
    requires ServesTable(ordered, table)
    ensures Lists(list, table) && ordered == Sorted(list)
  {
    list :| Lists(list, table) && ordered == Sorted(list);
  }

  lemma ServedList(w: World, ordered: seq<Stub>, docs: Docs, list: seq<Stub>)
    requires ServesDocs(w, ordered, docs) && Lists(list, Table(w, docs))
    ensures ordered == Sorted(list)
  {
  }

  // ----- reading the condition off an earlier state -----

  /** A rebuild keeps apart what is held apart, and nothing else of what it reloads. */
  lemma HeldApartStays(w: World, docs: Docs, held: Fillers, id: bytes)
    requires GoodDocs(w, docs) && id in docs
    ensures HeldApart(w, HeldAfter(w, docs, held), docs[id]) <==> HeldApart(w, held, docs[id])
    ensures Collides(w, HeldAfter(w, docs, held), docs[id]) ==> Collides(w, held, docs[id])
  {
  }

  /** The pod has loaded the store's documents, or nothing it has yet to serve. */
  predicate Current(c: State, p: nat) {
    p < |c.pods| && (c.pods[p].phase.Loaded? ==> c.pods[p].phase.docs == c.docs)
  }

  /** What it serves was compiled from the store's documents, with nothing spliced since. */
  predicate Reloaded(c: State, p: nat) {
    Current(c, p) && c.pods[p].origin.Built? && c.pods[p].origin.docs == c.docs && c.pods[p].origin.overlay == map[]
  }

  lemma QuietHeldStep(w: World, b: State, a: Action, p: nat, id: bytes)
    requires GoodDocs(w, b.docs) && Current(b, p) && Quiet(a) && id in b.docs
    ensures var d := Next(w, b, a);
            && d.docs == b.docs && Current(d, p) && (Reloaded(b, p) ==> Reloaded(d, p))
            && (HeldApart(w, d.pods[p].held, b.docs[id]) <==> HeldApart(w, b.pods[p].held, b.docs[id]))
            && (Collides(w, d.pods[p].held, b.docs[id]) ==> Collides(w, b.pods[p].held, b.docs[id]))
  {
    hide Table, Lists, Sorted, SplicedList, Sources, HeldAfter, HeldApart, Collides;
    if a.Swap? && Enabled(w, b, a) && a.p == p { HeldApartStays(w, b.docs, b.pods[p].held, id); }
  }

  /** So in a run without writes the condition on a pod's cache can be read off its start. */
  lemma {:induction false} QuietHeld(w: World, c: State, run: seq<Action>, p: nat, id: bytes)
    requires GoodDocs(w, c.docs) && Current(c, p) && id in c.docs && forall k :: 0 <= k < |run| ==> Quiet(run[k])
    ensures var d := Run(w, c, run);
            && d.docs == c.docs && Current(d, p) && (Reloaded(c, p) ==> Reloaded(d, p))
            && (HeldApart(w, d.pods[p].held, c.docs[id]) <==> HeldApart(w, c.pods[p].held, c.docs[id]))
            && (Collides(w, d.pods[p].held, c.docs[id]) ==> Collides(w, c.pods[p].held, c.docs[id]))
  {
    hide Next, HeldApart, Collides, Reloaded;
    if run != [] {
      assert Quiet(run[|run| - 1]);
      QuietHeld(w, c, run[..|run| - 1], p, id);
      QuietHeldStep(w, Run(w, c, run[..|run| - 1]), run[|run| - 1], p, id);
    }
  }

  /** The compilation a pod serves under an id, once it has reloaded. */
  lemma ServedUnder(w: World, c: State, p: nat, id: bytes)
    requires Inv(w, c) && Reloaded(c, p) && id in c.docs
    ensures var t := Table(w, Sources(w, c.docs, c.pods[p].held));
            ServesTable(c.pods[p].ordered, t) && StubAt(t, id) == Made(w, Source(w, c.docs[id], c.pods[p].held))
  {
    assert GoodPod(w, c, c.pods[p]);
    hide Table, Sources, ServesTable, Overlaid;
    NothingOver(Table(w, Sources(w, c.docs, c.pods[p].held)));
    StubOfDoc(w, Sources(w, c.docs, c.pods[p].held), id);
    assert Sources(w, c.docs, c.pods[p].held)[id] == Source(w, c.docs[id], c.pods[p].held) && id in Sources(w, c.docs, c.pods[p].held)
      by { SourceAt(w, c.docs, c.pods[p].held, id); }
  }

  lemma SourceAt(w: World, docs: Docs, held: Fillers, id: bytes)
    requires id in docs
    ensures id in Sources(w, docs, held) && Sources(w, docs, held)[id] == Source(w, docs[id], held)
  {
  }

  /**
   Two pods that have reloaded, one of which holds a document apart and the other not, serve
   differently from then on, however often either rebuilds.
   */
  lemma StayApart(w: World, c: State, run: seq<Action>, p: nat, q: nat, id: bytes)
    requires Inv(w, c) && CarriesSeq(w.env) && Reloaded(c, p) && Reloaded(c, q) && id in c.docs
    requires HeldApart(w, c.pods[p].held, c.docs[id])
    requires !HeldApart(w, c.pods[q].held, c.docs[id]) && !Collides(w, c.pods[q].held, c.docs[id])
    requires forall k :: 0 <= k < |run| ==> Quiet(run[k])
    ensures var d := Run(w, c, run);
            |d.pods| == |c.pods| && p < |d.pods| && q < |d.pods| && d.pods[p].ordered != d.pods[q].ordered
  {
    hide Table, ServesTable, Made, Run, Sources, CarriesSeq, Source, GoodHeld;
    EpochNeverFalls(w, c, run, p);
    RunInv(w, c, run);
    var d := Run(w, c, run);
    QuietHeld(w, c, run, p, id);
    QuietHeld(w, c, run, q, id);
    assert GoodPod(w, d, d.pods[p]) && GoodPod(w, d, d.pods[q]);
    SourceIff(w, d.pods[p].held, c.docs[id]);
    SourceIff(w, d.pods[q].held, c.docs[id]);
    ServedUnder(w, d, p, id);
    ServedUnder(w, d, q, id);
    if d.pods[p].ordered == d.pods[q].ordered {
      OneTable(d.pods[p].ordered, Table(w, Sources(w, d.docs, d.pods[p].held)), Table(w, Sources(w, d.docs, d.pods[q].held)));
    }
  }

  // ----- polling -----

  function Rebuild(p: nat, list: seq<Stub>): seq<Action> { [Lock(p), LoadAll(p), Swap(p, list)] }

  /** One poll: nothing at the store's epoch, a rebuild at any other. */
  ghost predicate Polls(w: World, c: State, p: nat, d: State)
    requires p < |c.pods|
  {
    if c.pods[p].epoch == c.epoch then d == c
    else exists list :: Lists(list, Table(w, Sources(w, c.docs, c.pods[p].held))) && d == Run(w, c, Rebuild(p, list))
  }

  /** A pod at rest: current if its epoch says so, and its cache holds nothing apart. */
  ghost predicate AtRest(w: World, c: State, pod: Pod) {
    && pod.phase.Idle? && HeldAsStored(w, pod.held, map[], c.docs) && NoCollision(w, pod.held, c.docs)
    && (pod.epoch == c.epoch ==> pod.origin.Built? && pod.origin.overlay == map[])
  }

  lemma RebuildFromRest(w: World, c: State, p: nat, list: seq<Stub>)
    requires p < |c.pods| && c.pods[p].phase.Idle? && Lists(list, Table(w, Sources(w, c.docs, c.pods[p].held)))
    ensures Run(w, c, Rebuild(p, list)) ==
            WithPod(c, p, Pod(Sorted(list), c.epoch, Idle, Built(c.docs, c.clock + 1, map[]), HeldAfter(w, c.docs, c.pods[p].held)))
              .(clock := c.clock + 3)
  {
    hide Lists, Table, Sorted, Sources, HeldAfter;
    var b := WithPod(c, p, c.pods[p].(phase := Locked)).(clock := c.clock + 1);
    var l := WithPod(c, p, c.pods[p].(phase := Loaded(c.docs, c.epoch, c.clock + 1))).(clock := c.clock + 2);
    assert Next(w, c, Lock(p)) == b && Next(w, b, LoadAll(p)) == l;
    var run := Rebuild(p, list);
    assert run[..3] == run && run[..2][..1] == run[..1] && run[..1][..0] == [];
    assert Run(w, c, run[..1]) == b && Run(w, c, run[..2]) == l;
  }

  lemma PollRests(w: World, c: State, p: nat, d: State)
    requires Inv(w, c) && p < |c.pods| && AtRest(w, c, c.pods[p]) && Polls(w, c, p, d)
    ensures Inv(w, d) && d.docs == c.docs && d.epoch == c.epoch && d.handlers == c.handlers && d.lost == c.lost
    ensures |d.pods| == |c.pods| && d.pods == c.pods[p := d.pods[p]] && d.pods[p].epoch == c.epoch && AtRest(w, d, d.pods[p])
  {
    hide Run, Rebuild, HeldApart, Collides, Table, Lists, Sources, HeldAfter;
    if c.pods[p].epoch != c.epoch {
      var list :| Lists(list, Table(w, Sources(w, c.docs, c.pods[p].held))) && d == Run(w, c, Rebuild(p, list));
      RebuildFromRest(w, c, p, list);
      RunInv(w, c, Rebuild(p, list));
      forall id | id in c.docs
        ensures !HeldApart(w, d.pods[p].held, c.docs[id]) && !Collides(w, d.pods[p].held, c.docs[id])
      {
        HeldApartStays(w, c.docs, c.pods[p].held, id);
      }
    }
  }

  /**
   After the last bump, one poll of each pod at rest makes all pods serve the store, whichever
   of them were behind.
   */
  lemma {:induction false} OnePollEach(w: World, states: seq<State>, n: nat)
    requires |states| == n + 1 && n == |states[0].pods| && Inv(w, states[0]) && Settled(states[0]) && CarriesSeq(w.env)
    requires DistinctSeqs(Table(w, states[0].docs))
    requires forall p :: 0 <= p < n ==> AtRest(w, states[0], states[0].pods[p])
    requires forall p :: 0 <= p < n ==> |states[p].pods| == n && Polls(w, states[p], p, states[p + 1])
    ensures var c, d := states[0], states[n];
            && d.docs == c.docs && d.epoch == c.epoch && |d.pods| == n
            && forall p :: 0 <= p < n ==> d.pods[p].epoch == c.epoch && ServesDocs(w, d.pods[p].ordered, c.docs)
  {
    hide Inv, Table, ServesDocs, AtRest, Polls, CarriesSeq, DistinctSeqs, Settled;
    PolledSoFar(w, states, n, n);
    var c, d := states[0], states[n];
    SettledSame(c, d);
    forall p | 0 <= p < n ensures d.pods[p].epoch == c.epoch && ServesDocs(w, d.pods[p].ordered, c.docs) {
      RestServes(w, d, p);
    }
  }

  lemma {:induction false} PolledSoFar(w: World, states: seq<State>, n: nat, k: nat)
    requires |states| == n + 1 && n == |states[0].pods| && Inv(w, states[0]) && k <= n
    requires forall p :: 0 <= p < n ==> AtRest(w, states[0], states[0].pods[p])
    requires forall p :: 0 <= p < n ==> |states[p].pods| == n && Polls(w, states[p], p, states[p + 1])
    ensures var c, d := states[0], states[k];
            && Inv(w, d) && d.docs == c.docs && d.epoch == c.epoch && d.handlers == c.handlers && d.lost == c.lost && |d.pods| == n
            && (forall p :: 0 <= p < n ==> AtRest(w, d, d.pods[p]))
            && (forall p :: 0 <= p < k ==> d.pods[p].epoch == c.epoch)
  {
    hide Inv, Polls;
    if k > 0 {
      PolledSoFar(w, states, n, k - 1);
      PollRests(w, states[k - 1], k - 1, states[k]);
      hide HeldAsStored, NoCollision;
    }
  }

  lemma RestServes(w: World, d: State, p: nat)
    requires Inv(w, d) && Settled(d) && p < |d.pods| && AtRest(w, d, d.pods[p]) && d.pods[p].epoch == d.epoch
    requires CarriesSeq(w.env) && DistinctSeqs(Table(w, d.docs))
    ensures ServesDocs(w, d.pods[p].ordered, d.docs)
  {
    hide Table, ServesTable, ServesDocs, DistinctSeqs, Overlaid, GoodDocs, GoodHeld, Sources, CarriesSeq, NoCollision, HeldAsStored;
    assert GoodPod(w, d, d.pods[p]);
    SettledIff(w, d.pods[p], d.docs);
    assert LeftAsStored(w, map[], d.docs);
  }

  // ----- the builder's rebuild is the swap of the model -----

  /** The documents of a load, by id. */
  function DocsOf(list: seq<StoredStub>): Docs {
    if list == [] then map[] else DocsOf(list[..|list| - 1])[list[|list| - 1].id := list[|list| - 1]]
  }

  lemma {:induction false} DocsOfHolds(list: seq<StoredStub>)
    requires DistinctDocs(list)
    ensures DocsOf(list).Keys == LiveIds(list) && forall k :: 0 <= k < |list| ==> list[k].id in DocsOf(list) && DocsOf(list)[list[k].id] == list[k]
  {
    if list != [] {
      var n := |list| - 1;
      DocsOfHolds(list[..n]);
      LiveNext(list, n);
      assert list[..n + 1] == list;
      hide LiveIds;
      forall k | 0 <= k < n ensures list[k].id in DocsOf(list) && DocsOf(list)[list[k].id] == list[k] {
        assert list[..n][k] == list[k];
      }
    }
  }

  /** A hit compiles the document held. */
  lemma ThroughIsSource(w: World, doc: StoredStub, entries: Entries, held: Fillers)
    requires Fills(entries, held, w.env)
    ensures ThroughCache(doc, w.files, entries, w.env) == Made(w, Source(w, doc, held))
  {
    assert Hit(entries, doc, w.env) <==> SameHash(held, doc, w.env);
  }

  lemma AppendLists(list: seq<Stub>, table: map<bytes, Stub>, x: Stub)
    requires Lists(list, table) && x.id !in table
    ensures Lists(list + [x], table[x.id := x])
  {
    var t := list + [x];
    forall id | id in table[x.id := x] ensures HasId(t, id) {
      if id == x.id {
        assert t[|list|].id == id;
      } else {
        assert HasId(list, id);
        var k :| 0 <= k < |list| && list[k].id == id;
        assert t[k].id == id;
      }
    }
  }

  lemma {:induction false} ThroughLists(w: World, list: seq<StoredStub>, entries: Entries, held: Fillers)
    requires DistinctDocs(list) && Fills(entries, held, w.env) && GoodDocs(w, DocsOf(list)) && GoodHeld(w, held)
    ensures Lists(AllThroughCache(list, w.files, entries, w.env), Table(w, Sources(w, DocsOf(list), held)))
  {
    hide Table, Sources, Lists, ThroughCache, Made, Source, GoodHeld, Fills;
    if list == [] {
      NothingListed(w, held);
    } else {
      var n := |list| - 1;
      DocsOfHolds(list[..n]);
      assert list[n].id !in DocsOf(list[..n]);
      PrefixGood(w, DocsOf(list[..n]), list[n]);
      ThroughLists(w, list[..n], entries, held);
      ThroughNext(w, AllThroughCache(list[..n], w.files, entries, w.env), DocsOf(list[..n]), list[n], entries, held);
    }
  }

  lemma NothingListed(w: World, held: Fillers)
    ensures Lists([], Table(w, Sources(w, map[], held)))
  {
  }

  lemma ThroughNext(w: World, stubs: seq<Stub>, before: Docs, doc: StoredStub, entries: Entries, held: Fillers)
    requires Fills(entries, held, w.env) && GoodHeld(w, held) && doc.id !in before && Stamped(w, doc)
    requires Lists(stubs, Table(w, Sources(w, before, held)))
    ensures Lists(stubs + (match ThroughCache(doc, w.files, entries, w.env) case None => [] case Some(cs) => [cs]),
                  Table(w, Sources(w, before[doc.id := doc], held)))
  {
    ThroughIsSource(w, doc, entries, held);
    TableNext(w, before, doc, held);
    hide Table, Sources, Lists, ThroughCache, Made, Source;
    var made := Made(w, Source(w, doc, held));
    if made.Some? { AppendLists(stubs, Table(w, Sources(w, before, held)), made.value); } else { assert stubs + [] == stubs; }
  }

  lemma PrefixGood(w: World, before: Docs, doc: StoredStub)
    requires doc.id !in before && GoodDocs(w, before[doc.id := doc])
    ensures GoodDocs(w, before) && Stamped(w, doc)
  {
    hide Made;
    assert before[doc.id := doc][doc.id] == doc;
    forall id | id in before ensures before[id].id == id && Stamped(w, before[id]) {
      assert before[doc.id := doc][id] == before[id];
    }
  }

  lemma TableNext(w: World, before: Docs, doc: StoredStub, held: Fillers)
    requires doc.id !in before && Stamped(w, doc) && GoodHeld(w, held)
    ensures var t, made := Table(w, Sources(w, before, held)), Made(w, Source(w, doc, held));
            && doc.id !in t && (made.Some? ==> made.value.id == doc.id)
            && Table(w, Sources(w, before[doc.id := doc], held)) == match made case None => t case Some(cs) => t[doc.id := cs]
  {
    hide Made;
    assert Sources(w, before[doc.id := doc], held) == Sources(w, before, held)[doc.id := Source(w, doc, held)];
  }

  /**
   What the builder's rebuild makes of a load is what a swap of the model may install, and it
   leaves the cache held as the model says.
   */
  lemma RebuildIsSwap(w: World, list: seq<StoredStub>, entries: Entries, held: Fillers, epoch: nat, settings: Option<nat>)
    requires DistinctDocs(list) && Fills(entries, held, w.env) && GoodDocs(w, DocsOf(list)) && GoodHeld(w, held)
    ensures var stubs := AllThroughCache(list, w.files, entries, w.env);
            Lists(stubs, Table(w, Sources(w, DocsOf(list), held))) && Build(stubs, epoch, settings).ordered == Sorted(stubs)
    ensures FillersAfter(list, held, w.env) == HeldAfter(w, DocsOf(list), held)
  {
    ThroughLists(w, list, entries, held);
    DocsOfHolds(list);
    FillersAfterAt(list, held, w.env);
    var a, b := FillersAfter(list, held, w.env), HeldAfter(w, DocsOf(list), held);
    hide FillersAfter, AllThroughCache, Lists, Table, Sources, FillerAfter;
    forall id ensures FillerAt(a, id) == FillerAt(b, id) {
      if id in LiveIds(list) {
        var k :| 0 <= k < |list| && list[k].id == id;
        assert FillerAt(a, list[k].id) == FillerAfter(list[k], held, w.env);
      }
    }
    assert a == b by { SameFillers(a, b); }
  }

  lemma SameFillers(a: Fillers, b: Fillers)
    requires forall id :: FillerAt(a, id) == FillerAt(b, id)
    ensures a == b
  {
    forall id ensures (id in a <==> id in b) && (id in a ==> a[id] == b[id]) {
      assert FillerAt(a, id) == FillerAt(b, id);
    }
  }
}
