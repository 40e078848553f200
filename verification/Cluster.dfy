/**
 Any number of pods over one store. Each admin write is three steps of its handler (mutate,
 bump, splice) and each rebuild three of its pod (lock, load, swap), interleaved freely. A
 rebuild compiles through the pod's cache.
 */
module Cluster {
  import opened Bytes
  import opened Stubs
  import opened Snapshots
  import opened SnapshotBuilder
  import opened Splices

  type Docs = map<bytes, StoredStub>

  /** What every pod compiles with. */
  datatype World = World(env: Env, files: map<bytes, bytes>)

  datatype Change = PutDoc(doc: StoredStub) | RemoveDoc(id: bytes) | Bulk

  datatype Stage = Ready | Written | Bumped | Finished

  /** One admin request, handled by one pod. A bulk change has no splice. */
  datatype Handler = Handler(pod: nat, change: Change, stage: Stage)

  /** The rebuild mutex, and what the holder has loaded, when. */
  datatype Phase = Idle | Locked | Loaded(docs: Docs, epoch: nat, at: nat)

  /** What the last splice of each id left there; None is a stub taken out. */
  type Overlay = map<bytes, Option<Stub>>

  /** Where the served list comes from: the documents last loaded, and the splices since. */
  datatype Origin = Unbuilt | Built(docs: Docs, at: nat, overlay: Overlay)

  /** `held` is the pod's compile cache, told by the documents its entries were compiled from. */
  datatype Pod = Pod(ordered: seq<Stub>, epoch: nat, phase: Phase, origin: Origin, held: Fillers)

  /** `lost` counts mutations no bump will follow: expiries, and failed bumps. */
  datatype State = State(docs: Docs, epoch: nat, lost: nat, pods: seq<Pod>, handlers: seq<Handler>, clock: nat)

  datatype Action =
    | Mutate(h: nat)
    | MutateBulk(h: nat, docs: Docs)
    | Bump(h: nat)
    | BumpFails(h: nat)
    | Expire(id: bytes)
    | Splice(h: nat)
    | Lock(p: nat)
    | LoadAll(p: nat)
    | Swap(p: nat, list: seq<Stub>)
    | Abandon(p: nat)

  function Made(w: World, doc: StoredStub): Option<Stub> { Fresh(doc, w.files, w.env) }

  /** The compiled stubs of a store state, quarantined documents left out. */
  function Table(w: World, docs: Docs): map<bytes, Stub> {
    map id | id in docs && Made(w, docs[id]).Some? :: Made(w, docs[id]).value
  }

  /** The stub compiled from a document has its id, which a stored mapping carries. */
  predicate Stamped(w: World, doc: StoredStub) {
    Made(w, doc).Some? ==> Made(w, doc).value.id == doc.id
  }

  predicate GoodDocs(w: World, docs: Docs) {
    forall id :: id in docs ==> docs[id].id == id && Stamped(w, docs[id])
  }

  // ----- compiling through the cache -----

  /** The document whose compilation a rebuild uses: the one held for the id, on a hit. */
  function Source(w: World, doc: StoredStub, held: Fillers): StoredStub {
    if Readable(doc, w.env) && SameHash(held, doc, w.env) then held[doc.id] else doc
  }

  function Sources(w: World, docs: Docs, held: Fillers): Docs { map id | id in docs :: Source(w, docs[id], held) }

  /** What is held after a rebuild from these documents. */
  function HeldAfter(w: World, docs: Docs, held: Fillers): Fillers {
    map id | id in docs && FillerAfter(docs[id], held, w.env).Some? :: FillerAfter(docs[id], held, w.env).value
  }

  /** Everything held compiles, to a stub of its own id. */
  predicate GoodHeld(w: World, held: Fillers) {
    GoodDocs(w, held) && forall id :: id in held ==> Made(w, held[id]).Some?
  }

  // ----- steps -----

  ghost predicate Enabled(w: World, c: State, a: Action) {
    match a
    case Mutate(h) =>
      h < |c.handlers| && c.handlers[h].stage.Ready? && !c.handlers[h].change.Bulk?
      && (c.handlers[h].change.PutDoc? ==> Made(w, c.handlers[h].change.doc).Some?)
    case MutateBulk(h, docs) => h < |c.handlers| && c.handlers[h].stage.Ready? && c.handlers[h].change.Bulk? && GoodDocs(w, docs)
    case Bump(h) => h < |c.handlers| && c.handlers[h].stage.Written?
    case BumpFails(h) => h < |c.handlers| && c.handlers[h].stage.Written?
    case Expire(id) => id in c.docs
    case Splice(h) =>
      h < |c.handlers| && c.handlers[h].stage.Bumped? && c.handlers[h].pod < |c.pods|
      && c.pods[c.handlers[h].pod].phase.Idle? && !c.handlers[h].change.Bulk?
      && (c.handlers[h].change.PutDoc? ==> Made(w, c.handlers[h].change.doc).Some?)
    case Lock(p) => p < |c.pods| && c.pods[p].phase.Idle?
    case LoadAll(p) => p < |c.pods| && c.pods[p].phase.Locked?
    case Swap(p, list) => p < |c.pods| && c.pods[p].phase.Loaded? && Lists(list, Table(w, Sources(w, c.pods[p].phase.docs, c.pods[p].held)))
    case Abandon(p) => p < |c.pods| && !c.pods[p].phase.Idle?
  }

  function WithStage(c: State, h: nat, stage: Stage): State
    requires h < |c.handlers|
  {
    c.(handlers := c.handlers[h := c.handlers[h].(stage := stage)])
  }

  function WithPod(c: State, p: nat, pod: Pod): State
    requires p < |c.pods|
  {
    c.(pods := c.pods[p := pod])
  }

  function Changed(docs: Docs, change: Change): Docs {
    match change
    case PutDoc(doc) => docs[doc.id := doc]
    case RemoveDoc(id) => docs - {id}
    case Bulk => docs
  }

  /** What a splice leaves in the served list, as the builder's splices specify it. */
  function SplicedList(w: World, ordered: seq<Stub>, change: Change): seq<Stub>
    requires change.PutDoc? ==> Made(w, change.doc).Some?
  {
    match change
    case PutDoc(doc) => Sorted(SnapshotBuilder.Spliced(ordered, Made(w, doc).value))
    case RemoveDoc(id) => if HasId(ordered, id) then Sorted(Without(ordered, id)) else ordered
    case Bulk => ordered
  }

  /** What a splice leaves under its id. */
  function SpliceLeaves(w: World, change: Change): Option<Stub> {
    match change
    case PutDoc(doc) => Made(w, doc)
    case _ => None
  }

  function ChangeId(change: Change): Option<bytes> {
    match change
    case PutDoc(doc) => Some(doc.id)
    case RemoveDoc(id) => Some(id)
    case Bulk => None
  }

  function SplicedOrigin(w: World, o: Origin, change: Change): Origin {
    if o.Built? && ChangeId(change).Some? then o.(overlay := o.overlay[ChangeId(change).value := SpliceLeaves(w, change)]) else o
  }

  ghost function Effect(w: World, c: State, a: Action): State
    requires Enabled(w, c, a)
  {
    match a
    case Mutate(h) => WithStage(c, h, Written).(docs := Changed(c.docs, c.handlers[h].change))
    case MutateBulk(h, docs) => WithStage(c, h, Written).(docs := docs)
    case Bump(h) => WithStage(c, h, Bumped).(epoch := c.epoch + 1)
    case BumpFails(h) => WithStage(c, h, Finished).(lost := c.lost + 1)
    case Expire(id) => c.(docs := c.docs - {id}, lost := c.lost + 1)
    case Splice(h) =>
      var p := c.handlers[h].pod;
      WithStage(WithPod(c, p, c.pods[p].(ordered := SplicedList(w, c.pods[p].ordered, c.handlers[h].change),
                                         origin := SplicedOrigin(w, c.pods[p].origin, c.handlers[h].change))), h, Finished)
    case Lock(p) => WithPod(c, p, c.pods[p].(phase := Locked))
    case LoadAll(p) => WithPod(c, p, c.pods[p].(phase := Loaded(c.docs, c.epoch, c.clock)))
    case Swap(p, list) =>
      var f := c.pods[p].phase;
      WithPod(c, p, Pod(Sorted(list), f.epoch, Idle, Built(f.docs, f.at, map[]), HeldAfter(w, f.docs, c.pods[p].held)))
    case Abandon(p) => WithPod(c, p, c.pods[p].(phase := Idle))
  }

  /** An action that is not enabled does nothing, so every sequence of actions is a run. */
  ghost function Next(w: World, c: State, a: Action): State {
    (if Enabled(w, c, a) then Effect(w, c, a) else c).(clock := c.clock + 1)
  }

  ghost function Run(w: World, c: State, run: seq<Action>): State {
    if run == [] then c else Next(w, Run(w, c, run[..|run| - 1]), run[|run| - 1])
  }

  /** The state after the first n actions. */
  ghost function After(w: World, c: State, run: seq<Action>, n: nat): State
    requires n <= |run|
  {
    Run(w, c, run[..n])
  }

  lemma AfterNext(w: World, c: State, run: seq<Action>, n: nat)
    requires n < |run|
    ensures After(w, c, run, n + 1) == Next(w, After(w, c, run, n), run[n])
  {
    assert run[..n + 1][..n] == run[..n];
  }

  // ----- the invariant -----

  /** Every mutation so far has been bumped. */
  ghost predicate Settled(c: State) {
    c.lost == 0 && forall h :: 0 <= h < |c.handlers| ==> !c.handlers[h].stage.Written?
  }

  function StubAt(table: map<bytes, Stub>, id: bytes): Option<Stub> { if id in table then Some(table[id]) else None }

  function StubOver(table: map<bytes, Stub>, overlay: Overlay, id: bytes): Option<Stub> {
    if id in overlay then overlay[id] else StubAt(table, id)
  }

  /** The table with the spliced ids as their splices left them. */
  function Overlaid(table: map<bytes, Stub>, overlay: Overlay): map<bytes, Stub> {
    map id | id in table.Keys + overlay.Keys && StubOver(table, overlay, id).Some? :: StubOver(table, overlay, id).value
  }

  /** The list is a sorted listing of the table. */
  ghost predicate ServesTable(ordered: seq<Stub>, table: map<bytes, Stub>) {
    exists list :: Lists(list, table) && ordered == Sorted(list)
  }

  ghost predicate GoodPod(w: World, c: State, pod: Pod) {
    && pod.epoch <= c.epoch && DistinctIds(pod.ordered) && GoodHeld(w, pod.held)
    && (pod.phase.Loaded? ==>
          && pod.epoch <= pod.phase.epoch <= c.epoch && GoodDocs(w, pod.phase.docs)
          && (pod.phase.epoch == c.epoch && Settled(c) ==> pod.phase.docs == c.docs))
    && (pod.origin.Built? ==>
          && GoodDocs(w, pod.origin.docs)
          && ServesTable(pod.ordered, Overlaid(Table(w, Sources(w, pod.origin.docs, pod.held)), pod.origin.overlay))
          && (pod.epoch == c.epoch && Settled(c) ==> pod.origin.docs == c.docs))
  }

  /** A handler compiled its document before it wrote it. */
  ghost predicate GoodHandler(w: World, x: Handler) {
    x.change.PutDoc? ==> Stamped(w, x.change.doc) && (!x.stage.Ready? ==> Made(w, x.change.doc).Some?)
  }

  ghost predicate GoodHandlers(w: World, c: State) {
    forall h :: 0 <= h < |c.handlers| ==> GoodHandler(w, c.handlers[h])
  }

  ghost predicate Inv(w: World, c: State) {
    GoodDocs(w, c.docs) && GoodHandlers(w, c) && forall p :: 0 <= p < |c.pods| ==> GoodPod(w, c, c.pods[p])
  }

  /** Nothing served, nothing running. */
  ghost predicate Initial(w: World, c: State) {
    GoodDocs(w, c.docs) && c.lost == 0
    && (forall p :: 0 <= p < |c.pods| ==> c.pods[p] == Pod([], 0, Idle, Unbuilt, map[]))
    && (forall h :: 0 <= h < |c.handlers| ==> c.handlers[h].stage.Ready?)
    && (forall h :: 0 <= h < |c.handlers| && c.handlers[h].change.PutDoc? ==> Stamped(w, c.handlers[h].change.doc))
  }

  lemma SplicedDistinctIds(s: seq<Stub>, cs: Stub)
    requires DistinctIds(s)
    ensures DistinctIds(SnapshotBuilder.Spliced(s, cs))
  {
    ReplacedAt(s, cs);
  }

  lemma SplicedListDistinctIds(w: World, ordered: seq<Stub>, change: Change)
    requires DistinctIds(ordered) && (change.PutDoc? ==> Made(w, change.doc).Some?)
    ensures DistinctIds(SplicedList(w, ordered, change))
  {
    match change
    case PutDoc(doc) =>
      var cs := Made(w, doc).value;
      SplicedDistinctIds(ordered, cs);
      SortedDistinctIds(SnapshotBuilder.Spliced(ordered, cs));
    case RemoveDoc(id) =>
      WithoutHolds(ordered, id);
      SortedDistinctIds(Without(ordered, id));
    case Bulk =>
  }

  /** A handler's or the store's own step leaves every pod good. */
  lemma StoreStep(w: World, c: State, d: State)
    requires Inv(w, c) && d.pods == c.pods && GoodDocs(w, d.docs) && GoodHandlers(w, d)
    requires (d.docs == c.docs && d.epoch == c.epoch && (Settled(d) ==> Settled(c))) || (d.epoch == c.epoch && !Settled(d)) || d.epoch > c.epoch
    ensures Inv(w, d)
  {
    forall p | 0 <= p < |d.pods| ensures GoodPod(w, d, d.pods[p]) {
      assert GoodPod(w, c, c.pods[p]);
    }
  }

  lemma PodStep(w: World, c: State, d: State, p: nat, pod: Pod)
    requires Inv(w, c) && p < |c.pods| && d.pods == c.pods[p := pod] && GoodPod(w, c, pod)
    requires d.docs == c.docs && d.epoch == c.epoch && (Settled(d) ==> Settled(c)) && GoodHandlers(w, d)
    ensures Inv(w, d)
  {
    forall q | 0 <= q < |d.pods| ensures GoodPod(w, d, d.pods[q]) {
      assert GoodPod(w, c, if q == p then pod else c.pods[q]);
    }
  }

  lemma StillWritten(c: State, h: nat, d: State)
    requires h < |d.handlers| && d.handlers[h].stage.Written?
    ensures !Settled(d)
  {
  }

  lemma StageSettled(c: State, h: nat, stage: Stage)
    requires h < |c.handlers| && !c.handlers[h].stage.Written?
    ensures Settled(WithStage(c, h, stage)) ==> Settled(c)
  {
    var d := WithStage(c, h, stage);
    if Settled(d) {
      forall k | 0 <= k < |c.handlers| ensures !c.handlers[k].stage.Written? {
        assert k != h ==> d.handlers[k] == c.handlers[k];
      }
    }
  }

  lemma NextInv(w: World, c: State, a: Action)
    requires Inv(w, c)
    ensures Inv(w, Next(w, c, a))
  {
    hide GoodPod, Table, SplicedList, SplicedOrigin, Settled, GoodHandlers, GoodDocs, Made, Sources, HeldAfter;
    var d := Next(w, c, a);
    if !Enabled(w, c, a) {
      Unmoved(w, c, d);
      return;
    }
    StoredStep(w, c, a);
    match a
    case Mutate(h) =>
      StillWritten(c, h, d);
      StoreStep(w, c, d);
    case MutateBulk(h, docs) =>
      StillWritten(c, h, d);
      StoreStep(w, c, d);
    case Bump(h) => StoreStep(w, c, d);
    case BumpFails(h) => NotSettled(d); StoreStep(w, c, d);
    case Expire(id) => NotSettled(d); StoreStep(w, c, d);
    case Splice(h) =>
      var p := c.handlers[h].pod;
      SplicePodGood(w, c, h);
      StageSettled(c, h, Finished);
      SettledSame(WithStage(c, h, Finished), d);
      PodStep(w, c, d, p, d.pods[p]);
    case Lock(p) => PhaseStep(w, c, d, p, a);
    case LoadAll(p) => PhaseStep(w, c, d, p, a);
    case Swap(p, list) => PhaseStep(w, c, d, p, a);
    case Abandon(p) => PhaseStep(w, c, d, p, a);
  }

  /** Whatever is written was stamped and compiled. */
  lemma StoredStep(w: World, c: State, a: Action)
    requires Inv(w, c) && Enabled(w, c, a)
    ensures GoodDocs(w, Next(w, c, a).docs) && GoodHandlers(w, Next(w, c, a))
  {
    hide GoodPod, Table, SplicedList, SplicedOrigin, Made, Lists, Sources, HeldAfter;
    var d := Next(w, c, a);
    assert |d.handlers| == |c.handlers|;
    forall h | 0 <= h < |d.handlers| ensures GoodHandler(w, d.handlers[h]) {
      assert GoodHandler(w, c.handlers[h]);
    }
  }

  lemma NotSettled(d: State)
    requires d.lost > 0
    ensures !Settled(d)
  {
  }

  lemma SettledSame(c: State, d: State)
    requires c.lost == d.lost && c.handlers == d.handlers
    ensures Settled(c) == Settled(d)
  {
  }

  lemma Unmoved(w: World, c: State, d: State)
    requires Inv(w, c) && d == c.(clock := c.clock + 1)
    ensures Inv(w, d)
  {
    forall p | 0 <= p < |d.pods| ensures GoodPod(w, d, d.pods[p]) {
      assert GoodPod(w, c, c.pods[p]);
    }
  }

  lemma SplicePodGood(w: World, c: State, h: nat)
    requires Inv(w, c) && Enabled(w, c, Splice(h))
    ensures var p := c.handlers[h].pod;
            GoodPod(w, c, c.pods[p].(ordered := SplicedList(w, c.pods[p].ordered, c.handlers[h].change),
                                     origin := SplicedOrigin(w, c.pods[p].origin, c.handlers[h].change)))
  {
    var p := c.handlers[h].pod;
    assert GoodPod(w, c, c.pods[p]);
    assert GoodHandler(w, c.handlers[h]);
    SplicedListDistinctIds(w, c.pods[p].ordered, c.handlers[h].change);
    var o := c.pods[p].origin;
    if o.Built? { SpliceServesTable(w, c.pods[p].ordered, Table(w, Sources(w, o.docs, c.pods[p].held)), o.overlay, c.handlers[h].change); }
  }

  /** A splice keeps the list a sorted listing, of the table with one more id laid over it. */
  lemma SpliceServesTable(w: World, ordered: seq<Stub>, table: map<bytes, Stub>, overlay: Overlay, change: Change)
    requires ServesTable(ordered, Overlaid(table, overlay)) && ChangeId(change).Some?
    requires change.PutDoc? ==> Stamped(w, change.doc) && Made(w, change.doc).Some?
    ensures ServesTable(SplicedList(w, ordered, change),
                        Overlaid(table, overlay[ChangeId(change).value := SpliceLeaves(w, change)]))
  {
    hide Made, Overlaid, Lists, HasId, Sorted, SnapshotBuilder.Spliced, Without;
    var t := Overlaid(table, overlay);
    var list :| Lists(list, t) && ordered == Sorted(list);
    SortedLists(list, t);
    match change
    case PutDoc(doc) =>
      var cs := Made(w, doc).value;
      OverlaidPut(table, overlay, cs);
      SplicedLists(ordered, t, cs);
    case RemoveDoc(id) =>
      OverlaidWithout(table, overlay, id);
      if HasId(ordered, id) {
        WithoutLists(ordered, t, id);
      } else {
        NotListed(ordered, t, id);
      }
  }

  lemma OverlaidPut(table: map<bytes, Stub>, overlay: Overlay, cs: Stub)
    ensures Overlaid(table, overlay[cs.id := Some(cs)]) == Overlaid(table, overlay)[cs.id := cs]
  {
  }

  lemma OverlaidWithout(table: map<bytes, Stub>, overlay: Overlay, id: bytes)
    ensures Overlaid(table, overlay[id := None]) == Overlaid(table, overlay) - {id}
  {
  }

  lemma NotListed(ordered: seq<Stub>, table: map<bytes, Stub>, id: bytes)
    requires Lists(ordered, table) && !HasId(ordered, id)
    ensures table - {id} == table
  {
  }

  lemma NothingOver(table: map<bytes, Stub>)
    ensures Overlaid(table, map[]) == table
  {
  }

  lemma ListedDistinct(list: seq<Stub>, table: map<bytes, Stub>)
    requires Lists(list, table)
    ensures DistinctIds(list)
  {
  }

  lemma HeldGood(w: World, docs: Docs, held: Fillers)
    requires GoodDocs(w, docs) && GoodHeld(w, held)
    ensures GoodHeld(w, HeldAfter(w, docs, held))
  {
  }

  /** What was compiled is what the cache now answers for the same documents. */
  lemma SourcesStay(w: World, docs: Docs, held: Fillers)
    requires GoodDocs(w, docs)
    ensures Sources(w, docs, HeldAfter(w, docs, held)) == Sources(w, docs, held)
  {
  }

  lemma PhaseStep(w: World, c: State, d: State, p: nat, a: Action)
    requires Inv(w, c) && Enabled(w, c, a) && d == Next(w, c, a)
    requires a == Lock(p) || a == LoadAll(p) || (a.Swap? && a.p == p) || a == Abandon(p)
    ensures Inv(w, d)
  {
    hide SplicedList, SplicedOrigin, Table, Lists, Made, GoodDocs, GoodHeld, Sources, HeldAfter;
    StoredStep(w, c, a);
    assert GoodPod(w, c, c.pods[p]);
    if a.Swap? {
      var docs, held := c.pods[p].phase.docs, c.pods[p].held;
      var t := Table(w, Sources(w, docs, held));
      HeldGood(w, docs, held);
      SourcesStay(w, docs, held);
      ListedDistinct(a.list, t);
      SortedDistinctIds(a.list);
      NothingOver(t);
      assert ServesTable(Sorted(a.list), t);
    }
    assert GoodPod(w, c, d.pods[p]);
    SettledSame(c, d);
    PodStep(w, c, d, p, d.pods[p]);
  }

  lemma {:induction false} RunInv(w: World, c: State, run: seq<Action>)
    requires Inv(w, c)
    ensures Inv(w, Run(w, c, run))
  {
    if run != [] {
      RunInv(w, c, run[..|run| - 1]);
      NextInv(w, Run(w, c, run[..|run| - 1]), run[|run| - 1]);
    }
  }

  lemma InitialInv(w: World, c: State)
    requires Initial(w, c)
    ensures Inv(w, c)
  {
  }

  // ----- epochs -----

  /** No step lowers a pod's epoch, and none takes it past the store's. */
  lemma EpochMonotone(w: World, c: State, a: Action, p: nat)
    requires Inv(w, c) && p < |c.pods|
    ensures var d := Next(w, c, a);
            p < |d.pods| && c.pods[p].epoch <= d.pods[p].epoch <= d.epoch && c.epoch <= d.epoch
  {
    hide SplicedList, Table, Sources, HeldAfter;
    NextInv(w, c, a);
    assert GoodPod(w, c, c.pods[p]);
    var d := Next(w, c, a);
    assert |d.pods| == |c.pods|;
    assert GoodPod(w, d, d.pods[p]);
  }

  /** Over a whole run. */
  lemma {:induction false} EpochNeverFalls(w: World, c: State, run: seq<Action>, p: nat)
    requires Inv(w, c) && p < |c.pods|
    ensures var d := Run(w, c, run);
            |d.pods| == |c.pods| && c.pods[p].epoch <= d.pods[p].epoch <= d.epoch && c.epoch <= d.epoch
  {
    if run == [] {
      assert GoodPod(w, c, c.pods[p]);
    } else {
      var before := run[..|run| - 1];
      EpochNeverFalls(w, c, before, p);
      RunInv(w, c, before);
      EpochMonotone(w, Run(w, c, before), run[|run| - 1], p);
    }
  }
}
