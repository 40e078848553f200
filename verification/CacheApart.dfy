/** A run after which two pods serve the same store differently for good: each keeps its own cache. */
module CacheApart {
  import opened Bytes
  import opened Stubs
  import opened Snapshots
  import opened SnapshotBuilder
  import opened Splices
  import opened Cluster
  import opened Convergence
  import opened ReadYourWrites

  /** A bulk write: an import, or a reset. */
  function Import(h: nat, docs: Docs): seq<Action> { [MutateBulk(h, docs), Bump(h)] }

  lemma RunImport(w: World, c: State, h: nat, docs: Docs)
    requires h < |c.handlers| && c.handlers[h].stage.Ready? && c.handlers[h].change.Bulk? && GoodDocs(w, docs)
    ensures Run(w, c, Import(h, docs)) == WithStage(c, h, Bumped).(docs := docs, epoch := c.epoch + 1, clock := c.clock + 2)
  {
    var b := Next(w, c, MutateBulk(h, docs));
    assert b == WithStage(c, h, Written).(docs := docs, clock := c.clock + 1);
    var run := Import(h, docs);
    assert run[..2] == run && run[..1][..0] == [] && Run(w, c, run[..1]) == b;
  }

  /** A cache of one entry, asked for one document of the same mapping. */
  lemma OneEntry(w: World, d: StoredStub, e: StoredStub)
    requires d.id == e.id && d.mapping == e.mapping && Made(w, d).Some? && Made(w, e).Some?
    ensures Sources(w, map[e.id := e], map[d.id := d]) == map[d.id := d]
    ensures HeldAfter(w, map[e.id := e], map[d.id := d]) == map[d.id := d]
    ensures Sources(w, map[], map[d.id := d]) == map[] && HeldAfter(w, map[], map[d.id := d]) == map[]
    ensures Sources(w, map[e.id := e], map[]) == map[e.id := e] && HeldAfter(w, map[e.id := e], map[]) == map[e.id := e]
  {
  }

  lemma OneListed(w: World, d: StoredStub)
    requires Made(w, d).Some? && Stamped(w, d)
    ensures var x := Made(w, d).value; Lists([x], Table(w, map[d.id := d])) && Sorted([x]) == [x]
    ensures Lists([], Table(w, map[])) && Sorted([]) == []
  {
    var x := Made(w, d).value;
    assert [x][..0] == [] && Table(w, map[d.id := d]) == map[d.id := x];
    assert [x][0].id == d.id;
  }

  function Pods(docs: Docs, epoch: nat, first: Pod, second: Pod, done: nat, clock: nat): State {
    State(docs, epoch, 0, [first, second], seq(3, i => Handler(0, Bulk, if i < done then Bumped else Ready)), clock)
  }

  function NewPod(): Pod { Pod([], 0, Idle, Unbuilt, map[]) }

  function RebuiltPod(w: World, served: StoredStub, epoch: nat, docs: Docs, at: nat): Pod
    requires Made(w, served).Some?
  {
    Pod([Made(w, served).value], epoch, Idle, Built(docs, at, map[]), map[served.id := served])
  }

  lemma ImportStep(w: World, docs: Docs, epoch: nat, first: Pod, second: Pod, done: nat, clock: nat, next: Docs)
    requires done < 3 && GoodDocs(w, next)
    ensures Run(w, Pods(docs, epoch, first, second, done, clock), Import(done, next))
         == Pods(next, epoch + 1, first, second, done + 1, clock + 2)
  {
    RunImport(w, Pods(docs, epoch, first, second, done, clock), done, next);
    hide Run, Import;
    assert Pods(next, epoch + 1, first, second, done + 1, clock + 2).handlers
        == Pods(docs, epoch, first, second, done, clock).handlers[done := Handler(0, Bulk, Bumped)];
  }

  lemma RebuildFirst(w: World, docs: Docs, epoch: nat, first: Pod, second: Pod, done: nat, clock: nat,
                     list: seq<Stub>, sources: Docs, held: Fillers)
    requires first.phase.Idle? && Sorted(list) == list
    requires sources == Sources(w, docs, first.held) && Lists(list, Table(w, sources)) && held == HeldAfter(w, docs, first.held)
    ensures Run(w, Pods(docs, epoch, first, second, done, clock), Rebuild(0, list))
         == Pods(docs, epoch, Pod(list, epoch, Idle, Built(docs, clock + 1, map[]), held), second, done, clock + 3)
  {
    hide Run, Rebuild, Sources, HeldAfter, Lists, Table, Sorted;
    RebuildFromRest(w, Pods(docs, epoch, first, second, done, clock), 0, list);
  }

  lemma RebuildSecond(w: World, docs: Docs, epoch: nat, first: Pod, second: Pod, done: nat, clock: nat,
                      list: seq<Stub>, sources: Docs, held: Fillers)
    requires second.phase.Idle? && Sorted(list) == list
    requires sources == Sources(w, docs, second.held) && Lists(list, Table(w, sources)) && held == HeldAfter(w, docs, second.held)
    ensures Run(w, Pods(docs, epoch, first, second, done, clock), Rebuild(1, list))
         == Pods(docs, epoch, first, Pod(list, epoch, Idle, Built(docs, clock + 1, map[]), held), done, clock + 3)
  {
    hide Run, Rebuild, Sources, HeldAfter, Lists, Table, Sorted;
    RebuildFromRest(w, Pods(docs, epoch, first, second, done, clock), 1, list);
  }

  // The run: a document is imported and both pods rebuild; it is deleted, which only the second
  // pod sees; its bytes are imported again, under a new sequence number, and both rebuild.

  function Begin(): State { Pods(map[], 0, NewPod(), NewPod(), 0, 0) }

  function Imported(w: World, d: StoredStub): State
    requires Made(w, d).Some?
  {
    Pods(map[d.id := d], 1, RebuiltPod(w, d, 1, map[d.id := d], 3), RebuiltPod(w, d, 1, map[d.id := d], 6), 1, 8)
  }

  function Deleted(w: World, d: StoredStub): State
    requires Made(w, d).Some?
  {
    Pods(map[], 2, RebuiltPod(w, d, 1, map[d.id := d], 3), Pod([], 2, Idle, Built(map[], 11, map[]), map[]), 2, 13)
  }

  function Again(w: World, d: StoredStub, e: StoredStub): State
    requires Made(w, d).Some? && Made(w, e).Some?
  {
    Pods(map[e.id := e], 3, RebuiltPod(w, d, 3, map[e.id := e], 16), RebuiltPod(w, e, 3, map[e.id := e], 19), 3, 21)
  }

  function ImportRun(w: World, d: StoredStub): seq<Action>
    requires Made(w, d).Some?
  {
    Import(0, map[d.id := d]) + Rebuild(0, [Made(w, d).value]) + Rebuild(1, [Made(w, d).value])
  }

  function DeleteRun(): seq<Action> { Import(1, map[]) + Rebuild(1, []) }

  function AgainRun(w: World, d: StoredStub, e: StoredStub): seq<Action>
    requires Made(w, d).Some? && Made(w, e).Some?
  {
    Import(2, map[e.id := e]) + Rebuild(0, [Made(w, d).value]) + Rebuild(1, [Made(w, e).value])
  }

  lemma RunThree(w: World, c: State, one: seq<Action>, two: seq<Action>, three: seq<Action>)
    ensures Run(w, c, one + two + three) == Run(w, Run(w, Run(w, c, one), two), three)
  {
    hide Run;
    RunConcat(w, c, one, two);
    RunConcat(w, c, one + two, three);
  }

  lemma ToImported(w: World, d: StoredStub)
    requires Made(w, d).Some? && Stamped(w, d)
    ensures Run(w, Begin(), ImportRun(w, d)) == Imported(w, d)
  {
    var x, docs := Made(w, d).value, map[d.id := d];
    OneEntry(w, d, d);
    OneListed(w, d);
    hide Run, Rebuild, Import, Sources, HeldAfter, Lists, Table, Sorted, Made, Stamped, Pods;
    ImportStep(w, map[], 0, NewPod(), NewPod(), 0, 0, docs);
    RebuildFirst(w, docs, 1, NewPod(), NewPod(), 1, 2, [x], docs, docs);
    RebuildSecond(w, docs, 1, RebuiltPod(w, d, 1, docs, 3), NewPod(), 1, 5, [x], docs, docs);
    RunThree(w, Begin(), Import(0, docs), Rebuild(0, [x]), Rebuild(1, [x]));
  }

  lemma ToDeleted(w: World, d: StoredStub)
    requires Made(w, d).Some? && Stamped(w, d)
    ensures Run(w, Imported(w, d), DeleteRun()) == Deleted(w, d)
  {
    OneEntry(w, d, d);
    OneListed(w, d);
    hide Run, Rebuild, Import, Sources, HeldAfter, Lists, Table, Sorted, Made, Stamped, Pods;
    var docs := map[d.id := d];
    var a, b := RebuiltPod(w, d, 1, docs, 3), RebuiltPod(w, d, 1, docs, 6);
    ImportStep(w, docs, 1, a, b, 1, 8, map[]);
    RebuildSecond(w, map[], 2, a, b, 2, 10, [], map[], map[]);
    RunConcat(w, Imported(w, d), Import(1, map[]), Rebuild(1, []));
  }

  lemma ToAgain(w: World, d: StoredStub, e: StoredStub)
    requires Made(w, d).Some? && Stamped(w, d) && Made(w, e).Some? && Stamped(w, e) && d.id == e.id && d.mapping == e.mapping
    ensures Run(w, Deleted(w, d), AgainRun(w, d, e)) == Again(w, d, e)
  {
    var docs := map[e.id := e];
    var a, b := RebuiltPod(w, d, 1, map[d.id := d], 3), Pod([], 2, Idle, Built(map[], 11, map[]), map[]);
    OneEntry(w, d, e);
    OldAgain(w, d, e, docs, b);
    NewAgain(w, e, docs, RebuiltPod(w, d, 3, docs, 16));
    hide Run, Rebuild, Import, Sources, HeldAfter, Made, Stamped, Pods;
    ImportStep(w, map[], 2, a, b, 2, 13, docs);
    RunThree(w, Deleted(w, d), Import(2, docs), Rebuild(0, [Made(w, d).value]), Rebuild(1, [Made(w, e).value]));
  }

  /** The first pod compiles the document it holds. */
  lemma OldAgain(w: World, d: StoredStub, e: StoredStub, docs: Docs, b: Pod)
    requires Made(w, d).Some? && Stamped(w, d) && Made(w, e).Some? && d.id == e.id && d.mapping == e.mapping && docs == map[e.id := e]
    ensures Run(w, Pods(docs, 3, RebuiltPod(w, d, 1, map[d.id := d], 3), b, 3, 15), Rebuild(0, [Made(w, d).value]))
         == Pods(docs, 3, RebuiltPod(w, d, 3, docs, 16), b, 3, 18)
  {
    OneEntry(w, d, e);
    OneListed(w, d);
    hide Run, Rebuild, Sources, HeldAfter, Lists, Table, Sorted, Made, Stamped, Pods;
    RebuildFirst(w, docs, 3, RebuiltPod(w, d, 1, map[d.id := d], 3), b, 3, 15, [Made(w, d).value], map[d.id := d], map[d.id := d]);
  }

  /** The second has nothing held and compiles the one stored. */
  lemma NewAgain(w: World, e: StoredStub, docs: Docs, a: Pod)
    requires Made(w, e).Some? && Stamped(w, e) && docs == map[e.id := e]
    ensures var b := Pod([], 2, Idle, Built(map[], 11, map[]), map[]);
            Run(w, Pods(docs, 3, a, b, 3, 18), Rebuild(1, [Made(w, e).value])) == Pods(docs, 3, a, RebuiltPod(w, e, 3, docs, 19), 3, 21)
  {
    var b := Pod([], 2, Idle, Built(map[], 11, map[]), map[]);
    OneEntry(w, e, e);
    OneListed(w, e);
    hide Run, Rebuild, Sources, HeldAfter, Lists, Table, Sorted, Made, Stamped, Pods;
    RebuildSecond(w, docs, 3, a, b, 3, 18, [Made(w, e).value], docs, docs);
  }

  /**
   Both pods end at the store's epoch, every write bumped and nothing spliced, and from then on
   serve differently, however often they rebuild while nothing is written.
   */
  lemma NeverAgree(w: World, d: StoredStub, e: StoredStub)
    requires CarriesSeq(w.env) && Made(w, d).Some? && Stamped(w, d) && Made(w, e).Some? && Stamped(w, e)
    requires d.id == e.id && d.mapping == e.mapping && d.seqNo != e.seqNo
    ensures var c := Run(w, Begin(), ImportRun(w, d) + DeleteRun() + AgainRun(w, d, e));
            && Initial(w, Begin()) && Settled(c) && c.docs == map[e.id := e] && |c.pods| == 2
            && c.pods[0].epoch == c.pods[1].epoch == c.epoch && Reloaded(c, 0) && Reloaded(c, 1)
            && forall more: seq<Action> :: (forall k :: 0 <= k < |more| ==> Quiet(more[k])) ==>
                 var f := Run(w, c, more); |f.pods| == 2 && f.pods[0].ordered != f.pods[1].ordered
  {
    BeginsWell(w);
    EndsApart(w, d, e);
    hide Run, ImportRun, DeleteRun, AgainRun, Inv, CarriesSeq, Made, HeldApart, Collides, Stamped, Begin, Imported, Deleted, Initial;
    ToImported(w, d);
    ToDeleted(w, d);
    ToAgain(w, d, e);
    var run := ImportRun(w, d) + DeleteRun() + AgainRun(w, d, e);
    RunConcat(w, Begin(), ImportRun(w, d), DeleteRun());
    RunConcat(w, Begin(), ImportRun(w, d) + DeleteRun(), AgainRun(w, d, e));
    RunInv(w, Begin(), run);
    var c := Again(w, d, e);
    forall more: seq<Action> | forall k :: 0 <= k < |more| ==> Quiet(more[k])
      ensures var f := Run(w, c, more); |f.pods| == 2 && f.pods[0].ordered != f.pods[1].ordered
    {
      StayApart(w, c, more, 0, 1, e.id);
    }
  }

  lemma BeginsWell(w: World)
    ensures Initial(w, Begin()) && Inv(w, Begin())
  {
    InitialInv(w, Begin());
  }

  lemma EndsApart(w: World, d: StoredStub, e: StoredStub)
    requires Made(w, d).Some? && Made(w, e).Some? && d.id == e.id && d.mapping == e.mapping && d.seqNo != e.seqNo
    ensures var c := Again(w, d, e);
            && Settled(c) && Reloaded(c, 0) && Reloaded(c, 1)
            && HeldApart(w, c.pods[0].held, e) && !HeldApart(w, c.pods[1].held, e) && !Collides(w, c.pods[1].held, e)
  {
  }
}
