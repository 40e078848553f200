/** Batch import: validated whole, then applied back to front. */
module Import {
  import opened Bytes
  import opened Stubs
  import opened Snapshots
  import opened SnapshotBuilder

  datatype Policy = Overwrite | Ignore

  datatype Compiled = Compiled(id: bytes, persistent: bool)

  /** Compilation of an element, stamping an id into it, and fresh ids for anonymous ones. */
  datatype Tools = Tools(compile: bytes -> Option<Compiled>, withIdentity: (bytes, bytes) -> Option<bytes>, mint: nat -> bytes)

  /** A validated element. */
  datatype Item = Item(id: bytes, persistent: bool, doc: bytes)

  // ----- validation -----

  function ItemOf(raw: bytes, k: nat, t: Tools): Option<Item> {
    match t.compile(raw)
    case None => None
    case Some(c) =>
      var id := if c.id == [] then t.mint(k) else c.id;
      match t.withIdentity(raw, id)
      case None => None
      case Some(doc) => Some(Item(id, c.persistent, doc))
  }

  /** The item an element makes: the mapping with its own id or a minted one stamped into it. */
  predicate Made(item: Item, raw: bytes, k: nat, t: Tools) {
    && t.compile(raw).Some? && item.persistent == t.compile(raw).value.persistent
    && item.id == (if t.compile(raw).value.id == [] then t.mint(k) else t.compile(raw).value.id)
    && t.withIdentity(raw, item.id) == Some(item.doc)
  }

  predicate AllValid(batch: seq<bytes>, t: Tools) { forall k :: 0 <= k < |batch| ==> ItemOf(batch[k], k, t).Some? }

  function Items(batch: seq<bytes>, t: Tools): seq<Item>
    requires AllValid(batch, t)
  {
    seq(|batch|, k requires 0 <= k < |batch| => ItemOf(batch[k], k, t).value)
  }

  function Ids(items: seq<Item>): set<bytes> { set k | 0 <= k < |items| :: items[k].id }

  // ----- what applying the batch does -----

  datatype Table = Table(docs: map<bytes, StoredStub>, lastSeq: nat, imported: nat, ignored: nat)

  /** One element against what is there, the batch's own earlier writes included. */
  function ApplyOne(t: Table, item: Item, policy: Policy): Table {
    var found := item.id in t.docs;
    if found && policy.Ignore? then t.(ignored := t.ignored + 1)
    else
      var seqNo := if found then t.docs[item.id].seqNo else t.lastSeq + 1;
      Table(t.docs[item.id := StoredStub(item.id, SCHEMA_VERSION, seqNo, item.persistent, item.doc)],
            if found then t.lastSeq else t.lastSeq + 1, t.imported + 1, t.ignored)
  }

  function ApplyBack(t: Table, items: seq<Item>, policy: Policy): Table {
    if items == [] then t else ApplyOne(ApplyBack(t, items[1..], policy), items[0], policy)
  }

  // ----- the store and the handler -----

  class StubStore {
    var docs: map<bytes, StoredStub>
    var lastSeq: nat
    var epoch: nat

    constructor ()
      ensures docs == map[] && lastSeq == 0 && epoch == 0
    {
      docs, lastSeq, epoch := map[], 0, 0;
    }

    method GetStub(id: bytes) returns (r: Option<StoredStub>)
      ensures r == if id in docs then Some(docs[id]) else None
    {
      r := if id in docs then Some(docs[id]) else None;
    }

    method PutStub(d: StoredStub)
      modifies this`docs
      ensures docs == old(docs)[d.id := d]
    {
      docs := docs[d.id := d];
    }

    method DeleteStub(id: bytes)
      modifies this`docs
      ensures docs == old(docs) - {id}
    {
      docs := docs - {id};
    }

    method NextSeq() returns (n: nat)
      modifies this`lastSeq
      ensures n == lastSeq == old(lastSeq) + 1
    {
      lastSeq := lastSeq + 1;
      n := lastSeq;
    }

    method BumpEpoch()
      modifies this`epoch
      ensures epoch == old(epoch) + 1
    {
      epoch := epoch + 1;
    }
  }

  type Prior = map<bytes, Option<StoredStub>>

  function LookedUp(docs: map<bytes, StoredStub>, id: bytes): Option<StoredStub> {
    if id in docs then Some(docs[id]) else None
  }

  /** Every element compiled before anything is written, each named id looked up once. */
  method Validate(store: StubStore, batch: seq<bytes>, t: Tools) returns (ok: bool, items: seq<Item>, before: Prior)
    ensures ok <==> AllValid(batch, t)
    ensures ok ==> items == Items(batch, t) && forall k :: 0 <= k < |batch| ==> Made(items[k], batch[k], k, t)
    ensures !ok ==> exists k :: 0 <= k < |batch| && forall item :: !Made(item, batch[k], k, t)
    ensures forall id :: id in before ==> before[id] == LookedUp(store.docs, id)
    ensures ok ==> forall k :: 0 <= k < |batch| ==> items[k].id in before || items[k].id == t.mint(k)
  {
    ok, items, before := true, [], map[];
    for i := 0 to |batch|
      invariant ok <==> forall k :: 0 <= k < i ==> ItemOf(batch[k], k, t).Some?
      invariant ok ==> |items| == i
      invariant ok ==> forall k :: 0 <= k < i ==> Some(items[k]) == ItemOf(batch[k], k, t)
      invariant forall id :: id in before ==> before[id] == LookedUp(store.docs, id)
      invariant ok ==> forall k :: 0 <= k < i ==> items[k].id in before || items[k].id == t.mint(k)
    {
      var compiled := t.compile(batch[i]);
      if compiled.None? { ok := false; continue; }
      var id := compiled.value.id;
      if id == [] {
        id := t.mint(i);
      } else if !(id in before) {
        var stored := store.GetStub(id);
        before := before[id := stored];
      }
      var doc := t.withIdentity(batch[i], id);
      if doc.None? { ok := false; continue; }
      items := items + [Item(id, compiled.value.persistent, doc.value)];
    }
  }

  /** A minted id is new to the store. */
  ghost predicate MintsFresh(docs: map<bytes, StoredStub>, batch: seq<bytes>, t: Tools) {
    forall k :: 0 <= k < |batch| ==> t.mint(k) !in docs
  }

  method ImportMappings(store: StubStore, batch: seq<bytes>, policy: Policy, deleteAllNotInImport: bool, t: Tools)
    returns (ok: bool, imported: nat, ignored: nat, removed: nat)
    requires MintsFresh(store.docs, batch, t)
    modifies store
    ensures ok <==> AllValid(batch, t)
    ensures !ok ==> store.docs == old(store.docs) && store.lastSeq == old(store.lastSeq) && store.epoch == old(store.epoch)
    ensures ok ==>
              var r := ApplyBack(Table(old(store.docs), old(store.lastSeq), 0, 0), Items(batch, t), policy);
              && store.docs == (if deleteAllNotInImport then Kept(r.docs, Ids(Items(batch, t))) else r.docs)
              && store.lastSeq == r.lastSeq && store.epoch == old(store.epoch) + 1
              && imported == r.imported && ignored == r.ignored
              && removed == |r.docs| - |store.docs|
  {
    imported, ignored, removed := 0, 0, 0;
    var items, before;
    ok, items, before := Validate(store, batch, t);
    if !ok { return; }
    hide AllValid, ApplyBack, Ids, Kept;
    var keep;
    imported, ignored, keep := ApplyBatch(store, items, before, policy);
    if deleteAllNotInImport { removed := DeleteStubsNotIn(store, keep); }
    store.BumpEpoch();
  }

  /** Back to front, an id repeated in the batch meeting its own earlier write. */
  method ApplyBatch(store: StubStore, items: seq<Item>, before: Prior, policy: Policy)
    returns (imported: nat, ignored: nat, keep: set<bytes>)
    requires forall id :: id in before ==> before[id] == LookedUp(store.docs, id)
    requires forall k :: 0 <= k < |items| && items[k].id !in before ==> items[k].id !in store.docs
    modifies store`docs, store`lastSeq
    ensures Table(store.docs, store.lastSeq, imported, ignored)
         == ApplyBack(Table(old(store.docs), old(store.lastSeq), 0, 0), items, policy)
    ensures keep == Ids(items)
  {
    hide ApplyBack, Ids;
    imported, ignored := 0, 0;
    ghost var start := Table(store.docs, store.lastSeq, 0, 0);
    keep := {};
    var applied: map<bytes, StoredStub> := map[];
    var i := |items|;
    NothingApplied(start, items, policy);
    while i > 0
      invariant 0 <= i <= |items|
      invariant Table(store.docs, store.lastSeq, imported, ignored) == ApplyBack(start, items[i..], policy)
      invariant keep == Ids(items[i..])
      invariant Tracks(applied, store.docs, start.docs)
    {
      i := i - 1;
      var item := items[i];
      AppliedNext(start, items, i, policy);
      IdsNext(items, i);
      keep := keep + {item.id};
      var existing: Option<StoredStub> := None;
      if item.id in applied {
        existing := Some(applied[item.id]);
      } else if item.id in before && before[item.id].Some? {
        existing := before[item.id];
      }
      assert existing == LookedUp(store.docs, item.id);
      hide Tracks;
      if existing.Some? && policy == Ignore {
        ignored := ignored + 1;
        continue;
      }
      var seqNo: nat;
      if existing.Some? {
        seqNo := existing.value.seqNo;
      } else {
        seqNo := store.NextSeq();
      }
      var stored := StoredStub(item.id, SCHEMA_VERSION, seqNo, item.persistent, item.doc);
      TracksPut(applied, store.docs, start.docs, stored);
      store.PutStub(stored);
      applied := applied[item.id := stored];
      imported := imported + 1;
    }
    assert items[0..] == items;
  }

  /** What the batch wrote is there; the rest is as it was. */
  ghost predicate Tracks(applied: map<bytes, StoredStub>, now: map<bytes, StoredStub>, start: map<bytes, StoredStub>) {
    && (forall id :: id in applied ==> id in now && applied[id] == now[id])
    && (forall id :: id !in applied ==> LookedUp(now, id) == LookedUp(start, id))
  }

  lemma TracksPut(applied: map<bytes, StoredStub>, now: map<bytes, StoredStub>, start: map<bytes, StoredStub>, d: StoredStub)
    requires Tracks(applied, now, start)
    ensures Tracks(applied[d.id := d], now[d.id := d], start)
  {
  }

  lemma NothingApplied(t: Table, items: seq<Item>, policy: Policy)
    ensures ApplyBack(t, items[|items|..], policy) == t && Ids(items[|items|..]) == {}
  {
  }

  lemma AppliedNext(t: Table, items: seq<Item>, i: nat, policy: Policy)
    requires i < |items|
    ensures ApplyBack(t, items[i..], policy) == ApplyOne(ApplyBack(t, items[i + 1..], policy), items[i], policy)
  {
    assert items[i..][1..] == items[i + 1..];
  }

  lemma IdsNext(items: seq<Item>, i: nat)
    requires i < |items|
    ensures Ids(items[i..]) == {items[i].id} + Ids(items[i + 1..])
  {
    var a, b := items[i..], items[i + 1..];
    assert a[0] == items[i];
    forall k | 0 <= k < |b| ensures b[k].id in Ids(a) { assert a[k + 1] == b[k]; }
    forall k | 0 < k < |a| ensures a[k].id in Ids(b) { assert b[k - 1] == a[k]; }
  }

  function Kept(docs: map<bytes, StoredStub>, keep: set<bytes>): map<bytes, StoredStub> {
    map id | id in docs && id in keep :: docs[id]
  }

  method DeleteStubsNotIn(store: StubStore, keep: set<bytes>) returns (removed: nat)
    modifies store`docs
    ensures store.docs == Kept(old(store.docs), keep) && removed == |old(store.docs)| - |store.docs|
  {
    ghost var was := store.docs;
    var loaded := store.docs.Keys;
    removed := 0;
    while loaded != {}
      invariant loaded <= was.Keys
      invariant forall id :: id in store.docs <==> id in was && (id in loaded || id in keep)
      invariant forall id :: id in store.docs ==> store.docs[id] == was[id]
      invariant removed + |store.docs| == |was|
    {
      var id :| id in loaded;
      if !(id in keep) {
        ghost var now := store.docs;
        store.DeleteStub(id);
        OneFewer(now, id);
        removed := removed + 1;
      }
      loaded := loaded - {id};
    }
    assert store.docs == Kept(was, keep);
  }

  lemma OneFewer(docs: map<bytes, StoredStub>, id: bytes)
    requires id in docs
    ensures |docs - {id}| == |docs| - 1
  {
    assert docs == (docs - {id})[id := docs[id]];
  }

  // ----- which occurrence survives -----

  function First(items: seq<Item>, id: bytes): (k: nat)
    requires id in Ids(items)
    ensures k < |items| && items[k].id == id && forall j :: 0 <= j < k ==> items[j].id != id
  {
    if items[0].id == id then 0
    else
      assert items[0..] == items && items[1..] == items[0 + 1..];
      IdsNext(items, 0);
      1 + First(items[1..], id)
  }

  function Last(items: seq<Item>, id: bytes): (k: nat)
    requires id in Ids(items)
    ensures k < |items| && items[k].id == id && forall j :: k < j < |items| ==> items[j].id != id
  {
    assert items[0..] == items && items[1..] == items[0 + 1..];
    IdsNext(items, 0);
    if id in Ids(items[1..]) then 1 + Last(items[1..], id) else
      assert forall j :: 0 < j < |items| ==> items[1..][j - 1] == items[j];
      assert forall j :: 0 < j < |items| ==> items[j].id in Ids(items[1..]);
      0
  }

  lemma {:induction false} Untouched(t: Table, items: seq<Item>, policy: Policy)
    ensures var r := ApplyBack(t, items, policy);
            && r.docs.Keys == t.docs.Keys + Ids(items) && r.lastSeq >= t.lastSeq
            && forall id :: id in t.docs && id !in Ids(items) ==> r.docs[id] == t.docs[id]
  {
    if items != [] {
      Untouched(t, items[1..], policy);
      assert items[0..] == items && items[0 + 1..] == items[1..];
      IdsNext(items, 0);
    }
  }

  /** Everything in the batch is counted once. */
  lemma {:induction false} CountsAddUp(t: Table, items: seq<Item>, policy: Policy)
    ensures var r := ApplyBack(t, items, policy); r.imported + r.ignored == t.imported + t.ignored + |items|
  {
    if items != [] { CountsAddUp(t, items[1..], policy); }
  }

  /** OVERWRITE ignores nothing; IGNORE imports once each id that was not there. */
  lemma {:induction false} CountsMean(t: Table, items: seq<Item>, policy: Policy)
    ensures var r := ApplyBack(t, items, policy);
            && (policy.Overwrite? ==> r.ignored == t.ignored)
            && (policy.Ignore? ==> r.imported == t.imported + |Ids(items) - t.docs.Keys|)
  {
    if items == [] {
      NoIds();
    } else {
      hide Ids, ApplyBack;
      CountsMean(t, items[1..], policy);
      CountStep(t, items, policy);
      OneMore(Ids(items[1..]), t.docs.Keys, items[0].id);
    }
  }

  lemma CountStep(t: Table, items: seq<Item>, policy: Policy)
    requires items != []
    ensures var id, b, r := items[0].id, ApplyBack(t, items[1..], policy), ApplyBack(t, items, policy);
            && Ids(items) == {id} + Ids(items[1..])
            && r.ignored == b.ignored + (if policy.Ignore? && (id in Ids(items[1..]) || id in t.docs.Keys) then 1 else 0)
            && r.imported == b.imported + (if policy.Ignore? && (id in Ids(items[1..]) || id in t.docs.Keys) then 0 else 1)
  {
    Untouched(t, items[1..], policy);
    assert items[0..] == items && items[0 + 1..] == items[1..];
    IdsNext(items, 0);
    hide Ids;
  }

  lemma NoIds()
    ensures Ids([]) == {}
  {
  }

  lemma OneMore(rest: set<bytes>, there: set<bytes>, id: bytes)
    ensures |({id} + rest) - there| == |rest - there| + if id in rest || id in there then 0 else 1
  {
    assert ({id} + rest) - there == if id in rest || id in there then rest - there else (rest - there) + {id};
  }

  /** OVERWRITE leaves each id with its first occurrence, and its place in the order if it had one. */
  lemma {:induction false} OverwriteFirstWins(t: Table, items: seq<Item>, id: bytes)
    requires id in Ids(items)
    ensures var r := ApplyBack(t, items, Overwrite); var item := items[First(items, id)];
            && id in r.docs && r.docs[id] == StoredStub(id, 1, r.docs[id].seqNo, item.persistent, item.doc)
            && (id in t.docs ==> r.docs[id].seqNo == t.docs[id].seqNo)
  {
    assert items[0..] == items && items[0 + 1..] == items[1..];
    IdsNext(items, 0);
    Untouched(t, items[1..], Overwrite);
    if id in Ids(items[1..]) { OverwriteFirstWins(t, items[1..], id); }
  }

  /** IGNORE leaves prior stubs alone, and otherwise keeps the last occurrence. */
  lemma {:induction false} IgnoreKeepsPriorOrLast(t: Table, items: seq<Item>, id: bytes)
    requires id in Ids(items)
    ensures var r := ApplyBack(t, items, Ignore); var item := items[Last(items, id)];
            && id in r.docs
            && (id in t.docs ==> r.docs[id] == t.docs[id])
            && (id !in t.docs ==> r.docs[id] == StoredStub(id, 1, r.docs[id].seqNo, item.persistent, item.doc))
  {
    assert items[0..] == items && items[0 + 1..] == items[1..];
    IdsNext(items, 0);
    Untouched(t, items[1..], Ignore);
    if id in Ids(items[1..]) { IgnoreKeepsPriorOrLast(t, items[1..], id); }
  }

  lemma {:induction false} NewSeqBounds(t: Table, items: seq<Item>, policy: Policy, id: bytes)
    requires id in Ids(items) && id !in t.docs
    ensures var r := ApplyBack(t, items, policy); id in r.docs && t.lastSeq < r.docs[id].seqNo <= r.lastSeq
  {
    assert items[0..] == items && items[0 + 1..] == items[1..];
    IdsNext(items, 0);
    Untouched(t, items[1..], policy);
    if id in Ids(items[1..]) { NewSeqBounds(t, items[1..], policy, id); }
  }

  /** New ids are numbered from the back: the one whose last occurrence is earlier is newer. */
  lemma {:induction false} EarlierIsNewer(t: Table, items: seq<Item>, policy: Policy, a: bytes, b: bytes)
    requires a in Ids(items) && b in Ids(items) && a !in t.docs && b !in t.docs
    requires Last(items, a) < Last(items, b)
    ensures var r := ApplyBack(t, items, policy);
            a in r.docs && b in r.docs && t.lastSeq < r.docs[b].seqNo < r.docs[a].seqNo
  {
    assert items[0..] == items && items[0 + 1..] == items[1..];
    IdsNext(items, 0);
    Untouched(t, items[1..], policy);
    NewSeqBounds(t, items, policy, a);
    NewSeqBounds(t, items, policy, b);
    if a in Ids(items[1..]) {
      EarlierIsNewer(t, items[1..], policy, a, b);
    } else {
      NewSeqBounds(t, items[1..], policy, b);
    }
  }

  /** So of two new elements of equal priority the earlier is tried first. */
  lemma EarlierIsTriedFirst(t: Table, items: seq<Item>, policy: Policy, i: nat, k: nat, x: Stub, y: Stub)
    requires i < k < |items| && Last(items, items[i].id) == i && Last(items, items[k].id) == k
    requires items[i].id !in t.docs && items[k].id !in t.docs
    requires var r := ApplyBack(t, items, policy);
             items[i].id in r.docs && items[k].id in r.docs
             && x.seqNo == r.docs[items[i].id].seqNo && y.seqNo == r.docs[items[k].id].seqNo
    requires x.priority == y.priority
    ensures Before(x, y)
  {
    EarlierIsNewer(t, items, policy, items[i].id, items[k].id);
  }

  lemma {:induction false} AllFreshHolds(docs: seq<StoredStub>, k: nat, files: map<bytes, bytes>, env: Env)
    requires k < |docs| && Fresh(docs[k], files, env).Some?
    ensures Fresh(docs[k], files, env).value in AllFresh(docs, files, env)
  {
    hide Fresh;
    if k < |docs| - 1 {
      assert docs[..|docs| - 1][k] == docs[k];
      AllFreshHolds(docs[..|docs| - 1], k, files, env);
    }
  }

  /** The documents of a table, loaded in whatever order. */
  predicate Loads(docs: seq<StoredStub>, table: map<bytes, StoredStub>) {
    forall id :: id in table ==> table[id] in docs
  }

  lemma FreshOfTable(docs: seq<StoredStub>, table: map<bytes, StoredStub>, id: bytes, files: map<bytes, bytes>, env: Env, x: Stub)
    requires Loads(docs, table) && id in table && Fresh(table[id], files, env) == Some(x) && CarriesSeq(env)
    ensures x in AllFresh(docs, files, env) && x.seqNo == table[id].seqNo
  {
    var k :| 0 <= k < |docs| && docs[k] == table[id];
    AllFreshHolds(docs, k, files, env);
    assert env.compile(docs[k].mapping, docs[k].seqNo)
        == Some(env.compile(docs[k].mapping, docs[k].seqNo).value.(seqNo := docs[k].seqNo));
  }

  /**
   In the snapshot of what was imported, the later of two new elements of equal priority never
   serves a request the earlier one applies to, and the earlier one does if only they apply.
   */
  lemma EarlierWins(t: Table, items: seq<Item>, policy: Policy, i: nat, k: nat, docs: seq<StoredStub>, files: map<bytes, bytes>,
                    env: Env, epoch: nat, settings: Option<nat>, x: Stub, y: Stub, r: Request, gate: Option<Gate>)
    requires i < k < |items| && Last(items, items[i].id) == i && Last(items, items[k].id) == k
    requires items[i].id !in t.docs && items[k].id !in t.docs && CarriesSeq(env)
    requires var after := ApplyBack(t, items, policy).docs;
             && Loads(docs, after) && items[i].id in after && items[k].id in after
             && Fresh(after[items[i].id], files, env) == Some(x) && Fresh(after[items[k].id], files, env) == Some(y)
    requires x.priority == y.priority && Selects(x, r, gate)
    ensures var w := FirstSelected(Build(AllFresh(docs, files, env), epoch, settings).ordered, r, gate);
            && w.Some? && w.value != y && !Before(x, w.value)
            && ((forall z :: z in AllFresh(docs, files, env) && Selects(z, r, gate) ==> z == x || z == y) ==> w.value == x)
  {
    var after := ApplyBack(t, items, policy).docs;
    FreshOfTable(docs, after, items[i].id, files, env, x);
    FreshOfTable(docs, after, items[k].id, files, env, y);
    hide Fresh, AllFresh, Selects, ApplyBack;
    EarlierIsTriedFirst(t, items, policy, i, k, x, y);
    SelectedComesFirst(AllFresh(docs, files, env), r, gate, x);
  }

  /** With deleteAllNotInImport exactly the batch's ids remain. */
  lemma OnlyTheBatchRemains(t: Table, items: seq<Item>, policy: Policy)
    ensures Kept(ApplyBack(t, items, policy).docs, Ids(items)).Keys == Ids(items)
  {
    Untouched(t, items, policy);
  }
}
