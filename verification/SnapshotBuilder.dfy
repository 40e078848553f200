/** The single writer of a pod's snapshot: rebuilds through a compile cache, and splices. */
module SnapshotBuilder {
  import opened Bytes
  import opened Stubs
  import opened Snapshots

  const SCHEMA_VERSION: nat := 1

  /** A mapping document as stored. */
  datatype StoredStub = StoredStub(id: bytes, schemaVersion: nat, seqNo: nat, persistent: bool, mapping: bytes)

  /** One consistent read of the store. */
  datatype Load = Load(docs: seq<StoredStub>, files: map<bytes, bytes>, epoch: nat, settings: Option<nat>)

  /** What lies outside: JSON validity, compilation of a mapping, and SHA-256. */
  datatype Env = Env(isJson: bytes -> bool, compile: (bytes, nat) -> Option<Stub>, hash: bytes -> bytes)

  // ----- one document -----

  /** A body file is inlined; a missing one leaves an error response. */
  function ResolveBody(cs: Stub, files: map<bytes, bytes>): Stub {
    var name := cs.response.bodyFileName;
    if name == [] then cs
    else if name in files then cs.(response := cs.response.(bodyFileMissing := false, body := files[name]))
    else cs.(response := cs.response.(bodyFileMissing := true))
  }

  predicate Readable(doc: StoredStub, env: Env) {
    doc.schemaVersion <= SCHEMA_VERSION && doc.mapping != [] && env.isJson(doc.mapping)
  }

  /** The compilation of a document alone, or None where it is quarantined. */
  function Pure(doc: StoredStub, env: Env): Option<Stub> {
    if !Readable(doc, env) then None
    else match env.compile(doc.mapping, doc.seqNo)
         case None => None
         case Some(cs) => Some(cs.(id := if cs.id == [] then doc.id else cs.id, persistent := doc.persistent))
  }

  /** Compiled from nothing, its body file resolved. */
  function Fresh(doc: StoredStub, files: map<bytes, bytes>, env: Env): Option<Stub> {
    match Pure(doc, env)
    case None => None
    case Some(cs) => Some(ResolveBody(cs, files))
  }

  function AllFresh(docs: seq<StoredStub>, files: map<bytes, bytes>, env: Env): seq<Stub> {
    if docs == [] then []
    else
      var n := |docs| - 1;
      AllFresh(docs[..n], files, env) +
      match Fresh(docs[n], files, env) case None => [] case Some(cs) => [cs]
  }

  // ----- the served stub, said of its fields -----

  /**
   x is the stub c with its body file read from these files: missing exactly when it is not
   there, its data as the body where it is, and nothing else changed.
   */
  ghost predicate Inlined(x: Stub, c: Stub, files: map<bytes, bytes>) {
    var name := c.response.bodyFileName;
    && x == c.(response := x.response) && x.response.bodyFileName == name
    && (name == [] ==> x.response.bodyFileMissing == c.response.bodyFileMissing && x.response.body == c.response.body)
    && (name != [] ==> (x.response.bodyFileMissing <==> name !in files))
    && (name != [] && name in files ==> x.response.body == files[name])
    && (name != [] && name !in files ==> x.response.body == c.response.body)
  }

  /** The stub a rebuild serves for the document: what is held for its bytes, or its compilation under its own id. */
  ghost predicate ServedFrom(x: Stub, doc: StoredStub, files: map<bytes, bytes>, entries: Entries, env: Env) {
    && doc.schemaVersion <= 1 && doc.mapping != [] && env.isJson(doc.mapping)
    && if doc.id in entries && entries[doc.id].hash == env.hash(doc.mapping) then Inlined(x, entries[doc.id].compiled, files)
       else
         var m := env.compile(doc.mapping, doc.seqNo);
         && m.Some? && x.id == (if m.value.id == [] then doc.id else m.value.id) && x.persistent == doc.persistent
         && Inlined(x, m.value.(id := x.id, persistent := x.persistent), files)
  }

  lemma InlinedIff(x: Stub, c: Stub, files: map<bytes, bytes>)
    ensures Inlined(x, c, files) <==> x == ResolveBody(c, files)
  {
  }

  lemma ServedFromIff(x: Stub, doc: StoredStub, files: map<bytes, bytes>, entries: Entries, env: Env)
    ensures ServedFrom(x, doc, files, entries, env) <==> ThroughCache(doc, files, entries, env) == Some(x)
  {
    hide Inlined, ResolveBody;
    if Hit(entries, doc, env) {
      InlinedIff(x, entries[doc.id].compiled, files);
    } else if env.compile(doc.mapping, doc.seqNo).Some? {
      var m := env.compile(doc.mapping, doc.seqNo).value;
      InlinedIff(x, m.(id := x.id, persistent := x.persistent), files);
      KeepsIds(m.(id := if m.id == [] then doc.id else m.id, persistent := doc.persistent), files);
    }
  }

  lemma KeepsIds(c: Stub, files: map<bytes, bytes>)
    ensures ResolveBody(c, files).id == c.id && ResolveBody(c, files).persistent == c.persistent
  {
  }

  /** The list serves exactly what its documents give. */
  ghost predicate ServesLoad(ordered: seq<Stub>, load: Load, entries: Entries, env: Env) {
    forall x :: x in ordered <==> exists k :: 0 <= k < |load.docs| && ServedFrom(x, load.docs[k], load.files, entries, env)
  }

  lemma {:induction false} AllThroughCacheHolds(docs: seq<StoredStub>, files: map<bytes, bytes>, entries: Entries, env: Env, x: Stub)
    ensures x in AllThroughCache(docs, files, entries, env) <==>
            exists k :: 0 <= k < |docs| && ServedFrom(x, docs[k], files, entries, env)
  {
    hide ThroughCache, ServedFrom;
    if docs != [] {
      var n := |docs| - 1;
      AllThroughCacheHolds(docs[..n], files, entries, env, x);
      ServedFromIff(x, docs[n], files, entries, env);
      if k :| 0 <= k < n && ServedFrom(x, docs[..n][k], files, entries, env) { assert ServedFrom(x, docs[k], files, entries, env); }
      if k :| 0 <= k < n && ServedFrom(x, docs[k], files, entries, env) { assert ServedFrom(x, docs[..n][k], files, entries, env); }
    }
  }

  lemma BuildServesLoad(load: Load, entries: Entries, env: Env)
    ensures ServesLoad(Sorted(AllThroughCache(load.docs, load.files, entries, env)), load, entries, env)
  {
    hide ServedFrom, Sorted, AllThroughCache;
    var stubs := AllThroughCache(load.docs, load.files, entries, env);
    forall x
      ensures x in Sorted(stubs) <==> exists k :: 0 <= k < |load.docs| && ServedFrom(x, load.docs[k], load.files, entries, env)
    {
      InSorted(stubs, x);
      AllThroughCacheHolds(load.docs, load.files, entries, env, x);
    }
  }

  // ----- the cache -----

  datatype Entry = Entry(hash: bytes, compiled: Stub)

  type Entries = map<bytes, Entry>

  predicate Hit(entries: Entries, doc: StoredStub, env: Env) {
    doc.id in entries && entries[doc.id].hash == env.hash(doc.mapping)
  }

  class CompileCache {
    var entries: Entries
    var hits: nat
    var misses: nat

    constructor ()
      ensures entries == map[]
    {
      entries, hits, misses := map[], 0, 0;
    }

    method Get(id: bytes, doc: bytes, env: Env) returns (cs: Option<Stub>)
      modifies this`hits, this`misses
      ensures cs == if id in entries && entries[id].hash == env.hash(doc) then Some(entries[id].compiled) else None
      ensures hits + misses == old(hits + misses) + 1 && (hits > old(hits) <==> cs.Some?)
    {
      var hash := env.hash(doc);
      if !(id in entries) || entries[id].hash != hash {
        misses := misses + 1;
        return None;
      }
      hits := hits + 1;
      return Some(entries[id].compiled);
    }

    method Put(id: bytes, doc: bytes, cs: Stub, env: Env)
      modifies this`entries
      ensures entries == old(entries)[id := Entry(env.hash(doc), cs)]
    {
      entries := entries[id := Entry(env.hash(doc), cs)];
    }

    method Retain(live: set<bytes>)
      modifies this`entries
      ensures entries == map id | id in old(entries) && id in live :: old(entries)[id]
    {
      var ids := entries.Keys;
      ghost var before := entries;
      while ids != {}
        invariant ids <= before.Keys
        invariant forall id :: id in entries <==> id in before && (id in ids || id in live)
        invariant forall id :: id in entries ==> entries[id] == before[id]
      {
        var id :| id in ids;
        if id !in live { entries := entries - {id}; }
        ids := ids - {id};
      }
      assert entries == map id | id in before && id in live :: before[id];
    }

    method Stats() returns (h: nat, m: nat)
      modifies this`hits, this`misses
      ensures h == old(hits) && m == old(misses) && hits == 0 && misses == 0
    {
      h, m := hits, misses;
      hits, misses := 0, 0;
    }
  }

  /** What a rebuild makes of a document, given what the cache holds. */
  function ThroughCache(doc: StoredStub, files: map<bytes, bytes>, entries: Entries, env: Env): Option<Stub> {
    if Readable(doc, env) && Hit(entries, doc, env) then Some(ResolveBody(entries[doc.id].compiled, files))
    else Fresh(doc, files, env)
  }

  function AllThroughCache(docs: seq<StoredStub>, files: map<bytes, bytes>, entries: Entries, env: Env): seq<Stub> {
    if docs == [] then []
    else
      var n := |docs| - 1;
      AllThroughCache(docs[..n], files, entries, env) +
      match ThroughCache(docs[n], files, entries, env) case None => [] case Some(cs) => [cs]
  }

  function EntryAt(entries: Entries, id: bytes): Option<Entry> { if id in entries then Some(entries[id]) else None }

  /** The entry a rebuild leaves behind for a live document. */
  function EntryAfter(doc: StoredStub, entries: Entries, env: Env): Option<Entry> {
    if !Readable(doc, env) || Hit(entries, doc, env) || Pure(doc, env).None? then EntryAt(entries, doc.id)
    else Some(Entry(env.hash(doc.mapping), Pure(doc, env).value))
  }

  predicate DistinctDocs(docs: seq<StoredStub>) {
    forall i, k :: 0 <= i < k < |docs| ==> docs[i].id != docs[k].id
  }

  function LiveIds(docs: seq<StoredStub>): set<bytes> { set k | 0 <= k < |docs| :: docs[k].id }

  // ----- the builder -----

  class Engine {
    var snapshot: Snapshot

    constructor ()
      ensures snapshot == Indexed([], 0, None) && Consistent(snapshot)
    {
      snapshot := Indexed([], 0, None);
    }

    method Swap(next: Snapshot)
      modifies this
      ensures snapshot == next
    {
      snapshot := next;
    }
  }

  class Builder {
    const engine: Engine
    const cache: CompileCache
    const env: Env

    constructor (env: Env)
      ensures fresh(engine) && fresh(cache) && cache.entries == map[] && this.env == env
    {
      this.env := env;
      engine := new Engine();
      cache := new CompileCache();
    }

    /** One stored document through the cache. */
    method Compile(doc: StoredStub, files: map<bytes, bytes>) returns (cs: Option<Stub>)
      modifies cache
      ensures cs == ThroughCache(doc, files, old(cache.entries), env)
      ensures forall x :: cs == Some(x) <==> ServedFrom(x, doc, files, old(cache.entries), env)
      ensures EntryAt(cache.entries, doc.id) == EntryAfter(doc, old(cache.entries), env)
      ensures forall id :: id != doc.id ==> EntryAt(cache.entries, id) == EntryAt(old(cache.entries), id)
    {
      hide ServedFrom;
      forall x ensures ThroughCache(doc, files, cache.entries, env) == Some(x) <==> ServedFrom(x, doc, files, cache.entries, env) {
        ServedFromIff(x, doc, files, cache.entries, env);
      }
      if doc.schemaVersion > SCHEMA_VERSION { return None; }
      if |doc.mapping| == 0 || !env.isJson(doc.mapping) { return None; }
      var cached := cache.Get(doc.id, doc.mapping, env);
      if cached.Some? {
        if cached.value.response.bodyFileName != [] {
          return Some(ResolveBody(cached.value, files));
        }
        return cached;
      }
      var compiled := env.compile(doc.mapping, doc.seqNo);
      if compiled.None? { return None; }
      var c := compiled.value;
      if c.id == [] { c := c.(id := doc.id); }
      c := c.(persistent := doc.persistent);
      cache.Put(doc.id, doc.mapping, c, env);
      if c.response.bodyFileName != [] {
        return Some(ResolveBody(c, files));
      }
      return Some(c);
    }

    /**
     The whole state reloaded, compiled and swapped in. A failed read leaves the snapshot and
     the cache as they were.
     */
    method Rebuild(load: Option<Load>) returns (ok: bool)
      requires load.Some? ==> DistinctDocs(load.value.docs)
      modifies engine, cache
      ensures ok <==> load.Some?
      ensures !ok ==> engine.snapshot == old(engine.snapshot) && cache.entries == old(cache.entries)
      ensures ok ==> engine.snapshot == Build(AllThroughCache(load.value.docs, load.value.files, old(cache.entries), env),
                                              load.value.epoch, load.value.settings)
      ensures ok ==> engine.snapshot.epoch == load.value.epoch && engine.snapshot.settings == load.value.settings
      ensures ok ==> ServesLoad(engine.snapshot.ordered, load.value, old(cache.entries), env)
      ensures ok ==> Consistent(engine.snapshot)
      ensures ok ==> cache.entries.Keys <= LiveIds(load.value.docs)
      ensures ok ==> forall k :: 0 <= k < |load.value.docs| ==>
                EntryAt(cache.entries, load.value.docs[k].id) == EntryAfter(load.value.docs[k], old(cache.entries), env)
    {
      hide ThroughCache, EntryAfter, EntryAt, ServesLoad;
      if load.None? { return false; }
      var docs, files := load.value.docs, load.value.files;
      var compiled: seq<Stub> := [];
      var live: set<bytes> := {};
      ghost var before := cache.entries;
      for i := 0 to |docs|
        invariant compiled == AllThroughCache(docs[..i], files, before, env) && live == LiveIds(docs[..i])
        invariant forall k :: 0 <= k < i ==> EntryAt(cache.entries, docs[k].id) == EntryAfter(docs[k], before, env)
        invariant forall id :: id !in live ==> EntryAt(cache.entries, id) == EntryAt(before, id)
      {
        var doc := docs[i];
        assert docs[..i + 1][..i] == docs[..i];
        assert doc.id !in live;
        LocalEffect(doc, files, cache.entries, before, env);
        ghost var known := live;
        live := live + {doc.id};
        LiveNext(docs, i);
        var cs := Compile(doc, files);
        if cs.Some? { compiled := compiled + [cs.value]; }
      }
      assert docs[..|docs|] == docs;
      ghost var built := cache.entries;
      cache.Retain(live);
      Retained(built, cache.entries, live);
      var snapshot := BuildSnapshot(compiled, load.value.epoch);
      BuildConsistent(compiled, load.value.epoch, load.value.settings);
      snapshot := snapshot.(settings := load.value.settings);
      engine.Swap(snapshot);
      BuildServesLoad(load.value, before, env);
      var _, _ := cache.Stats();
      return true;
    }

    /** A compiled stub replaces the one of its id, or joins; epoch and settings are carried forward. */
    method SpliceStub(cs: Stub, file: Option<bytes>)
      modifies engine
      ensures engine.snapshot ==
              Build(Spliced(old(engine.snapshot.ordered), SplicedBody(cs, file)), old(engine.snapshot.epoch), old(engine.snapshot.settings))
      ensures engine.snapshot.epoch == old(engine.snapshot.epoch) && engine.snapshot.settings == old(engine.snapshot.settings)
      ensures ServesSplice(engine.snapshot.ordered, old(engine.snapshot.ordered), cs, file)
      ensures Consistent(engine.snapshot)
    {
      hide Consistent, ServesSplice, Sorted;
      SplicedServes(engine.snapshot.ordered, cs, file);
      var spliced := cs;
      if cs.response.bodyFileName != [] {
        var files: map<bytes, bytes> := if file.Some? then map[cs.response.bodyFileName := file.value] else map[];
        spliced := ResolveBody(cs, files);
      }
      var current := engine.snapshot;
      var ordered: seq<Stub> := [];
      var replaced := false;
      for i := 0 to |current.ordered|
        invariant ordered == Replaced(current.ordered[..i], spliced)
        invariant replaced <==> HasId(current.ordered[..i], spliced.id)
      {
        assert current.ordered[..i + 1][..i] == current.ordered[..i];
        var existing := current.ordered[i];
        if existing.id == spliced.id {
          ordered := ordered + [spliced];
          replaced := true;
          continue;
        }
        ordered := ordered + [existing];
      }
      assert current.ordered[..|current.ordered|] == current.ordered;
      if !replaced { ordered := ordered + [spliced]; }
      var next := BuildSnapshot(ordered, current.epoch);
      BuildConsistent(ordered, current.epoch, current.settings);
      next := next.(settings := current.settings);
      engine.Swap(next);
    }

    method SpliceDelete(id: bytes)
      modifies engine
      ensures engine.snapshot ==
              if HasId(old(engine.snapshot.ordered), id)
              then Build(Without(old(engine.snapshot.ordered), id), old(engine.snapshot.epoch), old(engine.snapshot.settings))
              else old(engine.snapshot)
      ensures engine.snapshot.epoch == old(engine.snapshot.epoch) && engine.snapshot.settings == old(engine.snapshot.settings)
      ensures old(Consistent(engine.snapshot)) ==> Consistent(engine.snapshot)
    {
      var current := engine.snapshot;
      var ordered: seq<Stub> := [];
      for i := 0 to |current.ordered|
        invariant ordered == Without(current.ordered[..i], id) && |ordered| <= i
        invariant |ordered| < i <==> HasId(current.ordered[..i], id)
      {
        assert current.ordered[..i + 1][..i] == current.ordered[..i];
        var existing := current.ordered[i];
        if existing.id == id { continue; }
        ordered := ordered + [existing];
      }
      assert current.ordered[..|current.ordered|] == current.ordered;
      if |ordered| == |current.ordered| { return; }
      var next := BuildSnapshot(ordered, current.epoch);
      BuildConsistent(ordered, current.epoch, current.settings);
      next := next.(settings := current.settings);
      engine.Swap(next);
    }
  }

  /**
   One poll: an unreadable epoch or the one already served changes nothing, any other one
   reloads the whole state.
   */
  method PollOnce(b: Builder, epoch: Option<nat>, load: Option<Load>) returns (reloaded: bool)
    requires load.Some? ==> DistinctDocs(load.value.docs)
    modifies b.engine, b.cache
    ensures reloaded <==> epoch.Some? && epoch.value != old(b.engine.snapshot.epoch) && load.Some?
    ensures !reloaded ==> b.engine.snapshot == old(b.engine.snapshot) && b.cache.entries == old(b.cache.entries)
    ensures reloaded ==> b.engine.snapshot == Build(AllThroughCache(load.value.docs, load.value.files, old(b.cache.entries), b.env),
                                                    load.value.epoch, load.value.settings)
  {
    if epoch.None? { return false; }
    if epoch.value == b.engine.snapshot.epoch { return false; }
    reloaded := b.Rebuild(load);
  }

  lemma LocalEffect(doc: StoredStub, files: map<bytes, bytes>, now: Entries, before: Entries, env: Env)
    requires EntryAt(now, doc.id) == EntryAt(before, doc.id)
    ensures ThroughCache(doc, files, now, env) == ThroughCache(doc, files, before, env)
    ensures EntryAfter(doc, now, env) == EntryAfter(doc, before, env)
  {
  }

  lemma LiveNext(docs: seq<StoredStub>, i: nat)
    requires i < |docs|
    ensures LiveIds(docs[..i + 1]) == LiveIds(docs[..i]) + {docs[i].id}
  {
    forall id | id in LiveIds(docs[..i]) ensures id in LiveIds(docs[..i + 1]) {
      var k :| 0 <= k < i && docs[..i][k].id == id;
      assert docs[..i + 1][k].id == id;
    }
    assert docs[..i + 1][i] == docs[i];
  }

  lemma Retained(built: Entries, kept: Entries, live: set<bytes>)
    requires kept == map id | id in built && id in live :: built[id]
    ensures kept.Keys <= live && forall id :: id in live ==> EntryAt(kept, id) == EntryAt(built, id)
  {
  }

  // ----- a steady store makes the cache invisible -----

  /** The document each held entry was compiled from. */
  type Fillers = map<bytes, StoredStub>

  ghost predicate Fills(entries: Entries, filled: Fillers, env: Env) {
    entries.Keys == filled.Keys && forall id :: id in entries ==> CompiledFrom(entries[id], id, filled[id], env)
  }

  ghost predicate CompiledFrom(e: Entry, id: bytes, d: StoredStub, env: Env) {
    d.id == id && e.hash == env.hash(d.mapping) && Pure(d, env) == Some(e.compiled)
  }

  predicate SameHash(filled: Fillers, doc: StoredStub, env: Env) {
    doc.id in filled && env.hash(filled[doc.id].mapping) == env.hash(doc.mapping)
  }

  function FillerAt(filled: Fillers, id: bytes): Option<StoredStub> { if id in filled then Some(filled[id]) else None }

  /** Which document's compilation a rebuild leaves held for a live one. */
  function FillerAfter(doc: StoredStub, filled: Fillers, env: Env): Option<StoredStub> {
    if !Readable(doc, env) || SameHash(filled, doc, env) || Pure(doc, env).None? then FillerAt(filled, doc.id) else Some(doc)
  }

  function FillersAfter(docs: seq<StoredStub>, filled: Fillers, env: Env): Fillers {
    if docs == [] then map[]
    else
      var n := |docs| - 1;
      var before := FillersAfter(docs[..n], filled, env);
      match FillerAfter(docs[n], filled, env)
      case None => before
      case Some(d) => before[docs[n].id := d]
  }

  /** Who fills the cache after a sequence of rebuilds from empty. */
  function FillersIn(loads: seq<Load>, env: Env): Fillers {
    if loads == [] then map[] else FillersAfter(loads[|loads| - 1].docs, FillersIn(loads[..|loads| - 1], env), env)
  }

  /**
   A readable document whose hash is that of the one held for its id has the same mapping, and
   comes with the same sequence number and persistence.
   */
  predicate Steady(docs: seq<StoredStub>, filled: Fillers, env: Env) {
    forall k :: 0 <= k < |docs| && Readable(docs[k], env) && SameHash(filled, docs[k], env) ==>
      var d := filled[docs[k].id];
      d.mapping == docs[k].mapping && d.seqNo == docs[k].seqNo && d.persistent == docs[k].persistent
  }

  lemma {:induction false} FillersAfterAt(docs: seq<StoredStub>, filled: Fillers, env: Env)
    requires DistinctDocs(docs)
    ensures FillersAfter(docs, filled, env).Keys <= LiveIds(docs)
    ensures forall k :: 0 <= k < |docs| ==>
              FillerAt(FillersAfter(docs, filled, env), docs[k].id) == FillerAfter(docs[k], filled, env)
  {
    hide FillerAfter;
    if docs != [] {
      var n := |docs| - 1;
      FillersAfterAt(docs[..n], filled, env);
      LiveNext(docs, n);
      assert docs[..n + 1] == docs;
      assert docs[n].id !in LiveIds(docs[..n]);
      forall k | 0 <= k < n ensures FillerAt(FillersAfter(docs, filled, env), docs[k].id) == FillerAfter(docs[k], filled, env) {
        assert docs[..n][k] == docs[k];
      }
    }
  }

  lemma {:induction false} CacheInvisible(docs: seq<StoredStub>, files: map<bytes, bytes>, entries: Entries, filled: Fillers, env: Env)
    requires Fills(entries, filled, env) && Steady(docs, filled, env)
    ensures AllThroughCache(docs, files, entries, env) == AllFresh(docs, files, env)
  {
    if docs != [] {
      var n := |docs| - 1;
      assert Steady(docs[..n], filled, env);
      CacheInvisible(docs[..n], files, entries, filled, env);
      HitIsFresh(docs, n, files, entries, filled, env);
    }
  }

  lemma HitIsFresh(docs: seq<StoredStub>, k: nat, files: map<bytes, bytes>, entries: Entries, filled: Fillers, env: Env)
    requires Fills(entries, filled, env) && Steady(docs, filled, env) && k < |docs|
    ensures ThroughCache(docs[k], files, entries, env) == Fresh(docs[k], files, env)
  {
    if Readable(docs[k], env) && Hit(entries, docs[k], env) { assert SameHash(filled, docs[k], env); }
  }

  lemma FillersFollow(docs: seq<StoredStub>, before: Entries, after: Entries, filled: Fillers, env: Env)
    requires DistinctDocs(docs) && Fills(before, filled, env) && after.Keys <= LiveIds(docs)
    requires forall k :: 0 <= k < |docs| ==> EntryAt(after, docs[k].id) == EntryAfter(docs[k], before, env)
    ensures Fills(after, FillersAfter(docs, filled, env), env)
  {
    FillersAfterAt(docs, filled, env);
    var next := FillersAfter(docs, filled, env);
    hide FillersAfter;
    forall k | 0 <= k < |docs|
      ensures docs[k].id in after <==> docs[k].id in next
      ensures docs[k].id in after ==> CompiledFrom(after[docs[k].id], docs[k].id, next[docs[k].id], env)
    {
      EntryFollows(docs[k], before, filled, env);
      assert EntryAt(after, docs[k].id) == EntryAfter(docs[k], before, env);
    }
    forall id | id in LiveIds(docs)
      ensures id in after <==> id in next
      ensures id in after ==> CompiledFrom(after[id], id, next[id], env)
    {
      var k :| 0 <= k < |docs| && docs[k].id == id;
    }
  }

  lemma EntryFollows(doc: StoredStub, before: Entries, filled: Fillers, env: Env)
    requires Fills(before, filled, env)
    ensures var e, d := EntryAfter(doc, before, env), FillerAfter(doc, filled, env);
            e.Some? == d.Some? && (e.Some? ==> CompiledFrom(e.value, doc.id, d.value, env))
  {
    assert Hit(before, doc, env) <==> SameHash(filled, doc, env);
  }

  /**
   Any sequence of rebuilds from an empty cache in which every document that hits is steady:
   every snapshot is the one made by compiling everything afresh, and the cache holds live
   ids only. An id that a rebuild saw gone is no longer held, whatever it comes back with.
   */
  method RunRebuilds(env: Env, loads: seq<Load>) returns (b: Builder, snapshots: seq<Snapshot>)
    requires forall i :: 0 <= i < |loads| ==> DistinctDocs(loads[i].docs)
    requires forall i :: 0 <= i < |loads| ==> Steady(loads[i].docs, FillersIn(loads[..i], env), env)
    ensures |snapshots| == |loads|
    ensures forall i :: 0 <= i < |loads| ==>
              snapshots[i] == Build(AllFresh(loads[i].docs, loads[i].files, env), loads[i].epoch, loads[i].settings)
    ensures forall i :: 0 <= i < |loads| ==> ServesLoad(snapshots[i].ordered, loads[i], map[], env)
    ensures loads != [] ==> b.cache.entries.Keys <= LiveIds(loads[|loads| - 1].docs)
  {
    hide Build, AllFresh, AllThroughCache, Fills, EntryAfter, EntryAt, FillersAfter, FillersIn, LiveIds, DistinctDocs, Steady, Consistent;
    b := new Builder(env);
    snapshots := [];
    assert loads[..0] == [];
    NothingFilled(env);
    for i := 0 to |loads|
      invariant fresh(b) && fresh(b.cache) && fresh(b.engine) && b.env == env
      invariant |snapshots| == i && Fills(b.cache.entries, FillersIn(loads[..i], env), env)
      invariant forall k :: 0 <= k < i ==>
                  snapshots[k] == Build(AllFresh(loads[k].docs, loads[k].files, env), loads[k].epoch, loads[k].settings)
      invariant forall k :: 0 <= k < i ==> ServesLoad(snapshots[k].ordered, loads[k], map[], env)
      invariant i > 0 ==> b.cache.entries.Keys <= LiveIds(loads[i - 1].docs)
    {
      ghost var before := b.cache.entries;
      ghost var filled := FillersIn(loads[..i], env);
      FillersNext(loads, i, env);
      var _ := b.Rebuild(Some(loads[i]));
      FillersFollow(loads[i].docs, before, b.cache.entries, filled, env);
      CacheInvisible(loads[i].docs, loads[i].files, before, filled, env);
      FreshServesLoad(loads[i], env);
      snapshots := snapshots + [b.engine.snapshot];
    }
  }

  lemma FreshServesLoad(load: Load, env: Env)
    ensures var s := Build(AllFresh(load.docs, load.files, env), load.epoch, load.settings); ServesLoad(s.ordered, load, map[], env)
  {
    hide ServesLoad, AllThroughCache, Sorted, AllFresh;
    FreshIsCold(load.docs, load.files, env);
    BuildServesLoad(load, map[], env);
  }

  lemma {:induction false} FreshIsCold(docs: seq<StoredStub>, files: map<bytes, bytes>, env: Env)
    ensures AllFresh(docs, files, env) == AllThroughCache(docs, files, map[], env)
  {
    if docs != [] { FreshIsCold(docs[..|docs| - 1], files, env); }
  }

  /**
   Two rebuilds of one document, the second from the cache: the body is what each found in the
   store, the file appearing, changing or vanishing in between.
   */
  method BodyFollowsFile(env: Env, doc: StoredStub, before: map<bytes, bytes>, after: map<bytes, bytes>)
    returns (was: Snapshot, now: Snapshot)
    requires Readable(doc, env) && env.compile(doc.mapping, doc.seqNo).Some?
    ensures |was.ordered| == |now.ordered| == 1
    ensures var name := env.compile(doc.mapping, doc.seqNo).value.response.bodyFileName;
            var r, q := was.ordered[0].response, now.ordered[0].response;
            && (name != [] ==> (r.bodyFileMissing <==> name !in before) && (q.bodyFileMissing <==> name !in after))
            && (name != [] && name in before ==> r.body == before[name]) && (name != [] && name in after ==> q.body == after[name])
            && (name == [] ==> now.ordered == was.ordered)
  {
    hide ServesLoad, Consistent, ThroughCache, AllThroughCache, Sorted, EntryAfter, EntryAt, Readable, FullIndex, PathIndex, PatternList,
      ById, ScenarioStates;
    var b := new Builder(env);
    var _ := b.Rebuild(Some(Load([doc], before, 1, None)));
    was := b.engine.snapshot;
    ghost var entries := b.cache.entries;
    assert EntryAt(entries, [doc][0].id) == EntryAfter(doc, map[], env);
    var _ := b.Rebuild(Some(Load([doc], after, 2, None)));
    now := b.engine.snapshot;
    ReadBeforeAndAfter(doc, before, after, entries, env);
  }

  lemma ReadBeforeAndAfter(doc: StoredStub, before: map<bytes, bytes>, after: map<bytes, bytes>, entries: Entries, env: Env)
    requires Readable(doc, env) && env.compile(doc.mapping, doc.seqNo).Some? && EntryAt(entries, doc.id) == EntryAfter(doc, map[], env)
    ensures exists c: Stub ::
              && Pure(doc, env) == Some(c)
              && Sorted(AllThroughCache([doc], before, map[], env)) == [ResolveBody(c, before)]
              && Sorted(AllThroughCache([doc], after, entries, env)) == [ResolveBody(c, after)]
  {
    var c := Pure(doc, env).value;
    assert ThroughCache(doc, before, map[], env) == Some(ResolveBody(c, before));
    assert ThroughCache(doc, after, entries, env) == Some(ResolveBody(c, after));
    hide ResolveBody, ThroughCache;
    OneCompiled(doc, before, map[], env);
    OneCompiled(doc, after, entries, env);
  }

  lemma OneCompiled(doc: StoredStub, files: map<bytes, bytes>, entries: Entries, env: Env)
    requires ThroughCache(doc, files, entries, env).Some?
    ensures Sorted(AllThroughCache([doc], files, entries, env)) == [ThroughCache(doc, files, entries, env).value]
  {
    assert [doc][..0] == [] && AllThroughCache([], files, entries, env) == [];
    var x := ThroughCache(doc, files, entries, env).value;
    assert AllThroughCache([doc], files, entries, env) == [] + [x] == [x] && [x][..0] == [];
  }

  lemma NothingFilled(env: Env)
    ensures Fills(map[], FillersIn([], env), env)
  {
  }

  lemma FillersNext(loads: seq<Load>, i: nat, env: Env)
    requires i < |loads|
    ensures FillersIn(loads[..i + 1], env) == FillersAfter(loads[i].docs, FillersIn(loads[..i], env), env)
  {
    hide FillersAfter;
    assert loads[..i + 1][..i] == loads[..i];
  }

  /** The compiled stub carries the sequence number it was compiled with. */
  ghost predicate CarriesSeq(env: Env) {
    forall m, n, k :: env.compile(m, n) ==
      match env.compile(m, k) case None => None case Some(cs) => Some(cs.(seqNo := n))
  }

  /**
   And steadiness is what it takes: a hit on the entry of an earlier document with the same
   id and mapping is the fresh compilation exactly when sequence number and persistence agree.
   */
  lemma HitIsFreshIffSteady(doc: StoredStub, old_: StoredStub, files: map<bytes, bytes>, entries: Entries, env: Env)
    requires CarriesSeq(env) && Readable(doc, env) && doc.id in entries
    requires CompiledFrom(entries[doc.id], doc.id, old_, env) && old_.mapping == doc.mapping
    ensures ThroughCache(doc, files, entries, env) == Fresh(doc, files, env)
       <==> old_.seqNo == doc.seqNo && old_.persistent == doc.persistent
  {
    var was := env.compile(doc.mapping, old_.seqNo);
    var now := env.compile(doc.mapping, doc.seqNo);
    assert now == Some(was.value.(seqNo := doc.seqNo)) && was == Some(was.value.(seqNo := old_.seqNo));
  }

  /** Readable documents collide in hash with none but their own mapping. */
  predicate NoneCollides(docs: seq<StoredStub>, filled: Fillers, env: Env) {
    forall k :: 0 <= k < |docs| && Readable(docs[k], env) && SameHash(filled, docs[k], env) ==>
      filled[docs[k].id].mapping == docs[k].mapping
  }

  /** Of a whole rebuild: it compiles what a fresh one would if and only if every hit is steady. */
  lemma {:induction false} RebuildIsFreshIffSteady(docs: seq<StoredStub>, files: map<bytes, bytes>, entries: Entries, filled: Fillers,
                                                   env: Env)
    requires CarriesSeq(env) && Fills(entries, filled, env) && NoneCollides(docs, filled, env)
    ensures AllThroughCache(docs, files, entries, env) == AllFresh(docs, files, env) <==> Steady(docs, filled, env)
  {
    hide ThroughCache, Fresh, CarriesSeq, Fills;
    if docs != [] {
      var n := |docs| - 1;
      RebuildIsFreshIffSteady(docs[..n], files, entries, filled, env);
      HitIffSteady(docs[n], files, entries, filled, env);
      var a, b := AllThroughCache(docs[..n], files, entries, env), AllFresh(docs[..n], files, env);
      var t, f := ThroughCache(docs[n], files, entries, env), Fresh(docs[n], files, env);
      SplitEqual(a, b, t, f);
      assert forall k :: 0 <= k < n ==> docs[..n][k] == docs[k];
    }
  }

  lemma SplitEqual(a: seq<Stub>, b: seq<Stub>, t: Option<Stub>, f: Option<Stub>)
    requires t.Some? <==> f.Some?
    ensures a + (match t case None => [] case Some(x) => [x]) == b + (match f case None => [] case Some(x) => [x])
       <==> a == b && t == f
  {
    if t.Some? {
      var u, v := a + [t.value], b + [f.value];
      assert u[..|a|] == a && u[|a|] == t.value && v[..|b|] == b && v[|b|] == f.value;
      assert u == v ==> |a| == |b|;
    } else {
      assert a + [] == a && b + [] == b;
    }
  }

  lemma HitIffSteady(doc: StoredStub, files: map<bytes, bytes>, entries: Entries, filled: Fillers, env: Env)
    requires CarriesSeq(env) && Fills(entries, filled, env)
    requires Readable(doc, env) && SameHash(filled, doc, env) ==> filled[doc.id].mapping == doc.mapping
    ensures var t, f := ThroughCache(doc, files, entries, env), Fresh(doc, files, env);
            && (t.Some? <==> f.Some?)
            && (t == f <==> (Readable(doc, env) && SameHash(filled, doc, env) ==>
                               filled[doc.id].seqNo == doc.seqNo && filled[doc.id].persistent == doc.persistent))
  {
    assert Hit(entries, doc, env) <==> SameHash(filled, doc, env);
    if Readable(doc, env) && SameHash(filled, doc, env) {
      HitIsFreshIffSteady(doc, filled[doc.id], files, entries, env);
      assert env.compile(doc.mapping, doc.seqNo).Some? <==> env.compile(doc.mapping, filled[doc.id].seqNo).Some?;
    }
  }

  /** A stub deleted and created again between two rebuilds keeps its old place in the order. */
  method RecreatedKeepsOldSeq(env: Env, id: bytes, mapping: bytes, first: nat, second: nat) returns (s: Snapshot)
    requires CarriesSeq(env) && mapping != [] && env.isJson(mapping) && env.compile(mapping, first).Some?
    ensures |s.ordered| == 1 && s.ordered[0].seqNo == first
  {
    var b := new Builder(env);
    var d1, d2 := StoredStub(id, 1, first, false, mapping), StoredStub(id, 1, second, false, mapping);
    var _ := b.Rebuild(Some(Load([d1], map[], 1, None)));
    ghost var entries := b.cache.entries;
    assert EntryAt(entries, [d1][0].id) == EntryAfter(d1, map[], env);
    assert env.compile(mapping, first) == Some(env.compile(mapping, first).value.(seqNo := first));
    var _ := b.Rebuild(Some(Load([d2], map[], 2, None)));
    s := b.engine.snapshot;
    assert AllThroughCache([d2][..0], map[], entries, env) == [];
    var cs := ResolveBody(entries[id].compiled, map[]);
    assert AllThroughCache([d2], map[], entries, env) == [cs];
    assert [cs][..0] == [];
  }

  // ----- splices -----

  function SplicedBody(cs: Stub, file: Option<bytes>): Stub {
    ResolveBody(cs, if file.Some? then map[cs.response.bodyFileName := file.value] else map[])
  }

  /** The stub with its file read is there, and the others of other ids as they were. */
  ghost predicate ServesSplice(ordered: seq<Stub>, before: seq<Stub>, cs: Stub, file: Option<bytes>) {
    forall x :: x in ordered <==>
      Inlined(x, cs, if file.Some? then map[cs.response.bodyFileName := file.value] else map[]) || (x in before && x.id != cs.id)
  }

  lemma SplicedServes(s: seq<Stub>, cs: Stub, file: Option<bytes>)
    ensures ServesSplice(Sorted(Spliced(s, SplicedBody(cs, file))), s, cs, file)
  {
    hide Spliced, Sorted, Inlined, ResolveBody;
    var files: map<bytes, bytes> := if file.Some? then map[cs.response.bodyFileName := file.value] else map[];
    KeepsIds(cs, files);
    forall x
      ensures x in Sorted(Spliced(s, SplicedBody(cs, file))) <==> Inlined(x, cs, files) || (x in s && x.id != cs.id)
    {
      SplicedMembers(s, SplicedBody(cs, file), x);
      InlinedIff(x, cs, files);
    }
  }

  predicate HasId(s: seq<Stub>, id: bytes) { exists k :: 0 <= k < |s| && s[k].id == id }

  function Replaced(s: seq<Stub>, cs: Stub): seq<Stub> {
    if s == [] then []
    else Replaced(s[..|s| - 1], cs) + [if s[|s| - 1].id == cs.id then cs else s[|s| - 1]]
  }

  function Spliced(s: seq<Stub>, cs: Stub): seq<Stub> {
    if HasId(s, cs.id) then Replaced(s, cs) else Replaced(s, cs) + [cs]
  }

  function Without(s: seq<Stub>, id: bytes): seq<Stub> {
    if s == [] then []
    else Without(s[..|s| - 1], id) + if s[|s| - 1].id == id then [] else [s[|s| - 1]]
  }

  /** The point read of a splice and the bulk read of a rebuild resolve a body alike. */
  lemma SplicedBodyIsRebuilt(cs: Stub, files: map<bytes, bytes>)
    ensures var name := cs.response.bodyFileName;
            SplicedBody(cs, if name in files then Some(files[name]) else None) == ResolveBody(cs, files)
  {
  }

  // ----- what is in a spliced list -----

  lemma {:induction false} ReplacedAt(s: seq<Stub>, cs: Stub)
    ensures |Replaced(s, cs)| == |s|
    ensures forall k :: 0 <= k < |s| ==> Replaced(s, cs)[k] == if s[k].id == cs.id then cs else s[k]
  {
    if s != [] { ReplacedAt(s[..|s| - 1], cs); }
  }

  lemma InSorted(s: seq<Stub>, x: Stub)
    ensures x in Sorted(s) <==> x in s
  {
    SortedContents(s);
    assert x in s <==> x in multiset(s);
    assert x in Sorted(s) <==> x in multiset(Sorted(s));
  }

  lemma SplicedMembers(s: seq<Stub>, cs: Stub, x: Stub)
    ensures x in Sorted(Spliced(s, cs)) <==> x == cs || (x in s && x.id != cs.id)
  {
    hide Sorted, Replaced;
    var t := Spliced(s, cs);
    InSorted(t, x);
    ReplacedAt(s, cs);
    if x in s && x.id != cs.id {
      var k :| 0 <= k < |s| && s[k] == x;
      assert t[k] == x;
    }
    if x == cs {
      if HasId(s, cs.id) {
        var k :| 0 <= k < |s| && s[k].id == cs.id;
        assert t[k] == cs;
      } else {
        assert t[|s|] == cs;
      }
    }
  }
}
