/** Scenario transitions: a bounded compare-and-swap retry over a store any number of replicas write. */
module Scenario {
  import opened Bytes

  const STARTED: bytes := [83, 116, 97, 114, 116, 101, 100]
  const CAS_ATTEMPTS: nat := 3

  // ----- the store's contract -----

  datatype Doc = Doc(state: bytes, cas: nat)

  /** The stored states; every write draws a token never used before. */
  datatype Shelf = Shelf(docs: map<bytes, Doc>, nextCas: nat)

  /** The effective state: absent and empty both read as Started. */
  function Current(s: Shelf, name: bytes): bytes {
    if name in s.docs && s.docs[name].state != [] then s.docs[name].state else STARTED
  }

  function Token(s: Shelf, name: bytes): Option<nat> {
    if name in s.docs then Some(s.docs[name].cas) else None
  }

  function Upsert(s: Shelf, name: bytes, state: bytes): Shelf {
    Shelf(s.docs[name := Doc(state, s.nextCas)], s.nextCas + 1)
  }

  /** An insert needs the document absent, a replace needs its token unchanged. */
  predicate CasHolds(s: Shelf, name: bytes, cas: Option<nat>) { Token(s, name) == cas }

  predicate TokensPast(s: Shelf) { forall n :: n in s.docs ==> s.docs[n].cas < s.nextCas }

  /** What any replica may do to the store at any time. */
  datatype Command = Set(name: bytes, state: bytes) | Reset

  function Obey(s: Shelf, c: Command): Shelf {
    match c
    case Set(name, state) => Upsert(s, name, state)
    case Reset => Shelf(map[], s.nextCas)
  }

  function ObeyAll(s: Shelf, cs: seq<Command>): Shelf {
    if cs == [] then s else Obey(ObeyAll(s, cs[..|cs| - 1]), cs[|cs| - 1])
  }

  /** From one store to the other this scenario was written and no other, whose states and tokens stay. */
  ghost predicate OnlyWrote(s: Shelf, d: Shelf, name: bytes, state: bytes) {
    && Current(d, name) == (if state == [] then STARTED else state) && Token(d, name) == Some(s.nextCas)
    && forall other :: other != name ==> Current(d, other) == Current(s, other) && Token(d, other) == Token(s, other)
  }

  /** After a reset every scenario reads as Started. */
  lemma ResetStarts(s: Shelf, name: bytes)
    ensures Current(Obey(s, Reset), name) == [83, 116, 97, 114, 116, 101, 100] && Token(Obey(s, Reset), name) == None
  {
  }

  /** A token read once names the document read, whatever happens in between. */
  ghost predicate TokenNames(s: Shelf, name: bytes, cas: Option<nat>, state: bytes) {
    TokensPast(s) && (cas.Some? ==> cas.value < s.nextCas) && (CasHolds(s, name, cas) ==> Current(s, name) == state)
  }

  lemma {:induction false} TokenSurvives(s: Shelf, cs: seq<Command>, name: bytes, cas: Option<nat>, state: bytes)
    requires TokenNames(s, name, cas, state) && (cas.None? ==> state == STARTED)
    ensures TokenNames(ObeyAll(s, cs), name, cas, state)
  {
    if cs != [] { TokenSurvives(s, cs[..|cs| - 1], name, cas, state); }
  }

  // ----- the client -----

  datatype Outcome = Moved | Skipped | Abandoned | Unavailable

  /** The store, and beside it the states found by the writes of one client. */
  class ScenarioStore {
    var shelf: Shelf
    ghost var found: seq<bytes>

    constructor (shelf: Shelf)
      ensures this.shelf == shelf && found == []
    {
      this.shelf := shelf;
      found := [];
    }

    method Interfere(others: seq<Command>)
      modifies this`shelf
      ensures shelf == ObeyAll(old(shelf), others)
    {
      for i := 0 to |others|
        invariant shelf == ObeyAll(old(shelf), others[..i])
      {
        assert others[..i + 1][..i] == others[..i];
        shelf := Obey(shelf, others[i]);
      }
      assert others[..|others|] == others;
    }

    method Put(name: bytes, state: bytes)
      modifies this
      ensures shelf == Upsert(old(shelf), name, state) && OnlyWrote(old(shelf), shelf, name, state)
      ensures found == old(found) + [Current(old(shelf), name)]
    {
      found := found + [Current(shelf, name)];
      shelf := Upsert(shelf, name, state);
    }

    /** Insert or replace, whichever the token asks for; a lost race writes nothing. */
    method Swap(name: bytes, state: bytes, cas: Option<nat>) returns (ok: bool)
      modifies this
      ensures ok <==> CasHolds(old(shelf), name, cas)
      ensures ok ==> shelf == Upsert(old(shelf), name, state) && OnlyWrote(old(shelf), shelf, name, state)
      ensures ok ==> found == old(found) + [Current(old(shelf), name)]
      ensures !ok ==> shelf == old(shelf) && found == old(found)
    {
      if (name in shelf.docs) != cas.Some? { return false; }
      if cas.Some? && shelf.docs[name].cas != cas.value { return false; }
      Put(name, state);
      return true;
    }
  }

  /** State returns the effective state. */
  method State(st: ScenarioStore, name: bytes) returns (state: bytes)
    ensures state == Current(st.shelf, name)
    ensures state == if name in st.shelf.docs && st.shelf.docs[name].state != [] then st.shelf.docs[name].state else STARTED
  {
    if !(name in st.shelf.docs) { return STARTED; }
    if st.shelf.docs[name].state == [] { return STARTED; }
    return st.shelf.docs[name].state;
  }

  // ----- any number of calls, in any interleaving -----

  /** A gated call: about to read, holding what it read, or ended. */
  datatype Phase = Trying | Holding(cas: Option<nat>) | Ended(outcome: Outcome)

  datatype Call = Call(name: bytes, required: bytes, next: bytes, phase: Phase, attempts: nat, writes: nat)

  datatype World = World(shelf: Shelf, calls: seq<Call>)

  /** `applied` is a write that reached the store though its caller saw an error. */
  datatype Action =
    | Read(t: nat)
    | ReadFails(t: nat)
    | Write(t: nat)
    | WriteFails(t: nat, applied: bool)
    | Other(command: Command)

  predicate Enabled(w: World, a: Action) {
    match a
    case Read(t) => t < |w.calls| && w.calls[t].phase.Trying?
    case ReadFails(t) => t < |w.calls| && w.calls[t].phase.Trying?
    case Write(t) => t < |w.calls| && w.calls[t].phase.Holding?
    case WriteFails(t, applied) =>
      t < |w.calls| && w.calls[t].phase.Holding?
      && (applied ==> CasHolds(w.shelf, w.calls[t].name, w.calls[t].phase.cas))
    case Other(_) => true
  }

  function WithCall(w: World, t: nat, c: Call): World
    requires t < |w.calls|
  {
    w.(calls := w.calls[t := c])
  }

  function Effect(w: World, a: Action): World
    requires Enabled(w, a)
  {
    match a
    case Read(t) =>
      var c := w.calls[t];
      WithCall(w, t, c.(attempts := c.attempts + 1,
                        phase := if Current(w.shelf, c.name) != c.required then Ended(Skipped)
                                 else Holding(Token(w.shelf, c.name))))
    case ReadFails(t) =>
      var c := w.calls[t];
      WithCall(w, t, c.(attempts := c.attempts + 1, phase := Ended(Unavailable)))
    case Write(t) =>
      var c := w.calls[t];
      if CasHolds(w.shelf, c.name, c.phase.cas) then
        World(Upsert(w.shelf, c.name, c.next), w.calls[t := c.(phase := Ended(Moved), writes := c.writes + 1)])
      else WithCall(w, t, c.(phase := if c.attempts < CAS_ATTEMPTS then Trying else Ended(Abandoned)))
    case WriteFails(t, applied) =>
      var c := w.calls[t];
      if applied then
        World(Upsert(w.shelf, c.name, c.next), w.calls[t := c.(phase := Ended(Unavailable), writes := c.writes + 1)])
      else WithCall(w, t, c.(phase := Ended(Unavailable)))
    case Other(command) => w.(shelf := Obey(w.shelf, command))
  }

  function Next(w: World, a: Action): World { if Enabled(w, a) then Effect(w, a) else w }

  function Run(w: World, run: seq<Action>): World {
    if run == [] then w else Next(Run(w, run[..|run| - 1]), run[|run| - 1])
  }

  ghost predicate GoodCall(s: Shelf, c: Call) {
    && c.writes <= 1 && c.attempts <= CAS_ATTEMPTS
    && (!c.phase.Ended? ==> c.writes == 0)
    && (c.phase.Trying? ==> c.attempts < CAS_ATTEMPTS)
    && (c.phase.Holding? ==> TokenNames(s, c.name, c.phase.cas, c.required) && (c.phase.cas.None? ==> c.required == STARTED))
  }

  /** Gated calls only; an ungated one is an Other. */
  ghost predicate Inv(w: World) {
    TokensPast(w.shelf) && forall t :: 0 <= t < |w.calls| ==> GoodCall(w.shelf, w.calls[t])
  }

  ghost predicate Initial(w: World) {
    TokensPast(w.shelf) && forall t :: 0 <= t < |w.calls| ==>
      w.calls[t].phase.Trying? && w.calls[t].attempts == 0 && w.calls[t].writes == 0
      && w.calls[t].required != [] && w.calls[t].next != []
  }

  /** The action makes call t write. */
  predicate Writes(w: World, a: Action, t: nat) {
    Enabled(w, a)
    && ((a == Write(t) && CasHolds(w.shelf, w.calls[t].name, w.calls[t].phase.cas)) || a == WriteFails(t, true))
  }

  lemma NextInv(w: World, a: Action)
    requires Inv(w)
    ensures Inv(Next(w, a))
  {
    hide Upsert, GoodCall;
    var d := Next(w, a);
    if !Enabled(w, a) { return; }
    forall t | 0 <= t < |d.calls| ensures GoodCall(d.shelf, d.calls[t]) {
      assert GoodCall(w.shelf, w.calls[t]);
      StepGood(w, a, t);
    }
    StepTokens(w, a);
  }

  lemma StepTokens(w: World, a: Action)
    requires TokensPast(w.shelf) && Enabled(w, a)
    ensures TokensPast(Next(w, a).shelf)
  {
  }

  lemma StepGood(w: World, a: Action, t: nat)
    requires TokensPast(w.shelf) && Enabled(w, a) && t < |w.calls| && GoodCall(w.shelf, w.calls[t])
    ensures |Next(w, a).calls| == |w.calls| && GoodCall(Next(w, a).shelf, Next(w, a).calls[t])
  {
  }

  lemma {:induction false} RunInv(w: World, run: seq<Action>)
    requires Inv(w)
    ensures Inv(Run(w, run)) && |Run(w, run).calls| == |w.calls|
  {
    if run != [] {
      RunInv(w, run[..|run| - 1]);
      NextInv(Run(w, run[..|run| - 1]), run[|run| - 1]);
    }
  }

  /** The instant of a write: the call's first, while the state is the one it requires. */
  lemma WritesOnlyWhenRequired(w: World, run: seq<Action>, a: Action, t: nat)
    requires Initial(w) && Writes(Run(w, run), a, t)
    ensures var now := Run(w, run);
            && Current(now.shelf, now.calls[t].name) == now.calls[t].required
            && now.calls[t].writes == 0 && 1 <= now.calls[t].attempts <= 3
            && Next(now, a).calls[t].writes == 1 && Next(now, a).calls[t].phase.Ended?
  {
    InitialInv(w);
    RunInv(w, run);
    HeldAfterRead(w, run, t);
    assert GoodCall(Run(w, run).shelf, Run(w, run).calls[t]);
  }

  lemma InitialInv(w: World)
    requires Initial(w)
    ensures Inv(w)
  {
  }

  lemma {:induction false} HeldAfterRead(w: World, run: seq<Action>, t: nat)
    requires Initial(w) && t < |Run(w, run).calls|
    ensures Run(w, run).calls[t].phase.Holding? ==> Run(w, run).calls[t].attempts >= 1
  {
    if run != [] {
      var before := run[..|run| - 1];
      InitialInv(w);
      RunInv(w, before);
      assert |Next(Run(w, before), run[|run| - 1]).calls| == |Run(w, before).calls|;
      HeldAfterRead(w, before, t);
    }
  }

  // ----- moves out of a state are paid for by moves into it -----

  /** How often the scenario comes into the state. */
  function Entries(w: World, run: seq<Action>, name: bytes, state: bytes): nat {
    if run == [] then 0
    else
      var before := run[..|run| - 1];
      Entries(w, before, name, state)
      + if Current(Run(w, before).shelf, name) != state && Current(Run(w, run).shelf, name) == state then 1 else 0
  }

  /** How many calls' writes take the scenario out of the state they required. */
  ghost function GatedExits(w: World, run: seq<Action>, name: bytes, state: bytes): nat {
    if run == [] then 0
    else
      var before := run[..|run| - 1];
      var b := Run(w, before);
      GatedExits(w, before, name, state)
      + if SomeLeaves(b, run[|run| - 1], name, state) then 1 else 0
  }

  ghost predicate Leaves(w: World, a: Action, t: nat, name: bytes, state: bytes) {
    t < |w.calls| && Writes(w, a, t) && w.calls[t].name == name && w.calls[t].required == state && w.calls[t].next != state
  }

  ghost predicate SomeLeaves(w: World, a: Action, name: bytes, state: bytes) {
    exists t :: Leaves(w, a, t, name, state)
  }

  lemma {:induction false} CallsKeepTerms(w: World, run: seq<Action>, t: nat)
    requires t < |w.calls|
    ensures var d := Run(w, run);
            t < |d.calls| && d.calls[t].name == w.calls[t].name && d.calls[t].required == w.calls[t].required
            && d.calls[t].next == w.calls[t].next
  {
    if run != [] { CallsKeepTerms(w, run[..|run| - 1], t); }
  }

  /** Gated moves out of a state never outnumber moves into it, the initial one counted. */
  lemma {:induction false} ExitsWithinEntries(w: World, run: seq<Action>, name: bytes, state: bytes)
    requires Initial(w)
    ensures var d := Run(w, run);
            GatedExits(w, run, name, state) + (if Current(d.shelf, name) == state then 1 else 0)
            <= Entries(w, run, name, state) + (if Current(w.shelf, name) == state then 1 else 0)
  {
    if run != [] {
      var before, a := run[..|run| - 1], run[|run| - 1];
      ExitsWithinEntries(w, before, name, state);
      var b := Run(w, before);
      if SomeLeaves(b, a, name, state) {
        var t :| Leaves(b, a, t, name, state);
        WritesOnlyWhenRequired(w, before, a, t);
        LeavingMoves(w, before, a, t, name, state);
      }
    }
  }

  lemma LeavingMoves(w: World, run: seq<Action>, a: Action, t: nat, name: bytes, state: bytes)
    requires Initial(w) && Leaves(Run(w, run), a, t, name, state)
    ensures Current(Next(Run(w, run), a).shelf, name) != state
  {
    InitialInv(w);
    RunInv(w, run);
    CallsKeepTerms(w, run, t);
  }

  /** A call's writes over a run are counted by `writes`, so each call exits at most once. */
  lemma {:induction false} AtMostOneWrite(w: World, run: seq<Action>, t: nat)
    requires Initial(w) && t < |w.calls|
    ensures |Run(w, run).calls| == |w.calls| && Run(w, run).calls[t].writes == WriteCount(w, run, t) <= 1
  {
    InitialInv(w);
    RunInv(w, run);
    assert GoodCall(Run(w, run).shelf, Run(w, run).calls[t]);
    if run != [] { AtMostOneWrite(w, run[..|run| - 1], t); }
  }

  function WriteCount(w: World, run: seq<Action>, t: nat): nat {
    if run == [] then 0
    else WriteCount(w, run[..|run| - 1], t) + if Writes(Run(w, run[..|run| - 1]), run[|run| - 1], t) then 1 else 0
  }

  // ----- what touches a scenario -----

  /** The action writes this scenario, or resets them all. */
  ghost predicate Touches(w: World, a: Action, name: bytes) {
    (a.Other? && (a.command.Reset? || a.command.name == name)) || exists t: nat :: t < |w.calls| && Writes(w, a, t) && w.calls[t].name == name
  }

  /** A scenario's state is what the last action to touch it left, and its token is new. */
  lemma StepTouches(w: World, a: Action, name: bytes)
    requires TokensPast(w.shelf)
    ensures var d := Next(w, a);
            && (!Touches(w, a, name) ==> Current(d.shelf, name) == Current(w.shelf, name) && Token(d.shelf, name) == Token(w.shelf, name))
            && (Touches(w, a, name) && a != Other(Reset) ==> Token(d.shelf, name) == Some(w.shelf.nextCas) != Token(w.shelf, name))
            && (a == Other(Reset) ==> Current(d.shelf, name) == STARTED && Token(d.shelf, name) == None)
            && (forall t: nat :: t < |w.calls| && Writes(w, a, t) && w.calls[t].name == name && w.calls[t].next != [] ==>
                  Current(d.shelf, name) == w.calls[t].next)
  {
    if a.Write? && Enabled(w, a) && CasHolds(w.shelf, w.calls[a.t].name, w.calls[a.t].phase.cas) { assert Writes(w, a, a.t); }
    if a.WriteFails? && Enabled(w, a) && a.applied { assert Writes(w, a, a.t); }
  }

  /** Over a run that does not touch it, a scenario keeps its state and its token. */
  lemma {:induction false} UntouchedRun(w: World, run: seq<Action>, name: bytes)
    requires Inv(w) && forall k :: 0 <= k < |run| ==> !Touches(Run(w, run[..k]), run[k], name)
    ensures Current(Run(w, run).shelf, name) == Current(w.shelf, name) && Token(Run(w, run).shelf, name) == Token(w.shelf, name)
  {
    hide Touches, Next, Current, Token;
    if run != [] {
      var before := run[..|run| - 1];
      forall k | 0 <= k < |before| ensures !Touches(Run(w, before[..k]), before[k], name) { assert run[..k] == before[..k]; }
      UntouchedRun(w, before, name);
      RunInv(w, before);
      StepTouches(Run(w, before), run[|run| - 1], name);
    }
  }

  // ----- one call is a run of the machine -----

  /** The store after what the others wrote before the client's first k operations. */
  function Interfered(s: Shelf, others: nat -> seq<Command>, k: nat): Shelf {
    if k == 0 then s else ObeyAll(Interfered(s, others, k - 1), others(k - 1))
  }

  /** Nobody else writes, and the store answers. */
  ghost predicate Alone(others: nat -> seq<Command>, fails: nat -> bool) { forall k: nat :: others(k) == [] && !fails(k) }

  lemma {:induction false} AloneKeeps(s: Shelf, others: nat -> seq<Command>, fails: nat -> bool, k: nat)
    requires Alone(others, fails)
    ensures Interfered(s, others, k) == s && !fails(k)
  {
    if k > 0 { AloneKeeps(s, others, fails, k - 1); }
  }

  /** One gated call by itself. */
  function OneCall(s: Shelf, name: bytes, required: bytes, next: bytes, phase: Phase, attempts: nat, writes: nat): World {
    World(s, [Call(name, required, next, phase, attempts, writes)])
  }

  /** After the commands of others, one action of the call itself. */
  function Then(run: seq<Action>, commands: seq<Command>, a: Action): seq<Action> {
    run + Others(commands) + [a]
  }

  function Others(commands: seq<Command>): seq<Action> {
    if commands == [] then [] else Others(commands[..|commands| - 1]) + [Other(commands[|commands| - 1])]
  }

  /**
   `others(k)` is what the rest of the deployment writes before this client's operation k,
   `fails(k)` whether that operation errors, and `applies(k)` whether a write that errors reached
   the store all the same. Of the `ops` operations only the last can have written. A gated call
   is a run of the machine above, so what holds of every call in every run holds of it.
   */
  method Transition(st: ScenarioStore, name: bytes, required: bytes, next: bytes,
                    others: nat -> seq<Command>, fails: nat -> bool, applies: nat -> bool)
    returns (outcome: Outcome, attempts: nat, ops: nat, ghost wrote: bool, ghost run: seq<Action>)
    requires TokensPast(st.shelf)
    modifies st
    ensures next == [] ==> outcome.Skipped? && ops == 0
    ensures st.shelf == var s := Interfered(old(st.shelf), others, ops); if wrote then Upsert(s, name, next) else s
    ensures st.found == old(st.found) + if wrote then [Current(Interfered(old(st.shelf), others, ops), name)] else []
    ensures wrote ==> next != [] && OnlyWrote(Interfered(old(st.shelf), others, ops), st.shelf, name, next)
    ensures Alone(others, fails) && next != [] ==>
              && Interfered(old(st.shelf), others, ops) == old(st.shelf) && attempts <= 1
              && (outcome.Moved? <==> required == [] || Current(old(st.shelf), name) == required)
    ensures next != [] ==> ops > 0 && (outcome.Unavailable? <==> fails(ops - 1))
    ensures (outcome.Moved? ==> wrote) && (wrote ==> outcome.Moved? || (outcome.Unavailable? && applies(ops - 1)))
    ensures required == [] && next != [] ==> attempts == 0 && ops == 1 && (wrote <==> !fails(0) || applies(0))
    ensures required != [] && next != [] ==>
              && attempts <= 3 && 2 * attempts - 1 <= ops <= 2 * attempts
              && (wrote ==> Current(Interfered(old(st.shelf), others, ops), name) == required)
              && (outcome.Skipped? ==> Current(st.shelf, name) != required)
              && (outcome.Abandoned? ==> attempts == 3)
              && Run(OneCall(old(st.shelf), name, required, next, Trying, 0, 0), run)
                 == OneCall(st.shelf, name, required, next, Ended(outcome), attempts, if wrote then 1 else 0)
  {
    hide Current, Token, Upsert, Run, ObeyAll, Then, Next, Interfered, TokensPast, Alone, OnlyWrote;
    attempts, ops, wrote, run := 0, 0, false, [];
    InterferedNext(st.shelf, others, fails, 0);
    if next == [] { return Skipped, 0, 0, false, []; }
    if required == [] {
      ops := 1;
      st.Interfere(others(0));
      if !fails(0) || applies(0) {
        st.Put(name, next);
        wrote := true;
      }
      return if fails(0) then Unavailable else Moved, 0, ops, wrote, run;
    }
    outcome, attempts, ops, wrote, run := MoveWhen(st, name, required, next, others, fails, applies);
  }

  /** The gated case: read, compare, swap, and again when the race was lost. */
  method MoveWhen(st: ScenarioStore, name: bytes, required: bytes, next: bytes,
                  others: nat -> seq<Command>, fails: nat -> bool, applies: nat -> bool)
    returns (outcome: Outcome, attempts: nat, ops: nat, ghost wrote: bool, ghost run: seq<Action>)
    requires TokensPast(st.shelf) && required != [] && next != []
    modifies st
    ensures st.shelf == var s := Interfered(old(st.shelf), others, ops); if wrote then Upsert(s, name, next) else s
    ensures st.found == old(st.found) + if wrote then [Current(Interfered(old(st.shelf), others, ops), name)] else []
    ensures wrote ==> OnlyWrote(Interfered(old(st.shelf), others, ops), st.shelf, name, next)
    ensures Alone(others, fails) ==>
              && Interfered(old(st.shelf), others, ops) == old(st.shelf) && attempts <= 1
              && (outcome.Moved? <==> Current(old(st.shelf), name) == required)
    ensures ops > 0 && (outcome.Unavailable? <==> fails(ops - 1))
    ensures (outcome.Moved? ==> wrote) && (wrote ==> outcome.Moved? || (outcome.Unavailable? && applies(ops - 1)))
    ensures attempts <= 3 && 2 * attempts - 1 <= ops <= 2 * attempts && (outcome.Abandoned? ==> attempts == 3)
    ensures wrote ==> Current(Interfered(old(st.shelf), others, ops), name) == required
    ensures outcome.Skipped? ==> Current(st.shelf, name) != required
    ensures Run(OneCall(old(st.shelf), name, required, next, Trying, 0, 0), run)
         == OneCall(st.shelf, name, required, next, Ended(outcome), attempts, if wrote then 1 else 0)
  {
    hide Current, Token, Upsert, Run, ObeyAll, Then, Next, Interfered, TokensPast, Alone, OnlyWrote, OneCall, WriteAction;
    attempts, ops, wrote, run := 0, 0, false, [];
    InterferedNext(st.shelf, others, fails, 0);
    ghost var start := OneCall(st.shelf, name, required, next, Trying, 0, 0);
    NothingRun(start);
    while attempts < CAS_ATTEMPTS
      invariant ops == 2 * attempts && attempts <= CAS_ATTEMPTS && TokensPast(st.shelf) && st.found == old(st.found)
      invariant st.shelf == Interfered(old(st.shelf), others, ops) && !wrote
      invariant Run(start, run) == OneCall(st.shelf, name, required, next, Lost(attempts), attempts, 0)
      invariant ops > 0 ==> !fails(ops - 1) && !Alone(others, fails)
      decreases CAS_ATTEMPTS - attempts
    {
      PastSurvives(st.shelf, others(ops));
      InterferedNext(old(st.shelf), others, fails, ops);
      ReadRuns(start, run, st.shelf, name, required, next, attempts, others(ops), fails(ops));
      attempts := attempts + 1;
      st.Interfere(others(ops));
      run, ops := Then(run, others(ops), if fails(ops) then ReadFails(0) else Read(0)), ops + 1;
      if fails(ops - 1) { return Unavailable, attempts, ops, wrote, run; }
      var state := State(st, name);
      var cas := Token(st.shelf, name);
      if state != required { return Skipped, attempts, ops, wrote, run; }
      TokenStill(st.shelf, others(ops), name);
      InterferedNext(old(st.shelf), others, fails, ops);
      ghost var a := WriteAction(st.shelf, others(ops), name, cas, fails(ops), applies(ops));
      WriteRuns(start, run, st.shelf, name, required, next, attempts, cas, others(ops), fails(ops), applies(ops));
      st.Interfere(others(ops));
      run, ops := Then(run, others(ops), a), ops + 1;
      var ok := false;
      if !fails(ops - 1) || applies(ops - 1) { ok := st.Swap(name, next, cas); }
      wrote := ok;
      if fails(ops - 1) { return Unavailable, attempts, ops, wrote, run; }
      if ok { return Moved, attempts, ops, wrote, run; }
    }
    return Abandoned, attempts, ops, wrote, run;
  }

  function Lost(attempts: nat): Phase { if attempts < CAS_ATTEMPTS then Trying else Ended(Abandoned) }

  lemma NothingRun(w: World)
    ensures Run(w, []) == w
  {
  }

  lemma TokenStill(s: Shelf, commands: seq<Command>, name: bytes)
    requires TokensPast(s)
    ensures var d := ObeyAll(s, commands);
            TokensPast(d) && (CasHolds(d, name, Token(s, name)) ==> Current(d, name) == Current(s, name))
  {
    hide ObeyAll;
    TokenSurvives(s, commands, name, Token(s, name), Current(s, name));
  }

  lemma InterferedNext(s: Shelf, others: nat -> seq<Command>, fails: nat -> bool, k: nat)
    ensures Interfered(s, others, 0) == s
    ensures Interfered(s, others, k + 1) == ObeyAll(Interfered(s, others, k), others(k))
    ensures Alone(others, fails) ==> Interfered(s, others, k) == Interfered(s, others, k + 1) == s && !fails(k)
  {
    if Alone(others, fails) {
      AloneKeeps(s, others, fails, k);
      AloneKeeps(s, others, fails, k + 1);
    }
  }

  lemma ReadRuns(w: World, run: seq<Action>, s: Shelf, name: bytes, required: bytes, next: bytes, attempts: nat,
                 commands: seq<Command>, fails: bool)
    requires Run(w, run) == OneCall(s, name, required, next, Trying, attempts, 0)
    ensures var d := ObeyAll(s, commands);
            Run(w, Then(run, commands, if fails then ReadFails(0) else Read(0))) ==
            OneCall(d, name, required, next,
                    if fails then Ended(Unavailable) else if Current(d, name) != required then Ended(Skipped) else Holding(Token(d, name)),
                    attempts + 1, 0)
  {
    ThenRuns(w, run, commands, if fails then ReadFails(0) else Read(0));
  }

  ghost function WriteAction(s: Shelf, commands: seq<Command>, name: bytes, cas: Option<nat>, fails: bool, applies: bool): Action {
    if fails then WriteFails(0, applies && CasHolds(ObeyAll(s, commands), name, cas)) else Write(0)
  }

  lemma WriteRuns(w: World, run: seq<Action>, s: Shelf, name: bytes, required: bytes, next: bytes, attempts: nat, cas: Option<nat>,
                  commands: seq<Command>, fails: bool, applies: bool)
    requires Run(w, run) == OneCall(s, name, required, next, Holding(cas), attempts, 0)
    ensures var d := ObeyAll(s, commands);
            var wrote := (!fails || applies) && CasHolds(d, name, cas);
            Run(w, Then(run, commands, WriteAction(s, commands, name, cas, fails, applies))) ==
            OneCall(if wrote then Upsert(d, name, next) else d, name, required, next,
                    if fails then Ended(Unavailable) else if wrote then Ended(Moved) else Lost(attempts),
                    attempts, if wrote then 1 else 0)
  {
    ThenRuns(w, run, commands, WriteAction(s, commands, name, cas, fails, applies));
  }

  lemma ThenRuns(w: World, run: seq<Action>, commands: seq<Command>, a: Action)
    ensures var d := Run(w, run); Run(w, Then(run, commands, a)) == Next(d.(shelf := ObeyAll(d.shelf, commands)), a)
  {
    var longer := Then(run, commands, a);
    assert longer[..|longer| - 1] == run + Others(commands);
    OthersRun(w, run, commands);
  }

  lemma {:induction false} OthersRun(w: World, run: seq<Action>, commands: seq<Command>)
    ensures var d := Run(w, run); Run(w, run + Others(commands)) == d.(shelf := ObeyAll(d.shelf, commands))
  {
    hide Obey;
    if commands == [] {
      assert run + Others(commands) == run;
    } else {
      var front, longer := commands[..|commands| - 1], run + Others(commands);
      OthersRun(w, run, front);
      assert longer[..|longer| - 1] == run + Others(front);
    }
  }

  lemma {:induction false} PastSurvives(s: Shelf, cs: seq<Command>)
    requires TokensPast(s)
    ensures TokensPast(ObeyAll(s, cs))
  {
    if cs != [] { PastSurvives(s, cs[..|cs| - 1]); }
  }
}
