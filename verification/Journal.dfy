/**
 The journal writer as a step machine: producers reserve bytes and then send, flushers batch
 and append, and a stop drains. Any number of each, in any interleaving.
 */
module Journal {
  import opened Bytes

  datatype Entry = Entry(id: nat, payload: bytes)

  datatype Config = Config(bufferEntries: nat, bufferBytes: int, batchSize: nat)

  datatype Sending = Ready | Reserved | Full | Sent | Dropped

  datatype Producer = Producer(entry: Entry, stage: Sending)

  /**
   A flusher waits in its loop (draining once it has seen the stop), hands its batch to the
   store, and gives the bytes back. A leaving one does not return to the loop.
   */
  datatype Stage =
    | Loop(draining: bool)
    | Appending(draining: bool, leaving: bool)
    | Returning(draining: bool, leaving: bool)
    | Exited

  datatype Flusher = Flusher(batch: seq<Entry>, stage: Stage)

  /** `early` is what had been sent when stop was closed. */
  datatype State = State(cfg: Config, bytes: int, queue: seq<Entry>, producers: seq<Producer>, flushers: seq<Flusher>,
                         stopped: bool, sent: multiset<Entry>, early: multiset<Entry>,
                         delivered: multiset<Entry>, failed: multiset<Entry>)

  datatype Action =
    | Reserve(p: nat)
    | Send(p: nat)
    | FindFull(p: nat)
    | Unreserve(p: nat)
    | Receive(f: nat)
    | Tick(f: nat)
    | SeeStop(f: nat)
    | FindEmpty(f: nat)
    | Append(f: nat, ok: bool)
    | Return(f: nat)
    | Stop

  function Size(s: seq<Entry>): nat {
    if s == [] then 0 else Size(s[..|s| - 1]) + |s[|s| - 1].payload|
  }

  predicate IsProducer(w: State, p: nat, stage: Sending) { p < |w.producers| && w.producers[p].stage == stage }

  predicate Enabled(w: State, a: Action) {
    match a
    case Reserve(p) => IsProducer(w, p, Ready)
    case Send(p) => IsProducer(w, p, Reserved) && |w.queue| < w.cfg.bufferEntries
    case FindFull(p) => IsProducer(w, p, Reserved) && |w.queue| >= w.cfg.bufferEntries
    case Unreserve(p) => IsProducer(w, p, Full)
    case Receive(f) => f < |w.flushers| && w.flushers[f].stage.Loop? && w.queue != []
    case Tick(f) => f < |w.flushers| && w.flushers[f].stage == Loop(false) && w.flushers[f].batch != []
    case SeeStop(f) => f < |w.flushers| && w.flushers[f].stage == Loop(false) && w.stopped
    case FindEmpty(f) => f < |w.flushers| && w.flushers[f].stage == Loop(true) && w.queue == []
    case Append(f, _) => f < |w.flushers| && w.flushers[f].stage.Appending?
    case Return(f) => f < |w.flushers| && w.flushers[f].stage.Returning?
    case Stop => !w.stopped
  }

  function WithProducer(w: State, p: nat, stage: Sending): State
    requires p < |w.producers|
  {
    w.(producers := w.producers[p := w.producers[p].(stage := stage)])
  }

  function WithFlusher(w: State, f: nat, x: Flusher): State
    requires f < |w.flushers|
  {
    w.(flushers := w.flushers[f := x])
  }

  function Effect(w: State, a: Action): State
    requires Enabled(w, a)
  {
    match a
    case Reserve(p) =>
      var size := |w.producers[p].entry.payload|;
      if w.cfg.bufferBytes > 0 && w.bytes + size > w.cfg.bufferBytes then WithProducer(w, p, Dropped)
      else WithProducer(w, p, Reserved).(bytes := w.bytes + size)
    case Send(p) =>
      var e := w.producers[p].entry;
      WithProducer(w, p, Sent).(queue := w.queue + [e], sent := w.sent + multiset{e})
    case FindFull(p) => WithProducer(w, p, Full)
    case Unreserve(p) => WithProducer(w, p, Dropped).(bytes := w.bytes - |w.producers[p].entry.payload|)
    case Receive(f) =>
      var x := w.flushers[f];
      var batch := x.batch + [w.queue[0]];
      WithFlusher(w, f, Flusher(batch, if |batch| >= w.cfg.batchSize then Appending(x.stage.draining, false) else x.stage))
        .(queue := w.queue[1..])
    case Tick(f) => WithFlusher(w, f, w.flushers[f].(stage := Appending(false, false)))
    case SeeStop(f) => WithFlusher(w, f, w.flushers[f].(stage := Loop(true)))
    case FindEmpty(f) =>
      WithFlusher(w, f, w.flushers[f].(stage := if w.flushers[f].batch == [] then Exited else Appending(true, true)))
    case Append(f, ok) =>
      var x := w.flushers[f];
      var b := WithFlusher(w, f, x.(stage := Returning(x.stage.draining, x.stage.leaving)));
      if ok then b.(delivered := w.delivered + multiset(x.batch)) else b.(failed := w.failed + multiset(x.batch))
    case Return(f) =>
      var x := w.flushers[f];
      WithFlusher(w, f, Flusher([], if x.stage.leaving then Exited else Loop(x.stage.draining)))
        .(bytes := w.bytes - Size(x.batch))
    case Stop => w.(stopped := true, early := w.sent)
  }

  /** An action that is not enabled does nothing, so every sequence of actions is a run. */
  function Next(w: State, a: Action): State { if Enabled(w, a) then Effect(w, a) else w }

  function Run(w: State, run: seq<Action>): State {
    if run == [] then w else Next(Run(w, run[..|run| - 1]), run[|run| - 1])
  }

  ghost predicate Initial(w: State) {
    && w.bytes == 0 && w.queue == [] && !w.stopped
    && w.sent == w.early == w.delivered == w.failed == multiset{}
    && w.flushers != [] && (forall f :: 0 <= f < |w.flushers| ==> w.flushers[f] == Flusher([], Loop(false)))
    && (forall p :: 0 <= p < |w.producers| ==> w.producers[p].stage.Ready?)
    && (forall p, q :: 0 <= p < q < |w.producers| ==> w.producers[p].entry != w.producers[q].entry)
  }

  // ----- what is held where -----

  function ReservedOf(p: Producer): nat { if p.stage.Reserved? || p.stage.Full? then |p.entry.payload| else 0 }

  function ReservedBytes(ps: seq<Producer>): nat {
    if ps == [] then 0 else ReservedOf(ps[0]) + ReservedBytes(ps[1..])
  }

  function BatchBytes(fs: seq<Flusher>): nat {
    if fs == [] then 0 else Size(fs[0].batch) + BatchBytes(fs[1..])
  }

  /** How many copies a flusher holds and has not handed over. */
  function HeldBy(f: Flusher, e: Entry): nat { if f.stage.Returning? then 0 else multiset(f.batch)[e] }

  function Held(fs: seq<Flusher>, e: Entry): nat {
    if fs == [] then 0 else HeldBy(fs[0], e) + Held(fs[1..], e)
  }

  function SentCopy(p: Producer, e: Entry): nat { if p.stage.Sent? && p.entry == e then 1 else 0 }

  function SentBy(ps: seq<Producer>, e: Entry): nat {
    if ps == [] then 0 else SentCopy(ps[0], e) + SentBy(ps[1..], e)
  }

  lemma {:induction false} ReservedUpdate(ps: seq<Producer>, k: nat, x: Producer)
    requires k < |ps|
    ensures ReservedBytes(ps[k := x]) == ReservedBytes(ps) - ReservedOf(ps[k]) + ReservedOf(x)
  {
    if k > 0 {
      ReservedUpdate(ps[1..], k - 1, x);
      assert ps[k := x][1..] == ps[1..][k - 1 := x];
    } else {
      assert ps[k := x][1..] == ps[1..];
    }
  }

  lemma {:induction false} BatchUpdate(fs: seq<Flusher>, k: nat, x: Flusher)
    requires k < |fs|
    ensures BatchBytes(fs[k := x]) == BatchBytes(fs) - Size(fs[k].batch) + Size(x.batch)
  {
    hide Size;
    if k > 0 {
      BatchUpdate(fs[1..], k - 1, x);
      assert fs[k := x][1..] == fs[1..][k - 1 := x];
    } else {
      assert fs[k := x][1..] == fs[1..];
    }
  }

  lemma {:induction false} HeldUpdate(fs: seq<Flusher>, k: nat, x: Flusher, e: Entry)
    requires k < |fs|
    ensures Held(fs[k := x], e) == Held(fs, e) - HeldBy(fs[k], e) + HeldBy(x, e)
  {
    hide HeldBy;
    if k > 0 {
      HeldUpdate(fs[1..], k - 1, x, e);
      assert fs[k := x][1..] == fs[1..][k - 1 := x];
    } else {
      assert fs[k := x][1..] == fs[1..];
    }
  }

  lemma {:induction false} SentUpdate(ps: seq<Producer>, k: nat, x: Producer, e: Entry)
    requires k < |ps|
    ensures SentBy(ps[k := x], e) == SentBy(ps, e) - SentCopy(ps[k], e) + SentCopy(x, e)
  {
    hide SentCopy;
    if k > 0 {
      SentUpdate(ps[1..], k - 1, x, e);
      assert ps[k := x][1..] == ps[1..][k - 1 := x];
    } else {
      assert ps[k := x][1..] == ps[1..];
    }
  }

  lemma SizeAppend(s: seq<Entry>, e: Entry)
    ensures Size(s + [e]) == Size(s) + |e.payload|
  {
    assert (s + [e])[..|s|] == s;
  }

  lemma {:induction false} SizeRest(s: seq<Entry>)
    requires s != []
    ensures Size(s) == |s[0].payload| + Size(s[1..])
  {
    if |s| > 1 {
      SizeRest(s[..|s| - 1]);
      assert s[1..][..|s| - 2] == s[..|s| - 1][1..];
    }
  }

  // ----- the invariant -----

  /** The counter is the payload held: reserved and not sent, queued, batched, in flight. */
  ghost predicate BytesExact(w: State) {
    w.bytes == ReservedBytes(w.producers) + Size(w.queue) + BatchBytes(w.flushers)
  }

  ghost predicate BytesBounded(w: State) {
    0 <= w.bytes && (w.cfg.bufferBytes > 0 ==> w.bytes <= w.cfg.bufferBytes)
  }

  /** Each copy sent is in one place: the queue, a flusher's hands, delivered or failed. */
  ghost predicate Conserved(w: State, e: Entry) {
    && w.sent[e] == multiset(w.queue)[e] + Held(w.flushers, e) + w.delivered[e] + w.failed[e]
    && w.sent[e] == SentBy(w.producers, e)
  }

  ghost predicate NothingLost(w: State) { forall e :: Conserved(w, e) }

  function MaxBatch(cfg: Config): nat { if cfg.batchSize > 1 then cfg.batchSize else 1 }

  ghost predicate GoodFlusher(w: State, x: Flusher) {
    && |x.batch| <= MaxBatch(w.cfg)
    && (x.stage.Loop? ==> x.batch == [] || |x.batch| < w.cfg.batchSize)
    && (x.stage.Appending? ==> x.batch != [])
    && (x.stage.Exited? ==> x.batch == [])
    && (Drained(x) ==> w.stopped && Flushed(w))
    && (x.stage == Loop(true) ==> w.stopped)
    && ((x.stage.Appending? || x.stage.Returning?) && x.stage.draining ==> w.stopped)
  }

  /** The flusher has found the queue empty after the stop. */
  predicate Drained(x: Flusher) {
    x.stage.Exited? || ((x.stage.Appending? || x.stage.Returning?) && x.stage.leaving)
  }

  /** Nothing sent before the stop is still queued. */
  ghost predicate Flushed(w: State) { forall k :: 0 <= k < |w.queue| ==> w.queue[k] !in w.early }

  ghost predicate GoodFlushers(w: State) {
    w.flushers != [] && forall f :: 0 <= f < |w.flushers| ==> GoodFlusher(w, w.flushers[f])
  }

  ghost predicate Stopping(w: State) {
    if w.stopped then w.early <= w.sent else w.early == multiset{}
  }

  ghost predicate DistinctEntries(ps: seq<Producer>) {
    forall p, q :: 0 <= p < q < |ps| ==> ps[p].entry != ps[q].entry
  }

  ghost predicate Inv(w: State) {
    BytesExact(w) && BytesBounded(w) && NothingLost(w) && GoodFlushers(w) && Stopping(w)
    && DistinctEntries(w.producers) && |w.queue| <= w.cfg.bufferEntries
  }

  lemma {:induction false} InitialSums(ps: seq<Producer>, fs: seq<Flusher>, e: Entry)
    requires forall p :: 0 <= p < |ps| ==> ps[p].stage.Ready?
    requires forall f :: 0 <= f < |fs| ==> fs[f] == Flusher([], Loop(false))
    ensures ReservedBytes(ps) == 0 && SentBy(ps, e) == 0 && BatchBytes(fs) == 0 && Held(fs, e) == 0
  {
    if ps != [] { InitialSums(ps[1..], fs, e); }
    else if fs != [] { InitialSums(ps, fs[1..], e); }
  }

  lemma InitialInv(w: State)
    requires Initial(w)
    ensures Inv(w)
  {
    forall e ensures Conserved(w, e) { InitialSums(w.producers, w.flushers, e); }
    InitialSums(w.producers, w.flushers, Entry(0, []));
  }

  /** A sent entry is one of a producer that has sent, and there once. */
  lemma {:induction false} SentOnce(ps: seq<Producer>, e: Entry)
    requires DistinctEntries(ps)
    ensures SentBy(ps, e) <= 1
    ensures SentBy(ps, e) > 0 <==> exists p :: 0 <= p < |ps| && ps[p].stage.Sent? && ps[p].entry == e
  {
    if ps != [] {
      var rest := ps[1..];
      SentOnce(rest, e);
      assert forall p :: 0 <= p < |rest| ==> rest[p] == ps[p + 1] && rest[p].entry != ps[0].entry;
      if SentBy(rest, e) > 0 {
        var p :| 0 <= p < |rest| && rest[p].stage.Sent? && rest[p].entry == e;
        assert ps[p + 1].stage.Sent? && ps[p + 1].entry == e;
      }
      if p :| 0 < p < |ps| && ps[p].stage.Sent? && ps[p].entry == e {
        assert rest[p - 1] == ps[p];
      }
    }
  }

  // ----- steps: the byte counter -----

  lemma BytesByProducer(w: State, a: Action, p: nat)
    requires BytesExact(w) && BytesBounded(w) && Enabled(w, a)
    requires a == Reserve(p) || a == Send(p) || a == FindFull(p) || a == Unreserve(p)
    ensures BytesExact(Next(w, a)) && BytesBounded(Next(w, a))
  {
    hide ReservedBytes, BatchBytes, Size;
    ReservedUpdate(w.producers, p, Next(w, a).producers[p]);
    if a.Send? { SizeAppend(w.queue, w.producers[p].entry); }
  }

  lemma BytesByFlusher(w: State, a: Action, f: nat)
    requires BytesExact(w) && BytesBounded(w) && Enabled(w, a)
    requires a == Tick(f) || a == SeeStop(f) || a == FindEmpty(f) || a == Return(f) || (a.Append? && a.f == f)
    ensures BytesExact(Next(w, a)) && BytesBounded(Next(w, a))
  {
    NoSize();
    hide ReservedBytes, BatchBytes, Size;
    BatchUpdate(w.flushers, f, Next(w, a).flushers[f]);
  }

  lemma BytesByReceive(w: State, f: nat)
    requires BytesExact(w) && BytesBounded(w) && Enabled(w, Receive(f))
    ensures BytesExact(Next(w, Receive(f))) && BytesBounded(Next(w, Receive(f)))
  {
    hide ReservedBytes, BatchBytes, Size;
    BatchUpdate(w.flushers, f, Next(w, Receive(f)).flushers[f]);
    SizeAppend(w.flushers[f].batch, w.queue[0]);
    SizeRest(w.queue);
  }

  lemma BytesStep(w: State, a: Action)
    requires BytesExact(w) && BytesBounded(w) && Enabled(w, a)
    ensures BytesExact(Next(w, a)) && BytesBounded(Next(w, a))
  {
    hide ReservedBytes, BatchBytes, Size;
    match a
    case Reserve(p) => BytesByProducer(w, a, p);
    case Send(p) => BytesByProducer(w, a, p);
    case FindFull(p) => BytesByProducer(w, a, p);
    case Unreserve(p) => BytesByProducer(w, a, p);
    case Receive(f) => BytesByReceive(w, f);
    case Tick(f) => BytesByFlusher(w, a, f);
    case SeeStop(f) => BytesByFlusher(w, a, f);
    case FindEmpty(f) => BytesByFlusher(w, a, f);
    case Append(f, _) => BytesByFlusher(w, a, f);
    case Return(f) => BytesByFlusher(w, a, f);
    case Stop =>
  }

  lemma NoSize()
    ensures Size([]) == 0
  {
  }

  // ----- steps: conservation -----

  /** Only this flusher's hands changed, by as much as the rest did. */
  lemma ConservedHands(w: State, d: State, f: nat, x: Flusher, e: Entry)
    requires Conserved(w, e) && f < |w.flushers| && d.flushers == w.flushers[f := x]
    requires d.producers == w.producers && d.sent == w.sent
    requires multiset(d.queue)[e] + HeldBy(x, e) + d.delivered[e] + d.failed[e]
          == multiset(w.queue)[e] + HeldBy(w.flushers[f], e) + w.delivered[e] + w.failed[e]
    ensures Conserved(d, e)
  {
    hide HeldBy, Held, SentBy;
    HeldUpdate(w.flushers, f, x, e);
  }

  lemma ConservedReceive(w: State, f: nat, e: Entry)
    requires Conserved(w, e) && Enabled(w, Receive(f))
    ensures Conserved(Next(w, Receive(f)), e)
  {
    hide Conserved;
    var d := Next(w, Receive(f));
    OneMore(w.flushers[f].batch, w.queue[0], e);
    OneLess(w.queue, e);
    ConservedHands(w, d, f, d.flushers[f], e);
  }

  lemma ConservedFlusher(w: State, a: Action, f: nat, e: Entry)
    requires Conserved(w, e) && Enabled(w, a)
    requires a == Tick(f) || a == SeeStop(f) || a == FindEmpty(f) || a == Return(f) || (a.Append? && a.f == f)
    ensures Conserved(Next(w, a), e)
  {
    hide Conserved, Size;
    var d := Next(w, a);
    ConservedHands(w, d, f, d.flushers[f], e);
  }

  lemma ConservedProducer(w: State, a: Action, p: nat, e: Entry)
    requires Conserved(w, e) && Enabled(w, a)
    requires a == Reserve(p) || a == FindFull(p) || a == Unreserve(p)
    ensures Conserved(Next(w, a), e)
  {
    hide Held, SentBy;
    var d := Next(w, a);
    SentUpdate(w.producers, p, d.producers[p], e);
  }

  lemma ConservedSend(w: State, p: nat, e: Entry)
    requires Conserved(w, e) && Enabled(w, Send(p))
    ensures Conserved(Next(w, Send(p)), e)
  {
    hide Held, SentBy;
    var d := Next(w, Send(p));
    SentUpdate(w.producers, p, d.producers[p], e);
    OneMore(w.queue, w.producers[p].entry, e);
  }

  lemma ConservedStep(w: State, a: Action, e: Entry)
    requires Conserved(w, e) && Enabled(w, a)
    ensures Conserved(Next(w, a), e)
  {
    hide Held, SentBy, Size, HeldBy;
    match a
    case Reserve(p) => ConservedProducer(w, a, p, e);
    case Send(p) => ConservedSend(w, p, e);
    case FindFull(p) => ConservedProducer(w, a, p, e);
    case Unreserve(p) => ConservedProducer(w, a, p, e);
    case Receive(f) => ConservedReceive(w, f, e);
    case Tick(f) => ConservedFlusher(w, a, f, e);
    case SeeStop(f) => ConservedFlusher(w, a, f, e);
    case FindEmpty(f) => ConservedFlusher(w, a, f, e);
    case Append(f, ok) => ConservedFlusher(w, a, f, e);
    case Return(f) => ConservedFlusher(w, a, f, e);
    case Stop =>
  }

  lemma OneMore(s: seq<Entry>, x: Entry, e: Entry)
    ensures multiset(s + [x])[e] == multiset(s)[e] + if x == e then 1 else 0
  {
  }

  lemma OneLess(s: seq<Entry>, e: Entry)
    requires s != []
    ensures multiset(s)[e] == multiset(s[1..])[e] + if s[0] == e then 1 else 0
  {
    assert s == [s[0]] + s[1..];
  }

  // ----- steps: the flushers -----

  lemma FlushersUnmoved(w: State, d: State)
    requires GoodFlushers(w) && d.flushers == w.flushers && d.cfg == w.cfg
    requires w.stopped ==> d.stopped && (Flushed(w) ==> Flushed(d))
    ensures GoodFlushers(d)
  {
    hide Flushed;
    forall f | 0 <= f < |d.flushers| ensures GoodFlusher(d, d.flushers[f]) {
      assert GoodFlusher(w, w.flushers[f]);
    }
  }

  lemma FlusherMoved(w: State, d: State, f: nat, x: Flusher)
    requires GoodFlushers(w) && f < |w.flushers| && d.flushers == w.flushers[f := x] && d.cfg == w.cfg
    requires GoodFlusher(d, x)
    requires d.stopped == w.stopped && (w.stopped && Flushed(w) ==> Flushed(d))
    ensures GoodFlushers(d)
  {
    hide Flushed;
    forall g | 0 <= g < |d.flushers| ensures GoodFlusher(d, d.flushers[g]) {
      if g != f { assert GoodFlusher(w, w.flushers[g]); }
    }
  }

  lemma FlusherStep(w: State, a: Action, f: nat)
    requires GoodFlushers(w) && Enabled(w, a)
    requires a == Receive(f) || a == Tick(f) || a == SeeStop(f) || a == FindEmpty(f) || a == Return(f) || (a.Append? && a.f == f)
    ensures GoodFlushers(Next(w, a))
  {
    hide Size;
    var d := Next(w, a);
    assert GoodFlusher(w, w.flushers[f]);
    hide GoodFlushers;
    if a.Receive? { assert forall k :: 0 <= k < |d.queue| ==> d.queue[k] == w.queue[k + 1]; }
    FlusherMoved(w, d, f, d.flushers[f]);
  }

  /** What is sent after the stop was not sent before it. */
  lemma NotEarly(w: State, p: nat)
    requires Inv(w) && w.stopped && IsProducer(w, p, Reserved)
    ensures w.producers[p].entry !in w.early
  {
    hide GoodFlushers, SentBy, ReservedBytes, BatchBytes, Held, Size;
    var e := w.producers[p].entry;
    assert Conserved(w, e);
    SentOnce(w.producers, e);
  }

  lemma SendKeepsFlushed(w: State, p: nat)
    requires Inv(w) && Enabled(w, Send(p)) && w.stopped && Flushed(w)
    ensures Flushed(Next(w, Send(p)))
  {
    NotEarly(w, p);
    hide Inv;
    var d := Next(w, Send(p));
    forall k | 0 <= k < |d.queue| ensures d.queue[k] !in d.early {
      if k < |w.queue| { assert d.queue[k] == w.queue[k]; }
    }
  }

  lemma FlushersStep(w: State, a: Action)
    requires Inv(w) && Enabled(w, a)
    ensures GoodFlushers(Next(w, a))
  {
    var d := Next(w, a);
    match a
    case Send(p) =>
      if w.stopped && Flushed(w) { SendKeepsFlushed(w, p); }
      hide GoodFlushers, GoodFlusher, Flushed;
      FlushersUnmoved(w, d);
    case Receive(f) => FlusherStep(w, a, f);
    case Tick(f) => FlusherStep(w, a, f);
    case SeeStop(f) => FlusherStep(w, a, f);
    case FindEmpty(f) => FlusherStep(w, a, f);
    case Append(f, ok) => FlusherStep(w, a, f);
    case Return(f) => FlusherStep(w, a, f);
    case _ =>
      hide GoodFlushers, GoodFlusher;
      FlushersUnmoved(w, d);
  }

  lemma OtherStep(w: State, a: Action)
    requires Inv(w) && Enabled(w, a)
    ensures var d := Next(w, a); Stopping(d) && DistinctEntries(d.producers) && |d.queue| <= d.cfg.bufferEntries
  {
    hide GoodFlushers, BytesExact, BytesBounded, NothingLost, Size;
    hide DistinctEntries;
    SameEntries(w, a);
  }

  lemma SameEntries(w: State, a: Action)
    requires DistinctEntries(w.producers)
    ensures DistinctEntries(Next(w, a).producers)
  {
    hide Size;
    var ps := Next(w, a).producers;
    assert |ps| == |w.producers| && forall p :: 0 <= p < |ps| ==> ps[p].entry == w.producers[p].entry;
    hide Next;
  }

  lemma NextInv(w: State, a: Action)
    requires Inv(w)
    ensures Inv(Next(w, a))
  {
    if Enabled(w, a) {
      BytesStep(w, a);
      forall e ensures Conserved(Next(w, a), e) {
        assert Conserved(w, e);
        ConservedStep(w, a, e);
      }
      FlushersStep(w, a);
      OtherStep(w, a);
      hide Next, Enabled, Effect, Conserved, GoodFlushers, BytesExact, BytesBounded, Stopping;
    }
  }

  lemma {:induction false} RunInv(w: State, run: seq<Action>)
    requires Inv(w)
    ensures Inv(Run(w, run))
  {
    hide Inv, Next;
    if run != [] {
      RunInv(w, run[..|run| - 1]);
      NextInv(Run(w, run[..|run| - 1]), run[|run| - 1]);
    }
  }

  // ----- the results -----

  /** In every reachable state the books balance, within the caps. */
  lemma Accounting(w: State, run: seq<Action>, e: Entry)
    requires Initial(w)
    ensures var d := Run(w, run);
            && d.bytes == ReservedBytes(d.producers) + Size(d.queue) + BatchBytes(d.flushers)
            && 0 <= d.bytes && (d.cfg.bufferBytes > 0 ==> d.bytes <= d.cfg.bufferBytes)
            && |d.queue| <= d.cfg.bufferEntries
            && (forall f :: 0 <= f < |d.flushers| ==> |d.flushers[f].batch| <= MaxBatch(d.cfg))
            && d.sent[e] == multiset(d.queue)[e] + Held(d.flushers, e) + d.delivered[e] + d.failed[e] <= 1
  {
    hide Run, SentBy, ReservedBytes, BatchBytes, Held, Size;
    InitialInv(w);
    RunInv(w, run);
    var d := Run(w, run);
    assert Conserved(d, e);
    SentOnce(d.producers, e);
    forall f | 0 <= f < |d.flushers| ensures |d.flushers[f].batch| <= MaxBatch(d.cfg) {
      assert GoodFlusher(d, d.flushers[f]);
    }
  }

  lemma {:induction false} AllExitedHoldNothing(fs: seq<Flusher>, e: Entry)
    requires forall f :: 0 <= f < |fs| ==> fs[f].stage.Exited? && fs[f].batch == []
    ensures Held(fs, e) == 0
  {
    if fs != [] { AllExitedHoldNothing(fs[1..], e); }
  }

  /** Once every flusher has exited, each entry sent before the stop has been handed over exactly once. */
  lemma Drain(w: State, run: seq<Action>, e: Entry)
    requires Initial(w)
    requires forall f :: 0 <= f < |Run(w, run).flushers| ==> Run(w, run).flushers[f].stage.Exited?
    requires e in Run(w, run).early
    ensures Run(w, run).delivered[e] + Run(w, run).failed[e] == 1
  {
    hide Run, SentBy, ReservedBytes, BatchBytes, Held, Size;
    InitialInv(w);
    RunInv(w, run);
    var d := Run(w, run);
    forall f | 0 <= f < |d.flushers| ensures d.flushers[f].batch == [] {
      assert GoodFlusher(d, d.flushers[f]);
    }
    AllExitedHoldNothing(d.flushers, e);
    assert GoodFlusher(d, d.flushers[0]) && Flushed(d);
    assert Conserved(d, e);
    SentOnce(d.producers, e);
    assert e !in d.queue && e !in multiset(d.queue);
    assert d.early[e] <= d.sent[e];
  }

  // ----- what is sent after the stop -----

  /** How far a flusher is from its exit. */
  function Steps(x: Flusher): nat {
    match x.stage
    case Exited => 0
    case Returning(_, leaving) => if leaving then 1 else 5
    case Appending(_, leaving) => if leaving then 2 else 6
    case Loop(draining) => if draining then 3 else 4
  }

  function AllSteps(fs: seq<Flusher>): nat { if fs == [] then 0 else Steps(fs[0]) + AllSteps(fs[1..]) }

  lemma {:induction false} StepsUpdate(fs: seq<Flusher>, k: nat, x: Flusher)
    requires k < |fs|
    ensures AllSteps(fs[k := x]) == AllSteps(fs) - Steps(fs[k]) + Steps(x)
  {
    hide Steps;
    if k > 0 {
      StepsUpdate(fs[1..], k - 1, x);
      assert fs[k := x][1..] == fs[1..][k - 1 := x];
    } else {
      assert fs[k := x][1..] == fs[1..];
    }
  }

  ghost predicate AllExited(w: State) { forall f :: 0 <= f < |w.flushers| ==> w.flushers[f].stage.Exited? }

  ghost predicate AllDrained(w: State) { forall f :: 0 <= f < |w.flushers| ==> Drained(w.flushers[f]) }

  /** The step that takes a flusher on towards its exit. */
  function Onward(w: State, f: nat): Action
    requires f < |w.flushers|
  {
    match w.flushers[f].stage
    case Appending(_, _) => Append(f, true)
    case Returning(_, _) => Return(f)
    case Loop(draining) => if !draining then SeeStop(f) else if w.queue != [] then Receive(f) else FindEmpty(f)
    case Exited => Stop
  }

  lemma OnwardStep(w: State, f: nat)
    requires w.stopped && f < |w.flushers| && !w.flushers[f].stage.Exited?
    ensures var d := Next(w, Onward(w, f));
            && d.stopped && d.cfg == w.cfg && d.producers == w.producers && |d.flushers| == |w.flushers|
            && 4 * |d.queue| + AllSteps(d.flushers) < 4 * |w.queue| + AllSteps(w.flushers)
            && (AllDrained(w) ==> AllDrained(d) && d.queue == w.queue)
            && (!AllDrained(w) ==> !AllDrained(d) || d.queue == [])
  {
    hide Size;
    var d := Next(w, Onward(w, f));
    assert Enabled(w, Onward(w, f));
    assert d.flushers == w.flushers[f := d.flushers[f]];
    StepsUpdate(w.flushers, f, d.flushers[f]);
    if !AllDrained(w) {
      var g :| 0 <= g < |w.flushers| && !Drained(w.flushers[g]);
      assert g != f ==> !Drained(d.flushers[g]);
      assert g == f ==> !Drained(d.flushers[f]) || d.queue == [];
    }
  }

  lemma {:induction false} RunFirst(w: State, a: Action, rest: seq<Action>)
    ensures Run(w, [a] + rest) == Run(Next(w, a), rest)
  {
    hide Next;
    if rest == [] {
      assert [a] + rest == [a] && [a][..0] == [];
    } else {
      var n := |rest| - 1;
      assert ([a] + rest)[..|[a] + rest| - 1] == [a] + rest[..n];
      RunFirst(w, a, rest[..n]);
    }
  }

  /** After the stop the flushers can all exit while no producer moves. */
  lemma {:induction false} WindDown(w: State) returns (run: seq<Action>)
    requires w.stopped
    ensures var d := Run(w, run);
            && d.stopped && d.cfg == w.cfg && d.producers == w.producers && AllExited(d)
            && d.queue == if AllDrained(w) then w.queue else []
    decreases 4 * |w.queue| + AllSteps(w.flushers)
  {
    if AllExited(w) {
      run := [];
    } else {
      var f :| 0 <= f < |w.flushers| && !w.flushers[f].stage.Exited?;
      OnwardStep(w, f);
      hide Next;
      var a := Onward(w, f);
      var rest := WindDown(Next(w, a));
      RunFirst(w, a, rest);
      run := [a] + rest;
    }
  }

  /** Drained flushers take nothing more, so the queue only grows. */
  lemma {:induction false} DrainedForGood(w: State, run: seq<Action>)
    requires w.stopped && AllDrained(w)
    ensures var d := Run(w, run);
            && d.stopped && d.cfg == w.cfg && AllDrained(d) && w.queue <= d.queue
            && (|w.queue| >= w.cfg.bufferEntries ==> d.queue == w.queue)
            && (AllExited(w) ==> AllExited(d) && d.delivered == w.delivered && d.failed == w.failed)
  {
    if run != [] {
      DrainedForGood(w, run[..|run| - 1]);
      DrainedStep(Run(w, run[..|run| - 1]), run[|run| - 1]);
    }
  }

  lemma DrainedStep(w: State, a: Action)
    requires w.stopped && AllDrained(w)
    ensures var d := Next(w, a);
            && d.stopped && d.cfg == w.cfg && AllDrained(d) && w.queue <= d.queue
            && (|w.queue| >= w.cfg.bufferEntries ==> d.queue == w.queue)
            && (AllExited(w) ==> AllExited(d) && d.delivered == w.delivered && d.failed == w.failed)
  {
    hide Size;
  }

  /** Some flusher is still going to empty the queue, or the queue has a place left. */
  ghost predicate HasRoom(w: State) { w.cfg.bufferEntries > 0 && (!AllDrained(w) || |w.queue| < w.cfg.bufferEntries) }

  /** A run after which every flusher has exited and the entry is queued for good. */
  ghost predicate Strands(w: State, run: seq<Action>, e: Entry) {
    var d := Run(w, run);
    AllExited(d) && e in d.queue
    && forall more :: e in Run(d, more).queue && Run(d, more).delivered == d.delivered && Run(d, more).failed == d.failed
  }

  /**
   From any stopped state, an entry reserved and not yet sent can end up in the queue with
   nobody left to take it, if and only if there is room. So what is promised of entries sent
   before the stop is promised of no other.
   */
  lemma LateEntryStranded(w: State, p: nat)
    requires Inv(w) && w.stopped && IsProducer(w, p, Reserved)
    ensures HasRoom(w) <==> exists run :: Strands(w, run, w.producers[p].entry)
  {
    var e := w.producers[p].entry;
    if HasRoom(w) {
      var run := StrandedRun(w, p);
    } else {
      forall run ensures !Strands(w, run, e) { NoRoom(w, p, run); }
    }
  }

  lemma StrandedRun(w: State, p: nat) returns (run: seq<Action>)
    requires w.stopped && IsProducer(w, p, Reserved) && HasRoom(w)
    ensures Strands(w, run, w.producers[p].entry)
  {
    var e := w.producers[p].entry;
    var wind := WindDown(w);
    var c := Run(w, wind);
    run := wind + [Send(p)];
    assert run[..|run| - 1] == wind;
    var d := Next(c, Send(p));
    assert Run(w, run) == d;
    assert d.queue == c.queue + [e] && d.queue[|c.queue|] == e;
    forall more ensures e in Run(d, more).queue && Run(d, more).delivered == d.delivered && Run(d, more).failed == d.failed {
      DrainedForGood(d, more);
      assert Run(d, more).queue[|c.queue|] == e;
    }
  }

  /** Without room the queue stays as it is, and the entry is not in it. */
  lemma NoRoom(w: State, p: nat, run: seq<Action>)
    requires Inv(w) && w.stopped && IsProducer(w, p, Reserved) && !HasRoom(w)
    ensures !Strands(w, run, w.producers[p].entry)
  {
    var e := w.producers[p].entry;
    RunInv(w, run);
    hide Inv;
    NotQueued(w, p);
    if w.cfg.bufferEntries > 0 {
      DrainedForGood(w, run);
    } else {
      NoQueue(w, run);
    }
  }

  lemma NotQueued(w: State, p: nat)
    requires Inv(w) && IsProducer(w, p, Reserved)
    ensures w.producers[p].entry !in w.queue
  {
    hide GoodFlushers, SentBy, ReservedBytes, BatchBytes, Held, Size;
    var e := w.producers[p].entry;
    assert Conserved(w, e);
    SentOnce(w.producers, e);
    assert e in w.queue <==> e in multiset(w.queue);
  }

  lemma {:induction false} NoQueue(w: State, run: seq<Action>)
    requires w.cfg.bufferEntries == 0 && w.queue == []
    ensures Run(w, run).queue == [] && Run(w, run).cfg == w.cfg
  {
    if run != [] { NoQueue(w, run[..|run| - 1]); }
  }

  // ----- when an entry is dropped -----

  /** The payload held anywhere: reserved and not sent, queued, and in the hands of flushers. */
  function PayloadHeld(w: State): nat { ReservedBytes(w.producers) + Size(w.queue) + BatchBytes(w.flushers) }

  /** An entry is reserved where its payload fits beside what is held, and dropped where it does not. */
  lemma ReservedIfFits(w: State, p: nat)
    requires Inv(w) && p < |w.producers| && w.producers[p].stage.Ready?
    ensures var e, cap := w.producers[p].entry, w.cfg.bufferBytes;
            Next(w, Reserve(p)) ==
            if cap <= 0 || PayloadHeld(w) + |e.payload| <= cap
            then w.(producers := w.producers[p := Producer(e, Reserved)], bytes := PayloadHeld(w) + |e.payload|)
            else w.(producers := w.producers[p := Producer(e, Dropped)])
  {
    hide ReservedBytes, Size, BatchBytes, GoodFlushers, NothingLost, DistinctEntries, Stopping;
  }

  /** A reserved entry finds the queue full when it is, and is then given up; nothing else drops one. */
  lemma DroppedIff(w: State, a: Action, p: nat)
    requires p < |w.producers| && !w.producers[p].stage.Dropped?
    ensures var d, was := Next(w, a), w.producers[p].stage;
            && |d.producers| == |w.producers|
            && (d.producers[p].stage.Dropped? ==> (a == Reserve(p) && was.Ready?) || (a == Unreserve(p) && was.Full?))
            && (a == Unreserve(p) && was.Full? ==> d.producers[p].stage.Dropped?)
            && (d.producers[p].stage.Full? && !was.Full? <==> a == FindFull(p) && was.Reserved? && |w.queue| >= w.cfg.bufferEntries)
  {
    hide Size;
    if Enabled(w, a) && (a.Receive? || a.Tick? || a.SeeStop? || a.FindEmpty? || a.Append? || a.Return? || a.Stop?) {
      FlushersLeaveProducers(w, a);
    }
  }

  lemma FlushersLeaveProducers(w: State, a: Action)
    requires Enabled(w, a) && (a.Receive? || a.Tick? || a.SeeStop? || a.FindEmpty? || a.Append? || a.Return? || a.Stop?)
    ensures Next(w, a).producers == w.producers
  {
    hide Size;
  }
}
