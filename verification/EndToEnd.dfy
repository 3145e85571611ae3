/** From daemon events to acknowledged batches: collection windows and durable delivery put together. */
module EndToEnd {
  import opened Lex
  import opened EventTypes
  import opened Options
  import opened EventWindow
  import opened EventWindowProps
  import opened EventChain
  import opened EventStall
  import opened Delivery
  import opened DeliveryRuns
  import EventBurst

  // ---- what the collector hands to the runner ----

  /** The batch carries the outcome of a completed window; finalizing only adds ids and a sequence. */
  ghost predicate Carries(b: Batch, r: Round) {
    && Completed(r)
    && b.from == Some(Watermark(r.w.since, r.w.digests)) && b.until == Some(r.w.until)
    && b.proposed == Some(Result(r).proposed) && b.events == Some(Result(r).events)
  }

  /** A boundary stop lists at least one digest the window did not start with, when it ends where it started. */
  lemma BoundaryMoves(r: Round)
    requires Completed(r) && r.x.Boundary?
    ensures Forward(Watermark(r.w.since, r.w.digests), Result(r).proposed)
  {
    var items := Items(r.w, r.stream);
    var m := Trip(items, r.n).value;
    ClassifySpec(r.w, r.stream[m]);
    ProposedDigests(r.w, items, r.n);
    if Result(r).proposed.time == r.w.since {
      TakenIsUncapped(r.w, r.stream, r.n);
      UncappedHas(r.w, r.stream, r.n, m);
      var d := DigestOf(r.w.env, Candidate(r.w, r.stream[m]));
      assert d in Result(r).proposed.digests && d !in r.w.digests;
    }
  }

  /** Every completed window proposes strict progress. */
  lemma WindowsMove(r: Round)
    requires Completed(r)
    ensures Forward(Watermark(r.w.since, r.w.digests), Result(r).proposed)
    ensures r.w.since <= Result(r).proposed.time <= r.w.until
  {
    WindowRelations(r.w, r.ctl, r.stream, r.n, r.x);
    if r.x.Boundary? { BoundaryMoves(r); }
  }

  lemma ProposedAscends(r: Round)
    requires Completed(r)
    ensures Ascending(Result(r).proposed.digests)
  {
    if r.x.Boundary? {
      ProposedDigests(r.w, Items(r.w, r.stream), r.n);
    }
  }

  /** How many distinct digests the window accepted at its boundary time; none unless it stopped at one. */
  ghost function Breadth(r: Round): nat
    requires Completed(r)
  {
    if r.x.Boundary? then |DigestsAt(r.w.env, Taken(Items(r.w, r.stream), r.n), BoundaryTime(r.w, r.stream, r.n))| else 0
  }

  lemma ProposedBreadth(r: Round)
    requires Completed(r)
    ensures |Result(r).proposed.digests| == Breadth(r)
  {
    if r.x.Boundary? {
      ProposedDigests(r.w, Items(r.w, r.stream), r.n);
      BoundarySize(r.w.env, Taken(Items(r.w, r.stream), r.n), Result(r).proposed);
    }
  }

  /**
   * A finalized batch of a window that started at the committed watermark is persisted,
   * and so transmitted, exactly when at most 256 distinct digests were accepted at its
   * boundary time; the live path does not cap them.
   */
  lemma CollectedBatchPersists(cfg: Config, mem: Record, b: Batch, r: Round)
    requires GoodRecord(cfg, mem) && mem.pending.None?
    requires Carries(b, r) && EventInput(mem, r.w.until, r.w.env) == Some(r.w)
    requires b.agent == cfg.agent && ValidOpaqueId(b.batchId) && ValidOpaqueId(b.snapshotId)
    requires Derivable(cfg, b)
    requires ValidDigest(cfg.codec.eventsDigest(b.events.value)) && ValidDigest(cfg.codec.payloadDigest(b))
    requires forall d :: d in Result(r).proposed.digests ==> ValidDigest(d)
    ensures AcceptsPending(cfg, mem, DerivePending(cfg, b).value) <==> Breadth(r) <= MAX_BOUNDARY_DIGESTS
  {
    WindowsMove(r);
    ProposedBreadth(r);
    ProposedValid(r);
  }

  lemma ProposedValid(r: Round)
    requires Completed(r) && forall d :: d in Result(r).proposed.digests ==> ValidDigest(d)
    ensures ValidWatermark(Result(r).proposed) <==> |Result(r).proposed.digests| <= MAX_BOUNDARY_DIGESTS
  {
    ProposedAscends(r);
    var mark := Result(r).proposed;
    forall i | 0 <= i < |mark.digests| ensures ValidDigest(mark.digests[i]) {
      assert mark.digests[i] in mark.digests;
    }
  }

  /** The first window of an agent that finds 257 deaths within one second. */
  function BurstRound(): Round {
    Round(EventBurst.BurstWindow(250, false), EventBurst.UNHURRIED, EventBurst.Deaths(257), 257, Boundary)
  }

  /** It completes at its boundary, and collecting the same response again repeats it. */
  lemma BurstCompletes()
    ensures Completed(BurstRound()) && TimeOrdered(BurstRound().stream) && Breadth(BurstRound()) == 257
    ensures Repeats(BurstRound().w, BurstRound().stream, 257, BurstRound())
  {
    EventBurst.BoundaryTooWide();
    EventBurst.BurstStops(250, false, 100, 257);
  }

  /** Whatever batch carries its proposal is never persisted. */
  lemma BurstNeverPersists(cfg: Config, mem: Record, p: Pending)
    ensures Completed(BurstRound()) && Breadth(BurstRound()) == 257
    ensures p.proposed == Result(BurstRound()).proposed ==> !AcceptsPending(cfg, mem, p)
  {
    BurstCompletes();
    ProposedBreadth(BurstRound());
  }

  // ---- a boundary too wide to persist stalls delivery ----

  /** Nothing is pending in memory or on disk, and both stand at this watermark. */
  predicate Stuck(s: Stored, mark: Watermark) {
    && s.mem.pending.None? && s.mem.watermark == mark
    && s.disk.pending.None? && s.disk.watermark == mark
  }

  /** A complete batch of this input comes from a window over the same events and possibly later ones, read on undisturbed. */
  ghost predicate Recollects(r: Round, i: Input)
    requires Completed(r) && r.x.Boundary?
  {
    i.Pushing? && i.collected.Some? && IsComplete(i.collected.value) ==>
      exists q: Round :: Carries(i.collected.value, q) && Repeats(r.w, r.stream, r.n, q)
  }

  /** A complete batch of this input proposes more digests than any record may hold. */
  predicate TooWide(i: Input) {
    i.Pushing? && i.collected.Some? && IsComplete(i.collected.value) ==>
      |i.collected.value.proposed.value.digests| > MAX_BOUNDARY_DIGESTS
  }

  lemma RecollectedTooWide(r: Round, i: Input)
    requires Completed(r) && r.x.Boundary? && TimeOrdered(r.stream) && Breadth(r) > MAX_BOUNDARY_DIGESTS && Recollects(r, i)
    ensures TooWide(i)
  {
    if i.Pushing? && i.collected.Some? && IsComplete(i.collected.value) {
      var q: Round :| Carries(i.collected.value, q) && Repeats(r.w, r.stream, r.n, q);
      RepeatedTooWide(r, q);
    }
  }

  lemma RepeatedTooWide(r: Round, q: Round)
    requires Completed(r) && r.x.Boundary? && TimeOrdered(r.stream) && Breadth(r) > MAX_BOUNDARY_DIGESTS
    requires Repeats(r.w, r.stream, r.n, q)
    ensures |Result(q).proposed.digests| > MAX_BOUNDARY_DIGESTS
  {
    SameBoundary(r.w, r.ctl, r.stream, r.n, q);
    ProposedBreadth(r);
  }

  predicate NoCompleteAfter(sent: seq<Push>, k: nat) {
    forall i :: k <= i < |sent| ==> !(sent[i].Branch? && IsComplete(sent[i].batch))
  }

  /** Nothing moved the watermark and nothing complete was transmitted. */
  predicate Stalled(w: World, mark: Watermark, sent: seq<Push>) {
    Stuck(w.store, mark) && sent <= w.sent && NoCompleteAfter(w.sent, |sent|)
  }

  lemma StalledCompletes(cfg: Config, w: World, b: Batch, io: Io, mark: Watermark, sent: seq<Push>)
    requires Stalled(w, mark, sent) && b.proposed.Some? && |b.proposed.value.digests| > MAX_BOUNDARY_DIGESTS
    ensures Stalled(PushComplete(cfg, w, b, io), mark, sent)
  {
    var bound := b.(sequence := w.store.mem.sequence);
    var p := DerivePending(cfg, bound);
    assert p.Some? ==> !AcceptsPending(cfg, w.store.mem, p.value) && !PersistOk(cfg, w.store.mem, p.value, io.write);
  }

  lemma StalledStep(cfg: Config, w: World, i: Input, mark: Watermark, sent: seq<Push>)
    requires Stalled(w, mark, sent) && TooWide(i)
    ensures Stalled(Step(cfg, w, i), mark, sent)
  {
    if i.Pushing? && i.collected.Some? {
      var b := i.collected.value;
      if IsComplete(b) {
        StalledCompletes(cfg, w, b, i.io, mark, sent);
      } else {
        assert Step(cfg, w, i) == PushMinimal(w, b, i.io);
      }
    }
  }

  /**
   * Once more than 256 distinct digests share a boundary time, delivery stalls for good:
   * every later window from the same watermark that reads the same events, and whatever
   * follows them, stops at the same boundary and its batch is refused again, over every
   * run with crashes and misreported writes. No complete batch is transmitted any more.
   */
  lemma StallsForGood(cfg: Config, before: seq<Input>, later: seq<Input>, r: Round)
    requires Completed(r) && r.x.Boundary? && TimeOrdered(r.stream) && Breadth(r) > MAX_BOUNDARY_DIGESTS
    requires Stuck(Run(cfg, before).store, Watermark(r.w.since, r.w.digests))
    requires forall k :: 0 <= k < |later| ==> Recollects(r, later[k])
    ensures Stalled(Run(cfg, before + later), Watermark(r.w.since, r.w.digests), Run(cfg, before).sent)
  {
    forall k | 0 <= k < |later| ensures TooWide(later[k]) { RecollectedTooWide(r, later[k]); }
    StaysStalled(cfg, before, later, Watermark(r.w.since, r.w.digests));
  }

  lemma StartsStuck(cfg: Config)
    ensures Stuck(Run(cfg, []).store, Watermark(0, [])) && Run(cfg, []).sent == []
  {}

  lemma NothingBefore<T>(s: seq<T>)
    ensures [] + s == s
  {}

  lemma FirstWindowStalls(cfg: Config, later: seq<Input>, r: Round)
    requires Completed(r) && r.x.Boundary? && TimeOrdered(r.stream) && Breadth(r) > MAX_BOUNDARY_DIGESTS
    requires r.w.since == 0 && r.w.digests == [] && forall k :: 0 <= k < |later| ==> Recollects(r, later[k])
    ensures Stalled(Run(cfg, later), Watermark(0, []), [])
  {
    var none: seq<Input> := [];
    StartsStuck(cfg);
    NothingBefore(later);
    StallsForGood(cfg, none, later, r);
  }

  /**
   * So an agent whose very first window finds such a burst never transmits a complete batch,
   * as long as its windows read that response on undisturbed.
   */
  lemma BurstStalls(cfg: Config, later: seq<Input>, r: Round)
    requires r == BurstRound() && Completed(r) && forall k :: 0 <= k < |later| ==> Recollects(r, later[k])
    ensures Stalled(Run(cfg, later), Watermark(0, []), [])
  {
    BurstCompletes();
    FirstWindowStalls(cfg, later, r);
  }

  lemma {:induction false} StaysStalled(cfg: Config, before: seq<Input>, later: seq<Input>, mark: Watermark)
    requires Stuck(Run(cfg, before).store, mark) && forall k :: 0 <= k < |later| ==> TooWide(later[k])
    ensures Stalled(Run(cfg, before + later), mark, Run(cfg, before).sent)
  {
    if later == [] {
      assert before + later == before;
    } else {
      var front, last := later[..|later| - 1], later[|later| - 1];
      StaysStalled(cfg, before, front, mark);
      StalledStep(cfg, Run(cfg, before + front), last, mark, Run(cfg, before).sent);
      RunOneMore(cfg, before, later);
    }
  }

  lemma RunOneMore(cfg: Config, before: seq<Input>, later: seq<Input>)
    requires later != []
    ensures Run(cfg, before + later) == Step(cfg, Run(cfg, before + later[..|later| - 1]), later[|later| - 1])
  {
    var all := before + later;
    LastOf(before, later);
    RunLast(cfg, all);
  }

  lemma RunLast(cfg: Config, all: seq<Input>)
    requires all != []
    ensures Run(cfg, all) == Step(cfg, Run(cfg, all[..|all| - 1]), all[|all| - 1])
  {}

  lemma LastOf<T>(a: seq<T>, b: seq<T>)
    requires b != []
    ensures (a + b)[..|a + b| - 1] == a + b[..|b| - 1] && (a + b)[|a + b| - 1] == b[|b| - 1]
  {}

  // ---- nothing is lost between the daemon and the server ----

  /** The run's complete batches all come from windows whose response contains the event when it covers its time. */
  ghost predicate Observes(env: Env, e: RawEvent, b: Batch)
    requires NormalizeNano(e).Some?
  {
    exists r :: Carries(b, r) && r.w.env == env && Sees(r, e)
  }

  ghost predicate Faithful(env: Env, e: RawEvent, inputs: seq<Input>)
    requires NormalizeNano(e).Some?
  {
    forall k :: 0 <= k < |inputs| && inputs[k].Pushing? && inputs[k].collected.Some? && IsComplete(inputs[k].collected.value) ==>
      Observes(env, e, inputs[k].collected.value)
  }

  ghost predicate PayloadFrom(env: Env, e: RawEvent, p: Pending)
    requires NormalizeNano(e).Some?
  {
    Observes(env, e, p.payload) && p.payload.from == Some(p.from) && p.payload.proposed == Some(p.proposed)
  }

  ghost predicate AllFrom(env: Env, e: RawEvent, w: World)
    requires NormalizeNano(e).Some?
  {
    && (w.store.mem.pending.Some? ==> PayloadFrom(env, e, w.store.mem.pending.value))
    && (w.store.disk.pending.Some? ==> PayloadFrom(env, e, w.store.disk.pending.value))
    && forall p :: p in w.commits ==> PayloadFrom(env, e, p)
  }

  lemma Rebind(env: Env, e: RawEvent, b: Batch, n: nat)
    requires NormalizeNano(e).Some? && Observes(env, e, b)
    ensures Observes(env, e, b.(sequence := n))
  {
    var r :| Carries(b, r) && r.w.env == env && Sees(r, e);
    assert Carries(b.(sequence := n), r);
  }

  lemma AcknowledgeFrom(cfg: Config, env: Env, e: RawEvent, w: World, p: Pending, answer: Answer, write: Write)
    requires NormalizeNano(e).Some? && AllFrom(env, e, w) && PayloadFrom(env, e, p)
    requires w.store.mem.pending == Some(p)
    ensures AllFrom(env, e, Acknowledge(cfg, w, p, answer, write))
  {
    var v := Acknowledge(cfg, w, p, answer, write);
    assert v.commits == w.commits || v.commits == w.commits + [p];
  }

  lemma CompleteFrom(cfg: Config, env: Env, e: RawEvent, w: World, b: Batch, io: Io)
    requires NormalizeNano(e).Some? && AllFrom(env, e, w) && Observes(env, e, b) && w.store.mem.pending.None?
    ensures AllFrom(env, e, PushComplete(cfg, w, b, io))
  {
    var bound := b.(sequence := w.store.mem.sequence);
    Rebind(env, e, b, w.store.mem.sequence);
    var d := DerivePending(cfg, bound);
    if d.Some? {
      assert PayloadFrom(env, e, d.value);
      var v := w.(store := Persist(cfg, w.store, d.value, io.write));
      assert AllFrom(env, e, v);
      if PersistOk(cfg, w.store.mem, d.value, io.write) {
        AcknowledgeFrom(cfg, env, e, Transmit(v, Branch(bound, false), io.answer), d.value, io.answer, io.commit);
      }
    }
  }

  lemma ReplayFrom(cfg: Config, env: Env, e: RawEvent, w: World, io: Io)
    requires NormalizeNano(e).Some? && AllFrom(env, e, w) && w.store.mem.pending.Some?
    ensures AllFrom(env, e, Replay(cfg, w, w.store.mem.pending.value, io))
  {
    var p := w.store.mem.pending.value;
    var b := ReconstructPending(cfg, p);
    if b.Some? {
      AcknowledgeFrom(cfg, env, e, Transmit(w, Branch(b.value, true), io.answer), p, io.answer, io.commit);
    }
  }

  lemma MinimalFrom(env: Env, e: RawEvent, w: World, b: Batch, io: Io)
    requires NormalizeNano(e).Some? && AllFrom(env, e, w)
    ensures AllFrom(env, e, PushMinimal(w, b, io))
  {}

  lemma StepFrom(cfg: Config, env: Env, e: RawEvent, w: World, i: Input)
    requires NormalizeNano(e).Some? && AllFrom(env, e, w)
    requires i.Pushing? && i.collected.Some? && IsComplete(i.collected.value) ==> Observes(env, e, i.collected.value)
    ensures AllFrom(env, e, Step(cfg, w, i))
  {
    match i
    case Restart =>
    case Pushing(b, io) =>
      if w.store.mem.pending.Some? { ReplayFrom(cfg, env, e, w, io); }
      else if b.None? { assert AllFrom(env, e, Transmit(w, HostOnly, io.answer)); }
      else if !IsComplete(b.value) { MinimalFrom(env, e, w, b.value, io); }
      else { CompleteFrom(cfg, env, e, w, b.value, io); }
  }

  lemma {:induction false} RunFrom(cfg: Config, env: Env, e: RawEvent, inputs: seq<Input>)
    requires NormalizeNano(e).Some? && Faithful(env, e, inputs)
    ensures AllFrom(env, e, Run(cfg, inputs))
  {
    if inputs != [] {
      RunFrom(cfg, env, e, inputs[..|inputs| - 1]);
      StepFrom(cfg, env, e, Run(cfg, inputs[..|inputs| - 1]), inputs[|inputs| - 1]);
    }
  }

  /** The first commit whose proposal reaches a time starts before it, unless it is the very first. */
  lemma {:induction false} FirstReaching(c: seq<Pending>, sent: seq<Push>, t: nat) returns (k: nat)
    requires forall i :: 0 <= i < |c| ==> Link(c, i, sent)
    requires 0 < t <= EndOf(c, |c|).time
    ensures k < |c| && c[k].from.time < t <= c[k].proposed.time
  {
    k := |c| - 1;
    while t <= c[k].from.time
      invariant k < |c| && t <= EndOf(c, k + 1).time
      decreases k
    {
      assert Link(c, k, sent);
      k := k - 1;
    }
  }

  /**
   * Over any run, with crashes anywhere and writes that take effect yet report
   * failure: once the durable watermark has reached a deliverable event's time,
   * some transmitted batch contains the event or a gap event covering its time.
   */
  lemma NothingLostEndToEnd(cfg: Config, env: Env, e: RawEvent, inputs: seq<Input>)
    requires Deliverable(env, e) && Faithful(env, e, inputs)
    requires NormalizeNano(e).value.0 <= Run(cfg, inputs).store.disk.watermark.time
    ensures exists i :: 0 <= i < |Run(cfg, inputs).sent| && Run(cfg, inputs).sent[i].Branch?
                        && Run(cfg, inputs).sent[i].batch.events.Some?
                        && Accounted(Run(cfg, inputs).sent[i].batch.events.value, Delivered(env, e))
  {
    var w := Run(cfg, inputs);
    RunKeeps(cfg, inputs);
    RunFrom(cfg, env, e, inputs);
    var k := FirstReaching(w.commits, w.sent, NormalizeNano(e).value.0);
    var p := w.commits[k];
    assert Link(w.commits, k, w.sent) && p in w.commits;
    var r :| Carries(p.payload, r) && r.w.env == env && Sees(r, e);
    RoundAccounts(r, e);
    var i :| 0 <= i < |w.sent| && w.sent[i].Branch? && w.sent[i].batch == p.payload;
    assert Accounted(w.sent[i].batch.events.value, Delivered(env, e));
  }
}
