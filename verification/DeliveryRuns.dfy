/** What durable delivery keeps over every run of cycles, crashes and misreported writes. */
module DeliveryRuns {
  import opened EventTypes
  import opened Options
  import opened Lex
  import opened Delivery

  /**
   * One step of a run. A crash between two actions of a cycle is a cycle whose
   * remaining actions had no effect, followed by a restart, since memory is lost.
   */
  datatype Input = Pushing(collected: Option<Batch>, io: Io) | Restart

  ghost function Step(cfg: Config, w: World, i: Input): World {
    match i
    case Pushing(b, io) => Cycle(cfg, w, b, io)
    case Restart =>
      if Loadable(cfg, w.store.disk) then w.(store := Stored(w.store.disk, w.store.disk)) else w
  }

  ghost function Start(): World { World(Stored(Initial(), Initial()), [], []) }

  ghost function Run(cfg: Config, inputs: seq<Input>): World {
    if inputs == [] then Start() else Step(cfg, Run(cfg, inputs[..|inputs| - 1]), inputs[|inputs| - 1])
  }

  // ---- the invariant ----

  /** A well-formed record: loadable, with a pending batch that reconstructs to a bound, older payload. */
  predicate GoodRecord(cfg: Config, r: Record) {
    && r.sequence > 0 && Loadable(cfg, r)
    && (r.pending.Some? ==>
          && var p := r.pending.value;
             ReconstructPending(cfg, p) == Some(p.payload) && p.payload.sequence == p.sequence < r.sequence)
  }

  /** The disk is level with memory, or one misreported write ahead of it. */
  predicate Ahead(mem: Record, disk: Record) {
    || disk == mem
    || (mem.pending.Some? && disk == Record(mem.pending.value.proposed, None, mem.sequence + 1))
    || (&& mem.pending.None? && disk.watermark == mem.watermark && disk.sequence == mem.sequence + 1
        && (disk.pending.Some? ==> disk.pending.value.sequence == mem.sequence))
  }

  /** Every pushed branch lies below the counter; while a batch is pending only it reaches its own sequence. */
  predicate BelowCounter(r: Record, sent: seq<Push>) {
    forall i :: 0 <= i < |sent| && sent[i].Branch? ==>
      && sent[i].batch.sequence < r.sequence
      && (r.pending.Some? ==>
            || sent[i].batch.sequence < r.pending.value.sequence
            || sent[i].batch == r.pending.value.payload)
  }

  /** A later push is strictly above an earlier one unless it replays exactly the same branch. */
  predicate Above(a: Push, b: Push) {
    a.Branch? && b.Branch? ==>
      a.batch.sequence < b.batch.sequence || (b.replay && a.batch == b.batch)
  }

  predicate Orderly(sent: seq<Push>) {
    forall i, j :: 0 <= i < j < |sent| ==> Above(sent[i], sent[j])
  }

  predicate Carried(sent: seq<Push>, p: Pending) {
    exists i :: 0 <= i < |sent| && sent[i].Branch? && sent[i].batch == p.payload
  }

  /** The watermark after the first `k` commits. */
  function EndOf(c: seq<Pending>, k: nat): Watermark
    requires k <= |c|
  {
    if k == 0 then Initial().watermark else c[k - 1].proposed
  }

  /** The k-th committed batch was transmitted and moves on from where the one before it ended. */
  predicate Link(c: seq<Pending>, k: nat, sent: seq<Push>)
    requires k < |c|
  {
    Carried(sent, c[k]) && c[k].from == EndOf(c, k) && Forward(c[k].from, c[k].proposed)
  }

  /** Committed batches form an unbroken chain up to the disk's watermark. */
  predicate Linked(w: World) {
    && (forall k :: 0 <= k < |w.commits| ==> Link(w.commits, k, w.sent))
    && w.store.disk.watermark == EndOf(w.commits, |w.commits|)
  }

  predicate StoreInv(cfg: Config, s: Stored) {
    GoodRecord(cfg, s.mem) && GoodRecord(cfg, s.disk) && Ahead(s.mem, s.disk)
  }

  predicate SentInv(s: Stored, sent: seq<Push>) {
    BelowCounter(s.mem, sent) && BelowCounter(s.disk, sent) && Orderly(sent)
  }

  predicate Inv(cfg: Config, w: World) {
    StoreInv(cfg, w.store) && SentInv(w.store, w.sent) && Linked(w)
  }

  // ---- preservation, one branch of the cycle at a time ----

  lemma DerivedReconstructs(cfg: Config, b: Batch)
    requires IsComplete(b) && Derivable(cfg, b)
    requires ValidPending(cfg, DerivePending(cfg, b).value)
    ensures ReconstructPending(cfg, DerivePending(cfg, b).value) == Some(b)
  {}

  /** A branch may be pushed when it is below the counters and above everything pushed before. */
  predicate Pushable(s: Stored, sent: seq<Push>, push: Push) {
    && (push.Branch? ==>
          && push.batch.sequence < s.mem.sequence && push.batch.sequence < s.disk.sequence
          && (s.mem.pending.Some? ==> push.batch == s.mem.pending.value.payload)
          && (s.disk.pending.Some? ==> push.batch == s.disk.pending.value.payload))
    && forall i :: 0 <= i < |sent| ==> Above(sent[i], push)
  }

  lemma TransmitSent(s: Stored, sent: seq<Push>, push: Push)
    requires SentInv(s, sent) && Pushable(s, sent, push)
    ensures SentInv(s, sent + [push])
  {
    var t := sent + [push];
    forall i, j | 0 <= i < j < |t| ensures Above(t[i], t[j]) {
      assert t[i] == sent[i];
      if j < |sent| { assert t[j] == sent[j]; }
    }
  }

  lemma CarriedStays(sent: seq<Push>, push: Push, p: Pending)
    requires Carried(sent, p)
    ensures Carried(sent + [push], p)
  {
    var i :| 0 <= i < |sent| && sent[i].Branch? && sent[i].batch == p.payload;
    assert (sent + [push])[i] == sent[i];
  }

  lemma TransmitKeeps(cfg: Config, w: World, push: Push, answer: Answer)
    requires Inv(cfg, w) && Pushable(w.store, w.sent, push)
    ensures Inv(cfg, Transmit(w, push, answer))
  {
    if !answer.Unsent? {
      TransmitSent(w.store, w.sent, push);
      forall k | 0 <= k < |w.commits| ensures Link(w.commits, k, w.sent + [push]) {
        assert Link(w.commits, k, w.sent);
        CarriedStays(w.sent, push, w.commits[k]);
      }
    }
  }

  lemma TransmitCarries(w: World, p: Pending, replay: bool, answer: Answer)
    requires answer.Answered?
    ensures Carried(Transmit(w, Branch(p.payload, replay), answer).sent, p)
  {
    assert Transmit(w, Branch(p.payload, replay), answer).sent[|w.sent|] == Branch(p.payload, replay);
  }

  lemma LinkOne(c: seq<Pending>, p: Pending, sent: seq<Push>)
    requires forall k :: 0 <= k < |c| ==> Link(c, k, sent)
    requires Carried(sent, p) && p.from == EndOf(c, |c|) && Forward(p.from, p.proposed)
    ensures forall k :: 0 <= k < |c + [p]| ==> Link(c + [p], k, sent)
  {
    forall k | 0 <= k < |c + [p]| ensures Link(c + [p], k, sent) {
      if k < |c| { assert Link(c, k, sent); }
    }
  }

  /** Two level records that both satisfy the invariant. */
  lemma LevelKeeps(cfg: Config, w: World, mem: Record, disk: Record)
    requires Inv(cfg, w)
    requires GoodRecord(cfg, mem) && GoodRecord(cfg, disk) && Ahead(mem, disk)
    requires disk.watermark == w.store.disk.watermark
    requires BelowCounter(mem, w.sent) && BelowCounter(disk, w.sent)
    ensures Inv(cfg, w.(store := Stored(mem, disk)))
  {}

  /** With nothing pending, all pushes lie strictly below the counter in memory. */
  lemma RaisedCounter(sent: seq<Push>, mem: Record, next: Record)
    requires BelowCounter(mem, sent) && mem.sequence < next.sequence
    requires next.pending.None? || next.pending.value.sequence == mem.sequence
    ensures BelowCounter(next, sent)
  {}

  lemma CommittedIsGood(cfg: Config, mem: Record)
    requires GoodRecord(cfg, mem) && mem.pending.Some?
    ensures GoodRecord(cfg, Record(mem.pending.value.proposed, None, mem.sequence + 1))
    ensures mem.pending.value.proposed != mem.watermark
  {}

  lemma AcknowledgeKeeps(cfg: Config, w: World, p: Pending, answer: Answer, write: Write)
    requires Inv(cfg, w) && w.store.mem.pending == Some(p)
    requires answer.Answered? ==> Carried(w.sent, p)
    ensures Inv(cfg, Acknowledge(cfg, w, p, answer, write))
  {
    var mem := w.store.mem;
    var next := Record(p.proposed, None, mem.sequence + 1);
    CommittedIsGood(cfg, mem);
    if Confirms(cfg, p, answer) && !write.Refused? {
      var v := Acknowledge(cfg, w, p, answer, write);
      assert v.store == Stored(if write.Clean? then next else mem, next);
      RaisedCounter(w.sent, mem, next);
      if w.store.disk == next {
        assert v.commits == w.commits;
      } else {
        assert v.commits == w.commits + [p];
        LinkOne(w.commits, p, w.sent);
      }
    }
  }

  lemma ReplayKeeps(cfg: Config, w: World, io: Io)
    requires Inv(cfg, w) && w.store.mem.pending.Some?
    ensures Inv(cfg, Replay(cfg, w, w.store.mem.pending.value, io))
  {
    var p := w.store.mem.pending.value;
    var push := Branch(p.payload, true);
    assert Pushable(w.store, w.sent, push);
    TransmitKeeps(cfg, w, push, io.answer);
    if io.answer.Answered? { TransmitCarries(w, p, true, io.answer); }
    AcknowledgeKeeps(cfg, Transmit(w, push, io.answer), p, io.answer, io.commit);
  }

  lemma MinimalKeeps(cfg: Config, w: World, b: Batch, io: Io)
    requires Inv(cfg, w) && w.store.mem.pending.None?
    ensures Inv(cfg, PushMinimal(w, b, io))
  {
    var mem := w.store.mem;
    var next := mem.(sequence := mem.sequence + 1);
    RaisedCounter(w.sent, mem, next);
    if io.write.Clean? {
      LevelKeeps(cfg, w, next, next);
      var v := w.(store := Stored(next, next));
      TransmitKeeps(cfg, v, Branch(b.(sequence := mem.sequence), false), io.answer);
    } else if io.write.Silent? {
      LevelKeeps(cfg, w, mem, next);
    }
  }

  lemma PersistedIsGood(cfg: Config, mem: Record, bound: Batch)
    requires GoodRecord(cfg, mem) && IsComplete(bound) && bound.sequence == mem.sequence && Derivable(cfg, bound)
    requires AcceptsPending(cfg, mem, DerivePending(cfg, bound).value)
    ensures GoodRecord(cfg, Record(mem.watermark, DerivePending(cfg, bound), mem.sequence + 1))
  {
    DerivedReconstructs(cfg, bound);
  }

  lemma CompleteKeeps(cfg: Config, w: World, b: Batch, io: Io)
    requires Inv(cfg, w) && w.store.mem.pending.None? && IsComplete(b)
    ensures Inv(cfg, PushComplete(cfg, w, b, io))
  {
    var mem := w.store.mem;
    var bound := b.(sequence := mem.sequence);
    var d := DerivePending(cfg, bound);
    if d.None? {
      TransmitKeeps(cfg, w, HostOnly, io.answer);
    } else if AcceptsPending(cfg, mem, d.value) && !io.write.Refused? {
      var next := Record(mem.watermark, d, mem.sequence + 1);
      PersistedIsGood(cfg, mem, bound);
      RaisedCounter(w.sent, mem, next);
      if io.write.Silent? {
        LevelKeeps(cfg, w, mem, next);
      } else {
        LevelKeeps(cfg, w, next, next);
        var v, push := w.(store := Stored(next, next)), Branch(bound, false);
        TransmitKeeps(cfg, v, push, io.answer);
        if io.answer.Answered? { TransmitCarries(v, d.value, false, io.answer); }
        AcknowledgeKeeps(cfg, Transmit(v, push, io.answer), d.value, io.answer, io.commit);
      }
    }
  }

  /** What was pushed is below the record a restart finds, whichever of the two it is. */
  lemma RestartKeeps(cfg: Config, w: World)
    requires Inv(cfg, w)
    ensures Loadable(cfg, w.store.disk) && Inv(cfg, Step(cfg, w, Input.Restart))
  {
    LevelKeeps(cfg, w, w.store.disk, w.store.disk);
  }

  lemma StepKeeps(cfg: Config, w: World, i: Input)
    requires Inv(cfg, w)
    ensures Inv(cfg, Step(cfg, w, i))
  {
    if i.Pushing? {
      if w.store.mem.pending.Some? { ReplayKeeps(cfg, w, i.io); }
      else if i.collected.None? { TransmitKeeps(cfg, w, HostOnly, i.io.answer); }
      else if !IsComplete(i.collected.value) { MinimalKeeps(cfg, w, i.collected.value, i.io); }
      else { CompleteKeeps(cfg, w, i.collected.value, i.io); }
    } else {
      RestartKeeps(cfg, w);
    }
  }

  lemma {:induction false} RunKeeps(cfg: Config, inputs: seq<Input>)
    ensures Inv(cfg, Run(cfg, inputs))
  {
    if inputs != [] {
      RunKeeps(cfg, inputs[..|inputs| - 1]);
      StepKeeps(cfg, Run(cfg, inputs[..|inputs| - 1]), inputs[|inputs| - 1]);
    }
  }

  // ---- what every run guarantees ----

  /** Every fresh snapshot is strictly above all earlier ones; only replays of one exact branch repeat a value. */
  lemma SequencesNeverReissued(cfg: Config, inputs: seq<Input>, i: nat, j: nat)
    requires i < j < |Run(cfg, inputs).sent|
    requires Run(cfg, inputs).sent[i].Branch? && Run(cfg, inputs).sent[j].Branch?
    ensures var a, b := Run(cfg, inputs).sent[i], Run(cfg, inputs).sent[j];
            && a.batch.sequence <= b.batch.sequence
            && (!b.replay ==> a.batch.sequence < b.batch.sequence)
            && (a.batch.sequence == b.batch.sequence ==> b.replay && a.batch == b.batch)
  {
    RunKeeps(cfg, inputs);
    assert Above(Run(cfg, inputs).sent[i], Run(cfg, inputs).sent[j]);
  }

  /** In memory and on disk a pending batch starts at the committed watermark, moves forward and can be replayed. */
  lemma PendingStartsAtWatermark(cfg: Config, inputs: seq<Input>)
    ensures var s := Run(cfg, inputs).store;
            && Loadable(cfg, s.disk)
            && (s.mem.pending.Some? ==>
                  && s.mem.pending.value.from == s.mem.watermark
                  && Forward(s.mem.watermark, s.mem.pending.value.proposed)
                  && ReconstructPending(cfg, s.mem.pending.value) == Some(s.mem.pending.value.payload))
            && (s.disk.pending.Some? ==>
                  && s.disk.pending.value.from == s.disk.watermark
                  && Forward(s.disk.watermark, s.disk.pending.value.proposed))
            && s.mem.watermark.time <= s.disk.watermark.time
  {
    RunKeeps(cfg, inputs);
  }

  /** Commits chain from the initial watermark to the one on disk, each step forward, all of them transmitted. */
  lemma CommitsChain(cfg: Config, inputs: seq<Input>, k: nat)
    requires k < |Run(cfg, inputs).commits|
    ensures var w := Run(cfg, inputs);
            && w.commits[k].from == EndOf(w.commits, k)
            && Forward(w.commits[k].from, w.commits[k].proposed)
            && Carried(w.sent, w.commits[k])
            && w.store.disk.watermark == EndOf(w.commits, |w.commits|)
  {
    RunKeeps(cfg, inputs);
    assert Link(Run(cfg, inputs).commits, k, Run(cfg, inputs).sent);
  }

  lemma {:induction false} EndsMonotone(c: seq<Pending>, sent: seq<Push>, i: nat, j: nat)
    requires i <= j <= |c| && forall k :: 0 <= k < |c| ==> Link(c, k, sent)
    ensures EndOf(c, i).time <= EndOf(c, j).time
  {
    if i < j {
      EndsMonotone(c, sent, i, j - 1);
      assert Link(c, j - 1, sent);
    }
  }

  lemma StepGrows(cfg: Config, w: World, i: Input)
    ensures w.commits <= Step(cfg, w, i).commits
  {}

  lemma {:induction false} CommitsGrow(cfg: Config, inputs: seq<Input>, k: nat)
    requires k <= |inputs|
    ensures Run(cfg, inputs[..k]).commits <= Run(cfg, inputs).commits
  {
    if k == |inputs| {
      assert inputs[..k] == inputs;
    } else {
      var front := inputs[..|inputs| - 1];
      CommitsGrow(cfg, front, k);
      StepGrows(cfg, Run(cfg, front), inputs[|inputs| - 1]);
      assert front[..k] == inputs[..k];
    }
  }

  /** The durable watermark never moves back in time, whatever crashes and misreported writes a run contains. */
  lemma WatermarkNeverMovesBack(cfg: Config, inputs: seq<Input>, k: nat)
    requires k <= |inputs|
    ensures Run(cfg, inputs[..k]).store.disk.watermark.time <= Run(cfg, inputs).store.disk.watermark.time
  {
    var early, late := Run(cfg, inputs[..k]), Run(cfg, inputs);
    RunKeeps(cfg, inputs[..k]);
    RunKeeps(cfg, inputs);
    CommitsGrow(cfg, inputs, k);
    var n := |early.commits|;
    EndsMonotone(late.commits, late.sent, n, |late.commits|);
    assert EndOf(early.commits, n) == EndOf(late.commits, n);
  }

  /**
   * The server's answer is right for a batch: any of the three successful statuses, for the
   * configured VPS if there is one, with the batch's ids, its agent and its proposal.
   */
  predicate RightAnswer(vps: string, p: Pending, answer: Answer) {
    && answer.Answered? && answer.ack.Some?
    && var ack := answer.ack.value;
       && (ack.status == Committed || ack.status == AlreadyCommitted || ack.status == ReplayIgnored)
       && (vps == "" || answer.vps == vps)
       && ack.batchId == p.batchId && ack.snapshotId == p.snapshotId && ack.agent == p.agent
       && ack.committed.time == p.proposed.time && ack.committed.digests == p.proposed.digests
  }

  /**
   * The acknowledgement decides: the pending batch is replayed, and with a clean commit it
   * leaves memory exactly when the answer is right for it, moving memory and disk to its
   * proposal; an answer that is wrong in any one respect changes neither memory nor disk.
   */
  lemma AcknowledgementDecides(cfg: Config, w: World, collected: Option<Batch>, io: Io)
    requires Inv(cfg, w) && w.store.mem.pending.Some?
    ensures var p := w.store.mem.pending.value;
            var v := Step(cfg, w, Pushing(collected, io));
            && (!RightAnswer(cfg.vps, p, io.answer) ==> v.store == w.store && v.commits == w.commits)
            && (RightAnswer(cfg.vps, p, io.answer) && io.commit.Clean? ==>
                  v.store.mem == v.store.disk == Record(p.proposed, None, w.store.mem.sequence + 1))
            && (!io.commit.Clean? ==> v.store.mem == w.store.mem)
            && v.sent == if io.answer.Unsent? then w.sent else w.sent + [Branch(p.payload, true)]
  {}

  /** Whichever way the server says it has the batch, the batch is done with: no cycle after this one replays it. */
  lemma EveryStatusCommits(cfg: Config, w: World, collected: Option<Batch>, write: Write, vps: string, status: Status)
    requires Inv(cfg, w) && w.store.mem.pending.Some? && (cfg.vps == "" || vps == cfg.vps)
    requires status == Committed || status == AlreadyCommitted || status == ReplayIgnored
    ensures var p := w.store.mem.pending.value;
            var ack := Ack(status, p.batchId, p.snapshotId, p.agent, p.proposed);
            var v := Step(cfg, w, Pushing(collected, Io(write, Answered(vps, Some(ack)), Clean)));
            v.store.mem.pending.None? && v.store.disk.pending.None? && v.store.disk.watermark == v.store.mem.watermark == p.proposed
  {
    var p := w.store.mem.pending.value;
    AcknowledgementDecides(cfg, w, collected,
                           Io(write, Answered(vps, Some(Ack(status, p.batchId, p.snapshotId, p.agent, p.proposed))), Clean));
  }

  // ---- what makes a fresh batch durable ----

  predicate Fits64(n: nat) { n <= 9223372036854775807 }

  /** A watermark the store keeps: at most 256 digests of at most 128 characters, sorted and once each. */
  predicate Keepable(mark: Watermark) {
    && |mark.digests| <= 256 && (forall i :: 0 <= i < |mark.digests| ==> 0 < |mark.digests[i]| <= 128)
    && forall i, j :: 0 <= i < j < |mark.digests| ==> Less(mark.digests[i], mark.digests[j])
  }

  lemma {:induction false} NeighboursSuffice(s: seq<string>, i: nat, j: nat)
    requires NeighboursAscend(s) && i < j < |s|
    ensures Less(s[i], s[j])
  {
    if i + 1 < j {
      NeighboursSuffice(s, i, j - 1);
      LessTransitive(s[i], s[j - 1], s[j]);
    }
  }

  lemma ValidIsKeepable(mark: Watermark)
    ensures ValidWatermark(mark) <==> Keepable(mark)
  {
    if NeighboursAscend(mark.digests) {
      forall i, j | 0 <= i < j < |mark.digests| ensures Less(mark.digests[i], mark.digests[j]) {
        NeighboursSuffice(mark.digests, i, j);
      }
    }
  }

  /** A complete batch of this agent, current schema and bounded size. */
  predicate WellFormed(cfg: Config, b: Batch)
    requires IsComplete(b)
  {
    && b.schema == 2 && |b.agent| > 0 && b.agent == cfg.agent
    && 0 < cfg.codec.size(b) <= 131072
    && Fits64(b.from.value.time) && Fits64(b.proposed.value.time) && Fits64(b.until.value)
  }

  /** It can be kept as the one pending batch after the committed watermark. */
  predicate Continues(cfg: Config, mark: Watermark, b: Batch)
    requires IsComplete(b)
  {
    && |b.batchId| <= 64 && 0 < |b.snapshotId| <= 64
    && 0 < |cfg.codec.eventsDigest(b.events.value)| <= 128 && 0 < |cfg.codec.payloadDigest(b)| <= 128
    && Keepable(b.from.value) && Keepable(b.proposed.value)
    && b.from.value == mark && mark.time <= b.until.value
    && mark.time <= b.proposed.value.time <= b.until.value && b.proposed.value != mark
  }

  lemma AcceptedMeans(cfg: Config, mem: Record, b: Batch)
    requires mem.pending.None? && mem.sequence > 0 && IsComplete(b) && b.sequence == mem.sequence
    ensures Derivable(cfg, b) <==> WellFormed(cfg, b)
    ensures Derivable(cfg, b) ==> (AcceptsPending(cfg, mem, DerivePending(cfg, b).value) <==> Continues(cfg, mem.watermark, b))
  {
    ValidIsKeepable(b.from.value);
    ValidIsKeepable(b.proposed.value);
  }

  /**
   * A fresh complete batch, bound to the durable sequence, reaches the network exactly when
   * it was made durable first: well formed, continuing the committed watermark, cleanly
   * written. A right answer then moves memory and disk to its proposal; without one it stays
   * pending on both. A batch that is not well formed lets host metrics through alone.
   */
  lemma PersistBeforePush(cfg: Config, w: World, b: Batch, io: Io)
    requires Inv(cfg, w) && w.store.mem.pending.None? && IsComplete(b) && !io.answer.Unsent?
    ensures var bound := b.(sequence := w.store.mem.sequence);
            var v := Step(cfg, w, Pushing(Some(b), io));
            var durable := WellFormed(cfg, bound) && Continues(cfg, w.store.mem.watermark, bound) && io.write.Clean?;
            && v.sent == (if !WellFormed(cfg, bound) then w.sent + [HostOnly]
                          else if durable then w.sent + [Branch(bound, false)]
                          else w.sent)
            && (durable ==> DerivePending(cfg, bound).Some?)
            && (durable && !RightAnswer(cfg.vps, DerivePending(cfg, bound).value, io.answer) ==>
                  v.store.mem == v.store.disk == Record(w.store.mem.watermark, DerivePending(cfg, bound), w.store.mem.sequence + 1))
            && (durable && RightAnswer(cfg.vps, DerivePending(cfg, bound).value, io.answer) && io.commit.Clean? ==>
                  v.store.mem == v.store.disk == Record(b.proposed.value, None, w.store.mem.sequence + 2))
            && (!durable ==> v.store.mem == w.store.mem)
  {
    AcceptedMeans(cfg, w.store.mem, b.(sequence := w.store.mem.sequence));
  }

  /**
   * While a batch is pending nothing is written: persisting that very batch again is reported
   * as done, whatever sequence it names, and any other one is refused.
   */
  lemma RepeatedPersist(cfg: Config, s: Stored, p: Pending, write: Write)
    requires s.mem.pending.Some?
    ensures Persist(cfg, s, p, write) == s
    ensures var q := s.mem.pending.value;
            PersistOk(cfg, s.mem, p, write) <==>
              && ValidPending(cfg, p)
              && p.batchId == q.batchId && p.snapshotId == q.snapshotId && p.agent == q.agent
              && p.from == q.from && p.proposed == q.proposed && p.until == q.until
              && p.eventsDigest == q.eventsDigest && p.payload == q.payload && p.payloadDigest == q.payloadDigest
  {}

  /** A snapshot without events goes out under a sequence the disk is already past, or not at all. */
  lemma MinimalReservesFirst(cfg: Config, w: World, b: Batch, io: Io)
    requires w.store.mem.pending.None? && !IsComplete(b)
    ensures var v := Step(cfg, w, Pushing(Some(b), io));
            && v.sent == (if io.write.Clean? && !io.answer.Unsent?
                          then w.sent + [Branch(b.(sequence := w.store.mem.sequence), false)] else w.sent)
            && (io.write.Clean? ==> v.store.mem == v.store.disk == w.store.mem.(sequence := w.store.mem.sequence + 1))
            && (!io.write.Clean? ==> v.store.mem == w.store.mem)
            && v.commits == w.commits
  {}
}
