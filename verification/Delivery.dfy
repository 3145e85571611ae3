/**
 * The agent's durable delivery state and the runner's push cycle.
 *
 * Memory and disk are separate records. A write either completes, fails without
 * effect, or takes effect and still reports an error (the directory sync after
 * the rename can fail). Each method is proved equal to a step of a pure state
 * machine, whose runs are the subject of DeliveryRuns.
 */
module Delivery {
  import opened Lex
  import opened EventTypes
  import opened Options
  import opened EventWindow

  const SCHEMA_VERSION: nat := 2
  const MAX_DIGEST_LEN: nat := 128
  const MAX_OPAQUE_ID_LEN: nat := 64
  const MAX_PAYLOAD_BYTES: nat := 131072
  const MAX_INT64: nat := 0x7FFF_FFFF_FFFF_FFFF

  /** The Docker branch of one collected snapshot; a minimal one carries no event protocol fields. */
  datatype Batch = Batch(schema: nat, batchId: string, snapshotId: string, agent: string, sequence: nat,
                         from: Option<Watermark>, proposed: Option<Watermark>, until: Option<nat>,
                         events: Option<seq<Outgoing>>)

  /** The one durable pending batch; the payload stands for its exact canonical JSON. */
  datatype Pending = Pending(batchId: string, snapshotId: string, sequence: nat, agent: string,
                             from: Watermark, proposed: Watermark, eventsDigest: string, until: nat,
                             payload: Batch, payloadDigest: string)

  datatype Record = Record(watermark: Watermark, pending: Option<Pending>, sequence: nat)

  datatype Stored = Stored(mem: Record, disk: Record)

  /** Foreign computations: encoded size and the two hashes. */
  datatype Codec = Codec(size: Batch -> nat, eventsDigest: seq<Outgoing> -> string, payloadDigest: Batch -> string)

  /** The runner's fixed configuration: its instance id and the VPS it reports for, if configured. */
  datatype Config = Config(agent: string, vps: string, codec: Codec)

  datatype Write = Clean | Refused | Silent

  datatype Status = Committed | AlreadyCommitted | ReplayIgnored | OtherStatus(name: string)

  datatype Ack = Ack(status: Status, batchId: string, snapshotId: string, agent: string, committed: Watermark)

  /** What one push comes to: nothing left the process, no answer, or the server's answer. */
  datatype Answer = Unsent | Failed | Answered(vps: string, ack: Option<Ack>)

  /** What the network carried: host metrics alone, or with a Docker branch, fresh or replayed. */
  datatype Push = HostOnly | Branch(batch: Batch, replay: bool)

  // ---- validation ----

  predicate ValidDigest(d: string) { 0 < |d| <= MAX_DIGEST_LEN }

  /** Sorted and unique by comparing neighbours, as the agent checks it. */
  predicate NeighboursAscend(s: seq<string>) {
    forall i :: 0 < i < |s| ==> Less(s[i - 1], s[i])
  }

  predicate ValidWatermark(w: Watermark) {
    && |w.digests| <= MAX_BOUNDARY_DIGESTS
    && (forall i :: 0 <= i < |w.digests| ==> ValidDigest(w.digests[i]))
    && NeighboursAscend(w.digests)
  }

  predicate ValidOpaqueId(id: string) { 0 < |id| <= MAX_OPAQUE_ID_LEN }

  predicate ValidPayload(codec: Codec, payload: Batch, digest: string) {
    && 0 < codec.size(payload) <= MAX_PAYLOAD_BYTES
    && ValidDigest(digest) && digest == codec.payloadDigest(payload)
  }

  predicate ValidPending(cfg: Config, p: Pending) {
    && ValidOpaqueId(p.batchId) && ValidOpaqueId(p.snapshotId)
    && |p.agent| > 0 && p.agent == cfg.agent
    && ValidWatermark(p.from) && ValidWatermark(p.proposed)
    && ValidDigest(p.eventsDigest)
    && p.proposed.time <= p.until && p.from.time <= p.until
    && ValidPayload(cfg.codec, p.payload, p.payloadDigest)
  }

  /** Strict progress: a later time, or the same time with another digest list. */
  predicate Forward(from: Watermark, proposed: Watermark) {
    proposed.time > from.time || (proposed.time == from.time && from != proposed)
  }

  /** The stored sequence is not compared; the payload carries it. */
  predicate PendingEqual(a: Pending, b: Pending) {
    a == b.(sequence := a.sequence)
  }

  /** What loading a record from disk checks. */
  predicate Loadable(cfg: Config, r: Record) {
    && ValidWatermark(r.watermark)
    && (r.pending.Some? ==>
          && ValidPending(cfg, r.pending.value)
          && r.pending.value.from == r.watermark && Forward(r.watermark, r.pending.value.proposed))
  }

  // ---- batches and pending batches ----

  /** All-or-none event protocol. */
  predicate IsComplete(b: Batch) {
    |b.batchId| > 0 && b.events.Some? && b.until.Some? && b.from.Some? && b.proposed.Some?
  }

  predicate ParsesAsNano(n: nat) { n <= MAX_INT64 }

  /** Why a collected batch may be unusable before it ever reaches the store. */
  predicate Derivable(cfg: Config, b: Batch) {
    && b.sequence > 0 && b.schema == SCHEMA_VERSION && |b.agent| > 0 && b.agent == cfg.agent
    && b.from.Some? && ParsesAsNano(b.from.value.time)
    && b.proposed.Some? && ParsesAsNano(b.proposed.value.time)
    && b.until.Some? && ParsesAsNano(b.until.value)
    && b.events.Some?
    && 0 < cfg.codec.size(b) <= MAX_PAYLOAD_BYTES
  }

  /** derivePendingWithPayload: metadata and exact payload of a complete batch. */
  function DerivePending(cfg: Config, b: Batch): Option<Pending> {
    if !Derivable(cfg, b) then None
    else Some(Pending(b.batchId, b.snapshotId, b.sequence, b.agent, b.from.value, b.proposed.value,
                      cfg.codec.eventsDigest(b.events.value), b.until.value, b, cfg.codec.payloadDigest(b)))
  }

  /** reconstructPending: the exact branch, if the record and its payload agree. */
  function ReconstructPending(cfg: Config, p: Pending): Option<Batch> {
    var b := p.payload;
    if && |p.agent| > 0 && p.agent == cfg.agent
       && 0 < cfg.codec.size(b) <= MAX_PAYLOAD_BYTES
       && |p.payloadDigest| > 0 && cfg.codec.payloadDigest(b) == p.payloadDigest
       && b.schema == SCHEMA_VERSION && IsComplete(b) && b.agent == cfg.agent
       && ParsesAsNano(b.from.value.time) && b.from.value == p.from
       && ParsesAsNano(b.proposed.value.time) && b.proposed.value == p.proposed
       && ParsesAsNano(b.until.value) && b.until.value == p.until
       && cfg.codec.eventsDigest(b.events.value) == p.eventsDigest
       && b.batchId == p.batchId && b.snapshotId == p.snapshotId
    then Some(b) else None
  }

  // ---- the store as a state machine ----

  /** One attempt to replace the durable record; memory follows only a clean write. */
  function Replace(s: Stored, next: Record, write: Write): Stored {
    match write
    case Clean => Stored(next, next)
    case Refused => s
    case Silent => Stored(s.mem, next)
  }

  predicate AcceptsPending(cfg: Config, mem: Record, p: Pending) {
    ValidPending(cfg, p) && mem.pending.None? && mem.watermark == p.from && Forward(mem.watermark, p.proposed)
  }

  function Persist(cfg: Config, s: Stored, p: Pending, write: Write): Stored {
    if AcceptsPending(cfg, s.mem, p) then Replace(s, Record(s.mem.watermark, Some(p), s.mem.sequence + 1), write) else s
  }

  predicate PersistOk(cfg: Config, mem: Record, p: Pending, write: Write) {
    || (AcceptsPending(cfg, mem, p) && write.Clean?)
    || (ValidPending(cfg, p) && mem.pending.Some? && PendingEqual(mem.pending.value, p))
  }

  predicate CommitMatches(cfg: Config, mem: Record, batchId: string, snapshotId: string, agent: string, committed: Watermark) {
    && mem.pending.Some?
    && batchId == mem.pending.value.batchId && snapshotId == mem.pending.value.snapshotId
    && agent == mem.pending.value.agent && agent == cfg.agent
    && ValidWatermark(committed) && committed == mem.pending.value.proposed
    && committed.time >= mem.watermark.time
  }

  function Reserve(s: Stored, write: Write): Stored {
    Replace(s, s.mem.(sequence := s.mem.sequence + 1), write)
  }

  /** The store: memory fields, and the file it replaces atomically. */
  class Store {
    const cfg: Config
    var watermark: Watermark
    var pending: Option<Pending>
    var sequence: nat
    var disk: Record
    /** Every pending batch whose commit reached the disk, in order. */
    ghost var commits: seq<Pending>

    function State(): Stored
      reads this
    {
      Stored(Record(watermark, pending, sequence), disk)
    }

    /** First start: the initial record is on disk and in memory. */
    constructor (cfg: Config)
      ensures this.cfg == cfg && commits == []
      ensures State() == Stored(Initial(), Initial())
    {
      this.cfg := cfg;
      watermark, pending, sequence := Initial().watermark, None, 1;
      disk := Initial();
      commits := [];
    }

    /**
     * A restart reads the disk; a record that does not load, or whose owner, mode, format
     * version, key or authentication code is not the agent's own, is refused.
     */
    method Load(authentic: bool) returns (ok: bool)
      modifies this
      ensures ok == (authentic && Loadable(cfg, old(disk))) && commits == old(commits) && disk == old(disk)
      ensures State() == if ok then Stored(old(disk), old(disk)) else old(State())
    {
      ok := authentic && Loadable(cfg, disk);
      if ok {
        watermark, pending, sequence := disk.watermark, disk.pending, disk.sequence;
      }
    }

    method AtomicReplace(next: Record, write: Write) returns (ok: bool)
      modifies this`disk
      ensures ok == write.Clean?
      ensures disk == if write.Refused? then old(disk) else next
    {
      if !write.Refused? { disk := next; }
      ok := write.Clean?;
    }

    method PersistPending(p: Pending, write: Write) returns (ok: bool)
      modifies this
      ensures State() == Persist(cfg, old(State()), p, write) && commits == old(commits)
      ensures ok == PersistOk(cfg, old(State()).mem, p, write)
    {
      if !ValidPending(cfg, p) { return false; }
      if pending.Some? { return PendingEqual(pending.value, p); }
      if watermark != p.from { return false; }
      if !Forward(watermark, p.proposed) { return false; }
      ok := AtomicReplace(Record(watermark, Some(p), sequence + 1), write);
      if ok {
        pending := Some(p);
        sequence := sequence + 1;
      }
    }

    method CommitAcknowledgement(batchId: string, snapshotId: string, agent: string, committed: Watermark, write: Write)
      returns (ok: bool)
      modifies this
      ensures (State(), commits) == Commit(cfg, old(State()), old(commits), batchId, snapshotId, agent, committed, write)
      ensures ok == (CommitMatches(cfg, old(State()).mem, batchId, snapshotId, agent, committed) && write.Clean?)
    {
      if pending.None? { return false; }
      var p := pending.value;
      if batchId != p.batchId || snapshotId != p.snapshotId || agent != p.agent { return false; }
      if agent != cfg.agent { return false; }
      if !ValidWatermark(committed) { return false; }
      if committed != p.proposed { return false; }
      if committed.time < watermark.time { return false; }
      ghost var before := disk;
      ok := AtomicReplace(Record(committed, None, sequence + 1), write);
      commits := Logged(before, disk, p, commits);
      if ok {
        watermark, pending, sequence := committed, None, sequence + 1;
      }
    }

    method ReserveSequence(write: Write) returns (reserved: Option<nat>)
      modifies this
      ensures State() == Reserve(old(State()), write) && commits == old(commits)
      ensures reserved == if write.Clean? then Some(old(sequence)) else None
    {
      var next := Record(watermark, pending, sequence + 1);
      var ok := AtomicReplace(next, write);
      if !ok { return None; }
      reserved := Some(sequence);
      sequence := sequence + 1;
    }
  }

  function Initial(): Record { Record(Watermark(0, []), None, 1) }

  /** A commit is logged once, when it first moves the watermark on disk. */
  ghost function Logged(before: Record, after: Record, p: Pending, commits: seq<Pending>): seq<Pending> {
    if before.watermark == after.watermark then commits else commits + [p]
  }

  ghost function Commit(cfg: Config, s: Stored, commits: seq<Pending>,
                        batchId: string, snapshotId: string, agent: string, committed: Watermark, write: Write)
    : (Stored, seq<Pending>)
  {
    if CommitMatches(cfg, s.mem, batchId, snapshotId, agent, committed) then
      var t := Replace(s, Record(committed, None, s.mem.sequence + 1), write);
      (t, Logged(s.disk, t.disk, s.mem.pending.value, commits))
    else (s, commits)
  }

  // ---- the push cycle ----

  /** The outcomes one cycle meets: its first write, its push, and the commit's write. */
  datatype Io = Io(write: Write, answer: Answer, commit: Write)

  /** The store, everything pushed so far, and every commit that reached the disk. */
  datatype World = World(store: Stored, sent: seq<Push>, commits: seq<Pending>)

  ghost function Transmit(w: World, push: Push, answer: Answer): World {
    if answer.Unsent? then w else w.(sent := w.sent + [push])
  }

  /** The acknowledgement that confirms exactly this pending batch. */
  predicate Confirms(cfg: Config, p: Pending, answer: Answer) {
    && answer.Answered? && answer.ack.Some?
    && !answer.ack.value.status.OtherStatus?
    && (|cfg.vps| > 0 ==> answer.vps == cfg.vps)
    && answer.ack.value.batchId == p.batchId && answer.ack.value.snapshotId == p.snapshotId
    && answer.ack.value.agent == p.agent && answer.ack.value.agent == cfg.agent
    && ParsesAsNano(answer.ack.value.committed.time) && answer.ack.value.committed == p.proposed
  }

  ghost function Acknowledge(cfg: Config, w: World, p: Pending, answer: Answer, write: Write): World {
    if !Confirms(cfg, p, answer) then w
    else
      var (s, c) := Commit(cfg, w.store, w.commits, p.batchId, p.snapshotId, p.agent, p.proposed, write);
      World(s, w.sent, c)
  }

  /** Replaying the pending batch takes precedence over whatever was collected. */
  ghost function Replay(cfg: Config, w: World, p: Pending, io: Io): World {
    var b := ReconstructPending(cfg, p);
    if b.None? then w
    else Acknowledge(cfg, Transmit(w, Branch(b.value, true), io.answer), p, io.answer, io.commit)
  }

  /** A snapshot without an event branch takes a durably reserved sequence, or is not pushed at all. */
  ghost function PushMinimal(w: World, b: Batch, io: Io): World {
    var s := Reserve(w.store, io.write);
    if !io.write.Clean? then w.(store := s)
    else Transmit(w.(store := s), Branch(b.(sequence := w.store.mem.sequence), false), io.answer)
  }

  /** A complete batch is bound to the durable sequence and persisted before it is pushed. */
  ghost function PushComplete(cfg: Config, w: World, b: Batch, io: Io): World {
    var bound := b.(sequence := w.store.mem.sequence);
    var p := DerivePending(cfg, bound);
    if p.None? then Transmit(w, HostOnly, io.answer)
    else
      var v := w.(store := Persist(cfg, w.store, p.value, io.write));
      if !PersistOk(cfg, w.store.mem, p.value, io.write) then v
      else Acknowledge(cfg, Transmit(v, Branch(bound, false), io.answer), p.value, io.answer, io.commit)
  }

  ghost function Cycle(cfg: Config, w: World, b: Option<Batch>, io: Io): World {
    if w.store.mem.pending.Some? then Replay(cfg, w, w.store.mem.pending.value, io)
    else if b.None? then Transmit(w, HostOnly, io.answer)
    else if !IsComplete(b.value) then PushMinimal(w, b.value, io)
    else PushComplete(cfg, w, b.value, io)
  }

  class Runner {
    const store: Store
    /** Everything handed to the network, in order. */
    ghost var sent: seq<Push>

    ghost function Now(): World
      reads this, store
    {
      World(store.State(), sent, store.commits)
    }

    constructor (store: Store)
      ensures this.store == store && sent == []
    {
      this.store := store;
      sent := [];
    }

    /** Hands one push to the network; retries of the same push count once. */
    method PushWithRetry(ghost push: Push, answer: Answer) returns (res: Answer)
      modifies this`sent
      ensures Now() == Transmit(old(Now()), push, answer) && res == answer
    {
      if !answer.Unsent? { sent := sent + [push]; }
      res := answer;
    }

    /** Commits only an acknowledgement that confirms exactly the pending batch. */
    method HandleAck(res: Answer, p: Pending, write: Write) returns (ok: bool)
      modifies store
      ensures Now() == Acknowledge(store.cfg, old(Now()), p, res, write)
      ensures ok ==> Confirms(store.cfg, p, res) && write.Clean?
    {
      if !res.Answered? || res.ack.None? { return false; }
      var ack := res.ack.value;
      if ack.status.OtherStatus? { return false; }
      if |store.cfg.vps| > 0 && |res.vps| > 0 && res.vps != store.cfg.vps { return false; }
      if |store.cfg.vps| > 0 && |res.vps| == 0 { return false; }
      if ack.batchId != p.batchId || ack.snapshotId != p.snapshotId || ack.agent != p.agent { return false; }
      if ack.agent != store.cfg.agent { return false; }
      if !ParsesAsNano(ack.committed.time) { return false; }
      if ack.committed != p.proposed { return false; }
      ok := store.CommitAcknowledgement(ack.batchId, ack.snapshotId, ack.agent, ack.committed, write);
    }

    method PushWithState(collected: Option<Batch>, io: Io) returns (ok: bool)
      modifies this, store
      ensures Now() == Cycle(store.cfg, old(Now()), collected, io)
    {
      if store.pending.Some? {
        var existing := store.pending.value;
        var recon := ReconstructPending(store.cfg, existing);
        if recon.None? { return false; }
        var res := PushWithRetry(Branch(recon.value, true), io.answer);
        if !res.Answered? { return false; }
        ok := HandleAck(res, existing, io.commit);
        return;
      }
      if collected.None? || !IsComplete(collected.value) {
        ghost var push := HostOnly;
        if collected.Some? {
          var reserved := store.ReserveSequence(io.write);
          if reserved.None? { return false; }
          push := Branch(collected.value.(sequence := reserved.value), false);
        }
        var res := PushWithRetry(push, io.answer);
        return res.Answered?;
      }
      var bound := collected.value.(sequence := store.sequence);
      var cand := DerivePending(store.cfg, bound);
      if cand.None? {
        var _ := PushWithRetry(HostOnly, io.answer);
        return false;
      }
      var persisted := store.PersistPending(cand.value, io.write);
      if !persisted { return false; }
      var res := PushWithRetry(Branch(bound, false), io.answer);
      if !res.Answered? { return false; }
      ok := HandleAck(res, cand.value, io.commit);
    }
  }

  // ---- the collector's side ----

  /** The next collection window: none while a batch is pending, otherwise from the committed watermark. */
  function EventInput(mem: Record, until: nat, env: Env): Option<Window> {
    if mem.pending.Some? then None else Some(Window(mem.watermark.time, until, mem.watermark.digests, env))
  }
}
