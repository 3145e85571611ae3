/**
 * The service's retry loops over the shared job row. Between any two awaits other
 * callers may write; every method is proved to add only writes of its own call to
 * a history that stays lawful, whatever the others do.
 */
module UpgradeService {
  import opened Options
  import opened UpgradeJob
  import opened UpgradeRuns
  import opened UpgradeRules

  /** A write another caller makes while this one waits: its call and what it had read. */
  datatype Other = Other(call: Call, reading: Reading)

  /** What one call meets: the writes of others at each await, and what the agent repository answers. */
  datatype Meeting = Meeting(others: nat -> seq<Other>, readings: nat -> Reading)

  /** Nobody else writes while this call waits. */
  ghost predicate Alone(m: Meeting) { forall i :: m.others(i) == [] }

  datatype ClaimReply = NoJob | Leased(job: Job, requiresReconcile: bool) | ClaimContention

  /** Replies to progress and result; both conflicts carry the stale-lease code in the service. */
  datatype Reply =
    | Updated(job: Job)
    | Unchanged(job: Job)
    | AwaitHeartbeat(job: Job)
    | TerminalConflict
    | StaleLease
    | Contention

  datatype Reconciled = Settled(job: Job) | Overtaken | Idle(job: Job)

  const ATTEMPTS: nat := 3

  /** The later log extends the earlier one, one revision a write. */
  predicate Since(wasLog: seq<Write>, wasJob: Job, log: seq<Write>, job: Job) {
    && wasLog <= log
    && job.revision == wasJob.revision + (|log| - |wasLog|)
    && (|log| == |wasLog| ==> job == wasJob)
  }

  class Repository {
    const first: Job
    var job: Job
    /** Every write that took effect. */
    ghost var log: seq<Write>

    ghost predicate Valid()
      reads this
    {
      History(first, log, job)
    }

    constructor (first: Job)
      ensures Valid() && job == first && log == []
    {
      this.first := first;
      job := first;
      log := [];
    }

    /** Applies a patch if the row still has the expected revision. */
    method CompareAndSet(revision: nat, patch: Patch, ghost call: Call, ghost reading: Reading, ghost read: Job)
      returns (updated: Option<Job>)
      requires Valid()
      requires read.revision == revision && PatchOf(call, read, reading) == Some(patch)
      requires read.revision < job.revision || read == job
      modifies this
      ensures Valid() && Since(old(log), old(job), log, job)
      ensures updated.Some? <==> old(job).revision == revision
      ensures updated.None? ==> job == old(job) && log == old(log)
      ensures updated.Some? ==>
                && updated.value == job == Merge(read, patch)
                && log == old(log) + [Write(call, reading, read, job)] && Atomic(Write(call, reading, read, job))
    {
      if job.revision != revision { return None; }
      ghost var w := Write(call, reading, job, Merge(job, patch));
      AtomicIsLawful(w);
      HistoryGrows(first, log, job, w);
      job := Merge(job, patch);
      log := log + [w];
      updated := Some(job);
    }

    /** While a caller waits, others may write: each finds the current row and applies its own patch. */
    method Await(others: seq<Other>)
      requires Valid()
      modifies this
      ensures Valid() && Since(old(log), old(job), log, job)
      ensures others == [] ==> job == old(job) && log == old(log)
    {
      for i := 0 to |others|
        invariant Valid() && Since(old(log), old(job), log, job) && (i == 0 ==> job == old(job) && log == old(log))
      {
        var patch := PatchOf(others[i].call, job, others[i].reading);
        if patch.Some? {
          var _ := CompareAndSet(job.revision, patch.value, others[i].call, others[i].reading, job);
        }
      }
    }
  }

  lemma HistoryGrows(first: Job, log: seq<Write>, last: Job, w: Write)
    requires History(first, log, last) && w.before == last && Lawful(w)
    ensures History(first, log + [w], w.after)
  {
    var t := log + [w];
    forall i | 0 <= i < |t| ensures Link(first, t, i) {
      if i < |log| { assert Link(first, log, i); }
    }
  }

  /** A heartbeat proves the release while the job is restarting or awaits it. */
  predicate ProvenNew(j: Job, r: Reading) {
    (j.state == Restarting || j.state == AwaitingHeartbeat) && Proves(r, j.releaseBuild, j.baselineSeen)
  }

  /** The write ended a live job that was overdue or whose new build had proved itself. */
  predicate EndsOverdue(w: Write, now: int) {
    && !Ended(w.before) && (Late(w.before, now) || ProvenNew(w.before, w.reading))
    && w.after == if ProvenNew(w.before, w.reading) then SucceededRow(w.before, None, now) else MissedRow(w.before, now)
  }

  /** The last write is this call's own and left the row it returned. */
  ghost predicate WroteLast(repo: Repository, call: Call, r: Job)
    reads repo
  {
    && |repo.log| > 0 && repo.log[|repo.log| - 1].call == call
    && repo.log[|repo.log| - 1].after == r == repo.job && Atomic(repo.log[|repo.log| - 1])
  }

  /** A repeated report under the winning token agrees with the ruling on record, or a failure with an unverified rollback. */
  predicate Repeats(j: Job, held: nat, verdict: Verdict) {
    && held == j.token && j.result.Some?
    && (verdict == j.result.value.verdict || (verdict == FailedV && j.result.value.verdict == RollbackUnverifiedV))
  }

  /** What each answer to a result says about the row and the last write. */
  ghost predicate Answers(repo: Repository, r: Reply, c: Call)
    requires c.Result?
    reads repo
  {
    match r
    case Updated(job) => WroteLast(repo, c, job) && IsTerminal(job.state)
    case Unchanged(job) =>
      && job == repo.job && IsTerminal(job.state)
      && (Repeats(job, c.held, c.verdict)
          || (c.verdict.RolledBackV? && (job.state.RolledBack? || job.state.RollbackUnverified?)))
    case AwaitHeartbeat(job) => c.verdict.SucceededV? && LeaseHeld(job, c.held, c.now) && !IsTerminal(job.state)
    case TerminalConflict => IsTerminal(repo.job.state) && !Repeats(repo.job, c.held, c.verdict)
    case StaleLease => !LeaseHeld(repo.job, c.held, c.now)
    case Contention => true
  }

  /** A claim nobody disturbs: no job, the standing lease with nothing written, or one write that leases the job. */
  ghost predicate LeasedAlone(r: ClaimReply, now: int, reading: Reading, wasLog: seq<Write>, was: Job, log: seq<Write>, job: Job) {
    if Ended(was) then r.NoJob? && log == wasLog && job == was
    else if was.leaseUntil.Some? && was.leaseUntil.value >= now then r.Leased? && log == wasLog && job == was
    else r.Leased? && log == wasLog + [Write(Claim(now), reading, was, job)]
  }

  class Service {
    const repo: Repository

    constructor (repo: Repository)
      ensures this.repo == repo
    {
      this.repo := repo;
    }

    /** Heartbeat-confirmed success outruns every deadline; then the missed deadlines rule. */
    method RuleOverdue(job: Job, now: int, reading: Reading) returns (patch: Option<Patch>)
      requires !IsTerminal(job.state)
      ensures patch == PatchOf(Reconcile(now), job, reading)
      ensures patch.Some? <==> Late(job, now) || ProvenNew(job, reading)
      ensures patch.Some? ==> EndsOverdue(Write(Reconcile(now), reading, job, Merge(job, patch.value)), now)
    {
      ReconcileRule(job, now, reading);
      if job.state.AwaitingHeartbeat? || job.state.Restarting? {
        if Confirmed(job, reading) { return Some(SucceededPatch(None, reading, now)); }
      }
      var phaseExpired := job.phaseDeadline.Some? && now > job.phaseDeadline.value;
      var overallExpired := now > job.deadline;
      if !phaseExpired && !overallExpired { return None; }
      var ruling := DeadlineRuling(job.state);
      if ruling.None? { return None; }
      var (state, verdict, code) := ruling.value;
      patch := Some(Ending(state, verdict, None, None, now).(error := Some(Some(code))));
    }

    /**
     * The patch of an accepted progress report. The row it leaves holds the reporter's lease
     * for another minute, gives the reported phase its own time, moves neither the token nor
     * the overall deadline, and pins the baseline heartbeat at the first restarting report only.
     */
    method PhasePatch(job: Job, c: Call, reading: Reading) returns (patch: Patch)
      requires c.Progress? && IsPhase(c.phase) && !IsTerminal(job.state) && LeaseHeld(job, c.held, c.now)
      ensures PatchOf(c, job, reading) == Some(patch)
      ensures var u := Merge(job, patch);
              && u.state == c.phase && u.token == job.token && u.deadline == job.deadline
              && u.result == job.result && u.baselineBuild == job.baselineBuild
              && (forall t :: LeaseHeld(u, c.held, t) <==> t <= c.now + LEASE_TTL)
              && u.phaseDeadline == Some(c.now + PhaseTimeout(c.phase))
              && (u.baselineSeen != job.baselineSeen ==> c.phase.Restarting? && job.baselineSeen.None?)
              && (c.phase.Restarting? ==> u.baselineSeen.Some?)
              && (c.phase.Restarting? && job.baselineSeen.None? ==>
                    u.baselineSeen.value == if reading.agent.seen.Some? then reading.agent.seen.value else At(c.now))
    {
      patch := NOTHING.(state := Some(c.phase), progress := c.percent, message := c.note,
                        leaseUntil := Some(c.now + LEASE_TTL),
                        phaseDeadline := Some(c.now + PhaseTimeout(c.phase)));
      if c.phase.Restarting? && job.baselineSeen.None? {
        patch := patch.(baselineSeen := Some(OrElse(reading.agent.seen, At(c.now))));
      }
    }

    /** The ruling on a first result; a success without its heartbeat is not ruled yet. */
    method RuleResult(job: Job, c: Call, reading: Reading) returns (patch: Option<Patch>)
      requires c.Result? && !IsTerminal(job.state) && LeaseHeld(job, c.held, c.now)
      ensures patch == PatchOf(c, job, reading)
      ensures patch.None? ==> c.verdict.SucceededV? && !Confirmed(job, reading)
      ensures patch.Some? ==> patch.value.state.Some? && IsTerminal(patch.value.state.value)
    {
      match c.verdict {
        case FailedV =>
          if IsPostSwap(job.state) {
            patch := Some(Ending(RollbackUnverified, RollbackUnverifiedV, c.reported, None, c.now).(error := Some(Some(PostSwapFailed))));
          } else {
            patch := Some(Ending(JobFailed, FailedV, c.reported, None, c.now).(error := Some(Some(UpdateFailed))));
          }
        case RollbackUnverifiedV =>
          patch := Some(Ending(RollbackUnverified, RollbackUnverifiedV, c.reported, None, c.now).(error := Some(Some(RollbackNotVerified))));
        case RolledBackV =>
          patch := Some(RollbackPatch(job, c, reading));
        case SucceededV =>
          patch := if Confirmed(job, reading) then Some(SucceededPatch(c.reported, reading, c.now)) else None;
      }
    }

    /**
     * One pass of reconcile over this job. Past the overall deadline it ends the job
     * unless it was overtaken or the job it listed had already ended.
     */
    method ReconcileJob(now: int, m: Meeting) returns (r: Reconciled)
      requires repo.Valid()
      modifies repo
      ensures repo.Valid() && Since(old(repo.log), old(repo.job), repo.log, repo.job)
      ensures r.Settled? ==> WroteLast(repo, Reconcile(now), r.job) && EndsOverdue(repo.log[|repo.log| - 1], now)
      ensures r.Overtaken? ==> |repo.log| > |old(repo.log)|
      ensures Alone(m) ==>
                || (r == Idle(old(repo.job)) && repo.job == old(repo.job) && repo.log == old(repo.log))
                || (r.Settled? && repo.log == old(repo.log) + [Write(Reconcile(now), m.readings(0), old(repo.job), repo.job)])
      ensures r.Idle? ==> Ended(r.job) || (!Late(r.job, now) && !ProvenNew(r.job, m.readings(0)))
    {
      var job, patch := ReadAndRule(now, m);
      if patch.None? { return Idle(job); }
      repo.Await(m.others(2));
      r := CommitTerminal(job, patch.value, now, m.readings(0));
    }

    /** Reads the job, and the agent's state where a heartbeat can settle it, and rules. */
    method ReadAndRule(now: int, m: Meeting) returns (job: Job, patch: Option<Patch>)
      requires repo.Valid()
      modifies repo
      ensures repo.Valid() && Since(old(repo.log), old(repo.job), repo.log, repo.job)
      ensures old(repo.job).revision <= job.revision && (job.revision < repo.job.revision || job == repo.job)
      ensures patch.None? ==> Ended(job) || (!Late(job, now) && !ProvenNew(job, m.readings(0)))
      ensures Alone(m) ==> job == repo.job == old(repo.job) && repo.log == old(repo.log)
      ensures patch.Some? ==>
                && PatchOf(Reconcile(now), job, m.readings(0)) == patch
                && EndsOverdue(Write(Reconcile(now), m.readings(0), job, Merge(job, patch.value)), now)
    {
      repo.Await(m.others(0));
      job := repo.job;
      if IsTerminal(job.state) { return job, None; }
      if job.state.AwaitingHeartbeat? || job.state.Restarting? {
        repo.Await(m.others(1));
      }
      patch := RuleOverdue(job, now, m.readings(0));
    }

    /** Ends the job it read, unless another write came first. */
    method CommitTerminal(job: Job, patch: Patch, now: int, ghost reading: Reading) returns (r: Reconciled)
      requires repo.Valid() && (job.revision < repo.job.revision || job == repo.job)
      requires PatchOf(Reconcile(now), job, reading) == Some(patch)
      requires EndsOverdue(Write(Reconcile(now), reading, job, Merge(job, patch)), now)
      modifies repo
      ensures repo.Valid() && Since(old(repo.log), old(repo.job), repo.log, repo.job)
      ensures r.Settled? ==> WroteLast(repo, Reconcile(now), r.job) && EndsOverdue(repo.log[|repo.log| - 1], now)
      ensures r.Settled? ==> repo.log == old(repo.log) + [Write(Reconcile(now), reading, job, repo.job)]
      ensures r.Settled? || (r.Overtaken? && job.revision < old(repo.job).revision)
    {
      var updated := repo.CompareAndSet(job.revision, patch, Reconcile(now), reading, job);
      r := if updated.Some? then Settled(updated.value) else Overtaken;
    }

    /**
     * A claim hands out a lease valid at its own time: either the standing one, with
     * nothing written, or a fresh one under a higher token. Contention means every
     * attempt was overtaken by another write.
     */
    method ClaimJob(now: int, m: Meeting) returns (r: ClaimReply)
      requires repo.Valid()
      modifies repo
      ensures repo.Valid() && Since(old(repo.log), old(repo.job), repo.log, repo.job)
      ensures r.Leased? ==>
                && r.job == repo.job && !IsTerminal(r.job.state)
                && r.job.leaseUntil.Some? && now <= r.job.leaseUntil.value
                && r.requiresReconcile == IsPostSwap(r.job.state)
      ensures r.NoJob? ==> IsTerminal(repo.job.state)
      ensures r.ClaimContention? ==> |repo.log| >= |old(repo.log)| + ATTEMPTS
      ensures Alone(m) && (Ended(old(repo.job)) || Late(old(repo.job), now) || ProvenNew(old(repo.job), m.readings(0))) ==>
                r.NoJob? && Ended(repo.job)
      ensures Alone(m) && !Ended(old(repo.job)) && !Late(old(repo.job), now) && !ProvenNew(old(repo.job), m.readings(0)) ==>
                r.Leased? && LeasedAlone(r, now, m.readings(1), old(repo.log), old(repo.job), repo.log, repo.job)
    {
      var _ := ReconcileJob(now, m);
      r := LeaseJob(now, m);
    }

    /** Up to three attempts to lease the job. */
    method LeaseJob(now: int, m: Meeting) returns (r: ClaimReply)
      requires repo.Valid()
      modifies repo
      ensures repo.Valid() && Since(old(repo.log), old(repo.job), repo.log, repo.job)
      ensures r.Leased? ==>
                && r.job == repo.job && !IsTerminal(r.job.state)
                && r.job.leaseUntil.Some? && now <= r.job.leaseUntil.value
                && r.requiresReconcile == IsPostSwap(r.job.state)
      ensures r.NoJob? ==> IsTerminal(repo.job.state)
      ensures r.ClaimContention? ==> |repo.log| >= |old(repo.log)| + ATTEMPTS
      ensures Alone(m) ==> LeasedAlone(r, now, m.readings(1), old(repo.log), old(repo.job), repo.log, repo.job)
    {
      var attempt := 0;
      while attempt < ATTEMPTS
        invariant attempt <= ATTEMPTS && repo.Valid()
        invariant Since(old(repo.log), old(repo.job), repo.log, repo.job)
        invariant |repo.log| >= |old(repo.log)| + attempt
        invariant Alone(m) ==> attempt == 0 && repo.job == old(repo.job) && repo.log == old(repo.log)
      {
        var reply := TryLease(now, m, attempt);
        if reply.Some? { return reply.value; }
        attempt := attempt + 1;
      }
      r := ClaimContention;
    }

    /** One attempt: the standing lease, or a new one unless another write came first. */
    method TryLease(now: int, m: Meeting, attempt: nat) returns (r: Option<ClaimReply>)
      requires repo.Valid()
      modifies repo
      ensures repo.Valid() && Since(old(repo.log), old(repo.job), repo.log, repo.job)
      ensures r.None? ==> |repo.log| > |old(repo.log)| && !Alone(m)
      ensures r.Some? ==> !r.value.ClaimContention?
      ensures r.Some? && r.value.Leased? ==>
                && r.value.job == repo.job && !IsTerminal(repo.job.state)
                && repo.job.leaseUntil.Some? && now <= repo.job.leaseUntil.value
                && r.value.requiresReconcile == IsPostSwap(repo.job.state)
      ensures r.Some? && r.value.NoJob? ==> IsTerminal(repo.job.state)
      ensures Alone(m) ==> LeasedAlone(r.value, now, m.readings(1 + attempt), old(repo.log), old(repo.job), repo.log, repo.job)
    {
      repo.Await(m.others(3 + 2 * attempt));
      var job := repo.job;
      if IsTerminal(job.state) { return Some(NoJob); }
      var leaseValid := job.leaseUntil.Some? && now <= job.leaseUntil.value;
      if leaseValid { return Some(Leased(job, IsPostSwap(job.state))); }
      var reading := m.readings(1 + attempt);
      repo.Await(m.others(4 + 2 * attempt));
      var patch := ClaimPatch(job, now, reading);
      var updated := repo.CompareAndSet(job.revision, patch.value, Claim(now), reading, job);
      if updated.Some? { return Some(Leased(updated.value, IsPostSwap(updated.value.state))); }
      r := None;
    }

    /** An accepted report is this call's own last write, made under the current token and a valid lease. */
    method ReportProgress(c: Call, m: Meeting) returns (r: Reply)
      requires repo.Valid() && c.Progress? && IsPhase(c.phase)
      modifies repo
      ensures repo.Valid() && Since(old(repo.log), old(repo.job), repo.log, repo.job)
      ensures r.Updated? ==> WroteLast(repo, c, r.job) && r.job.state == c.phase && r.job.token == c.held
      ensures r.TerminalConflict? ==> IsTerminal(repo.job.state)
      ensures r.StaleLease? ==> !LeaseHeld(repo.job, c.held, c.now)
      ensures r.Contention? ==> |repo.log| >= |old(repo.log)| + ATTEMPTS
      ensures !r.Unchanged? && !r.AwaitHeartbeat?
      ensures Alone(m) && r.Updated? ==> repo.log == old(repo.log) + [Write(c, m.readings(0), old(repo.job), repo.job)]
      ensures Alone(m) && !r.Updated? ==>
                repo.log == old(repo.log) && (Ended(repo.job) || !LeaseHeld(repo.job, c.held, c.now))
    {
      var attempt := 0;
      while attempt < ATTEMPTS
        invariant attempt <= ATTEMPTS && repo.Valid()
        invariant Since(old(repo.log), old(repo.job), repo.log, repo.job)
        invariant |repo.log| >= |old(repo.log)| + attempt
        invariant Alone(m) ==> attempt == 0 && repo.job == old(repo.job) && repo.log == old(repo.log)
      {
        var reply := TryProgress(c, m, attempt);
        if reply.Some? { return reply.value; }
        attempt := attempt + 1;
      }
      r := Contention;
    }

    /** One attempt of a progress report. */
    method TryProgress(c: Call, m: Meeting, attempt: nat) returns (r: Option<Reply>)
      requires repo.Valid() && c.Progress? && IsPhase(c.phase)
      modifies repo
      ensures repo.Valid() && Since(old(repo.log), old(repo.job), repo.log, repo.job)
      ensures r.None? ==> |repo.log| > |old(repo.log)| && !Alone(m)
      ensures r.Some? ==> r.value.Updated? || r.value.TerminalConflict? || r.value.StaleLease?
      ensures r.Some? && r.value.Updated? ==>
                WroteLast(repo, c, r.value.job) && repo.job.state == c.phase && repo.job.token == c.held
      ensures r.Some? && r.value.TerminalConflict? ==> IsTerminal(repo.job.state)
      ensures r.Some? && r.value.StaleLease? ==> !LeaseHeld(repo.job, c.held, c.now)
      ensures Alone(m) && r.value.Updated? ==> repo.log == old(repo.log) + [Write(c, m.readings(attempt), old(repo.job), repo.job)]
      ensures Alone(m) && !r.value.Updated? ==> repo.log == old(repo.log) && repo.job == old(repo.job)
    {
      repo.Await(m.others(2 * attempt));
      var job := repo.job;
      if IsTerminal(job.state) { return Some(TerminalConflict); }
      if !LeaseHeld(job, c.held, c.now) { return Some(StaleLease); }
      var reading := m.readings(attempt);
      repo.Await(m.others(2 * attempt + 1));
      var patch := PhasePatch(job, c, reading);
      var updated := repo.CompareAndSet(job.revision, patch, c, reading, job);
      r := if updated.Some? then Some(Updated(updated.value)) else None;
    }

    /** A report about an ended job refines rollback_unverified, reads back an agreeing ruling, or conflicts. */
    method AnswerEnded(job: Job, c: Call, reading: Reading, others: seq<Other>) returns (r: Reply)
      requires repo.Valid() && c.Result? && job == repo.job && IsTerminal(job.state)
      modifies repo
      ensures repo.Valid() && Since(old(repo.log), old(repo.job), repo.log, repo.job)
      ensures r.Updated? || r.Unchanged? || r.TerminalConflict?
      ensures Answers(repo, r, c)
      ensures others == [] && r.Updated? ==> repo.log == old(repo.log) + [Write(c, reading, job, repo.job)]
      ensures others == [] && !r.Updated? ==> repo.log == old(repo.log) && PatchOf(c, job, reading).None?
    {
      if job.state.RollbackUnverified? && c.verdict.RolledBackV? {
        ghost var n := |repo.log|;
        repo.Await(others);
        var patch := RollbackPatch(job, c, reading);
        assert patch.state.Some? && IsTerminal(patch.state.value);
        var refined := repo.CompareAndSet(job.revision, patch, c, reading, job);
        if refined.Some? { return Updated(refined.value); }
        UnverifiedStays(repo.first, repo.log, repo.job, n, |repo.log|);
        return Unchanged(repo.job);
      }
      if c.held == job.token && job.result.Some?
         && (job.result.value.verdict == c.verdict || (c.verdict.FailedV? && job.result.value.verdict.RollbackUnverifiedV?)) {
        return Unchanged(job);
      }
      r := TerminalConflict;
    }

    /**
     * A result either ends the job by this call's own last write, reads back an
     * ended job unchanged, or asks for a heartbeat; a repeated report never writes.
     */
    method ReportResult(c: Call, m: Meeting) returns (r: Reply)
      requires repo.Valid() && c.Result?
      modifies repo
      ensures repo.Valid() && Since(old(repo.log), old(repo.job), repo.log, repo.job)
      ensures Answers(repo, r, c)
      ensures Alone(m) && r.Updated? ==> repo.log == old(repo.log) + [Write(c, m.readings(0), old(repo.job), repo.job)]
      ensures Alone(m) && !r.Updated? ==> repo.log == old(repo.log) && PatchOf(c, repo.job, m.readings(0)).None?
      ensures r.Contention? ==> |repo.log| >= |old(repo.log)| + ATTEMPTS
    {
      var attempt := 0;
      while attempt < ATTEMPTS
        invariant attempt <= ATTEMPTS && repo.Valid()
        invariant Since(old(repo.log), old(repo.job), repo.log, repo.job)
        invariant |repo.log| >= |old(repo.log)| + attempt
        invariant Alone(m) ==> attempt == 0 && repo.job == old(repo.job) && repo.log == old(repo.log)
      {
        var reply := TryResult(c, m, attempt);
        if reply.Some? { return reply.value; }
        attempt := attempt + 1;
      }
      r := Contention;
    }

    /** One attempt of a result. */
    method TryResult(c: Call, m: Meeting, attempt: nat) returns (r: Option<Reply>)
      requires repo.Valid() && c.Result?
      modifies repo
      ensures repo.Valid() && Since(old(repo.log), old(repo.job), repo.log, repo.job)
      ensures r.None? ==> |repo.log| > |old(repo.log)| && !Alone(m)
      ensures r.Some? ==> !r.value.Contention? && Answers(repo, r.value, c)
      ensures Alone(m) && r.value.Updated? ==> repo.log == old(repo.log) + [Write(c, m.readings(attempt), old(repo.job), repo.job)]
      ensures Alone(m) && !r.value.Updated? ==>
                repo.log == old(repo.log) && repo.job == old(repo.job) && PatchOf(c, repo.job, m.readings(attempt)).None?
    {
      repo.Await(m.others(2 * attempt));
      var job := repo.job;
      var reading := m.readings(attempt);
      if IsTerminal(job.state) {
        var reply := AnswerEnded(job, c, reading, m.others(2 * attempt + 1));
        return Some(reply);
      }
      if !LeaseHeld(job, c.held, c.now) { return Some(StaleLease); }
      repo.Await(m.others(2 * attempt + 1));
      var patch := RuleResult(job, c, reading);
      if patch.None? { return Some(AwaitHeartbeat(job)); }
      var updated := repo.CompareAndSet(job.revision, patch.value, c, reading, job);
      r := if updated.Some? then Some(Updated(updated.value)) else None;
    }
  }
}
