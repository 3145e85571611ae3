/** What each call writes, spelled out on the job's own fields: when it writes at all, and the whole row it leaves. */
module UpgradeRules {
  import opened Options
  import opened UpgradeJob

  predicate Ended(j: Job) {
    j.state == Succeeded || j.state == RolledBack || j.state == RollbackUnverified || j.state == JobFailed
  }

  predicate Swapped(j: Job) { j.state == Restarting || j.state == AwaitingHeartbeat || j.state == RollingBack }

  /** The agent reported this build less than two minutes ago, after the given heartbeat if there is one. */
  predicate Proves(r: Reading, build: string, after: Option<Stamp>) {
    && r.agent.build == Some(build)
    && r.agent.seen.Some? && r.agent.seen.value.At?
    && 0 <= r.clock - r.agent.seen.value.ms < 120000
    && (after.Some? ==> after.value.At? && r.agent.seen.value.ms > after.value.ms)
  }

  predicate Late(j: Job, now: int) {
    (j.phaseDeadline.Some? && j.phaseDeadline.value < now) || j.deadline < now
  }

  /** The row after a call that ended the job. */
  function EndedRow(j: Job, state: State, verdict: Verdict, error: Option<ErrorCode>, reported: Option<string>,
                    heartbeat: Option<string>, now: int): Job {
    j.(state := state, error := error, result := Some(Ruling(verdict, reported, heartbeat, now)),
       completedAt := Some(now), revision := j.revision + 1)
  }

  function SucceededRow(j: Job, reported: Option<string>, now: int): Job {
    EndedRow(j, Succeeded, SucceededV, j.error, reported, Some(j.releaseBuild), now).(progress := Some(100))
  }

  /** What a missed deadline comes to in each live state. */
  function MissedRow(j: Job, now: int): Job {
    match j.state
    case Queued => EndedRow(j, JobFailed, FailedV, Some(ClaimTimeout), None, None, now)
    case Restarting => EndedRow(j, RollbackUnverified, RollbackUnverifiedV, Some(SwapUnconfirmed), None, None, now)
    case AwaitingHeartbeat => EndedRow(j, RollbackUnverified, RollbackUnverifiedV, Some(HeartbeatTimeout), None, None, now)
    case RollingBack => EndedRow(j, RollbackUnverified, RollbackUnverifiedV, Some(RollbackTimeout), None, None, now)
    case _ => EndedRow(j, JobFailed, FailedV, Some(PhaseMissed), None, None, now)
  }

  /** The call writes exactly this row, or nothing. */
  predicate Writes(c: Call, j: Job, r: Reading, row: Option<Job>) {
    var p := PatchOf(c, j, r);
    if row.None? then p.None? else p.Some? && Merge(j, p.value) == row.value
  }

  /**
   * Reconcile ends a live job as succeeded when a heartbeat proves the release while it is
   * restarting or awaited; otherwise exactly when its phase deadline or its overall deadline
   * lies strictly before now, as the state it is in calls for; an in-time job is untouched.
   */
  lemma ReconcileRule(j: Job, now: int, r: Reading)
    ensures var proven := (j.state == Restarting || j.state == AwaitingHeartbeat) && Proves(r, j.releaseBuild, j.baselineSeen);
            Writes(Reconcile(now), j, r,
                   if Ended(j) then None
                   else if proven then Some(SucceededRow(j, None, now))
                   else if Late(j, now) then Some(MissedRow(j, now))
                   else None)
  {}

  /**
   * A claim writes exactly when the job is live and nobody holds a lease on it: a queued job
   * becomes claimed, any other keeps its state, under the next token and a minute's lease.
   */
  lemma ClaimRule(j: Job, now: int, r: Reading)
    ensures Writes(Claim(now), j, r,
                   if Ended(j) || (j.leaseUntil.Some? && j.leaseUntil.value >= now) then None
                   else Some(j.(state := if j.state == Queued then Claimed else j.state,
                                token := j.token + 1,
                                reclaims := if j.claimedAt.Some? then j.reclaims + 1 else j.reclaims,
                                claimedAt := if j.claimedAt.Some? then j.claimedAt else Some(now),
                                leaseUntil := Some(now + 60000),
                                baselineBuild := if j.baselineBuild.Some? then j.baselineBuild
                                                 else if r.agent.build.Some? && r.agent.build.value != "" then r.agent.build
                                                 else None,
                                revision := j.revision + 1)))
  {}

  /** The time a reported phase is given. */
  function PhaseTime(s: State): int {
    match s
    case Downloading => 5 * 60000
    case Verifying => 2 * 60000
    case Staging => 2 * 60000
    case Restarting => 2 * 60000
    case AwaitingHeartbeat => 10 * 60000
    case _ => 5 * 60000
  }

  /** Progress is written exactly for a phase of the updater, on a live job under its current token and an unexpired lease. */
  lemma ProgressRule(j: Job, c: Call, r: Reading)
    requires c.Progress?
    ensures Writes(c, j, r,
                   if !(c.phase == Downloading || c.phase == Verifying || c.phase == Staging || c.phase == Restarting
                        || c.phase == AwaitingHeartbeat || c.phase == RollingBack) then None
                   else if Ended(j) || c.held != j.token || j.leaseUntil.None? || j.leaseUntil.value < c.now then None
                   else Some(j.(state := c.phase,
                                progress := if c.percent.Some? then c.percent.value else j.progress,
                                message := if c.note.Some? then c.note else j.message,
                                leaseUntil := Some(c.now + 60000),
                                phaseDeadline := Some(c.now + PhaseTime(c.phase)),
                                baselineSeen := if j.baselineSeen.Some? || c.phase != Restarting then j.baselineSeen
                                                else if r.agent.seen.Some? then r.agent.seen
                                                else Some(At(c.now)),
                                revision := j.revision + 1)))
  {}

  /** A rollback is verified by a heartbeat of the pinned baseline build after the pinned baseline heartbeat. */
  function RolledBackRow(j: Job, c: Call, r: Reading): Job
    requires c.Result?
  {
    if j.baselineSeen.Some? && j.baselineBuild.Some? && Proves(r, j.baselineBuild.value, j.baselineSeen)
    then EndedRow(j, RolledBack, RolledBackV, None, c.reported, j.baselineBuild, c.now)
    else EndedRow(j, RollbackUnverified, RollbackUnverifiedV, Some(RollbackNotVerified), c.reported, None, c.now)
  }

  lemma RollbackRule(j: Job, c: Call, r: Reading)
    requires c.Result?
    ensures Merge(j, RollbackPatch(j, c, r)) == RolledBackRow(j, c, r)
  {}

  /** A first result under the current token and an unexpired lease; a success without its heartbeat writes nothing. */
  function FirstResultRow(j: Job, c: Call, r: Reading): Option<Job>
    requires c.Result?
  {
    if c.verdict == SucceededV then
      if Proves(r, j.releaseBuild, j.baselineSeen) then Some(SucceededRow(j, c.reported, c.now)) else None
    else if c.verdict == RolledBackV then Some(RolledBackRow(j, c, r))
    else if c.verdict == RollbackUnverifiedV then
      Some(EndedRow(j, RollbackUnverified, RollbackUnverifiedV, Some(RollbackNotVerified), c.reported, None, c.now))
    else if Swapped(j) then
      Some(EndedRow(j, RollbackUnverified, RollbackUnverifiedV, Some(PostSwapFailed), c.reported, None, c.now))
    else Some(EndedRow(j, JobFailed, FailedV, Some(UpdateFailed), c.reported, None, c.now))
  }

  /** A result ends a live job as the heartbeat and the swap point allow, and refines only an unverified rollback. */
  lemma ResultRule(j: Job, c: Call, r: Reading)
    requires c.Result?
    ensures Writes(c, j, r,
                   if Ended(j) then
                     if j.state == RollbackUnverified && c.verdict == RolledBackV then Some(RolledBackRow(j, c, r)) else None
                   else if c.held != j.token || j.leaseUntil.None? || j.leaseUntil.value < c.now then None
                   else FirstResultRow(j, c, r))
  {
    RollbackRule(j, c, r);
    if !Ended(j) && c.held == j.token && j.leaseUntil.Some? && j.leaseUntil.value >= c.now { FirstResultRule(j, c, r); }
  }

  lemma FirstResultRule(j: Job, c: Call, r: Reading)
    requires c.Result? && !Ended(j) && c.held == j.token && j.leaseUntil.Some? && j.leaseUntil.value >= c.now
    ensures Writes(c, j, r, FirstResultRow(j, c, r))
  {
    match c.verdict
    case SucceededV =>
    case RolledBackV => RollbackRule(j, c, r);
    case RollbackUnverifiedV =>
    case FailedV =>
  }
}
