/**
 * The durable agent-upgrade job: its record, the patch each service call computes
 * from what it read, and the compare-and-set that applies a patch.
 */
module UpgradeJob {
  import opened Options

  datatype State =
    | Queued | Claimed | Downloading | Verifying | Staging | Restarting | AwaitingHeartbeat | RollingBack
    | Succeeded | RolledBack | RollbackUnverified | JobFailed

  datatype Verdict = SucceededV | RolledBackV | RollbackUnverifiedV | FailedV

  datatype ErrorCode =
    | ClaimTimeout | PhaseMissed | SwapUnconfirmed | HeartbeatTimeout | RollbackTimeout
    | UpdateFailed | PostSwapFailed | RollbackNotVerified

  /** A parsed timestamp; an unparseable one compares false with everything. */
  datatype Stamp = At(ms: int) | Unparseable

  /** What the agent repository reports: the running build and the last heartbeat, if any. */
  datatype Agent = Agent(build: Option<string>, seen: Option<Stamp>)

  datatype Ruling = Ruling(verdict: Verdict, reported: Option<string>, heartbeat: Option<string>, completedAt: int)

  datatype Job = Job(state: State, progress: Option<nat>, message: Option<string>, releaseBuild: string,
                     baselineBuild: Option<string>, baselineSeen: Option<Stamp>,
                     token: nat, reclaims: nat, claimedAt: Option<int>, leaseUntil: Option<int>,
                     deadline: int, phaseDeadline: Option<int>,
                     error: Option<ErrorCode>, result: Option<Ruling>, completedAt: Option<int>, revision: nat)

  /** The fields a write may patch; an absent field keeps its stored value. */
  datatype Patch = Patch(state: Option<State>, progress: Option<Option<nat>>, message: Option<string>,
                         baselineBuild: Option<string>, baselineSeen: Option<Stamp>,
                         token: Option<nat>, reclaims: Option<nat>, claimedAt: Option<int>, leaseUntil: Option<int>,
                         phaseDeadline: Option<int>,
                         error: Option<Option<ErrorCode>>, result: Option<Ruling>, completedAt: Option<int>)

  const NOTHING: Patch := Patch(None, None, None, None, None, None, None, None, None, None, None, None, None)

  const LEASE_TTL: int := 60000
  const FRESHNESS_THRESHOLD: int := 120000

  function PhaseTimeout(s: State): int {
    match s
    case Queued => 300000
    case Claimed => 300000
    case Downloading => 300000
    case Verifying => 120000
    case Staging => 120000
    case Restarting => 120000
    case AwaitingHeartbeat => 600000
    case RollingBack => 300000
    case _ => 0
  }

  predicate IsTerminal(s: State) { s.Succeeded? || s.RolledBack? || s.RollbackUnverified? || s.JobFailed? }

  predicate IsPostSwap(s: State) { s.Restarting? || s.AwaitingHeartbeat? || s.RollingBack? }

  /** The phases the updater may report. */
  predicate IsPhase(s: State) {
    s.Downloading? || s.Verifying? || s.Staging? || IsPostSwap(s)
  }

  predicate IsFresh(t: Stamp, now: int) { t.At? && t.ms <= now && now - t.ms < FRESHNESS_THRESHOLD }

  predicate Later(a: Stamp, b: Stamp) { a.At? && b.At? && a.ms > b.ms }

  function OrElse<T>(a: Option<T>, b: T): T { if a.Some? then a.value else b }

  /** The repository's merge: patched fields over the stored row, one revision on. */
  function Merge(j: Job, p: Patch): Job {
    Job(OrElse(p.state, j.state), OrElse(p.progress, j.progress),
        if p.message.Some? then p.message else j.message, j.releaseBuild,
        if p.baselineBuild.Some? then p.baselineBuild else j.baselineBuild,
        if p.baselineSeen.Some? then p.baselineSeen else j.baselineSeen,
        OrElse(p.token, j.token), OrElse(p.reclaims, j.reclaims),
        if p.claimedAt.Some? then p.claimedAt else j.claimedAt,
        if p.leaseUntil.Some? then p.leaseUntil else j.leaseUntil,
        j.deadline, if p.phaseDeadline.Some? then p.phaseDeadline else j.phaseDeadline,
        OrElse(p.error, j.error), if p.result.Some? then p.result else j.result,
        if p.completedAt.Some? then p.completedAt else j.completedAt, j.revision + 1)
  }

  // ---- the calls and the patch each computes from one read ----

  datatype Call =
    | Claim(now: int)
    | Progress(now: int, held: nat, phase: State, percent: Option<Option<nat>>, note: Option<string>)
    | Result(now: int, held: nat, verdict: Verdict, reported: Option<string>)
    | Reconcile(now: int)

  /** What an attempt read besides the job: the agent's state, and the clock when it judged freshness. */
  datatype Reading = Reading(agent: Agent, clock: int)

  predicate LeaseHeld(j: Job, held: nat, now: int) {
    held == j.token && j.leaseUntil.Some? && now <= j.leaseUntil.value
  }

  /** A fresh heartbeat of the release build, later than the pinned baseline when there is one. */
  predicate Confirmed(j: Job, r: Reading) {
    && r.agent.build == Some(j.releaseBuild)
    && r.agent.seen.Some? && IsFresh(r.agent.seen.value, r.clock)
    && (j.baselineSeen.None? || Later(r.agent.seen.value, j.baselineSeen.value))
  }

  /** A fresh heartbeat of the baseline build, strictly after the pinned baseline. */
  predicate BaselineVerified(j: Job, r: Reading) {
    && j.baselineSeen.Some? && j.baselineBuild.Some?
    && r.agent.build == j.baselineBuild
    && r.agent.seen.Some? && IsFresh(r.agent.seen.value, r.clock)
    && Later(r.agent.seen.value, j.baselineSeen.value)
  }

  function Ending(state: State, verdict: Verdict, reported: Option<string>, heartbeat: Option<string>, now: int): Patch {
    NOTHING.(state := Some(state), completedAt := Some(now), result := Some(Ruling(verdict, reported, heartbeat, now)))
  }

  function ClaimPatch(j: Job, now: int, r: Reading): Option<Patch> {
    if IsTerminal(j.state) || (j.leaseUntil.Some? && now <= j.leaseUntil.value) then None
    else Some(NOTHING.(state := Some(if j.state.Queued? then Claimed else j.state),
                       token := Some(j.token + 1),
                       reclaims := Some(if j.claimedAt.Some? then j.reclaims + 1 else j.reclaims),
                       claimedAt := Some(OrElse(j.claimedAt, now)),
                       leaseUntil := Some(now + LEASE_TTL),
                       baselineBuild := if j.baselineBuild.None? && r.agent.build.Some? && |r.agent.build.value| > 0
                                        then r.agent.build else None))
  }

  function ProgressPatch(j: Job, c: Call, r: Reading): Option<Patch>
    requires c.Progress?
  {
    if !IsPhase(c.phase) || IsTerminal(j.state) || !LeaseHeld(j, c.held, c.now) then None
    else Some(NOTHING.(state := Some(c.phase), progress := c.percent, message := c.note,
                       leaseUntil := Some(c.now + LEASE_TTL),
                       phaseDeadline := Some(c.now + PhaseTimeout(c.phase)),
                       baselineSeen := if c.phase.Restarting? && j.baselineSeen.None?
                                       then Some(OrElse(r.agent.seen, At(c.now))) else None))
  }

  function RollbackPatch(j: Job, c: Call, r: Reading): Patch
    requires c.Result?
  {
    if BaselineVerified(j, r) then
      Ending(RolledBack, RolledBackV, c.reported, r.agent.build, c.now).(error := Some(None))
    else
      Ending(RollbackUnverified, RollbackUnverifiedV, c.reported, None, c.now).(error := Some(Some(RollbackNotVerified)))
  }

  function SucceededPatch(reported: Option<string>, r: Reading, now: int): Patch {
    Ending(Succeeded, SucceededV, reported, r.agent.build, now).(progress := Some(Some(100)))
  }

  function ResultPatch(j: Job, c: Call, r: Reading): Option<Patch>
    requires c.Result?
  {
    if IsTerminal(j.state) then
      if j.state.RollbackUnverified? && c.verdict.RolledBackV? then Some(RollbackPatch(j, c, r)) else None
    else if !LeaseHeld(j, c.held, c.now) then None
    else match c.verdict
      case FailedV =>
        if IsPostSwap(j.state) then
          Some(Ending(RollbackUnverified, RollbackUnverifiedV, c.reported, None, c.now).(error := Some(Some(PostSwapFailed))))
        else
          Some(Ending(JobFailed, FailedV, c.reported, None, c.now).(error := Some(Some(UpdateFailed))))
      case RollbackUnverifiedV =>
        Some(Ending(RollbackUnverified, RollbackUnverifiedV, c.reported, None, c.now).(error := Some(Some(RollbackNotVerified))))
      case RolledBackV => Some(RollbackPatch(j, c, r))
      case SucceededV => if Confirmed(j, r) then Some(SucceededPatch(c.reported, r, c.now)) else None
  }

  /** Missed deadlines fail a job before the swap; at or after it they only ask for attention. */
  function DeadlineRuling(s: State): Option<(State, Verdict, ErrorCode)> {
    match s
    case Queued => Some((JobFailed, FailedV, ClaimTimeout))
    case Claimed => Some((JobFailed, FailedV, PhaseMissed))
    case Downloading => Some((JobFailed, FailedV, PhaseMissed))
    case Verifying => Some((JobFailed, FailedV, PhaseMissed))
    case Staging => Some((JobFailed, FailedV, PhaseMissed))
    case Restarting => Some((RollbackUnverified, RollbackUnverifiedV, SwapUnconfirmed))
    case AwaitingHeartbeat => Some((RollbackUnverified, RollbackUnverifiedV, HeartbeatTimeout))
    case RollingBack => Some((RollbackUnverified, RollbackUnverifiedV, RollbackTimeout))
    case _ => None
  }

  function ReconcilePatch(j: Job, now: int, r: Reading): Option<Patch> {
    if IsTerminal(j.state) then None
    else if (j.state.AwaitingHeartbeat? || j.state.Restarting?) && Confirmed(j, r) then
      Some(SucceededPatch(None, r, now))
    else if !(j.phaseDeadline.Some? && now > j.phaseDeadline.value) && !(now > j.deadline) then None
    else
      match DeadlineRuling(j.state)
      case None => None
      case Some((state, verdict, code)) => Some(Ending(state, verdict, None, None, now).(error := Some(Some(code))))
  }

  /** The patch one attempt of a call computes from the job and agent state it read, if it writes at all. */
  function PatchOf(c: Call, j: Job, r: Reading): Option<Patch> {
    match c
    case Claim(now) => ClaimPatch(j, now, r)
    case Progress(_, _, _, _, _) => ProgressPatch(j, c, r)
    case Result(_, _, _, _) => ResultPatch(j, c, r)
    case Reconcile(now) => ReconcilePatch(j, now, r)
  }
}
