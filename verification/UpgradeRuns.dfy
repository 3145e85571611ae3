/**
 * Any number of concurrent callers over one job. Reading the job, reading the
 * agent's state and the compare-and-set are separate steps, freely interleaved.
 */
module UpgradeRuns {
  import opened Options
  import opened UpgradeJob

  /** How far a caller's current attempt has come; abandoning an attempt is allowed at any time. */
  datatype Caller =
    | HasJob(call: Call, job: Job)
    | HasBoth(call: Call, job: Job, reading: Reading)

  /** One write that took effect: who made it, what it had read, and the row before and after. */
  datatype Write = Write(call: Call, reading: Reading, before: Job, after: Job)

  datatype System = System(job: Job, callers: map<nat, Caller>, log: seq<Write>)

  datatype Step =
    | ReadJob(caller: nat, call: Call)
    | ReadAgent(caller: nat, reading: Reading)
    | CompareAndSet(caller: nat)

  function Next(s: System, step: Step): System {
    match step
    case ReadJob(c, call) => s.(callers := s.callers[c := HasJob(call, s.job)])
    case ReadAgent(c, reading) =>
      if c in s.callers && s.callers[c].HasJob? then
        s.(callers := s.callers[c := HasBoth(s.callers[c].call, s.callers[c].job, reading)])
      else s
    case CompareAndSet(c) =>
      if c in s.callers && s.callers[c].HasBoth? then
        var a := s.callers[c];
        var patch := PatchOf(a.call, a.job, a.reading);
        if patch.Some? && a.job.revision == s.job.revision then
          var after := Merge(s.job, patch.value);
          System(after, s.callers - {c}, s.log + [Write(a.call, a.reading, s.job, after)])
        else s.(callers := s.callers - {c})
      else s
  }

  function Run(first: Job, steps: seq<Step>): System {
    if steps == [] then System(first, map[], [])
    else Next(Run(first, steps[..|steps| - 1]), steps[|steps| - 1])
  }

  // ---- the compare-and-set makes every write atomic ----

  /** The write is what its call does to the very row it replaced, as if read and write were one step. */
  predicate Atomic(w: Write) {
    var p := PatchOf(w.call, w.before, w.reading);
    p.Some? && w.after == Merge(w.before, p.value)
  }

  predicate AllAtomic(log: seq<Write>) {
    forall i :: 0 <= i < |log| ==> Atomic(log[i])
  }

  /** The row after the first `i` writes. */
  function RowAt(first: Job, log: seq<Write>, i: nat): Job
    requires i <= |log|
  {
    if i == 0 then first else log[i - 1].after
  }

  /** Writes follow one another without a gap from the first row to the last. */
  predicate Chain(first: Job, log: seq<Write>, last: Job) {
    && (forall i :: 0 <= i < |log| ==> log[i].before == RowAt(first, log, i))
    && last == RowAt(first, log, |log|)
  }

  /** A row a caller still holds is either the current one or an older revision. */
  predicate Snapshots(job: Job, callers: map<nat, Caller>) {
    forall c :: c in callers ==> callers[c].job.revision < job.revision || callers[c].job == job
  }

  lemma ChainGrows(first: Job, log: seq<Write>, last: Job, w: Write)
    requires Chain(first, log, last) && w.before == last
    ensures Chain(first, log + [w], w.after)
  {
    var t := log + [w];
    forall i | 0 <= i < |t| ensures t[i].before == RowAt(first, t, i) {
      if i < |log| { assert log[i].before == RowAt(first, log, i); }
    }
  }

  lemma AtomicGrows(log: seq<Write>, w: Write)
    requires AllAtomic(log) && Atomic(w)
    ensures AllAtomic(log + [w])
  {}

  /** A successful compare-and-set writes what its call does to the current row. */
  lemma WriteIsAtomic(s: System, c: nat)
    requires Snapshots(s.job, s.callers) && c in s.callers && s.callers[c].HasBoth?
    requires PatchOf(s.callers[c].call, s.callers[c].job, s.callers[c].reading).Some?
    requires s.callers[c].job.revision == s.job.revision
    ensures var a := s.callers[c];
            Atomic(Write(a.call, a.reading, s.job, Merge(s.job, PatchOf(a.call, a.job, a.reading).value)))
  {
    assert s.callers[c].job == s.job;
  }

  lemma SnapshotsAge(job: Job, callers: map<nat, Caller>, after: Job, c: nat)
    requires Snapshots(job, callers) && job.revision < after.revision
    ensures Snapshots(after, callers - {c})
  {}

  lemma NextKeeps(first: Job, s: System, step: Step)
    requires Snapshots(s.job, s.callers) && Chain(first, s.log, s.job) && AllAtomic(s.log)
    ensures var t := Next(s, step);
            Snapshots(t.job, t.callers) && Chain(first, t.log, t.job) && AllAtomic(t.log)
  {
    if step.CompareAndSet? && step.caller in s.callers && s.callers[step.caller].HasBoth? {
      var a := s.callers[step.caller];
      var patch := PatchOf(a.call, a.job, a.reading);
      if patch.Some? && a.job.revision == s.job.revision {
        var after := Merge(s.job, patch.value);
        var w := Write(a.call, a.reading, s.job, after);
        WriteIsAtomic(s, step.caller);
        AtomicGrows(s.log, w);
        ChainGrows(first, s.log, s.job, w);
        SnapshotsAge(s.job, s.callers, after, step.caller);
      }
    }
  }

  /** Under any interleaving the job's history is a chain of atomic writes. */
  lemma {:induction false} InterleavingsAreAtomic(first: Job, steps: seq<Step>)
    ensures var s := Run(first, steps);
            Snapshots(s.job, s.callers) && Chain(first, s.log, s.job) && AllAtomic(s.log)
  {
    if steps != [] {
      InterleavingsAreAtomic(first, steps[..|steps| - 1]);
      NextKeeps(first, Run(first, steps[..|steps| - 1]), steps[|steps| - 1]);
    }
  }

  // ---- what one atomic write does ----

  predicate FromUpdater(w: Write) { w.call.Progress? || w.call.Result? }

  /** A late rolled_back report about a job already ruled rollback_unverified. */
  predicate IsRefinement(w: Write) {
    w.before.state.RollbackUnverified? && w.call.Result? && w.call.verdict.RolledBackV?
  }

  /** Only a claim changes the fencing token, raising it by one; other updater writes hold the current one. */
  predicate Fenced(w: Write) {
    && w.after.token == w.before.token + (if w.call.Claim? then 1 else 0)
    && w.after.revision == w.before.revision + 1
    && (FromUpdater(w) && !IsRefinement(w) ==> w.call.held == w.before.token && !IsTerminal(w.before.state))
  }

  /** Final states take no write, rollback_unverified only its refinement, and no post-swap state fails. */
  predicate AllowedMove(a: State, b: State) {
    && !a.Succeeded? && !a.RolledBack? && !a.JobFailed?
    && (a.RollbackUnverified? ==> b.RolledBack? || b.RollbackUnverified?)
    && (IsPostSwap(a) ==> !b.JobFailed?)
  }

  /** Success and verified rollback rest on the heartbeat the call had read. */
  predicate Evidenced(w: Write) {
    && (w.after.state.Succeeded? ==>
          Confirmed(w.before, w.reading) && w.after.result.Some? && w.after.result.value.heartbeat == Some(w.before.releaseBuild))
    && (w.after.state.RolledBack? ==>
          && w.call.Result? && BaselineVerified(w.before, w.reading)
          && w.after.result.Some? && w.after.result.value.heartbeat == w.before.baselineBuild)
  }

  /** An accepted report of the restarting phase. */
  predicate Restarts(w: Write) { w.call.Progress? && w.call.phase.Restarting? }

  /** The baseline heartbeat is set only by an accepted restarting report, and only once. */
  predicate Pins(w: Write) {
    && w.after.baselineSeen ==
         (if w.before.baselineSeen.Some? then w.before.baselineSeen
          else if Restarts(w) then Some(OrElse(w.reading.agent.seen, At(w.call.now)))
          else None)
    && (w.before.baselineBuild.Some? ==> w.after.baselineBuild == w.before.baselineBuild)
    && w.after.deadline == w.before.deadline && w.after.releaseBuild == w.before.releaseBuild
  }

  predicate Lawful(w: Write) {
    Fenced(w) && AllowedMove(w.before.state, w.after.state) && Evidenced(w) && Pins(w)
  }

  lemma ProgressIsLawful(w: Write)
    requires Atomic(w) && w.call.Progress?
    ensures Lawful(w)
  {}

  lemma ResultIsLawful(w: Write)
    requires Atomic(w) && w.call.Result?
    ensures Lawful(w)
  {}

  lemma AtomicIsLawful(w: Write)
    requires Atomic(w)
    ensures Lawful(w)
  {
    if w.call.Progress? { ProgressIsLawful(w); }
    else if w.call.Result? { ResultIsLawful(w); }
  }

  /** The i-th write is lawful and starts from the row the one before it left. */
  predicate Link(first: Job, log: seq<Write>, i: nat)
    requires i < |log|
  {
    log[i].before == RowAt(first, log, i) && Lawful(log[i])
  }

  /** A chain of lawful writes. */
  predicate History(first: Job, log: seq<Write>, last: Job) {
    (forall i {:trigger Link(first, log, i)} :: 0 <= i < |log| ==> Link(first, log, i)) && last == RowAt(first, log, |log|)
  }

  lemma RunIsHistory(first: Job, steps: seq<Step>)
    ensures History(first, Run(first, steps).log, Run(first, steps).job)
  {
    InterleavingsAreAtomic(first, steps);
    var log := Run(first, steps).log;
    forall i | 0 <= i < |log| ensures Link(first, log, i) {
      AtomicIsLawful(log[i]);
    }
  }

  // ---- fencing ----

  lemma {:induction false} TokensRise(first: Job, log: seq<Write>, last: Job, i: nat, j: nat)
    requires History(first, log, last) && i <= j <= |log|
    ensures RowAt(first, log, i).token <= RowAt(first, log, j).token
    ensures RowAt(first, log, j).revision == RowAt(first, log, i).revision + (j - i)
  {
    if i < j {
      TokensRise(first, log, last, i, j - 1);
      assert Link(first, log, j - 1);
    }
  }

  /**
   * Fencing: after a claim raised the token, no progress write and no first
   * terminal result with an older token takes effect; only the late rolled_back
   * refinement of rollback_unverified is exempt.
   */
  lemma Fencing(first: Job, steps: seq<Step>, i: nat, j: nat)
    requires i < j < |Run(first, steps).log|
    requires Run(first, steps).log[i].call.Claim?
    requires FromUpdater(Run(first, steps).log[j]) && !IsRefinement(Run(first, steps).log[j])
    ensures Run(first, steps).log[j].call.held >= Run(first, steps).log[i].after.token
    ensures Run(first, steps).log[i].after.token == Run(first, steps).log[i].before.token + 1
  {
    var s := Run(first, steps);
    RunIsHistory(first, steps);
    TokensRise(first, s.log, s.job, i + 1, j);
    assert Link(first, s.log, i) && Link(first, s.log, j);
  }

  // ---- terminal stability ----

  lemma NextMove(first: Job, log: seq<Write>, last: Job, i: nat)
    requires History(first, log, last) && i < |log|
    ensures AllowedMove(RowAt(first, log, i).state, log[i].after.state)
  {
    assert Link(first, log, i);
  }

  /** Once succeeded, rolled_back or failed, the record never changes again. */
  lemma FinalRecordsFrozen(first: Job, steps: seq<Step>, i: nat)
    requires i <= |Run(first, steps).log|
    requires var s := RowAt(first, Run(first, steps).log, i).state; s.Succeeded? || s.RolledBack? || s.JobFailed?
    ensures i == |Run(first, steps).log| && Run(first, steps).job == RowAt(first, Run(first, steps).log, i)
  {
    RunIsHistory(first, steps);
    var log := Run(first, steps).log;
    if i < |log| { NextMove(first, log, Run(first, steps).job, i); }
  }

  /** rollback_unverified moves only to rolled_back or itself, and never becomes anything else. */
  lemma {:induction false} UnverifiedStays(first: Job, log: seq<Write>, last: Job, i: nat, j: nat)
    requires History(first, log, last) && i <= j <= |log|
    requires RowAt(first, log, i).state.RollbackUnverified?
    ensures var s := RowAt(first, log, j).state; s.RollbackUnverified? || s.RolledBack?
  {
    if i < j {
      UnverifiedStays(first, log, last, i, j - 1);
      assert Link(first, log, j - 1);
    }
  }

  /**
   * No write moves a job from a post-swap state to failed, even when its caller
   * had read the job in an earlier pre-swap state.
   */
  lemma NoFailureAfterSwap(first: Job, steps: seq<Step>, k: nat)
    requires k < |Run(first, steps).log|
    ensures var w := Run(first, steps).log[k];
            && w.before == RowAt(first, Run(first, steps).log, k)
            && AllowedMove(w.before.state, w.after.state)
  {
    RunIsHistory(first, steps);
    assert Link(first, Run(first, steps).log, k);
  }

  // ---- deadlines ----

  /** A job past its overall deadline leaves reconcile no choice: it writes an end, and its write is judged on the current row. */
  lemma DeadlineEnds(j: Job, now: int, r: Reading)
    requires !IsTerminal(j.state) && now > j.deadline
    ensures PatchOf(Reconcile(now), j, r).Some?
    ensures var after := Merge(j, PatchOf(Reconcile(now), j, r).value);
            && IsTerminal(after.state) && after.result.Some? && after.completedAt == Some(now)
            && (after.state.Succeeded? ==> Confirmed(j, r))
            && (after.state.JobFailed? <==> !IsPostSwap(j.state))
  {}

  /** The deadline and the release build are fixed at creation. */
  lemma {:induction false} FixedFields(first: Job, log: seq<Write>, last: Job, i: nat)
    requires History(first, log, last) && i <= |log|
    ensures RowAt(first, log, i).deadline == first.deadline
    ensures RowAt(first, log, i).releaseBuild == first.releaseBuild
  {
    if i > 0 {
      FixedFields(first, log, last, i - 1);
      assert Link(first, log, i - 1);
    }
  }

  /**
   * A caller reconciling past the overall deadline either ends the job by its
   * compare-and-set, or another caller wrote the job since it was read.
   */
  lemma ReconcileEndsOrLoses(first: Job, steps: seq<Step>, c: nat)
    requires var s := Run(first, steps);
             && c in s.callers && s.callers[c].HasBoth? && s.callers[c].call.Reconcile?
             && s.callers[c].call.now > first.deadline && !IsTerminal(s.callers[c].job.state)
    ensures var s, t := Run(first, steps), Next(Run(first, steps), CompareAndSet(c));
            || (IsTerminal(t.job.state) && t.log == s.log + [Write(s.callers[c].call, s.callers[c].reading, s.job, t.job)])
            || s.callers[c].job.revision < s.job.revision
  {
    RunIsHistory(first, steps);
    InterleavingsAreAtomic(first, steps);
    var s := Run(first, steps);
    FixedFields(first, s.log, s.job, |s.log|);
    if s.callers[c].job == s.job {
      DeadlineEnds(s.job, s.callers[c].call.now, s.callers[c].reading);
    }
  }

  // ---- heartbeat evidence ----

  /** The write that ended the job, when it ended as succeeded or rolled back. */
  lemma EndedByLast(first: Job, log: seq<Write>, last: Job)
    requires History(first, log, last) && first.state.Queued?
    requires last.state.Succeeded? || last.state.RolledBack?
    ensures |log| > 0 && log[|log| - 1].after == last && Link(first, log, |log| - 1)
  {
    assert |log| > 0;
    assert Link(first, log, |log| - 1);
  }

  /** The write that ended a succeeded or rolled-back job, and the row it was judged on. */
  lemma EndingWrite(first: Job, steps: seq<Step>) returns (w: Write)
    requires first.state.Queued?
    requires var j := Run(first, steps).job; j.state.Succeeded? || j.state.RolledBack?
    ensures |Run(first, steps).log| > 0 && w == Run(first, steps).log[|Run(first, steps).log| - 1]
    ensures w.after == Run(first, steps).job && Evidenced(w) && Pins(w) && w.before.releaseBuild == first.releaseBuild
  {
    RunIsHistory(first, steps);
    var s := Run(first, steps);
    EndedByLast(first, s.log, s.job);
    FixedFields(first, s.log, s.job, |s.log| - 1);
    w := s.log[|s.log| - 1];
  }

  /**
   * Every succeeded job rests on a fresh heartbeat of the release build, later than
   * the pinned baseline when there is one.
   */
  lemma SuccessRestsOnHeartbeat(first: Job, steps: seq<Step>)
    requires first.state.Queued? && Run(first, steps).job.state.Succeeded?
    ensures |Run(first, steps).log| > 0
    ensures var r, j := Run(first, steps).log[|Run(first, steps).log| - 1].reading, Run(first, steps).job;
            && r.agent.build == Some(first.releaseBuild)
            && r.agent.seen.Some? && IsFresh(r.agent.seen.value, r.clock)
            && (j.baselineSeen.Some? ==> Later(r.agent.seen.value, j.baselineSeen.value))
  {
    var w := EndingWrite(first, steps);
    assert Confirmed(w.before, w.reading);
  }

  /** Every rolled_back job rests on a fresh heartbeat of the baseline build strictly after a pinned baseline. */
  lemma RollbackRestsOnHeartbeat(first: Job, steps: seq<Step>)
    requires first.state.Queued? && Run(first, steps).job.state.RolledBack?
    ensures |Run(first, steps).log| > 0
    ensures var r, j := Run(first, steps).log[|Run(first, steps).log| - 1].reading, Run(first, steps).job;
            && j.baselineBuild.Some? && r.agent.build == j.baselineBuild
            && j.baselineSeen.Some? && r.agent.seen.Some? && IsFresh(r.agent.seen.value, r.clock)
            && Later(r.agent.seen.value, j.baselineSeen.value)
  {
    var w := EndingWrite(first, steps);
    assert BaselineVerified(w.before, w.reading);
  }

  // ---- the baseline ----

  /** Writes before the first accepted restarting report. */
  predicate NoneRestarts(log: seq<Write>, n: nat)
    requires n <= |log|
  {
    forall i :: 0 <= i < n ==> !Restarts(log[i])
  }

  lemma {:induction false} BaselineUnpinned(first: Job, log: seq<Write>, last: Job, n: nat)
    requires History(first, log, last) && n <= |log| && first.baselineSeen.None? && NoneRestarts(log, n)
    ensures RowAt(first, log, n).baselineSeen.None?
  {
    if n > 0 {
      BaselineUnpinned(first, log, last, n - 1);
      assert Link(first, log, n - 1);
    }
  }

  lemma {:induction false} BaselineKept(first: Job, log: seq<Write>, last: Job, i: nat, j: nat)
    requires History(first, log, last) && i <= j <= |log| && RowAt(first, log, i).baselineSeen.Some?
    ensures RowAt(first, log, j).baselineSeen == RowAt(first, log, i).baselineSeen
  {
    if i < j {
      BaselineKept(first, log, last, i, j - 1);
      assert Link(first, log, j - 1);
    }
  }

  /** The baseline heartbeat is pinned by the first accepted restarting report and never changes afterwards. */
  lemma BaselinePinnedOnce(first: Job, steps: seq<Step>, n: nat, j: nat)
    requires first.baselineSeen.None? && n < j <= |Run(first, steps).log|
    requires NoneRestarts(Run(first, steps).log, n) && Restarts(Run(first, steps).log[n])
    ensures var log := Run(first, steps).log;
            && RowAt(first, log, n).baselineSeen.None?
            && RowAt(first, log, j).baselineSeen == Some(OrElse(log[n].reading.agent.seen, At(log[n].call.now)))
  {
    RunIsHistory(first, steps);
    var s := Run(first, steps);
    BaselineUnpinned(first, s.log, s.job, n);
    assert Link(first, s.log, n);
    BaselineKept(first, s.log, s.job, n + 1, j);
  }

  /** Without an accepted restarting report nothing is pinned, so no job can end rolled_back. */
  lemma NoRestartNoRollback(first: Job, steps: seq<Step>)
    requires first.state.Queued? && first.baselineSeen.None?
    requires NoneRestarts(Run(first, steps).log, |Run(first, steps).log|)
    ensures Run(first, steps).job.baselineSeen.None? && !Run(first, steps).job.state.RolledBack?
  {
    RunIsHistory(first, steps);
    var s := Run(first, steps);
    BaselineUnpinned(first, s.log, s.job, |s.log|);
    if s.job.state.RolledBack? { RollbackRestsOnHeartbeat(first, steps); }
  }
}
