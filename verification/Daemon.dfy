/**
 * The unprivileged daemon's reading of the disk after a crash, what it makes of the
 * helper's outcomes, and when it lets the backup go.
 */
module Daemon {
  import opened Options
  import opened HelperDisk
  import Helper

  datatype JobPhase = Downloading | Verifying | Staging | RestartingPhase | AwaitingHeartbeat | RollingBackPhase | Terminal

  datatype Ruling = RuledSucceeded | RuledRolledBack | RuledFailed | RuledUnverified | RuledUnknown

  /** What reconcile finds on disk: the helper journal, the binary if readable, and the apply request and result. */
  datatype Facts = Facts(helper: Option<Journal>, actual: Option<Sha>, pending: bool, applied: Option<Option<Helper.Outcome>>)

  /** How reconcile ends: carry on, ask the helper (again), report a failure, hold the job, or give up for now. */
  datatype Next = CarryOn | Ask | Fail | Held | Unreadable

  /** The daemon's journal entry for its one job, as far as these decisions read it. */
  class Job {
    const id: JobId
    /** The signed target of the manifest, if usable, and the server-issued one. */
    const manifestTarget: Option<Sha>
    const issuedTarget: Option<Sha>
    var phase: JobPhase
    var swapRequested: bool
    var requiresReconcile: bool
    var postSwap: bool
    var hold: bool
    var prior: Option<Sha>
    var target: Option<Sha>

    constructor (id: JobId, manifestTarget: Option<Sha>, issuedTarget: Option<Sha>, requiresReconcile: bool)
      ensures this.id == id && !postSwap && !hold && this.requiresReconcile == requiresReconcile && !swapRequested
    {
      this.id, this.manifestTarget, this.issuedTarget := id, manifestTarget, issuedTarget;
      this.requiresReconcile := requiresReconcile;
      phase, swapRequested, postSwap, hold := Downloading, false, false, false;
      prior, target := None, None;
    }

    /** The build the binary is compared with when the root record is missing. */
    function Expected(): Option<Sha>
      reads this
    {
      if target.Some? then target else if manifestTarget.Some? then manifestTarget else issuedTarget
    }

    /** The helper's record, if it is about this job. */
    function Own(f: Facts): Option<Journal> {
      if f.helper.Some? && f.helper.value.job == id then f.helper else None
    }

    /** The swap may have been asked for: it was requested here, or the server says so. */
    predicate Claimed()
      reads this
    {
      swapRequested || requiresReconcile
    }

    /** A readable binary that is not the build the job is to install, as far as any record tells. */
    predicate Replaceable(f: Facts)
      reads this
    {
      && f.actual.Some?
      && f.actual != (if target.Some? then target else if manifestTarget.Some? then manifestTarget else issuedTarget)
    }

    method HoldJob()
      modifies this
      ensures hold && phase == Terminal && postSwap == old(postSwap) && swapRequested == old(swapRequested)
      ensures requiresReconcile == old(requiresReconcile) && target == old(target) && prior == old(prior)
    {
      hold, phase := true, Terminal;
    }

    /**
     * With a record of its own the daemon follows the installed binary. Without one it
     * asks for the swap (again) only when nothing was ever mutated as far as the disk
     * shows; everything else that is not a plain resume is held as post-swap.
     */
    method Reconcile(f: Facts) returns (next: Next)
      modifies this
      ensures next.Held? ==> hold && postSwap && phase == Terminal
      ensures !next.Held? ==> hold == old(hold)
      ensures Own(f).Some? && f.actual.Some? ==>
                match DaemonReconcile(f.actual.value, Own(f).value)
                case Adopt => next.CarryOn? && postSwap && target == Some(f.actual.value) && prior == Own(f).value.prior
                case FailPreSwap => next.Fail? && postSwap == old(postSwap)
                case RollingBack => next.CarryOn? && postSwap && phase == RollingBackPhase
                case Hold => next.Held?
      ensures Own(f).None? ==>
                && (next.CarryOn? <==> !Claimed())
                && (next.Unreadable? <==> Claimed() && f.actual.None?)
                && (next.Fail? <==> Claimed() && old(Replaceable(f)) && !f.pending && f.applied == Some(Some(Helper.VerifyFailed)))
                && (next.Ask? <==> Claimed() && old(Replaceable(f)) && !requiresReconcile && (f.pending || f.applied.None?))
      ensures Own(f).Some? ==> !next.Ask? && (next.Unreadable? <==> f.actual.None?)
      ensures next.CarryOn? && Own(f).None? ==> phase == old(phase) && postSwap == old(postSwap)
      ensures next.Ask? ==> phase == RestartingPhase
      ensures next.Ask? || next.Fail? || next.Unreadable? ==> postSwap == old(postSwap)
    {
      var own := Own(f);
      if own.None? {
        if !swapRequested && !requiresReconcile { return CarryOn; }
        if f.actual.None? { return Unreadable; }
        var expected := Expected();
        if expected.Some? && f.actual == expected {
          postSwap := true;
          HoldJob();
          return Held;
        }
        if f.pending {
          if requiresReconcile {
            postSwap := true;
            HoldJob();
            return Held;
          }
          phase := RestartingPhase;
          return Ask;
        }
        if f.applied.Some? {
          if f.applied == Some(Some(Helper.VerifyFailed)) { return Fail; }
          postSwap := true;
          HoldJob();
          return Held;
        }
        if requiresReconcile {
          postSwap := true;
          HoldJob();
          return Held;
        }
        phase := RestartingPhase;
        return Ask;
      }
      var hj := own.value;
      if f.actual.None? { return Unreadable; }
      var actual := f.actual.value;
      if actual == hj.target && !hj.phase.RolledBack? {
        postSwap := true;
        prior, target := hj.prior, Some(hj.target);
        if phase.Downloading? || phase.Verifying? || phase.Staging? { phase := RestartingPhase; }
        return CarryOn;
      }
      if Some(actual) == hj.prior && hj.phase.Intent? { return Fail; }
      if Some(actual) == hj.prior && hj.phase.RolledBack? {
        postSwap, phase := true, RollingBackPhase;
        prior, target := hj.prior, Some(hj.target);
        return CarryOn;
      }
      postSwap := true;
      HoldJob();
      next := Held;
    }

    /** What the helper's answer to an apply request leads to. */
    method RunRestarting(r: Helper.Outcome, binary: Option<Sha>) returns (next: Next)
      modifies this
      ensures next.Fail? <==> r.RecoveredNoSwap? || r.VerifyFailed?
      ensures next.Fail? ==> postSwap == old(postSwap)
      ensures next.Held? ==> hold && postSwap
      ensures next.CarryOn? ==> postSwap
      ensures next.Held? <==> r.RestartFailedRollbackFailed? || r.Unclear?
      ensures next.CarryOn? <==> r.Restarted? || r.AlreadyCurrent? || r.RecoveredRestarted? || r.AutoRolledBack?
      ensures r.Restarted? || r.AlreadyCurrent? || r.RecoveredRestarted? ==>
                phase == AwaitingHeartbeat && target == if binary.Some? then binary else old(target)
      ensures r.AutoRolledBack? ==> phase == old(phase)
    {
      match r {
        case Restarted | AlreadyCurrent | RecoveredRestarted =>
          postSwap := true;
          if binary.Some? { target := binary; }
          phase := AwaitingHeartbeat;
          next := CarryOn;
        case RecoveredNoSwap => next := Fail;
        case AutoRolledBack =>
          postSwap := true;
          next := CarryOn;
        case RestartFailedRollbackFailed =>
          postSwap := true;
          HoldJob();
          next := Held;
        case VerifyFailed => next := Fail;
        case Unclear =>
          postSwap := true;
          HoldJob();
          next := Held;
        case _ => next := Unreadable;
      }
    }

    /**
     * The backup goes only on a ruling of success or rollback, or on a failure without
     * any local evidence of a swap; every other ruling retains it and halts.
     */
    method ConsumeWithRuling(ruling: Ruling) returns (cleanup: bool)
      modifies this
      ensures cleanup <==> ruling.RuledSucceeded? || ruling.RuledRolledBack? || (ruling.RuledFailed? && !old(postSwap))
      ensures !cleanup ==> hold && phase == Terminal
      ensures postSwap == old(postSwap)
    {
      match ruling {
        case RuledSucceeded => return true;
        case RuledRolledBack => return true;
        case RuledFailed =>
          if postSwap {
            HoldJob();
            return false;
          }
          return true;
        case RuledUnverified =>
          HoldJob();
          return false;
        case RuledUnknown =>
          HoldJob();
          return false;
      }
    }
  }

  /**
   * After a reconcile on any disk the helper can leave with a record of this job and a
   * readable binary, a ruling of failure lets the backup go only if the old binary is
   * the installed one.
   */
  method FailedCleanupNeedsOld(j: Job, d: Disk, ghost m: Marks, pending: bool, applied: Option<Option<Helper.Outcome>>)
    returns (cleanup: bool)
    requires Inv(d, m) && JournalOf(d, j.id) && d.binary.Some?
    modifies j
    ensures cleanup ==> d.binary == d.journal.value.prior && d.journal.value.phase.Intent?
  {
    DaemonAgrees(d, m);
    var _ := j.Reconcile(Facts(d.journal, d.binary, pending, applied));
    cleanup := j.ConsumeWithRuling(RuledFailed);
  }

  /**
   * From an apply request through the daemon's reading of its outcome to the ruling: if a
   * ruling of failure lets the backup go, that apply left the installed binary as it was.
   */
  method FailedApplyKeepsBinary(h: Helper.Host, j: Job, staged: Helper.Staged, answers: bool) returns (cleanup: bool)
    requires h.Good() && !j.postSwap
    modifies h, j
    ensures h.Good() && (cleanup ==> h.disk.binary == old(h.disk.binary))
  {
    var outcome := h.HandleApply(j.id, staged, answers);
    var _ := j.RunRestarting(outcome, h.disk.binary);
    cleanup := j.ConsumeWithRuling(RuledFailed);
  }
}
