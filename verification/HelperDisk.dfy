/**
 * The root helper's files as values: the installed binary, its temporary copies,
 * the backups and the helper journal, with the invariant every reachable disk keeps.
 */
module HelperDisk {
  import opened Options

  /** A file's content, identified by its hash. */
  type Sha = nat
  type JobId = nat

  datatype Phase = Intent | Renamed | Restarted | RolledBack

  /** `prior` is None when there was nothing to back up; `backedUp` says a backup path is recorded. */
  datatype Journal = Journal(job: JobId, phase: Phase, prior: Option<Sha>, target: Sha, backedUp: bool)

  datatype Disk = Disk(binary: Option<Sha>, incoming: map<JobId, Sha>, restore: map<JobId, Sha>,
                       backups: map<JobId, Sha>, journal: Option<Journal>)

  /**
   * What happened so far, beyond what the disk shows. `swaps` counts how often each
   * job's new binary was renamed in, and `lapses` how often the disk stopped showing
   * that it was: the job's record gave way to another job's without a backup of it, its
   * cleanup started, or it was recorded anew over a binary misread as absent although
   * its backup exists. The other marks are about the recorded job: whether its binary
   * was misread as absent when its intent was recorded, whether its cleanup started,
   * and whether a restore's rename is not yet recorded as rolled_back.
   */
  datatype Marks = Marks(swaps: multiset<JobId>, lapses: multiset<JobId>,
                         misread: bool, cleaning: bool, unrecorded: bool)

  predicate JournalOf(d: Disk, job: JobId) { d.journal.Some? && d.journal.value.job == job }

  /** The installed binary is the recorded old or new one. */
  predicate OldOrNew(d: Disk, hj: Journal) { d.binary == Some(hj.target) || d.binary == hj.prior }

  /** What the helper journal promises about the rest of the disk. */
  predicate JournalHolds(d: Disk, m: Marks, hj: Journal) {
    && (if m.misread then hj.prior.None? && d.binary.Some? else OldOrNew(d, hj))
    && (hj.phase.RolledBack? ==> hj.prior.Some? && d.binary == hj.prior)
    && (hj.phase.Renamed? || hj.phase.Restarted? ==> d.binary == Some(hj.target) || (m.unrecorded && d.binary == hj.prior))
    && (hj.backedUp && hj.prior.Some? && !m.cleaning ==>
          hj.job in d.backups && d.backups[hj.job] == hj.prior.value)
    && (!hj.backedUp ==> hj.prior == Some(hj.target))
  }

  /** The disk itself keeps the job from swapping again: it has a record or a backup. */
  predicate Guarded(d: Disk, job: JobId) { JournalOf(d, job) || job in d.backups }

  /** A job's swaps, except for one it is guarded against repeating, are made up for by lapses. */
  predicate SwapsHold(d: Disk, m: Marks, job: JobId) {
    m.swaps[job] <= m.lapses[job] + (if Guarded(d, job) then 1 else 0)
  }

  ghost predicate Inv(d: Disk, m: Marks) {
    && (d.journal.Some? ==> JournalHolds(d, m, d.journal.value))
    && (forall job :: SwapsHold(d, m, job))
    && (m.swaps != multiset{} ==> d.binary.Some?)
  }

  /** The job whose record is about to give way to another one's without a backup of it. */
  function Displaced(d: Disk, job: JobId): multiset<JobId> {
    if d.journal.Some? && d.journal.value.job != job && d.journal.value.job !in d.backups
    then multiset{d.journal.value.job} else multiset{}
  }

  /** The intent names no old binary although one is installed. */
  predicate Misreads(d: Disk, hj: Journal) { hj.phase.Intent? && hj.prior.None? && d.binary.Some? }

  /** Marks after a journal record takes the place of another job's, of none, or of an earlier one of its job. */
  function Recorded(d: Disk, m: Marks, hj: Journal): Marks {
    if JournalOf(d, hj.job) then m.(unrecorded := m.unrecorded && !hj.phase.RolledBack?)
    else m.(lapses := m.lapses + Displaced(d, hj.job)
                      + (if Misreads(d, hj) && hj.job in d.backups then multiset{hj.job} else multiset{}),
            misread := Misreads(d, hj), cleaning := false, unrecorded := false)
  }

  // ---- what the daemon concludes from the disk ----

  datatype Decision = Adopt | FailPreSwap | RollingBack | Hold

  /** daemon.reconcile for a readable binary and a helper journal of this job. */
  function DaemonReconcile(actual: Sha, hj: Journal): Decision {
    if actual == hj.target && !hj.phase.RolledBack? then Adopt
    else if Some(actual) == hj.prior && hj.phase.Intent? then FailPreSwap
    else if Some(actual) == hj.prior && hj.phase.RolledBack? then RollingBack
    else Hold
  }

  /**
   * The daemon acts in agreement with the installed binary, and holds exactly when the
   * binary is neither the recorded old nor new one, which needs a binary misread as
   * absent, or when the old one is installed while the journal still says renamed or
   * restarted, which needs a restore whose rolled_back record was not or never written.
   */
  lemma DaemonAgrees(d: Disk, m: Marks)
    requires Inv(d, m) && d.journal.Some? && d.binary.Some?
    ensures var hj, actual := d.journal.value, d.binary.value;
            var decision := DaemonReconcile(actual, hj);
            && (decision.Adopt? <==> actual == hj.target && !hj.phase.RolledBack?)
            && (decision.FailPreSwap? <==> actual != hj.target && hj.prior == Some(actual) && hj.phase.Intent?)
            && (decision.RollingBack? <==> hj.prior == Some(actual) && hj.phase.RolledBack?)
            && (decision.Hold? <==>
                  || (actual != hj.target && hj.prior != Some(actual))
                  || (actual != hj.target && hj.prior == Some(actual) && (hj.phase.Renamed? || hj.phase.Restarted?)))
            && (decision.Hold? ==> if hj.prior == Some(actual) then m.unrecorded else m.misread && hj.phase.Intent?)
  {
    assert JournalHolds(d, m, d.journal.value);
  }

  /**
   * What an operator may rely on. No job's new binary is renamed in more often than once
   * plus its lapses. For the recorded job the old or the new binary is installed unless
   * it was misread as absent, a replaced binary has its backup until cleanup starts,
   * rolled_back means old is installed, and the daemon holds only a misread binary before
   * its swap or an unrecorded restore.
   */
  ghost predicate Safe(d: Disk, m: Marks) {
    && (forall job :: m.swaps[job] <= 1 + m.lapses[job])
    && (d.journal.Some? ==>
          var hj := d.journal.value;
          && (!m.misread || !hj.phase.Intent? ==> OldOrNew(d, hj))
          && (d.binary == Some(hj.target) && hj.prior.Some? && hj.prior.value != hj.target && !m.cleaning ==>
                hj.job in d.backups && d.backups[hj.job] == hj.prior.value)
          && (hj.phase.RolledBack? ==> hj.prior.Some? && d.binary == hj.prior)
          && (d.binary.Some? && DaemonReconcile(d.binary.value, hj).Hold? ==>
                m.unrecorded || (m.misread && hj.phase.Intent?)))
  }

  lemma RecordedJobIsSafe(d: Disk, m: Marks)
    requires Inv(d, m)
    ensures Safe(d, m)
  {
    forall job ensures m.swaps[job] <= 1 + m.lapses[job] {
      assert SwapsHold(d, m, job);
    }
    if d.journal.Some? { assert JournalHolds(d, m, d.journal.value); }
  }
}
