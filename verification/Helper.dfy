/**
 * The privileged binary swap, one file operation at a time. Every operation may
 * fail without effect or take effect and report an error. A crash is a restart
 * from any disk the operations left on their way, so each handler is proved to
 * leave only disks that satisfy the invariant.
 */
module Helper {
  import opened Options
  import opened HelperDisk

  /** How one operation ends, and the hash of the partial file an interrupted copy leaves. */
  datatype Kind = Works | Fails | Misreports
  datatype Fate = Fate(kind: Kind, partial: Sha)

  /** The staged release: whether manifest and artifact checks pass, the signed hash, and the staged content. */
  datatype Staged = Staged(manifestValid: bool, signed: Sha, content: Sha, sizeMatches: bool, reportsBuild: bool)

  /** A staged release that passes every check. */
  predicate Genuine(s: Staged) { s.manifestValid && s.content == s.signed && s.sizeMatches && s.reportsBuild }

  datatype Outcome =
    | VerifyFailed | AlreadyCurrent | Restarted | AutoRolledBack | RestartFailedRollbackFailed | Unclear
    | RecoveredRestarted | RecoveredNoSwap | RolledBackOk | RollbackFailed | Cleaned | CleanupFailed

  /** What an apply request can come to. */
  predicate Applied(r: Outcome) {
    !r.RolledBackOk? && !r.RollbackFailed? && !r.Cleaned? && !r.CleanupFailed?
  }

  /**
   * A request that may rename the new binary in: a genuine release of a job without a
   * record, a leftover copy or, unless the existence check errs, a backup that would be made again.
   */
  predicate Swappable(d: Disk, job: JobId, s: Staged, answers: bool) {
    !JournalOf(d, job) && Genuine(s) && job !in d.incoming && Unblocked(d, job, answers)
  }

  /** No backup of the job is in the way of another one, as far as the existence check makes one. */
  predicate Unblocked(d: Disk, job: JobId, answers: bool) { answers && d.binary.Some? ==> job !in d.backups }

  /** A genuine release that is installed already. */
  predicate Current(d: Disk, job: JobId, s: Staged) {
    Genuine(s) && job !in d.incoming && d.binary == Some(s.signed)
  }

  function RecordOfCurrent(job: JobId, s: Staged): Journal {
    Journal(job, Phase.Restarted, Some(s.signed), s.signed, false)
  }

  /** A request that renames the new binary in if every operation works. */
  predicate WillSwap(d: Disk, job: JobId, s: Staged, answers: bool) {
    Swappable(d, job, s, answers) && d.binary != Some(s.signed)
  }

  /** The three places a file of the helper can be. */
  datatype Slot = FreshTmp(job: JobId) | RestoreTmp(job: JobId) | Backup(job: JobId)

  function At(d: Disk, s: Slot): Option<Sha> {
    match s
    case FreshTmp(j) => if j in d.incoming then Some(d.incoming[j]) else None
    case RestoreTmp(j) => if j in d.restore then Some(d.restore[j]) else None
    case Backup(j) => if j in d.backups then Some(d.backups[j]) else None
  }

  function Put(d: Disk, s: Slot, c: Sha): Disk {
    match s
    case FreshTmp(j) => d.(incoming := d.incoming[j := c])
    case RestoreTmp(j) => d.(restore := d.restore[j := c])
    case Backup(j) => d.(backups := d.backups[j := c])
  }

  /** Writing a temporary file, or a backup that the journal does not vouch for, keeps the invariant. */
  lemma PutKeeps(d: Disk, m: Marks, s: Slot, c: Sha)
    requires Inv(d, m) && (s.Backup? ==> !JournalOf(d, s.job))
    ensures Inv(Put(d, s, c), m)
  {
    forall job ensures SwapsHold(Put(d, s, c), m, job) {
      assert SwapsHold(d, m, job);
    }
  }

  lemma PutTwice(d: Disk, s: Slot, a: Sha, b: Sha)
    ensures Put(Put(d, s, a), s, b) == Put(d, s, b)
  {
    match s
    case FreshTmp(j) => assert d.incoming[j := a][j := b] == d.incoming[j := b];
    case RestoreTmp(j) => assert d.restore[j := a][j := b] == d.restore[j := b];
    case Backup(j) => assert d.backups[j := a][j := b] == d.backups[j := b];
  }

  function Drop(d: Disk, s: Slot): Disk
    requires !s.Backup?
  {
    match s
    case FreshTmp(j) => d.(incoming := d.incoming - {j})
    case RestoreTmp(j) => d.(restore := d.restore - {j})
  }

  lemma DropKeeps(d: Disk, m: Marks, s: Slot)
    requires Inv(d, m) && !s.Backup?
    ensures Inv(Drop(d, s), m)
  {
    forall job ensures SwapsHold(Drop(d, s), m, job) {
      assert SwapsHold(d, m, job);
    }
  }

  /** Reinstalling the recorded old binary keeps the invariant, with the restore marked as unrecorded. */
  lemma RestoreKeeps(d: Disk, m: Marks, hj: Journal)
    requires Inv(d, m) && d.journal.Some? && d.journal.value.(phase := hj.phase) == hj && hj.prior.Some?
    ensures Inv(Drop(d, RestoreTmp(hj.job)).(binary := hj.prior), m.(unrecorded := true))
  {
    var e, n := Drop(d, RestoreTmp(hj.job)).(binary := hj.prior), m.(unrecorded := true);
    forall job ensures SwapsHold(e, n, job) {
      assert SwapsHold(d, m, job);
    }
  }

  /** Moving the recorded job to another phase that the installed binary bears out. */
  lemma PhaseKeeps(d: Disk, m: Marks, hj: Journal, phase: Phase)
    requires Inv(d, m) && d.journal.Some? && d.journal.value.(phase := hj.phase) == hj
    requires phase.RolledBack? ==> hj.prior.Some? && d.binary == hj.prior
    requires phase.Renamed? || phase.Restarted? ==> d.binary == Some(hj.target)
    ensures var next := hj.(phase := phase);
            Inv(d.(journal := Some(next)), Recorded(d, m, next))
  {
    var next := hj.(phase := phase);
    var e, n := d.(journal := Some(next)), Recorded(d, m, next);
    forall job ensures SwapsHold(e, n, job) {
      assert SwapsHold(d, m, job);
    }
  }

  /** A job that may swap now: lapses make up for every swap so far. */
  predicate MaySwap(m: Marks, job: JobId) { m.swaps[job] <= m.lapses[job] }

  /** A job about to record its intent: a named old binary is installed and backed up. */
  predicate Prepared(d: Disk, m: Marks, job: JobId, prior: Option<Sha>) {
    && !JournalOf(d, job)
    && (prior.Some? ==> MaySwap(m, job) && d.binary == prior && job in d.backups && d.backups[job] == prior.value)
  }

  lemma IntentKeeps(d: Disk, m: Marks, job: JobId, prior: Option<Sha>, target: Sha)
    requires Inv(d, m) && Prepared(d, m, job, prior)
    ensures var hj := Journal(job, Intent, prior, target, true);
            Inv(d.(journal := Some(hj)), Recorded(d, m, hj)) && MaySwap(Recorded(d, m, hj), job)
  {
    var hj := Journal(job, Intent, prior, target, true);
    var e, n := d.(journal := Some(hj)), Recorded(d, m, hj);
    forall j ensures SwapsHold(e, n, j) {
      assert SwapsHold(d, m, j);
    }
    assert SwapsHold(d, m, job);
  }

  /** What BackUp records as the old binary, given whether its existence check answered. */
  function PriorOf(d: Disk, answers: bool): Option<Sha> { if answers then d.binary else None }

  /** The disk after backing up and swapping without a fault. */
  function Replaced(d: Disk, job: JobId, target: Sha, answers: bool): Disk {
    Disk(Some(target), d.incoming - {job}, d.restore,
         if PriorOf(d, answers).None? then d.backups else d.backups[job := d.binary.value],
         Some(Journal(job, Phase.Restarted, PriorOf(d, answers), target, true)))
  }

  lemma CurrentKeeps(d: Disk, m: Marks, job: JobId, target: Sha)
    requires Inv(d, m) && d.binary == Some(target) && !JournalOf(d, job)
    ensures var hj := Journal(job, Phase.Restarted, Some(target), target, false);
            Inv(d.(journal := Some(hj)), Recorded(d, m, hj))
  {
    var hj := Journal(job, Phase.Restarted, Some(target), target, false);
    var e, n := d.(journal := Some(hj)), Recorded(d, m, hj);
    forall j ensures SwapsHold(e, n, j) {
      assert SwapsHold(d, m, j);
    }
  }

  function Swapped(d: Disk, hj: Journal): Disk {
    Drop(d, FreshTmp(hj.job)).(binary := Some(hj.target))
  }

  lemma SwapKeeps(d: Disk, m: Marks, hj: Journal)
    requires Inv(d, m) && d.journal == Some(hj) && hj.phase.Intent? && hj.backedUp && MaySwap(m, hj.job)
    ensures Inv(Swapped(d, hj), m.(swaps := m.swaps + multiset{hj.job}))
  {
    var e, n := Swapped(d, hj), m.(swaps := m.swaps + multiset{hj.job});
    forall j ensures SwapsHold(e, n, j) {
      assert SwapsHold(d, m, j);
    }
  }

  class Host {
    const fates: nat -> Fate
    var tick: nat
    var disk: Disk
    /** Every disk an operation left, in order. */
    var seen: seq<Disk>
    ghost var marks: Marks
    ghost var notes: seq<Marks>
    /** How many operations did not simply work. */
    ghost var faults: nat

    /** Every operation of this host works. */
    ghost predicate Flawless() { forall t :: fates(t).kind.Works? }

    ghost predicate Good()
      reads this
    {
      && Inv(disk, marks) && |notes| == |seen| && (forall i :: 0 <= i < |seen| ==> Inv(seen[i], notes[i]))
      && (faults > 0 ==> !Flawless())
    }

    constructor (disk: Disk, fates: nat -> Fate)
      requires disk.journal.None?
      ensures this.fates == fates && this.disk == disk && Good() && faults == 0
      ensures marks == Marks(multiset{}, multiset{}, false, false, false)
    {
      this.disk, this.fates, tick := disk, fates, 0;
      marks := Marks(multiset{}, multiset{}, false, false, false);
      seen, notes := [], [];
      faults := 0;
    }

    /** A check or a foreign call without effect on these files. */
    method Check() returns (ok: bool)
      modifies `tick, `faults
      ensures faults == old(faults) + (if ok then 0 else 1)
      ensures !ok ==> !Flawless()
    {
      ok := fates(tick).kind.Works?;
      tick := tick + 1;
      faults := faults + (if ok then 0 else 1);
    }

    /** One file operation: it may fail, or take effect and still report an error. */
    method Change(next: Disk, ghost note: Marks) returns (ok: bool)
      requires Good() && Inv(next, note)
      modifies this
      ensures Good() && old(seen) <= seen
      ensures (disk, marks) == (next, note) || (!ok && (disk, marks) == old((disk, marks)))
      ensures ok ==> (disk, marks) == (next, note)
      ensures faults == old(faults) + (if ok then 0 else 1)
    {
      var fate := fates(tick);
      tick := tick + 1;
      if !fate.kind.Fails? { disk, marks := next, note; }
      ok := fate.kind.Works?;
      seen, notes := seen + [disk], notes + [marks];
      faults := faults + (if ok then 0 else 1);
    }

    /** A rename is atomic: when it reports an error nothing moved. */
    method Rename(next: Disk, ghost note: Marks) returns (ok: bool)
      requires Good() && Inv(next, note)
      modifies this
      ensures Good() && old(seen) <= seen
      ensures (disk, marks) == if ok then (next, note) else old((disk, marks))
      ensures faults == old(faults) + (if ok then 0 else 1)
    {
      ok := fates(tick).kind.Works?;
      tick := tick + 1;
      if ok { disk, marks := next, note; }
      seen, notes := seen + [disk], notes + [marks];
      faults := faults + (if ok then 0 else 1);
    }

    /** Creates the destination and copies into it; an interrupted copy leaves a partial file. */
    method CreateAndCopy(content: Sha, dst: Slot) returns (ok: bool, ghost left: Option<Sha>)
      requires Good() && At(disk, dst).None? && (dst.Backup? ==> !JournalOf(disk, dst.job))
      modifies this
      ensures Good() && old(seen) <= seen && faults == old(faults) + (if ok then 0 else 1) && marks == old(marks)
      ensures disk == if left.None? then old(disk) else Put(old(disk), dst, left.value)
      ensures ok ==> left == Some(content)
    {
      var partial := fates(tick).partial;
      PutKeeps(disk, marks, dst, partial);
      PutKeeps(disk, marks, dst, content);
      PutTwice(disk, dst, partial, content);
      var created := Change(Put(disk, dst, partial), marks);
      left := if disk == old(disk) then None else Some(partial);
      if !created { return false, left; }
      ok := Change(Put(disk, dst, content), marks);
      left := Some(if disk == Put(old(disk), dst, content) then content else partial);
    }

    /** Exclusive create, copy and sync; the content is the copied one only if this succeeds. */
    method CopyHashed(content: Sha, dst: Slot, want: Option<Sha>, sizeMatches: bool)
      returns (got: Option<Sha>, ghost left: Option<Sha>)
      requires Good()
      requires dst.Backup? ==> !JournalOf(disk, dst.job)
      modifies this
      ensures Good() && old(seen) <= seen && faults >= old(faults) && marks == old(marks)
      ensures disk == if left.None? then old(disk) else Put(old(disk), dst, left.value)
      ensures left.Some? ==> At(old(disk), dst).None?
      ensures got.Some? ==> got.value == content && left == got && sizeMatches && (want.Some? ==> content == want.value)
      ensures faults == old(faults) ==>
                (got.Some? <==> At(old(disk), dst).None? && sizeMatches && (want.Some? ==> content == want.value))
    {
      left := None;
      var readable := Check();
      if !readable { return None, None; }
      if At(disk, dst).Some? { return None, None; }
      var copied;
      copied, left := CreateAndCopy(content, dst);
      if !copied { return None, left; }
      var closed := Check();
      if !closed || !sizeMatches { return None, left; }
      if want.Some? && content != want.value { return None, left; }
      got := Some(content);
    }

    /** Atomic journal replacement; an error after the rename is possible. */
    method SaveJournal(hj: Journal) returns (ok: bool)
      requires Good() && Inv(disk.(journal := Some(hj)), Recorded(disk, marks, hj))
      modifies this
      ensures Good() && old(seen) <= seen && faults >= old(faults) && (ok <==> faults == old(faults))
      ensures (disk, marks) == old((disk.(journal := Some(hj)), Recorded(disk, marks, hj)))
              || (!ok && (disk, marks) == old((disk, marks)))
      ensures ok ==> (disk, marks) == old((disk.(journal := Some(hj)), Recorded(disk, marks, hj)))
    {
      var secure := Check();
      if !secure { return false; }
      ok := Change(disk.(journal := Some(hj)), Recorded(disk, marks, hj));
    }

    /** Best-effort removal of a temporary file, as the deferred calls do it. */
    method RemoveTmp(dst: Slot)
      requires Good() && !dst.Backup?
      modifies this
      ensures Good() && old(seen) <= seen && faults >= old(faults) && marks == old(marks)
      ensures disk == old(disk) || disk == Drop(old(disk), dst)
    {
      DropKeeps(disk, marks, dst);
      var _ := Change(Drop(disk, dst), marks);
    }

    // ---- restoring the backup ----

    /** The journal on disk records this job's swap, whatever phase it has reached. */
    ghost predicate Records(hj: Journal)
      reads this
    {
      disk.journal.Some? && disk.journal.value.(phase := hj.phase) == hj
    }

    /** The backup is intact and no leftover blocks its copy. */
    ghost predicate Restorable(hj: Journal)
      reads this
    {
      hj.job in disk.backups && Some(disk.backups[hj.job]) == hj.prior && hj.job !in disk.restore
    }

    method RestoreFile(hj: Journal) returns (ok: bool)
      requires Good() && Records(hj) && hj.prior.Some? && hj.backedUp
      modifies this
      ensures Good() && old(seen) <= seen && faults >= old(faults)
      ensures disk.journal == old(disk.journal) && disk.backups == old(disk.backups)
      ensures if ok then disk.binary == hj.prior && marks == old(marks).(unrecorded := true)
              else disk.binary == old(disk.binary) && marks == old(marks)
      ensures faults == old(faults) ==> (ok <==> old(Restorable(hj)))
    {
      var readable := Check();
      if !readable || hj.job !in disk.backups || disk.backups[hj.job] != hj.prior.value { return false; }
      var got, _ := CopyHashed(disk.backups[hj.job], RestoreTmp(hj.job), hj.prior, true);
      if got.None? { return false; }
      var executable := Check();
      if !executable { return false; }
      RestoreKeeps(disk, marks, hj);
      ok := Rename(Drop(disk, RestoreTmp(hj.job)).(binary := got), marks.(unrecorded := true));
    }

    /** Reinstalls the backup, verified against the recorded hash; on failure the binary is untouched. */
    method RestoreBackup(hj: Journal) returns (ok: bool)
      requires Good() && Records(hj) && hj.prior.Some? && hj.backedUp
      modifies this
      ensures Good() && old(seen) <= seen && faults >= old(faults)
      ensures disk.journal == old(disk.journal) && disk.backups == old(disk.backups)
      ensures if ok then disk.binary == hj.prior && marks == old(marks).(unrecorded := true)
              else disk.binary == old(disk.binary) && marks == old(marks)
      ensures faults == old(faults) ==> (ok <==> old(Restorable(hj)))
    {
      ok := RestoreFile(hj);
      RemoveTmp(RestoreTmp(hj.job));
    }

    /** Records that the restored binary is installed; only a failed write leaves the restore unrecorded. */
    method RecordRollback(hj: Journal)
      requires Good() && Records(hj) && hj.prior.Some? && disk.binary == hj.prior
      modifies this
      ensures Good() && old(seen) <= seen && faults >= old(faults)
      ensures disk.binary == old(disk.binary) && disk.backups == old(disk.backups) && Records(hj)
      ensures marks == old(marks).(unrecorded := marks.unrecorded) && (marks.unrecorded ==> faults > old(faults))
      ensures faults == old(faults) ==> disk.journal == Some(hj.(phase := RolledBack))
    {
      PhaseKeeps(disk, marks, hj, RolledBack);
      var _ := SaveJournal(hj.(phase := RolledBack));
    }

    method AutoRollback(hj: Journal) returns (r: Outcome)
      requires Good() && Records(hj)
      modifies this
      ensures Good() && old(seen) <= seen && faults >= old(faults) && Records(hj)
      ensures r.AutoRolledBack? || r.RestartFailedRollbackFailed?
      ensures r.AutoRolledBack? ==> disk.binary == hj.prior && hj.prior.Some?
      ensures faults == old(faults) && hj.prior.Some? && hj.backedUp && old(Restorable(hj)) ==>
                r.AutoRolledBack? && disk.journal == Some(hj.(phase := RolledBack))
      ensures disk.backups == old(disk.backups) && marks == old(marks).(unrecorded := marks.unrecorded)
      ensures marks.unrecorded ==> faults > old(faults) || old(marks.unrecorded)
    {
      if hj.prior.None? || !hj.backedUp { return RestartFailedRollbackFailed; }
      var restored := RestoreBackup(hj);
      if !restored { return RestartFailedRollbackFailed; }
      RecordRollback(hj);
      var restarted := Check();
      if !restarted { return RestartFailedRollbackFailed; }
      var active := Check();
      r := if active then AutoRolledBack else RestartFailedRollbackFailed;
    }

    method HandleRollback(job: JobId) returns (r: Outcome)
      requires Good()
      modifies this
      ensures Good() && old(seen) <= seen && faults >= old(faults)
      ensures r.RolledBackOk? || r.RollbackFailed?
      ensures r.RolledBackOk? ==> JournalOf(disk, job) && disk.journal.value.prior.Some? && disk.binary == disk.journal.value.prior
      ensures !JournalOf(old(disk), job) || old(disk).journal.value.prior.None? ==> r.RollbackFailed? && disk == old(disk)
      ensures faults == old(faults) && JournalOf(old(disk), job) && old(disk).journal.value.backedUp && old(Restorable(disk.journal.value)) ==>
                && r.RolledBackOk? && disk.journal == Some(old(disk).journal.value.(phase := RolledBack))
                && disk.binary == disk.journal.value.prior
      ensures faults == old(faults) ==>
                (r.RolledBackOk? <==>
                   && JournalOf(old(disk), job) && old(disk).journal.value.backedUp && old(disk).journal.value.prior.Some?
                   && (old(disk).journal.value.phase.RolledBack? || old(Restorable(disk.journal.value))))
      ensures !r.RolledBackOk? && faults == old(faults) ==> disk.binary == old(disk).binary && disk.journal == old(disk).journal
      ensures marks.unrecorded ==> faults > old(faults) || old(marks.unrecorded)
    {
      var loaded := Check();
      if !loaded || !JournalOf(disk, job) || !disk.journal.value.backedUp || disk.journal.value.prior.None? {
        return RollbackFailed;
      }
      var hj := disk.journal.value;
      if hj.phase.RolledBack? {
        var _ := Check();
        return RolledBackOk;
      }
      var restored := RestoreBackup(hj);
      if !restored { return RollbackFailed; }
      RecordRollback(hj);
      var restarted := Check();
      if !restarted { return RollbackFailed; }
      var active := Check();
      r := if active then RolledBackOk else RollbackFailed;
    }

    // ---- applying ----

    method RestartOrRollback(hj: Journal) returns (r: Outcome)
      requires Good() && disk.journal == Some(hj) && disk.binary == Some(hj.target)
      modifies this
      ensures Good() && old(seen) <= seen && faults >= old(faults) && Records(hj)
      ensures r.Restarted? || r.AutoRolledBack? || r.RestartFailedRollbackFailed?
      ensures r.Restarted? ==> disk.binary == Some(hj.target)
      ensures faults == old(faults) ==> r.Restarted? && disk == old(disk).(journal := Some(hj.(phase := Phase.Restarted)))
      ensures faults <= old(faults) + 1 && hj.prior.Some? && hj.backedUp && old(Restorable(hj)) ==> r.Restarted? || r.AutoRolledBack?
      ensures r.AutoRolledBack? ==> disk.binary == hj.prior && hj.prior.Some?
      ensures disk.backups == old(disk.backups) && marks == old(marks).(unrecorded := marks.unrecorded)
      ensures marks.unrecorded ==> faults > old(faults) || old(marks.unrecorded)
    {
      var active := Restart(hj);
      if active { return Outcome.Restarted; }
      r := AutoRollback(hj);
    }

    /** Restarts the agent on the new binary, records that, and waits for it to come up. */
    method Restart(hj: Journal) returns (active: bool)
      requires Good() && Records(hj) && disk.binary == Some(hj.target)
      modifies this
      ensures Good() && old(seen) <= seen && faults >= old(faults) && Records(hj)
      ensures disk == old(disk) || disk == old(disk).(journal := Some(hj.(phase := Phase.Restarted)))
      ensures marks == old(marks) && (!active ==> faults > old(faults))
      ensures faults == old(faults) ==> disk.journal == Some(hj.(phase := Phase.Restarted))
    {
      var restarted := Check();
      if !restarted { return false; }
      PhaseKeeps(disk, marks, hj, Phase.Restarted);
      var _ := SaveJournal(hj.(phase := Phase.Restarted));
      active := Check();
    }

    /** The swap happened: restarts only if that was never confirmed. */
    method RecoverSwapped(hj: Journal) returns (r: Outcome)
      requires Good() && disk.journal == Some(hj) && disk.binary == Some(hj.target)
      modifies this
      ensures Good() && old(seen) <= seen && faults >= old(faults)
      ensures disk == old(disk) || disk == old(disk).(journal := Some(hj.(phase := Phase.Restarted)))
      ensures marks == old(marks) && (r.RecoveredRestarted? || r.Unclear?)
      ensures faults == old(faults) ==> r.RecoveredRestarted? && disk.journal == Some(hj.(phase := Phase.Restarted))
    {
      if !hj.phase.Restarted? {
        var restarted := Check();
        if restarted {
          PhaseKeeps(disk, marks, hj, Phase.Restarted);
          var _ := SaveJournal(hj.(phase := Phase.Restarted));
        }
      }
      var active := Check();
      r := if active then RecoveredRestarted else Unclear;
    }

    /** Decides a previously recorded mutation from the disk; never swaps again. */
    method ReconcileApply(hj: Journal) returns (r: Outcome)
      requires Good() && disk.journal == Some(hj)
      modifies this
      ensures Good() && old(seen) <= seen && faults >= old(faults)
      ensures disk.binary == old(disk.binary) && marks.swaps == old(marks.swaps) && Records(hj)
      ensures r.AlreadyCurrent? || r.RecoveredRestarted? || r.RecoveredNoSwap? || r.Unclear?
      ensures r.AlreadyCurrent? || r.RecoveredRestarted? ==> disk.binary == Some(hj.target)
      ensures r.RecoveredNoSwap? ==> disk.binary == hj.prior && hj.phase.Intent?
      ensures disk.backups == old(disk.backups)
      ensures faults == old(faults) ==>
                && (r.AlreadyCurrent? <==> disk.binary == Some(hj.target) && hj.prior == Some(hj.target))
                && (r.RecoveredRestarted? <==> disk.binary == Some(hj.target) && hj.prior != Some(hj.target))
                && (r.RecoveredNoSwap? <==>
                      disk.binary.Some? && disk.binary != Some(hj.target) && disk.binary == hj.prior && hj.phase.Intent?)
                && disk == if r.RecoveredRestarted? then old(disk).(journal := Some(hj.(phase := Phase.Restarted))) else old(disk)
      ensures marks.unrecorded ==> old(marks.unrecorded)
    {
      var readable := Check();
      if !readable || disk.binary.None? { return Unclear; }
      var actual := disk.binary.value;
      if actual == hj.target && hj.prior == Some(hj.target) {
        var _ := Check();
        return AlreadyCurrent;
      }
      if actual == hj.target {
        r := RecoverSwapped(hj);
        return;
      }
      if Some(actual) == hj.prior && hj.phase.Intent? {
        var _ := Check();
        return RecoveredNoSwap;
      }
      r := Unclear;
    }

    /** Copies the staged artifact and checks it; only a verified copy is left to install. */
    method Verify(job: JobId, staged: Staged) returns (got: Option<Sha>)
      requires Good() && !JournalOf(disk, job)
      modifies this
      ensures Good() && old(seen) <= seen && faults >= old(faults) && marks == old(marks)
      ensures disk == old(disk) || (job !in old(disk).incoming && exists c :: disk == Put(old(disk), FreshTmp(job), c))
      ensures got.Some? ==> got.value == staged.signed == staged.content && At(disk, FreshTmp(job)) == got
      ensures got.Some? ==> staged.sizeMatches && staged.reportsBuild && job !in old(disk).incoming
      ensures faults == old(faults) && Genuine(staged) && job !in old(disk).incoming ==> got.Some?
    {
      var copied, _ := CopyHashed(staged.content, FreshTmp(job), Some(staged.signed), staged.sizeMatches);
      if copied.None? { return None; }
      var executable := Check();
      if !executable { return None; }
      var ran := Check();
      if !ran || !staged.reportsBuild { return None; }
      got := copied;
    }

    /**
     * Backs up the installed binary if the existence check finds one. Any error of the
     * check counts as absence, so an existing binary is then not backed up.
     */
    method BackUp(job: JobId, answers: bool) returns (ok: bool, prior: Option<Sha>)
      requires Good() && !JournalOf(disk, job)
      modifies this
      ensures Good() && old(seen) <= seen && faults >= old(faults) && marks == old(marks)
      ensures disk == old(disk) || (job !in old(disk).backups && exists c :: disk == Put(old(disk), Backup(job), c))
      ensures ok ==> prior == PriorOf(old(disk), answers) && Prepared(disk, marks, job, prior)
      ensures ok && prior.Some? ==> job !in old(disk).backups && disk == Put(old(disk), Backup(job), prior.value)
      ensures ok && prior.None? ==> disk == old(disk)
      ensures faults == old(faults) ==> (ok <==> PriorOf(old(disk), answers).None? || job !in old(disk).backups)
    {
      assert SwapsHold(disk, marks, job);
      var directory := Check();
      if !directory { return false, None; }
      if answers && disk.binary.Some? {
        var got, _ := CopyHashed(disk.binary.value, Backup(job), None, true);
        return got.Some?, got;
      }
      return true, None;
    }

    /** Records the intent, swaps, and brings the agent up on the new binary or back on the old one. */
    method Swap(job: JobId, prior: Option<Sha>, target: Sha) returns (r: Outcome)
      requires Good() && Prepared(disk, marks, job, prior)
      modifies this
      ensures Good() && old(seen) <= seen && faults >= old(faults) && disk.backups == old(disk.backups)
      ensures r.VerifyFailed? ==> disk.binary == old(disk.binary) && marks.swaps == old(marks.swaps)
      ensures marks.swaps == old(marks.swaps) || marks.swaps == old(marks.swaps) + multiset{job}
      ensures r.Restarted? ==> disk.binary == Some(target) && JournalOf(disk, job)
      ensures faults == old(faults) ==>
                && r.Restarted? && marks.swaps == old(marks.swaps) + multiset{job}
                && (var hj := Journal(job, Phase.Restarted, prior, target, true);
                    disk == Swapped(old(disk), hj).(journal := Some(hj)))
      ensures r.AutoRolledBack? ==> disk.binary == prior && prior.Some?
      ensures faults <= old(faults) + 1 && prior.Some? && job !in old(disk).restore ==> !r.RestartFailedRollbackFailed?
      ensures r.Unclear? ==> disk.binary == Some(target)
      ensures r.VerifyFailed? || r.Unclear? || r.Restarted? || r.AutoRolledBack? || r.RestartFailedRollbackFailed?
      ensures marks.unrecorded ==> faults > old(faults) || old(marks.unrecorded)
    {
      var hj := Journal(job, Intent, prior, target, true);
      IntentKeeps(disk, marks, job, prior, target);
      var recorded := SaveJournal(hj);
      if !recorded { return VerifyFailed; }
      SwapKeeps(disk, marks, hj);
      var renamed := Rename(Swapped(disk, hj), marks.(swaps := marks.swaps + multiset{job}));
      if !renamed { return VerifyFailed; }
      PhaseKeeps(disk, marks, hj, Renamed);
      var saved := SaveJournal(hj.(phase := Renamed));
      if !saved { return Unclear; }
      r := RestartOrRollback(hj.(phase := Renamed));
    }

    /** A fresh apply of a valid manifest: verify, recognize an already current binary, back up, swap. */
    method ApplyFresh(job: JobId, staged: Staged, answers: bool) returns (r: Outcome)
      requires Good() && !JournalOf(disk, job) && staged.manifestValid
      modifies this
      ensures Good() && old(seen) <= seen && faults >= old(faults)
      ensures r.VerifyFailed? ==> disk.binary == old(disk.binary) && marks.swaps == old(marks.swaps)
      ensures r.Restarted? || r.AlreadyCurrent? ==> disk.binary == Some(staged.signed)
      ensures r.AutoRolledBack? ==> disk.binary == old(disk.binary) && disk.binary.Some?
      ensures r.VerifyFailed? || r.AlreadyCurrent? || r.Unclear? || r.Restarted? || r.AutoRolledBack? || r.RestartFailedRollbackFailed?
      ensures r.AlreadyCurrent? ==> disk.binary == old(disk.binary)
      ensures marks.swaps == old(marks.swaps)
              || (marks.swaps == old(marks.swaps) + multiset{job} && Swappable(old(disk), job, staged, answers))
      ensures faults == old(faults) && WillSwap(old(disk), job, staged, answers) ==>
                r.Restarted? && disk == Replaced(old(disk), job, staged.signed, answers) && marks.swaps == old(marks.swaps) + multiset{job}
      ensures faults == old(faults) && !WillSwap(old(disk), job, staged, answers) ==>
                && disk.binary == old(disk.binary) && marks.swaps == old(marks.swaps)
                && if Current(old(disk), job, staged) then r.AlreadyCurrent? && disk.journal == Some(RecordOfCurrent(job, staged))
                   else r.VerifyFailed?
      ensures r.Unclear? ==> disk.binary == Some(staged.signed)
      ensures faults <= old(faults) + 1 && answers && old(disk).binary.Some? && old(disk).binary != Some(staged.signed)
              && job !in old(disk).restore ==>
                !r.RestartFailedRollbackFailed?
      ensures marks.unrecorded ==> faults > old(faults) || old(marks.unrecorded)
    {
      var got := Verify(job, staged);
      if got.None? { return VerifyFailed; }
      var readable := Check();
      if readable && disk.binary == got {
        r := RecognizeCurrent(job, got.value);
        return;
      }
      var secure := Check();
      if !secure { return VerifyFailed; }
      r := BackUpAndSwap(job, got.value, answers);
    }

    /** The new binary is already installed: nothing to swap, and the record says so. */
    method RecognizeCurrent(job: JobId, target: Sha) returns (r: Outcome)
      requires Good() && !JournalOf(disk, job) && disk.binary == Some(target)
      modifies this
      ensures Good() && old(seen) <= seen && faults >= old(faults)
      ensures r.AlreadyCurrent? || r.RestartFailedRollbackFailed?
      ensures faults == old(faults) ==>
                r.AlreadyCurrent? && disk == old(disk).(journal := Some(Journal(job, Phase.Restarted, Some(target), target, false)))
      ensures disk.binary == old(disk.binary) && marks.swaps == old(marks.swaps) && (marks.unrecorded ==> old(marks.unrecorded))
    {
      var active := Check();
      if !active { return RestartFailedRollbackFailed; }
      CurrentKeeps(disk, marks, job, target);
      var _ := SaveJournal(Journal(job, Phase.Restarted, Some(target), target, false));
      return AlreadyCurrent;
    }

    /** Backs up the installed binary and swaps; without a fault exactly when no backup of the job is in the way. */
    method BackUpAndSwap(job: JobId, target: Sha, answers: bool) returns (r: Outcome)
      requires Good() && !JournalOf(disk, job)
      modifies this
      ensures Good() && old(seen) <= seen && faults >= old(faults)
      ensures r.VerifyFailed? ==> disk.binary == old(disk.binary) && marks.swaps == old(marks.swaps)
      ensures r.Restarted? ==> disk.binary == Some(target)
      ensures r.AutoRolledBack? ==> disk.binary == old(disk.binary) && disk.binary.Some?
      ensures r.VerifyFailed? || r.Unclear? || r.Restarted? || r.AutoRolledBack? || r.RestartFailedRollbackFailed?
      ensures marks.swaps == old(marks.swaps)
              || (marks.swaps == old(marks.swaps) + multiset{job} && Unblocked(old(disk), job, answers))
      ensures faults == old(faults) && Unblocked(old(disk), job, answers) ==>
                && r.Restarted? && marks.swaps == old(marks.swaps) + multiset{job}
                && disk == Replaced(old(disk), job, target, answers)
      ensures faults == old(faults) && !Unblocked(old(disk), job, answers) ==> r.VerifyFailed?
      ensures r.Unclear? ==> disk.binary == Some(target)
      ensures faults <= old(faults) + 1 && answers && old(disk).binary.Some? && job !in old(disk).restore ==> !r.RestartFailedRollbackFailed?
      ensures marks.unrecorded ==> faults > old(faults) || old(marks.unrecorded)
    {
      var backed, prior := BackUp(job, answers);
      if !backed { return VerifyFailed; }
      r := Swap(job, prior, target);
    }

    /**
     * One apply request; `answers` says whether the existence check of the installed
     * binary answers. A recorded job is only reconciled; otherwise the request is verified
     * from scratch, and a verification failure leaves the binary untouched. The new binary
     * is renamed in at most once, never for a guarded job unless the check erred, and
     * without a fault exactly when the caller could see that it will.
     */
    method HandleApply(job: JobId, staged: Staged, answers: bool) returns (r: Outcome)
      requires Good()
      modifies this
      ensures Good() && old(seen) <= seen && faults >= old(faults) && Applied(r)
      ensures r.VerifyFailed? || r.RecoveredNoSwap? ==> disk.binary == old(disk.binary) && marks.swaps == old(marks.swaps)
      ensures JournalOf(old(disk), job) ==> disk.binary == old(disk.binary) && marks.swaps == old(marks.swaps)
      ensures marks.swaps == old(marks.swaps)
              || (marks.swaps == old(marks.swaps) + multiset{job} && Swappable(old(disk), job, staged, answers))
      ensures faults == old(faults) && WillSwap(old(disk), job, staged, answers) ==>
                r.Restarted? && disk == Replaced(old(disk), job, staged.signed, answers) && marks.swaps == old(marks.swaps) + multiset{job}
      ensures faults == old(faults) && !WillSwap(old(disk), job, staged, answers) ==> disk.binary == old(disk.binary) && marks.swaps == old(marks.swaps)
      ensures faults == old(faults) && !JournalOf(old(disk), job) && !WillSwap(old(disk), job, staged, answers) ==>
                if Current(old(disk), job, staged) then r.AlreadyCurrent? && disk.journal == Some(RecordOfCurrent(job, staged))
                else r.VerifyFailed?
      ensures faults == old(faults) && JournalOf(old(disk), job) ==>
                var hj, b := old(disk).journal.value, old(disk).binary;
                && (r.AlreadyCurrent? <==> b == Some(hj.target) && hj.prior == Some(hj.target))
                && (r.RecoveredRestarted? <==> b == Some(hj.target) && hj.prior != Some(hj.target))
                && (r.RecoveredNoSwap? <==> b.Some? && b != Some(hj.target) && b == hj.prior && hj.phase.Intent?)
                && (!r.AlreadyCurrent? && !r.RecoveredRestarted? && !r.RecoveredNoSwap? ==> r.Unclear?)
                && disk == if r.RecoveredRestarted? then old(disk).(journal := Some(hj.(phase := Phase.Restarted))) else old(disk)
      ensures faults <= old(faults) + 1 && WillSwap(old(disk), job, staged, answers) && answers && old(disk).binary.Some?
              && job !in old(disk).restore ==>
                || (r.VerifyFailed? && disk.binary == old(disk).binary)
                || ((r.Restarted? || r.Unclear?) && disk.binary == Some(staged.signed))
                || (r.AutoRolledBack? && disk.binary == old(disk).binary)
      ensures marks.unrecorded ==> faults > old(faults) || old(marks.unrecorded)
    {
      var loaded := Check();
      if !loaded { return VerifyFailed; }
      if JournalOf(disk, job) {
        r := ReconcileApply(disk.journal.value);
        return;
      }
      var manifest := Check();
      if !manifest || !staged.manifestValid { return VerifyFailed; }
      var directory := Check();
      if !directory { return VerifyFailed; }
      r := ApplyFresh(job, staged, answers);
      RemoveTmp(FreshTmp(job));
    }

    // ---- cleanup ----

    /** Deletes the job's backup, then the journal when it is this job's. */
    method HandleCleanup(job: JobId) returns (r: Outcome)
      requires Good()
      modifies this
      ensures Good() && old(seen) <= seen && faults >= old(faults)
      ensures disk.binary == old(disk.binary)
      ensures marks == old(marks) || marks == Cleaning(old(disk), old(marks), job)
      ensures r.Cleaned? ==> job !in disk.backups && marks.lapses[job] > old(marks).lapses[job]
      ensures faults == old(faults) ==>
                && r.Cleaned?
                && disk == old(disk).(backups := old(disk).backups - {job},
                                      journal := if JournalOf(old(disk), job) then None else old(disk).journal)
    {
      var secure := Check();
      if !secure { return CleanupFailed; }
      CleanKeeps(disk, marks, job);
      var removed := Change(disk.(backups := disk.backups - {job}), Cleaning(disk, marks, job));
      if !removed { return CleanupFailed; }
      var loaded := Check();
      if loaded && JournalOf(disk, job) {
        ForgetKeeps(disk, marks, job);
        var _ := Change(disk.(journal := None), marks);
      }
      r := Cleaned;
    }

    /** A crash: the next run starts from some disk the last operations left. */
    method Crash(k: nat)
      requires Good() && k < |seen|
      modifies this
      ensures Good() && seen == old(seen) && disk == seen[k]
    {
      disk := seen[k];
      marks := notes[k];
    }
  }

  /** Once its cleanup starts the job's swaps are all made up for, and its record loses its backup. */
  function Cleaning(d: Disk, m: Marks, job: JobId): Marks {
    m.(lapses := m.lapses + multiset{job}, cleaning := m.cleaning || JournalOf(d, job))
  }

  lemma CleanKeeps(d: Disk, m: Marks, job: JobId)
    requires Inv(d, m)
    ensures Inv(d.(backups := d.backups - {job}), Cleaning(d, m, job)) && MaySwap(Cleaning(d, m, job), job)
  {
    var e, n := d.(backups := d.backups - {job}), Cleaning(d, m, job);
    forall j ensures SwapsHold(e, n, j) {
      assert SwapsHold(d, m, j);
    }
    assert SwapsHold(d, m, job);
  }

  lemma ForgetKeeps(d: Disk, m: Marks, job: JobId)
    requires Inv(d, m) && JournalOf(d, job) && MaySwap(m, job)
    ensures Inv(d.(journal := None), m)
  {
    var e := d.(journal := None);
    forall j ensures SwapsHold(e, m, j) {
      assert SwapsHold(d, m, j);
    }
  }

  // ---- any schedule of requests and crashes ----

  datatype Request = Apply(job: JobId, staged: Staged, answers: bool) | Rollback(job: JobId) | Cleanup(job: JobId)

  /** A request, and the operation of its handler after which the machine dies, if it does. */
  datatype Turn = Turn(request: Request, crash: Option<nat>)

  /** Whatever is requested, however operations fail and wherever crashes fall, every disk ever left is safe. */
  method RunAll(h: Host, turns: seq<Turn>)
    requires h.Good()
    modifies h
    ensures h.Good() && old(h.seen) <= h.seen
    ensures Safe(h.disk, h.marks) && forall i :: 0 <= i < |h.seen| ==> Safe(h.seen[i], h.notes[i])
  {
    for i := 0 to |turns|
      invariant h.Good() && old(h.seen) <= h.seen
    {
      var started := |h.seen|;
      match turns[i].request {
        case Apply(job, staged, answers) => var _ := h.HandleApply(job, staged, answers);
        case Rollback(job) => var _ := h.HandleRollback(job);
        case Cleanup(job) => var _ := h.HandleCleanup(job);
      }
      if turns[i].crash.Some? && started + turns[i].crash.value < |h.seen| {
        h.Crash(started + turns[i].crash.value);
      }
    }
    RecordedJobIsSafe(h.disk, h.marks);
    forall i | 0 <= i < |h.seen| ensures Safe(h.seen[i], h.notes[i]) {
      RecordedJobIsSafe(h.seen[i], h.notes[i]);
    }
  }

  // ---- when a job swaps again, and when it can be undone ----

  /** Two jobs applied one after the other without a fault: the second one's record displaces the first one's. */
  method ApplyBoth(h: Host, a: JobId, b: JobId, sa: Staged, sb: Staged)
    requires h.Good() && h.Flawless() && a != b && sa.signed != sb.signed
    requires WillSwap(h.disk, a, sa, true) && Genuine(sb) && b !in h.disk.incoming && b !in h.disk.backups
    modifies h
    ensures h.Good() && h.marks.swaps == old(h.marks.swaps) + multiset{a} + multiset{b}
    ensures h.disk.binary == Some(sb.signed) && JournalOf(h.disk, b) && a !in h.disk.incoming
    ensures a in h.disk.backups <==> a in old(h.disk.backups) || old(h.disk.binary).Some?
  {
    var _ := h.HandleApply(a, sa, true);
    var _ := h.HandleApply(b, sb, true);
  }

  /**
   * A job can be swapped in twice when its record gives way to another job's and there
   * was nothing to back up: apply a, apply b, apply a again on a host without a binary.
   */
  method SwapsAgainUnbacked(a: JobId, b: JobId, sa: Staged, sb: Staged) returns (h: Host)
    requires a != b && Genuine(sa) && Genuine(sb) && sa.signed != sb.signed
    ensures fresh(h) && h.Good() && h.Flawless() && h.marks.swaps[a] == 2
  {
    h := new Host(Disk(None, map[], map[], map[], None), _ => Fate(Works, 0));
    ApplyBoth(h, a, b, sa, sb);
    var _ := h.HandleApply(a, sa, true);
  }

  /** It can also when the existence check errs, although the first swap was backed up. */
  method SwapsAgainMisread(installed: Sha, a: JobId, b: JobId, sa: Staged, sb: Staged) returns (h: Host)
    requires a != b && Genuine(sa) && Genuine(sb) && sa.signed != sb.signed && installed != sa.signed
    ensures fresh(h) && h.Good() && h.Flawless() && h.marks.swaps[a] == 2 && a in h.disk.backups
  {
    h := new Host(Disk(Some(installed), map[], map[], map[], None), _ => Fate(Works, 0));
    ApplyBoth(h, a, b, sa, sb);
    var _ := h.HandleApply(a, sa, false);
  }

  /**
   * An apply that swapped is undone by a rollback exactly when a binary was installed
   * and the existence check found it: only then does the job record and back it up.
   */
  method RollbackUndoesApply(h: Host, job: JobId, staged: Staged, answers: bool)
    requires h.Good() && WillSwap(h.disk, job, staged, answers) && job !in h.disk.restore
    modifies h
    ensures h.Good()
    ensures h.faults == old(h.faults) ==> (h.disk.binary == old(h.disk.binary) <==> old(h.disk.binary).Some? && answers)
  {
    var _ := h.HandleApply(job, staged, answers);
    var _ := h.HandleRollback(job);
  }

  /**
   * An existence check that errs is the only way to lose the installed binary: after a
   * faultless swap its content is recorded and backed up exactly when the check answered.
   */
  method MisreadIsTheOnlyGap(h: Host, job: JobId, staged: Staged, answers: bool)
    requires h.Good() && WillSwap(h.disk, job, staged, answers) && h.disk.binary.Some? && job !in h.disk.backups
    modifies h
    ensures h.Good()
    ensures h.faults == old(h.faults) ==>
              && JournalOf(h.disk, job)
              && (h.disk.journal.value.prior == old(h.disk.binary) <==> answers)
              && (job in h.disk.backups && Some(h.disk.backups[job]) == old(h.disk.binary) <==> answers)
  {
    var _ := h.HandleApply(job, staged, answers);
  }
}
