/**
 * Command receipts: the durable record the worker writes before acting and before
 * reporting, and resumes from. The worker keeps nothing else between cycles, so a
 * crash is an operation whose rest never happens.
 */
module Receipts {
  import opened EventTypes
  import opened Options
  import opened Nano

  datatype Act = StartIt | StopIt | RestartIt | Unsupported(name: string)

  datatype Code =
    | NoCode | DeadlineExceeded | TargetMismatch | IdentityMismatch | UnsupportedAction | UncertainOutcome
    | OtherApproved(name: string) | Unapproved(name: string)

  datatype Stage = Claimed | Executing | Succeeded | Failed | Uncertain | UnknownStage

  /** Daemon output kept for the report: its length in bytes and whether it is valid UTF-8. */
  datatype Preview = Preview(text: string, bytes: nat, utf8: bool)

  const MAX_COMMAND_ID_LEN: nat := 64
  const MAX_INSTANCE_ID_LEN: nat := 32
  const MAX_VPS_ID_LEN: nat := 64
  const MAX_PREVIEW_BYTES: nat := 8192
  const MIN_TIMEOUT: int := 1
  const MAX_TIMEOUT: int := 120
  const RAW_ID_LEN: nat := 64

  datatype Command = Command(id: string, agent: string, vps: string, act: Act, key: string,
                             deadline: string, timeout: int, tty: bool)

  datatype Receipt = Receipt(id: string, agent: string, act: Act, key: string, deadline: string,
                             timeout: int, tty: bool, stage: Stage, executed: bool, code: Code, preview: Preview)

  datatype Report = Report(id: string, agent: string, stage: Stage, executed: bool, code: Code, preview: Preview)

  /** What the daemon call returned. */
  datatype ActResult = ActResult(executed: bool, uncertain: bool, code: Code, preview: Preview)

  // ---- validation ----

  predicate ValidAct(a: Act) { !a.Unsupported? }

  predicate ApprovedCode(c: Code) { !c.Unapproved? }

  predicate ValidPreview(p: Preview) { p.bytes <= MAX_PREVIEW_BYTES && p.utf8 }

  predicate ValidCommand(c: Command) {
    && SafeId(c.id, MAX_COMMAND_ID_LEN) && SafeId(c.agent, MAX_INSTANCE_ID_LEN)
    && (|c.vps| > 0 ==> SafeId(c.vps, MAX_VPS_ID_LEN))
    && ValidAct(c.act) && SafeId(c.key, MAX_CONTAINER_KEY_LEN)
    && IsCanonicalNanoDecimal(c.deadline) && MIN_TIMEOUT <= c.timeout <= MAX_TIMEOUT
  }

  predicate ValidReceipt(r: Receipt) {
    && SafeId(r.id, MAX_COMMAND_ID_LEN) && SafeId(r.agent, MAX_INSTANCE_ID_LEN)
    && ValidAct(r.act) && SafeId(r.key, MAX_CONTAINER_KEY_LEN)
    && IsCanonicalNanoDecimal(r.deadline) && MIN_TIMEOUT <= r.timeout <= MAX_TIMEOUT
    && !r.stage.UnknownStage? && ApprovedCode(r.code) && ValidPreview(r.preview)
    && (r.stage.Uncertain? ==> r.executed)
  }

  /** A command is valid exactly when its fields are: ids, action, key, deadline and a timeout of 1 to 120 seconds. */
  lemma CommandExactly(c: Command)
    ensures ValidCommand(c) <==>
              && SafeId(c.id, 64) && SafeId(c.agent, 32) && (c.vps == "" || SafeId(c.vps, 64))
              && (c.act == StartIt || c.act == StopIt || c.act == RestartIt) && SafeId(c.key, 32)
              && (exists n: nat :: Spellable(n) && c.deadline == Spell(n))
              && 1 <= c.timeout <= 120
  {
    CanonicalIsSpelling(c.deadline);
  }

  /** A receipt is valid exactly when its command's fields, its stage and its bounded output are; uncertain means executed. */
  lemma ReceiptExactly(r: Receipt)
    ensures ValidReceipt(r) <==>
              && SafeId(r.id, 64) && SafeId(r.agent, 32)
              && (r.act == StartIt || r.act == StopIt || r.act == RestartIt) && SafeId(r.key, 32)
              && (exists n: nat :: Spellable(n) && r.deadline == Spell(n))
              && 1 <= r.timeout <= 120 && r.stage != UnknownStage
              && !r.code.Unapproved? && r.preview.bytes <= 8192 && r.preview.utf8
              && (r.stage == Uncertain ==> r.executed)
  {
    CanonicalIsSpelling(r.deadline);
  }

  predicate Terminal(s: Stage) { s.Succeeded? || s.Failed? || s.Uncertain? }

  predicate ValidReport(r: Report) {
    && SafeId(r.id, MAX_COMMAND_ID_LEN) && SafeId(r.agent, MAX_INSTANCE_ID_LEN)
    && Terminal(r.stage) && ApprovedCode(r.code) && ValidPreview(r.preview)
    && (r.stage.Uncertain? ==> r.executed)
  }

  function ReportOf(r: Receipt): Report { Report(r.id, r.agent, r.stage, r.executed, r.code, r.preview) }

  /** The report tells what the receipt says: whose it is, how it ended, whether it ran, the code and the output. */
  predicate Tells(report: Report, r: Receipt) {
    && report.id == r.id && report.agent == r.agent
    && (report.stage.Succeeded? <==> r.stage.Succeeded?) && (report.stage.Failed? <==> r.stage.Failed?)
    && (report.stage.Uncertain? <==> r.stage.Uncertain?)
    && report.executed == r.executed && report.code == r.code && report.preview == r.preview
  }

  /** Every valid terminal receipt can be reported as it stands. */
  lemma TerminalReports(r: Receipt)
    requires ValidReceipt(r)
    ensures ValidReport(ReportOf(r)) <==> Terminal(r.stage)
    ensures Tells(ReportOf(r), r)
  {}

  // ---- deadlines ----

  function Magnitude(n: int): nat { if n < 0 then -n else n }

  /** At or before now, comparing decimal strings; the sign of the clock is stripped. */
  predicate Expired(deadline: string, now: int) {
    || !IsCanonicalNanoDecimal(deadline)
    || !IsCanonicalNanoDecimal(Spell(Magnitude(now)))
    || CmpCanonicalNano(Spell(Magnitude(now)), deadline) >= 0
  }

  /** The string comparison decides exactly whether the deadline has been reached. */
  lemma ExpiredIsNumeric(deadline: string, now: int)
    requires IsCanonicalNanoDecimal(deadline) && IsCanonicalNanoDecimal(Spell(Magnitude(now)))
    ensures Digits(deadline)
    ensures Expired(deadline, now) <==> Value(deadline) <= if now < 0 then -now else now
  {
    SpellValue(Magnitude(now));
    CmpIsNumeric(Spell(Magnitude(now)), deadline);
  }

  // ---- the terminal receipt of an executed command ----

  const NO_PREVIEW := Preview("", 0, true)

  function Drafted(r: Receipt, out: ActResult): Receipt {
    var d := r.(executed := out.executed, preview := out.preview);
    if out.uncertain then
      d.(stage := Uncertain, code := if out.code.NoCode? then UncertainOutcome else out.code)
    else if out.code.NoCode? then d.(stage := Succeeded, code := NoCode)
    else d.(stage := Failed, code := out.code)
  }

  /** The terminal receipt; out-of-bounds daemon output falls back to uncertain, executed, without preview. */
  function Settled(r: Receipt, out: ActResult): Receipt {
    var d := Drafted(r, out);
    if ValidReceipt(d) then d
    else d.(preview := NO_PREVIEW, stage := Uncertain, executed := true, code := UncertainOutcome)
  }

  /**
   * Whatever the daemon returns the terminal receipt is valid, so the second
   * validation never fails; success is claimed only for a certain call without an
   * error code and with output in bounds.
   */
  lemma SettledIsValid(r: Receipt, out: ActResult)
    requires ValidReceipt(r)
    ensures ValidReceipt(Settled(r, out)) && Terminal(Settled(r, out).stage)
    ensures Settled(r, out).stage.Succeeded? <==> !out.uncertain && out.code.NoCode? && ValidPreview(out.preview)
    ensures Settled(r, out).stage.Failed? ==> Settled(r, out).code == out.code && Settled(r, out).executed == out.executed
    ensures !Settled(r, out).executed ==> !out.executed && !Settled(r, out).stage.Uncertain?
    ensures Settled(r, out).id == r.id && Settled(r, out).agent == r.agent
  {}

  /** A refusal: it failed without being executed and without output. */
  function TurnedDown(r: Receipt, code: Code): Receipt {
    r.(stage := Failed, executed := false, code := code, preview := Preview("", 0, true))
  }

  /**
   * The terminal receipt, case by case: uncertain, executed and without output when the
   * daemon's answer is out of bounds or uncertain without having been executed; otherwise
   * its own flag, code and output under the stage they call for.
   */
  lemma SettledExactly(r: Receipt, out: ActResult)
    requires ValidReceipt(r)
    ensures var inBounds := out.preview.bytes <= 8192 && out.preview.utf8 && !out.code.Unapproved?;
            Settled(r, out) ==
              if !inBounds || (out.uncertain && !out.executed) then
                r.(stage := Uncertain, executed := true, code := UncertainOutcome, preview := Preview("", 0, true))
              else if out.uncertain then
                r.(stage := Uncertain, executed := true, preview := out.preview,
                   code := if out.code == NoCode then UncertainOutcome else out.code)
              else if out.code == NoCode then
                r.(stage := Succeeded, executed := out.executed, code := NoCode, preview := out.preview)
              else r.(stage := Failed, executed := out.executed, code := out.code, preview := out.preview)
  {}

  /** The raw daemon id of a container: 64 lowercase hexadecimal digits. */
  predicate IsDaemonId(id: string) {
    |id| == 64 && forall c :: c in id ==> c in "0123456789abcdef"
  }

  lemma RawIdExactly(id: string)
    ensures RawId(id) <==> IsDaemonId(id)
  {
    if IsDaemonId(id) {
      forall i | 0 <= i < |id| ensures '0' <= id[i] <= '9' || 'a' <= id[i] <= 'f' { assert id[i] in id; }
    }
    if RawId(id) {
      forall c | c in id ensures c in "0123456789abcdef" {
        var i :| 0 <= i < |id| && id[i] == c;
        HexIsListed(c);
      }
    }
  }

  lemma HexIsListed(c: char)
    requires '0' <= c <= '9' || 'a' <= c <= 'f'
    ensures c in "0123456789abcdef"
  {
    var s := "0123456789abcdef";
    if '0' <= c <= '9' { assert s[c as int - '0' as int] == c; } else { assert s[10 + (c as int - 'a' as int)] == c; }
  }

  // ---- the worker ----

  datatype Fate = Works | Fails | Misreports

  /** What one cycle's operations meet, by the order in which they happen; None in `acts` is a death inside the call. */
  datatype Env = Env(readable: nat -> bool, writes: nat -> Fate, claims: nat -> Option<Command>,
                     targets: nat -> Option<string>, clocks: nat -> int,
                     acts: nat -> Option<ActResult>, reports: nat -> bool)

  /** The story of one receipt from its first write to its clearing. */
  datatype Life = Life(acts: nat, losses: nat, reports: seq<Report>, delivered: bool, ended: Option<Receipt>)

  const UNBORN: Life := Life(0, 0, [], false, None)

  predicate AllReport(reports: seq<Report>, r: Receipt) {
    forall i :: 0 <= i < |reports| ==> Tells(reports[i], r)
  }

  /** A finished receipt: acts bounded by its losses, one report repeated, the last of them delivered. */
  predicate GoodLife(l: Life) {
    && l.acts <= 1 + l.losses
    && l.ended.Some? && Terminal(l.ended.value.stage)
    && |l.reports| > 0 && AllReport(l.reports, l.ended.value) && l.delivered
  }

  predicate RawId(id: string) {
    |id| == RAW_ID_LEN && forall i :: 0 <= i < |id| ==> '0' <= id[i] <= '9' || 'a' <= id[i] <= 'f'
  }

  datatype Reading = Absent | Present(receipt: Receipt) | Corrupt

  class Worker {
    const instance: string
    const vps: string
    const env: Env
    var tick: nat
    /** The receipt file. */
    var file: Option<Receipt>
    ghost var life: Life
    ghost var past: seq<Life>
    /** Daemon calls over all receipts. */
    ghost var allActs: nat

    predicate FileValid()
      reads this
    {
      file.Some? ==> ValidReceipt(file.value)
    }

    ghost predicate Valid()
      reads this
    {
      && FileValid()
      && (file.None? ==> life == UNBORN)
      && (file.Some? && Terminal(file.value.stage) ==>
            life.acts <= 1 + life.losses && AllReport(life.reports, file.value))
      && (file.Some? && !Terminal(file.value.stage) ==> life.acts <= life.losses && life.reports == [])
      && forall i :: 0 <= i < |past| ==> GoodLife(past[i])
    }

    /** No unfinished receipt on disk says executed; then a crash during the call leads to a second call. */
    ghost predicate NeverMarkedExecuted()
      reads this
    {
      file.Some? && !Terminal(file.value.stage) ==> !file.value.executed
    }

    /** From this operation on the disk and the network work. */
    ghost predicate Smooth(from: nat) {
      forall k: nat :: from <= k ==> SmoothAt(k)
    }

    predicate SmoothAt(k: nat) { env.readable(k) && env.writes(k).Works? && env.reports(k) }

    /** The last finished receipt ended like this, and was reported so. */
    ghost predicate EndedAs(r: Receipt)
      reads this
    {
      file.None? && |past| > 0 && past[|past| - 1].ended == Some(r)
    }

    /**
     * How executing a receipt ends when disk and network work: refused without a resolvable
     * target or after its deadline, otherwise as the daemon's answer settles it, if there is one.
     */
    function Verdict(r: Receipt, t: nat): Option<Receipt> {
      if env.targets(t).None? || !IsDaemonId(env.targets(t).value) then Some(TurnedDown(r, TargetMismatch))
      else if Expired(r.deadline, env.clocks(t)) then Some(TurnedDown(r, DeadlineExceeded))
      else if env.acts(t + 2).None? then None
      else Some(Settled(r, env.acts(t + 2).value))
    }

    /** The receipt of a claimed command, before anything is done about it. */
    function Fresh(c: Command): Receipt {
      Receipt(c.id, c.agent, c.act, c.key, c.deadline, c.timeout, c.tty, Claimed, false, NoCode, Preview("", 0, true))
    }

    /** How a claimed command for this instance ends when disk and network work. */
    function Answer(c: Command, t: nat): Option<Receipt> {
      if vps != "" && c.vps != "" && c.vps != vps then Some(TurnedDown(Fresh(c), IdentityMismatch))
      else if Expired(c.deadline, env.clocks(t)) then Some(TurnedDown(Fresh(c), DeadlineExceeded))
      else Verdict(Fresh(c), t + 2)
    }

    predicate CallsDaemon(r: Receipt, t: nat) {
      env.targets(t).Some? && IsDaemonId(env.targets(t).value) && !Expired(r.deadline, env.clocks(t))
    }

    constructor (instance: string, vps: string, env: Env)
      ensures Valid() && NeverMarkedExecuted() && file.None? && past == []
      ensures this.instance == instance && this.vps == vps && this.env == env
    {
      this.instance, this.vps, this.env, tick := instance, vps, env, 0;
      file, life, past, allActs := None, UNBORN, [], 0;
    }

    method Read() returns (r: Reading)
      requires FileValid()
      modifies `tick
      ensures r.Present? ==> file == Some(r.receipt) && ValidReceipt(r.receipt)
      ensures r.Absent? ==> file.None?
      ensures tick == old(tick) + 1 && (env.readable(old(tick)) ==> !r.Corrupt?)
    {
      var ok := env.readable(tick);
      tick := tick + 1;
      if !ok { return Corrupt; }
      if file.None? { return Absent; }
      r := if ValidReceipt(file.value) then Present(file.value) else Corrupt;
    }

    /** Validates, then atomically replaces the file unless another command's receipt is there. */
    method PersistReceipt(r: Receipt) returns (ok: bool)
      requires FileValid()
      modifies `tick, `file
      ensures ok ==> file == Some(r) && ValidReceipt(r)
      ensures file == old(file) || (file == Some(r) && ValidReceipt(r))
      ensures file != old(file) ==> old(file).None? || (old(file).value.id == r.id && old(file).value.agent == r.agent)
      ensures tick >= old(tick) && (ok ==> tick == old(tick) + 2)
      ensures Smooth(old(tick)) && ValidReceipt(r) && (old(file).Some? ==> old(file).value.id == r.id && old(file).value.agent == r.agent) ==> ok
    {
      if !ValidReceipt(r) { return false; }
      assert Smooth(tick) ==> SmoothAt(tick) && SmoothAt(tick + 1);
      var cur := Read();
      if cur.Corrupt? { return false; }
      if cur.Present? && (cur.receipt.id != r.id || cur.receipt.agent != r.agent) { return false; }
      var fate := env.writes(tick);
      tick := tick + 1;
      if !fate.Fails? { file := Some(r); }
      ok := fate.Works?;
    }

    /** Clears the file on matching ids; the finished life is put on record. */
    method CommitReceipt(id: string, agent: string) returns (ok: bool)
      requires Valid() && file.Some? && Terminal(file.value.stage) && |life.reports| > 0 && life.delivered
      modifies `tick, `file, `life, `past
      ensures Valid()
      ensures ok ==> file.None?
      ensures (file, life, past) == old((file, life, past))
              || (file.None? && past == old(past + [life.(ended := file)]))
      ensures Smooth(old(tick)) && old(file).value.id == id && old(file).value.agent == agent ==> ok
    {
      assert Smooth(tick) ==> SmoothAt(tick) && SmoothAt(tick + 1);
      var cur := Read();
      if cur.Corrupt? || cur.Absent? { return false; }
      if cur.receipt.id != id || cur.receipt.agent != agent { return false; }
      var fate := env.writes(tick);
      tick := tick + 1;
      if !fate.Fails? {
        past := past + [life.(ended := file)];
        file, life := None, UNBORN;
      }
      ok := fate.Works?;
    }

    /** Reports a durable terminal receipt; only a delivered report clears it. */
    method ReportTerminal(r: Receipt) returns (ok: bool)
      requires Valid() && file == Some(r) && Terminal(r.stage)
      modifies this
      ensures Valid() && allActs == old(allActs)
      ensures ok ==> file.None?
      ensures file.None? ==> |past| == |old(past)| + 1 && past[|past| - 1].ended == Some(r)
      ensures file.Some? ==> file == old(file) && past == old(past)
      ensures Smooth(old(tick)) ==> ok && EndedAs(r)
    {
      TerminalReports(r);
      assert Smooth(tick) ==> SmoothAt(tick);
      var report := Report(r.id, r.agent, r.stage, r.executed, r.code, r.preview);
      var delivered := env.reports(tick);
      tick := tick + 1;
      life := life.(reports := life.reports + [report]);
      if !delivered { return false; }
      life := life.(delivered := true);
      ok := CommitReceipt(r.id, r.agent);
    }

    /** Persists a failure that never touched the daemon and reports it. */
    method FailClosed(r: Receipt, code: Code) returns (ok: bool)
      requires Valid() && ValidReceipt(r) && ApprovedCode(code)
      requires file.None? || (file.Some? && file.value.id == r.id && !Terminal(file.value.stage))
      modifies this
      ensures Valid() && allActs == old(allActs)
      ensures old(NeverMarkedExecuted()) ==> NeverMarkedExecuted()
      ensures ok ==> |past| == |old(past)| + 1 && EndedAs(TurnedDown(r, code))
      ensures Smooth(old(tick)) && (old(file).None? || old(file).value.agent == r.agent) ==> ok
    {
      var terminal := r.(stage := Failed, executed := false, code := code, preview := NO_PREVIEW);
      var persisted := PersistReceipt(terminal);
      if !persisted { return false; }
      ok := ReportTerminal(terminal);
    }

    /** One daemon call, then its terminal receipt, then the report; a death or failed write in between is a loss. */
    method CallDaemon(r: Receipt) returns (ok: bool)
      requires Valid() && file.Some? && !Terminal(file.value.stage) && !file.value.executed
      requires ValidReceipt(r) && file.value.id == r.id
      modifies this
      ensures Valid() && NeverMarkedExecuted()
      ensures allActs == old(allActs) + 1
      ensures ok ==> file.None? && |past| == |old(past)| + 1 && env.acts(old(tick)).Some?
                     && past[|past| - 1].ended == Some(Settled(r, env.acts(old(tick)).value))
      ensures Smooth(old(tick)) && env.acts(old(tick)).Some? && old(file).value.agent == r.agent ==> ok
      ensures file.Some? && Terminal(file.value.stage) ==>
                env.acts(old(tick)).Some? && file.value == Settled(r, env.acts(old(tick)).value)
      ensures file.Some? && !Terminal(file.value.stage) ==>
                life == old(life).(acts := old(life).acts + 1, losses := old(life).losses + 1)
    {
      var out := env.acts(tick);
      tick := tick + 1;
      // The call counts as lost until its own terminal receipt is known to be durable.
      life := life.(acts := life.acts + 1, losses := life.losses + 1);
      allActs := allActs + 1;
      if out.None? { return false; }
      var terminal := Settled(r, out.value);
      SettledIsValid(r, out.value);
      var persisted := PersistReceipt(terminal);
      if !persisted { return false; }
      life := life.(losses := life.losses - 1);
      ok := ReportTerminal(terminal);
    }

    /**
     * At most one daemon call, only for a resolvable target before the deadline,
     * and only after the executing mark is durable. A valid receipt's action is supported.
     */
    method Execute(r: Receipt) returns (ok: bool)
      requires Valid() && file == Some(r) && !Terminal(r.stage) && !r.executed
      modifies this
      ensures Valid() && NeverMarkedExecuted()
      ensures allActs <= old(allActs) + 1
      ensures allActs > old(allActs) ==> CallsDaemon(r, old(tick))
      ensures Smooth(old(tick)) ==> (allActs == old(allActs) + 1 <==> CallsDaemon(r, old(tick)))
      ensures Smooth(old(tick)) && Verdict(r, old(tick)).Some? ==> ok && EndedAs(Verdict(r, old(tick)).value)
    {
      var target := env.targets(tick);
      var now := env.clocks(tick);
      if target.Some? { RawIdExactly(target.value); }
      if target.None? || !RawId(target.value) {
        ok := FailClosed(r, TargetMismatch);
        return;
      }
      if Expired(r.deadline, now) {
        ok := FailClosed(r, DeadlineExceeded);
        return;
      }
      var marked := PersistReceipt(r.(stage := Executing));
      if !marked { return false; }
      ok := CallDaemon(r);
    }

    /** Terminal receipts are only reported; an unfinished one that says executed becomes uncertain. */
    method Resume(r: Receipt) returns (ok: bool)
      requires Valid() && file == Some(r)
      modifies this
      ensures Valid() && allActs <= old(allActs) + 1
      ensures Terminal(r.stage) || r.executed ==> allActs == old(allActs)
      ensures Terminal(r.stage) ==> file == old(file) || (file.None? && |past| > 0 && past[|past| - 1].ended == Some(r))
      ensures old(NeverMarkedExecuted()) ==> NeverMarkedExecuted()
      ensures Smooth(old(tick)) && r.agent == instance && Terminal(r.stage) ==> ok && EndedAs(r)
      ensures Smooth(old(tick)) && r.agent == instance && !Terminal(r.stage) && !r.executed && Verdict(r, old(tick)).Some? ==>
                ok && EndedAs(Verdict(r, old(tick)).value)
      ensures Smooth(old(tick)) && r.agent == instance && !Terminal(r.stage) && r.executed ==>
                ok && EndedAs(r.(stage := Uncertain, code := if r.code == NoCode then UncertainOutcome else r.code))
      ensures r.agent != instance ==> file == old(file) && past == old(past) && allActs == old(allActs)
    {
      if r.agent != instance { return false; }
      if Terminal(r.stage) {
        ok := ReportTerminal(r);
        return;
      }
      if r.executed {
        var unc := r.(stage := Uncertain, code := if r.code.NoCode? then UncertainOutcome else r.code);
        var persisted := PersistReceipt(unc);
        if !persisted { return false; }
        ok := ReportTerminal(unc);
        return;
      }
      ok := Execute(r);
    }

    /** A claimed command is made durable before anything is done about it. */
    method Start(c: Command) returns (ok: bool)
      requires Valid() && file.None?
      modifies this
      ensures Valid() && NeverMarkedExecuted()
      ensures allActs <= old(allActs) + 1
      ensures allActs > old(allActs) ==> ValidCommand(c) && c.agent == instance && (|vps| > 0 && |c.vps| > 0 ==> c.vps == vps)
      ensures !ValidCommand(c) || c.agent != instance ==> !ok && file == old(file) && past == old(past)
      ensures Smooth(old(tick)) && ValidCommand(c) && c.agent == instance && Answer(c, old(tick)).Some? ==>
                ok && EndedAs(Answer(c, old(tick)).value)
    {
      if !ValidCommand(c) { return false; }
      if c.agent != instance { return false; }
      var r := Receipt(c.id, c.agent, c.act, c.key, c.deadline, c.timeout, c.tty, Claimed, false, NoCode, NO_PREVIEW);
      if |vps| > 0 && |c.vps| > 0 && c.vps != vps {
        ok := FailClosed(r, IdentityMismatch);
        return;
      }
      if Expired(c.deadline, env.clocks(tick)) {
        ok := FailClosed(r, DeadlineExceeded);
        return;
      }
      var persisted := PersistReceipt(r);
      if !persisted { return false; }
      ok := Execute(r);
    }

    /** One cycle: resume the durable receipt, or claim a command. */
    method ProcessOne() returns (ok: bool)
      requires Valid()
      modifies this
      ensures Valid() && allActs <= old(allActs) + 1
      ensures old(file).Some? && Terminal(old(file).value.stage) ==>
                && allActs == old(allActs)
                && (file == old(file) || (file.None? && |past| > 0 && past[|past| - 1].ended == old(file)))
      ensures old(NeverMarkedExecuted()) ==> NeverMarkedExecuted()
      ensures Smooth(old(tick)) && old(file).Some? && old(file).value.agent == instance && Terminal(old(file).value.stage) ==>
                ok && EndedAs(old(file).value)
      ensures Smooth(old(tick)) && old(file).Some? && old(file).value.agent == instance && !Terminal(old(file).value.stage)
              && !old(file).value.executed && Verdict(old(file).value, old(tick) + 1).Some? ==>
                ok && EndedAs(Verdict(old(file).value, old(tick) + 1).value)
      ensures Smooth(old(tick)) && old(file).None? && env.claims(old(tick) + 1).None? ==> ok && file.None? && past == old(past)
      ensures Smooth(old(tick)) && old(file).None? && env.claims(old(tick) + 1).Some? ==>
                var c := env.claims(old(tick) + 1).value;
                ValidCommand(c) && c.agent == instance && Answer(c, old(tick) + 2).Some? ==>
                  ok && EndedAs(Answer(c, old(tick) + 2).value)
    {
      assert Smooth(tick) ==> SmoothAt(tick);
      var pending := Read();
      if pending.Corrupt? { return false; }
      if pending.Present? {
        ok := Resume(pending.receipt);
        return;
      }
      var claimed := env.claims(tick);
      tick := tick + 1;
      if claimed.None? { return true; }
      ok := Start(claimed.value);
    }

    /** Any number of cycles, whatever fails or dies in them. */
    method Run(cycles: nat)
      requires Valid()
      modifies this
      ensures Valid()
      ensures old(NeverMarkedExecuted()) ==> NeverMarkedExecuted()
    {
      for i := 0 to cycles
        invariant Valid()
        invariant old(NeverMarkedExecuted()) ==> NeverMarkedExecuted()
      {
        var _ := ProcessOne();
      }
    }
  }
}
