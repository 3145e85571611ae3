/**
 * One collection window over a finite event response: caps, the timestamp the
 * batch filled up in, the synthesized gap event and the proposed watermark.
 *
 * The specification is closed form: the window stops at the first read that
 * calls for it, judged from the whole prefix read so far. The method keeps the
 * running counters of the agent's loop and is proved to stop at the same read
 * with the same outcome.
 */
module EventWindow {
  import opened EventTypes
  import opened Options

  /** When the collection context is found done: before the i-th read, or while the i-th read fails. */
  datatype Control = Control(done: nat -> bool, failing: nat -> bool)

  datatype Outgoing = Sent(ev: Event) | GapMark(gap: Gap)

  datatype WindowInfo = WindowInfo(since: nat, until: nat, capped: bool, lossy: bool, reason: Option<Reason>)

  datatype Outcome =
    | Failed
    | Collected(events: seq<Outgoing>, info: WindowInfo, proposed: Watermark)

  /** Why a window stops. */
  datatype Exit = Fail | Complete | Boundary | Abandon(reason: Reason)

  // ---- closed-form specification ----

  /** The item whose acceptance first broke the caps, among the first `n`. */
  function Trip(items: seq<Item>, n: nat): (r: Option<nat>)
    requires n <= |items|
    ensures r.Some? ==> r.value < n && Takes(items[r.value])
  {
    if n == 0 then None
    else
      var t := Trip(items, n - 1);
      if t.Some? then t
      else if Takes(items[n - 1]) && !Fits(Taken(items, n)) then Some(n - 1)
      else None
  }

  /** Too many source bytes between the start of item `m` and the end of item `j`. */
  predicate LateBytes(items: seq<Item>, m: nat, j: nat)
    requires m <= j < |items|
  {
    Source(items, j + 1) - Source(items, m) > BOUNDARY_MAX_BYTES
  }

  predicate Late(items: seq<Item>, m: nat, j: nat)
    requires m <= j < |items|
  {
    j - m + 1 > BOUNDARY_MAX_EVENTS || LateBytes(items, m, j)
  }

  predicate LateScoped(items: seq<Item>, m: nat, j: nat)
    requires m <= j < |items|
  {
    items[j].Scoped? && Late(items, m, j)
  }

  /** Some in-scope item after `m` came too late to finish the timestamp. */
  predicate Overrun(items: seq<Item>, m: nat, n: nat)
    requires m < n <= |items|
  {
    exists j :: m < j < n && LateScoped(items, m, j)
  }

  /** What ending the boundary timestamp leads to. */
  function CloseBoundary(items: seq<Item>, m: nat, n: nat): Exit
    requires m < n <= |items|
  {
    if Overrun(items, m, n) then Abandon(BoundaryOverrun) else Boundary
  }

  /** Whether, and why, the window stops at item `j`; `|items|` is the end of the response. */
  function ExitAt(ctl: Control, items: seq<Item>, j: nat): Option<Exit>
    requires j <= |items|
  {
    if ctl.done(j) then Some(Abandon(CollectionDeadline))
    else if j == |items| then Some(ExitAtEnd(items))
    else if items[j].Overlong? then Some(Abandon(ResponseOversize))
    else if items[j].Broken? then
      if ctl.failing(j) then Some(Abandon(CollectionDeadline))
      else if Source(items, j + 1) > DECODE_MAX_BYTES then Some(Abandon(ResponseOversize))
      else Some(Fail)
    else if j + 1 > DECODE_MAX_EVENTS || Source(items, j + 1) > DECODE_MAX_BYTES then
      Some(Abandon(ResponseOversize))
    else ExitAtDecoded(items, j)
  }

  function ExitAtEnd(items: seq<Item>): Exit {
    var t := Trip(items, |items|);
    if Source(items, |items|) > DECODE_MAX_BYTES then Abandon(ResponseOversize)
    else if t.Some? then CloseBoundary(items, t.value, |items|)
    else Complete
  }

  function ExitAtDecoded(items: seq<Item>, j: nat): Option<Exit>
    requires j < |items| && !items[j].Overlong? && !items[j].Broken?
  {
    var t := Trip(items, j);
    if !items[j].Noise? && t.Some? && items[j].nano != items[t.value].nano then
      Some(CloseBoundary(items, t.value, j))
    else if items[j].Noise? || items[j].Unwanted? then
      if t.Some? && LateBytes(items, t.value, j) then Some(Abandon(BoundaryOverrun)) else None
    else if t.None? && Trip(items, j + 1).Some? && LateBytes(items, j, j) then
      Some(Abandon(BoundaryOverrun))
    else None
  }

  predicate Passes(ctl: Control, items: seq<Item>, j: nat)
    requires j < |items|
  {
    ExitAt(ctl, items, j) == None
  }

  /** No item before the i-th stops the window. */
  ghost predicate Unstopped(ctl: Control, items: seq<Item>, i: nat) {
    i <= |items| && forall j :: 0 <= j < i ==> Passes(ctl, items, j)
  }

  /** The window stops at item `n` because of `x`, and at no earlier item. */
  ghost predicate Stops(ctl: Control, items: seq<Item>, n: nat, x: Exit) {
    Unstopped(ctl, items, n) && ExitAt(ctl, items, n) == Some(x)
  }

  /** The longest prefix of at most `k` events within `room` bytes, or the empty one. */
  function Longest(out: seq<Safe>, k: nat, room: int): (r: nat)
    requires k <= |out|
    ensures r <= k
  {
    if k == 0 || Bytes(out[..k]) <= room then k else Longest(out, k - 1, room)
  }

  function Min(a: nat, b: nat): nat { if a <= b then a else b }

  function Sendable(out: seq<Safe>): (r: seq<Outgoing>)
    ensures |r| == |out| && forall i :: 0 <= i < |r| ==> r[i] == Sent(out[i].ev)
  {
    if out == [] then [] else Sendable(out[..|out| - 1]) + [Sent(out[|out| - 1].ev)]
  }

  /** How many accepted events are kept when one slot is reserved for a gap event. */
  function Reserved(out: seq<Safe>): (r: nat)
    ensures r <= |out| && r <= MAX_EVENTS - 1
  {
    Longest(out, Min(|out|, MAX_EVENTS - 1), MAX_BRANCH_BYTES)
  }

  function GapOf(out: seq<Safe>, reason: Reason, from: nat, through: nat): Gap {
    Gap(reason, from, through, Min(|out| - Reserved(out), MAX_SKIPPED))
  }

  /** How many events remain once the gap event's own bytes are paid for. */
  function Kept(env: Env, out: seq<Safe>, gap: Gap): (r: nat)
    ensures r <= |out|
  {
    Longest(out, Reserved(out), MAX_BRANCH_BYTES - env.gapSize(gap) - 1)
  }

  function WithGap(w: Window, out: seq<Safe>, reason: Reason, through: nat, proposed: Watermark): Outcome {
    var gap := GapOf(out, reason, w.since, through);
    Collected(Sendable(out[..Kept(w.env, out, gap)]) + [GapMark(gap)],
              WindowInfo(w.since, w.until, true, true, Some(reason)),
              proposed)
  }

  /** What a window that stopped at item `n` because of `x` hands to the runner. */
  function OutcomeOf(w: Window, items: seq<Item>, n: nat, x: Exit): Outcome
    requires n <= |items|
    requires x.Boundary? ==> Trip(items, n).Some?
  {
    var out := Taken(items, n);
    match x
    case Fail => Failed
    case Complete =>
      Collected(Sendable(out), WindowInfo(w.since, w.until, false, false, None), Watermark(w.until, []))
    case Boundary =>
      var bt := items[Trip(items, n).value].nano;
      WithGap(w, out, BoundaryOverflow, bt, Watermark(bt, BoundaryDigests(w.env, out, bt)))
    case Abandon(reason) =>
      WithGap(w, out, reason, w.until, Watermark(w.until, []))
  }

  // ---- facts about the specification ----

  lemma TakenGrows(items: seq<Item>, n: nat)
    requires n < |items|
    ensures !Takes(items[n]) ==> Taken(items, n + 1) == Taken(items, n)
    ensures Bytes(Taken(items, n + 1)) >= Bytes(Taken(items, n))
    ensures |Taken(items, n + 1)| >= |Taken(items, n)|
    ensures Takes(items[n]) ==>
              Bytes(Taken(items, n + 1)) == Bytes(Taken(items, n)) + items[n].take.value.size + 1
  {
    var a, b := Taken(items, n), Taken(items, n + 1);
    if Takes(items[n]) { assert b[..|b| - 1] == a; }
  }

  lemma BytesAppend(out: seq<Safe>, s: Safe)
    ensures Bytes(out + [s]) == Bytes(out) + s.size + 1
  {
    assert (out + [s])[..|out|] == out;
  }

  lemma TripStep(items: seq<Item>, m: nat)
    requires m < |items| && (Trip(items, m).None? <==> Fits(Taken(items, m)))
    ensures Trip(items, m + 1).None? <==> Fits(Taken(items, m + 1))
  {
    TakenGrows(items, m);
  }

  lemma {:induction false} FitsUntilTrip(items: seq<Item>, n: nat)
    requires n <= |items|
    ensures Trip(items, n).None? <==> Fits(Taken(items, n))
  {
    if n == 0 {
      assert Taken(items, 0) == [];
    } else {
      var m: nat := n - 1;
      FitsUntilTrip(items, m);
      TripStep(items, m);
    }
  }

  lemma {:induction false} TripAt(items: seq<Item>, n: nat, m: nat)
    requires n <= |items| && Trip(items, n) == Some(m)
    ensures Fits(Taken(items, m)) && !Fits(Taken(items, m + 1))
  {
    var p: nat := n - 1;
    assert Trip(items, n) == Trip(items, p + 1);
    if Trip(items, p).Some? {
      TripAt(items, p, m);
    } else {
      assert p == m;
      FitsUntilTrip(items, m);
    }
  }

  /** The caps hold exactly until the tripping item is accepted. */
  lemma TripFits(items: seq<Item>, n: nat)
    requires n <= |items|
    ensures Trip(items, n).None? <==> Fits(Taken(items, n))
    ensures Trip(items, n).Some? ==>
              && Fits(Taken(items, Trip(items, n).value))
              && !Fits(Taken(items, Trip(items, n).value + 1))
  {
    FitsUntilTrip(items, n);
    if Trip(items, n).Some? { TripAt(items, n, Trip(items, n).value); }
  }

  // ---- the agent's loops ----

  /** Prefix that leaves one slot free for the gap event, with its byte count. */
  method TruncateDockerTransmit(safe: seq<Safe>) returns (k: nat, acc: nat)
    ensures k == Reserved(safe) && k <= |safe| && acc == Bytes(safe[..k])
  {
    k, acc := 0, 0;
    while k < |safe|
      invariant 0 <= k <= |safe| && k <= MAX_EVENTS - 1
      invariant acc == Bytes(safe[..k]) && acc <= MAX_BRANCH_BYTES
    {
      assert safe[..k + 1][..k] == safe[..k];
      if k + 1 > MAX_EVENTS - 1 || acc + safe[k].size + 1 > MAX_BRANCH_BYTES { break; }
      acc := acc + safe[k].size + 1;
      k := k + 1;
    }
    if k < |safe| && k < MAX_EVENTS - 1 {
      assert safe[..k + 1][..k] == safe[..k];
      LongestBelow(safe, k, Min(|safe|, MAX_EVENTS - 1), MAX_BRANCH_BYTES);
    }
  }

  lemma {:induction false} BytesMonotone(out: seq<Safe>, i: nat, j: nat)
    requires i <= j <= |out|
    ensures Bytes(out[..i]) <= Bytes(out[..j])
    ensures i < j ==> Bytes(out[..i]) < Bytes(out[..j])
  {
    if i < j {
      assert out[..j][..j - 1] == out[..j - 1];
      BytesMonotone(out, i, j - 1);
    }
  }

  lemma {:induction false} LongestBelow(out: seq<Safe>, k: nat, top: nat, room: int)
    requires k <= top <= |out|
    requires k == 0 || Bytes(out[..k]) <= room
    requires k < top ==> Bytes(out[..k + 1]) > room
    ensures Longest(out, top, room) == k
  {
    if k < top {
      BytesMonotone(out, k + 1, top);
      LongestBelow(out, k, top - 1, room);
    }
  }

  /** Pops events until the gap event fits, then appends it; a gap that fits nowhere goes alone. */
  method AppendDockerGapFitting(safe: seq<Safe>, k: nat, acc: nat, gap: Gap, env: Env) returns (r: seq<Outgoing>)
    requires k <= |safe| && k <= MAX_EVENTS - 1 && acc == Bytes(safe[..k])
    ensures r == Sendable(safe[..Longest(safe, k, MAX_BRANCH_BYTES - env.gapSize(gap) - 1)]) + [GapMark(gap)]
  {
    var need := env.gapSize(gap) + 1;
    var kept: nat, bytes: nat := k, acc;
    while kept > 0 && (kept + 1 > MAX_EVENTS || bytes + need > MAX_BRANCH_BYTES)
      invariant kept <= k && bytes == Bytes(safe[..kept])
      invariant Longest(safe, k, MAX_BRANCH_BYTES - need) == Longest(safe, kept, MAX_BRANCH_BYTES - need)
    {
      assert safe[..kept][..kept - 1] == safe[..kept - 1];
      bytes := bytes - (safe[kept - 1].size + 1);
      kept := kept - 1;
    }
    if kept + 1 > MAX_EVENTS || bytes + need > MAX_BRANCH_BYTES {
      assert safe[..0] == [];
      return [GapMark(gap)];
    }
    return Sendable(safe[..kept]) + [GapMark(gap)];
  }

  /** Truncates, synthesizes the gap event and appends it. */
  method Finish(w: Window, out: seq<Safe>, reason: Reason, through: nat, proposed: Watermark) returns (r: Outcome)
    ensures r == WithGap(w, out, reason, through, proposed)
  {
    var k, acc := TruncateDockerTransmit(out);
    var gap := Gap(reason, w.since, through, Min(|out| - k, MAX_SKIPPED));
    var events := AppendDockerGapFitting(out, k, acc, gap, w.env);
    return Collected(events, WindowInfo(w.since, w.until, true, true, Some(reason)), proposed);
  }

  /** The loop's running counters. */
  datatype Tally = Tally(out: seq<Safe>, acc: nat, sourceBytes: nat,
                         boundary: bool, bt: nat, decoded: nat, start: nat, overrun: bool)

  /** The boundary's counters before item `i`, when item `m` filled the batch. */
  ghost predicate AtBoundary(items: seq<Item>, i: nat, m: nat, t: Tally) {
    && m < i <= |items| && Takes(items[m]) && t.bt == items[m].nano && t.decoded == i - m
    && t.start == Source(items, m) && t.overrun == Overrun(items, m, i)
  }

  /** The counters before item `i` are determined by the prefix. */
  ghost predicate Counters(items: seq<Item>, i: nat, t: Tally) {
    && i <= |items| && t.out == Taken(items, i) && t.acc == Bytes(t.out) && t.sourceBytes == Source(items, i)
    && (if t.boundary then Trip(items, i).Some? && AtBoundary(items, i, Trip(items, i).value, t)
        else Trip(items, i).None? && !t.overrun)
  }

  /** Before item `i` nothing stopped the loop, and its counters are right. */
  ghost predicate Running(ctl: Control, items: seq<Item>, i: nat, t: Tally) {
    Unstopped(ctl, items, i) && Counters(items, i, t)
  }

  /** The loop stopped as the closed form does, with the accepted prefix and, at a boundary, its time. */
  ghost predicate Stopped(ctl: Control, items: seq<Item>, n: nat, why: Exit, t: Tally) {
    && Stops(ctl, items, n, why) && t.out == Taken(items, n)
    && (why.Boundary? ==> Trip(items, n).Some? && t.bt == items[Trip(items, n).value].nano)
  }

  lemma TripPast(items: seq<Item>, i: nat)
    requires i < |items| && !Takes(items[i])
    ensures Trip(items, i + 1) == Trip(items, i) && Taken(items, i + 1) == Taken(items, i)
  {
    assert Taken(items, i) + [] == Taken(items, i);
  }

  lemma TripTaking(items: seq<Item>, i: nat)
    requires i < |items| && Takes(items[i])
    ensures var out := Taken(items, i) + [items[i].take.value];
            && Taken(items, i + 1) == out && Bytes(out) == Bytes(Taken(items, i)) + items[i].take.value.size + 1
            && Trip(items, i + 1) == (if Trip(items, i).Some? then Trip(items, i) else if Fits(out) then None else Some(i))
  {
    BytesAppend(Taken(items, i), items[i].take.value);
  }

  // ---- one lemma per way the loop leaves an item ----

  /** Item `n` is decoded within the decode caps, and the context is not done. */
  ghost predicate Reads(ctl: Control, items: seq<Item>, n: nat) {
    && n < |items| && !ctl.done(n) && !items[n].Overlong? && !items[n].Broken?
    && n + 1 <= DECODE_MAX_EVENTS && Source(items, n + 1) <= DECODE_MAX_BYTES
  }

  /** Why an item that is not read as an object, or is beyond the decode caps, ends the window. */
  function UndecodedExit(item: Item, n: nat, failing: bool, after: nat): Option<Exit> {
    if item.Overlong? then Some(Abandon(ResponseOversize))
    else if item.Broken? then
      Some(if failing then Abandon(CollectionDeadline) else if after > DECODE_MAX_BYTES then Abandon(ResponseOversize) else Fail)
    else if n + 1 > DECODE_MAX_EVENTS || after > DECODE_MAX_BYTES then Some(Abandon(ResponseOversize))
    else None
  }

  lemma StopsUndecoded(ctl: Control, items: seq<Item>, n: nat, t: Tally, why: Exit)
    requires Running(ctl, items, n, t) && n < |items| && !ctl.done(n)
    requires UndecodedExit(items[n], n, ctl.failing(n), t.sourceBytes + SizeOf(items[n])) == Some(why)
    ensures Stopped(ctl, items, n, why, t)
  {}

  lemma StopsDone(ctl: Control, items: seq<Item>, n: nat, t: Tally)
    requires Running(ctl, items, n, t) && ctl.done(n)
    ensures Stopped(ctl, items, n, Abandon(CollectionDeadline), t)
  {}

  function EndExit(t: Tally): Exit {
    if t.sourceBytes > DECODE_MAX_BYTES then Abandon(ResponseOversize)
    else if t.overrun then Abandon(BoundaryOverrun)
    else if t.boundary then Boundary
    else Complete
  }

  lemma StopsAtEnd(ctl: Control, items: seq<Item>, t: Tally)
    requires Running(ctl, items, |items|, t) && !ctl.done(|items|)
    ensures Stopped(ctl, items, |items|, EndExit(t), t)
  {}

  /** A timed item of another time closes the boundary. */
  lemma ClosesBoundary(ctl: Control, items: seq<Item>, n: nat, t: Tally)
    requires Running(ctl, items, n, t) && Reads(ctl, items, n) && !items[n].Noise? && t.boundary && items[n].nano != t.bt
    ensures Stopped(ctl, items, n, if t.overrun then Abandon(BoundaryOverrun) else Boundary, t)
  {}

  /** An item that is not in scope ends the window when too many bytes followed the boundary. */
  lemma RunsLate(ctl: Control, items: seq<Item>, n: nat, t: Tally)
    requires Running(ctl, items, n, t) && Reads(ctl, items, n) && t.boundary
    requires items[n].Noise? || (items[n].Unwanted? && items[n].nano == t.bt)
    requires Source(items, n + 1) - t.start > BOUNDARY_MAX_BYTES
    ensures Stopped(ctl, items, n, Abandon(BoundaryOverrun), t)
  {}

  /** An in-scope item comes too late to finish the boundary's timestamp. */
  ghost predicate ComesLate(items: seq<Item>, n: nat, t: Tally)
    requires n < |items|
  {
    items[n].Scoped? && (t.decoded + 1 > BOUNDARY_MAX_EVENTS || Source(items, n + 1) - t.start > BOUNDARY_MAX_BYTES)
  }

  lemma BoundaryNext(items: seq<Item>, n: nat, m: nat, t: Tally, u: Tally)
    requires AtBoundary(items, n, m, t) && n < |items|
    requires u.bt == t.bt && u.decoded == t.decoded + 1 && u.start == t.start
    requires u.overrun == (t.overrun || ComesLate(items, n, t))
    ensures AtBoundary(items, n + 1, m, u)
  {
    assert Overrun(items, m, n + 1) <==> Overrun(items, m, n) || LateScoped(items, m, n);
  }

  /** The counters after an item that does not fill the batch, whatever it adds to it. */
  function Advanced(t: Tally, added: seq<Safe>, after: nat, late: bool): Tally {
    Tally(t.out + added, t.acc + (if added == [] then 0 else added[0].size + 1), after,
          t.boundary, t.bt, if t.boundary then t.decoded + 1 else t.decoded, t.start, t.overrun || (t.boundary && late))
  }

  /** The loop's own reckoning of where the item ends, and whether it comes too late after the boundary. */
  ghost predicate Reckoned(items: seq<Item>, n: nat, t: Tally, after: nat, late: bool) {
    n < |items| && after == Source(items, n + 1) && (t.boundary ==> (late <==> ComesLate(items, n, t)))
  }

  lemma PassedCounters(items: seq<Item>, n: nat, t: Tally, after: nat, late: bool)
    requires Counters(items, n, t) && Reckoned(items, n, t, after, late) && !Takes(items[n])
    ensures Counters(items, n + 1, Advanced(t, [], after, late))
  {
    TripPast(items, n);
    if t.boundary { BoundaryNext(items, n, Trip(items, n).value, t, Advanced(t, [], after, late)); }
  }

  /** An item that is not accepted and does not end the window. */
  lemma Passed(ctl: Control, items: seq<Item>, n: nat, t: Tally, after: nat, late: bool)
    requires Running(ctl, items, n, t) && Reads(ctl, items, n) && Reckoned(items, n, t, after, late) && !Takes(items[n])
    requires t.boundary && !items[n].Noise? ==> items[n].nano == t.bt
    requires t.boundary && (items[n].Noise? || items[n].Unwanted?) ==> after - t.start <= BOUNDARY_MAX_BYTES
    ensures Running(ctl, items, n + 1, Advanced(t, [], after, late))
  {
    PassedCounters(items, n, t, after, late);
    TripPast(items, n);
    assert ExitAtDecoded(items, n) == None;
    GoesOn(ctl, items, n);
  }

  lemma GoesOn(ctl: Control, items: seq<Item>, n: nat)
    requires Unstopped(ctl, items, n) && Reads(ctl, items, n) && ExitAtDecoded(items, n) == None
    ensures Unstopped(ctl, items, n + 1)
  {}

  lemma AcceptedCounters(items: seq<Item>, n: nat, t: Tally, after: nat, late: bool)
    requires Counters(items, n, t) && Reckoned(items, n, t, after, late) && Takes(items[n])
    requires !t.boundary ==> Fits(t.out + [items[n].take.value])
    ensures Counters(items, n + 1, Advanced(t, [items[n].take.value], after, late))
  {
    TripTaking(items, n);
    if t.boundary {
      BoundaryNext(items, n, Trip(items, n).value, t, Advanced(t, [items[n].take.value], after, late));
    }
  }

  /** An accepted item that leaves the caps, or the boundary, as they are. */
  lemma Accepted(ctl: Control, items: seq<Item>, n: nat, t: Tally, after: nat, late: bool)
    requires Running(ctl, items, n, t) && Reads(ctl, items, n) && Reckoned(items, n, t, after, late) && Takes(items[n])
    requires if t.boundary then items[n].nano == t.bt else Fits(t.out + [items[n].take.value])
    ensures Running(ctl, items, n + 1, Advanced(t, [items[n].take.value], after, late))
  {
    AcceptedCounters(items, n, t, after, late);
    AcceptedExit(items, n, t);
    GoesOn(ctl, items, n);
  }

  lemma AcceptedExit(items: seq<Item>, n: nat, t: Tally)
    requires Counters(items, n, t) && n < |items| && Takes(items[n])
    requires if t.boundary then items[n].nano == t.bt else Fits(t.out + [items[n].take.value])
    ensures ExitAtDecoded(items, n) == None
  {
    TripTaking(items, n);
  }

  /** The item that fills the batch is itself too long. */
  lemma FillsLate(ctl: Control, items: seq<Item>, n: nat, t: Tally)
    requires Running(ctl, items, n, t) && Reads(ctl, items, n) && Takes(items[n]) && !t.boundary
    requires !Fits(t.out + [items[n].take.value]) && Source(items, n + 1) - t.sourceBytes > BOUNDARY_MAX_BYTES
    ensures Stopped(ctl, items, n, Abandon(BoundaryOverrun), t)
  {
    FilledExit(items, n, t);
  }

  /** The counters after the item that fills the batch. */
  function Opened(t: Tally, s: Safe, after: nat, nano: nat): Tally {
    Tally(t.out + [s], t.acc + s.size + 1, after, true, nano, 1, t.sourceBytes, false)
  }

  lemma FilledCounters(items: seq<Item>, n: nat, t: Tally)
    requires Counters(items, n, t) && n < |items| && Takes(items[n]) && !t.boundary
    requires !Fits(t.out + [items[n].take.value])
    ensures Counters(items, n + 1, Opened(t, items[n].take.value, Source(items, n + 1), items[n].nano))
  {
    TripTaking(items, n);
    var u := Opened(t, items[n].take.value, Source(items, n + 1), items[n].nano);
    assert !Overrun(items, n, n + 1);
    assert AtBoundary(items, n + 1, n, u);
  }

  lemma FilledExit(items: seq<Item>, n: nat, t: Tally)
    requires Counters(items, n, t) && n < |items| && Takes(items[n]) && !t.boundary
    requires !Fits(t.out + [items[n].take.value])
    ensures ExitAtDecoded(items, n)
            == if Source(items, n + 1) - t.sourceBytes > BOUNDARY_MAX_BYTES then Some(Abandon(BoundaryOverrun)) else None
  {
    TripTaking(items, n);
  }

  /** The item that fills the batch is accepted and starts the boundary. */
  lemma Filled(ctl: Control, items: seq<Item>, n: nat, t: Tally)
    requires Running(ctl, items, n, t) && Reads(ctl, items, n) && Takes(items[n]) && !t.boundary
    requires !Fits(t.out + [items[n].take.value]) && Source(items, n + 1) - t.sourceBytes <= BOUNDARY_MAX_BYTES
    ensures Running(ctl, items, n + 1, Opened(t, items[n].take.value, Source(items, n + 1), items[n].nano))
  {
    FilledCounters(items, n, t);
    FilledExit(items, n, t);
    GoesOn(ctl, items, n);
  }

  /** The part of the loop that looks at an in-scope item: it may mark the overrun, fill the batch, or be passed over. */
  method AdmitScoped(ctl: Control, items: seq<Item>, n: nat, t: Tally) returns (why: Option<Exit>, next: Tally)
    requires Running(ctl, items, n, t) && Reads(ctl, items, n)
    requires items[n].Scoped? && (t.boundary ==> items[n].nano == t.bt)
    ensures if why.Some? then next == t && Stopped(ctl, items, n, why.value, t) else Running(ctl, items, n + 1, next)
  {
    var item := items[n];
    var after := t.sourceBytes + item.size;
    var decoded := t.decoded + 1;
    var late := t.boundary && (decoded > BOUNDARY_MAX_EVENTS || after - t.start > BOUNDARY_MAX_BYTES);
    assert Reckoned(items, n, t, after, late);
    if item.take.None? {
      Passed(ctl, items, n, t, after, late);
      return None, Advanced(t, [], after, late);
    }
    var s := item.take.value;
    BytesAppend(t.out, s);
    if !t.boundary && (|t.out| + 1 > MAX_EVENTS || t.acc + s.size + 1 > MAX_BRANCH_BYTES) {
      if 1 > BOUNDARY_MAX_EVENTS || after - t.sourceBytes > BOUNDARY_MAX_BYTES {
        FillsLate(ctl, items, n, t);
        return Some(Abandon(BoundaryOverrun)), t;
      }
      Filled(ctl, items, n, t);
      return None, Opened(t, s, after, item.nano);
    }
    Accepted(ctl, items, n, t, after, late);
    return None, Advanced(t, [s], after, late);
  }

  /** The part of the loop that looks at any decoded item within the decode caps. */
  method JudgeDecoded(ctl: Control, items: seq<Item>, n: nat, t: Tally) returns (why: Option<Exit>, next: Tally)
    requires Running(ctl, items, n, t) && Reads(ctl, items, n)
    ensures if why.Some? then next == t && Stopped(ctl, items, n, why.value, t) else Running(ctl, items, n + 1, next)
  {
    var item := items[n];
    var after := t.sourceBytes + item.size;
    if !item.Noise? && t.boundary && item.nano != t.bt {
      ClosesBoundary(ctl, items, n, t);
      return Some(if t.overrun then Abandon(BoundaryOverrun) else Boundary), t;
    }
    if item.Noise? || item.Unwanted? {
      if t.boundary && after - t.start > BOUNDARY_MAX_BYTES {
        RunsLate(ctl, items, n, t);
        return Some(Abandon(BoundaryOverrun)), t;
      }
      Passed(ctl, items, n, t, after, false);
      return None, Advanced(t, [], after, false);
    }
    if item.Outside? {
      Passed(ctl, items, n, t, after, false);
      return None, Advanced(t, [], after, false);
    }
    why, next := AdmitScoped(ctl, items, n, t);
  }

  /** The reading loop: which item stops the window, why, and what was accepted until then. */
  method ReadEvents(ctl: Control, items: seq<Item>) returns (why: Exit, t: Tally, ghost n: nat)
    ensures Stopped(ctl, items, n, why, t)
  {
    t := Tally([], 0, 0, false, 0, 0, 0, false);
    var sourceN: nat := 0;
    while true
      invariant Running(ctl, items, sourceN, t)
      decreases |items| - sourceN
    {
      n := sourceN;
      if ctl.done(sourceN) {
        StopsDone(ctl, items, n, t);
        return Abandon(CollectionDeadline), t, n;
      }
      if sourceN == |items| {
        StopsAtEnd(ctl, items, t);
        return EndExit(t), t, n;
      }
      var item := items[sourceN];
      var undecoded := UndecodedExit(item, sourceN, ctl.failing(sourceN), t.sourceBytes + SizeOf(item));
      if undecoded.Some? {
        StopsUndecoded(ctl, items, n, t, undecoded.value);
        return undecoded.value, t, n;
      }
      var judged, next := JudgeDecoded(ctl, items, sourceN, t);
      if judged.Some? { return judged.value, t, n; }
      t, sourceN := next, sourceN + 1;
    }
  }

  method CollectDockerEventWindow(w: Window, ctl: Control, stream: seq<Read>)
    returns (r: Outcome, ghost n: nat, ghost x: Exit)
    ensures w.since >= w.until ==> r == Failed
    ensures w.since < w.until ==>
              Stops(ctl, Items(w, stream), n, x) && r == OutcomeOf(w, Items(w, stream), n, x)
  {
    if w.since >= w.until { return Failed, 0, Fail; }
    var why, t;
    why, t, n := ReadEvents(ctl, Items(w, stream));
    x := why;
    var out, bt := t.out, t.bt;
    match why {
      case Fail => r := Failed;
      case Complete =>
        r := Collected(Sendable(out), WindowInfo(w.since, w.until, false, false, None), Watermark(w.until, []));
      case Boundary =>
        r := Finish(w, out, BoundaryOverflow, bt, Watermark(bt, BoundaryDigests(w.env, out, bt)));
      case Abandon(reason) =>
        r := Finish(w, out, reason, w.until, Watermark(w.until, []));
    }
  }
}
