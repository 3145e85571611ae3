/** What collection windows guarantee: caps, wire relations, accounting, splitting and chaining. */
module EventWindowProps {
  import opened Lex
  import opened EventTypes
  import opened Options
  import opened EventWindow

  // ---- the agent's own validation of windows and batches ----

  /** validateDockerWindow on the synthesized window. */
  predicate ValidWindow(info: WindowInfo) {
    info.since < info.until && (info.lossy <==> info.reason.Some?)
  }

  /** The watermark relations of validateDockerBatch; `from` is the window's own start. */
  predicate ValidRelations(from: nat, info: WindowInfo, proposed: nat) {
    && from == info.since
    && from <= proposed <= info.until
    && (!info.capped && !info.lossy ==> proposed == info.until)
    && (info.lossy && info.reason.Some? && !info.reason.value.BoundaryOverflow? ==> proposed == info.until)
  }

  function WireBytes(env: Env, events: seq<Outgoing>): nat {
    if events == [] then 0
    else
      var e := events[|events| - 1];
      WireBytes(env, events[..|events| - 1]) + 1 +
      (match e case Sent(ev) => env.size(ev) case GapMark(gap) => env.gapSize(gap))
  }

  // ---- helpers about prefixes ----

  lemma {:induction false} WireBytesOfSafe(env: Env, out: seq<Safe>)
    requires forall i :: 0 <= i < |out| ==> out[i].size == env.size(out[i].ev)
    ensures WireBytes(env, Sendable(out)) == Bytes(out)
  {
    if out != [] {
      var front := out[..|out| - 1];
      WireBytesOfSafe(env, front);
      assert Sendable(out)[..|out| - 1] == Sendable(front);
    }
  }

  /** Sizes and times of accepted events are their own, and they are valid events of a wanted action. */
  ghost predicate Sound(w: Window, s: Safe) {
    && s.size == w.env.size(s.ev) && s.ev.nano == s.nano && w.since <= s.nano <= w.until
    && ValidEvent(s.ev) && !s.ev.action.OtherAction?
  }

  lemma {:induction false} TakenFacts(w: Window, stream: seq<Read>, n: nat)
    requires n <= |stream|
    ensures |Taken(Items(w, stream), n)| <= n
    ensures forall i :: 0 <= i < |Taken(Items(w, stream), n)| ==> Sound(w, Taken(Items(w, stream), n)[i])
  {
    if n > 0 {
      TakenFacts(w, stream, n - 1);
      ClassifySpec(w, stream[n - 1]);
      var prev, last := Taken(Items(w, stream), n - 1), Take(Items(w, stream)[n - 1]);
      assert Taken(Items(w, stream), n) == prev + last;
      forall i | 0 <= i < |prev + last| ensures Sound(w, (prev + last)[i]) {
        if i < |prev| { assert Sound(w, prev[i]); }
      }
    }
  }

  lemma {:induction false} LongestRoom(out: seq<Safe>, k: nat, room: int)
    requires k <= |out|
    ensures Longest(out, k, room) > 0 ==> Bytes(out[..Longest(out, k, room)]) <= room
  {
    if !(k == 0 || Bytes(out[..k]) <= room) { LongestRoom(out, k - 1, room); }
  }

  lemma StopsInside(ctl: Control, items: seq<Item>, n: nat, x: Exit)
    requires Stops(ctl, items, n, x) && n > 0
    ensures n <= DECODE_MAX_EVENTS && Source(items, n) <= DECODE_MAX_BYTES
  {
    assert Passes(ctl, items, n - 1);
  }

  // ---- shape and caps of every outcome ----

  /** A stopped window ends in one gap event, from its start through a time inside it. */
  lemma StopIsGap(w: Window, ctl: Control, stream: seq<Read>, n: nat, x: Exit)
    returns (reason: Reason, through: nat, proposed: Watermark)
    requires w.since < w.until && Stops(ctl, Items(w, stream), n, x) && (x.Boundary? || x.Abandon?)
    ensures |Taken(Items(w, stream), n)| <= MAX_SKIPPED && w.since <= through <= w.until
    ensures OutcomeOf(w, Items(w, stream), n, x) == WithGap(w, Taken(Items(w, stream), n), reason, through, proposed)
  {
    TakenFacts(w, stream, n);
    if n > 0 { StopsInside(ctl, Items(w, stream), n, x); }
    proposed := OutcomeOf(w, Items(w, stream), n, x).proposed;
    if x.Boundary? {
      var m := Trip(Items(w, stream), n).value;
      ClassifySpec(w, stream[m]);
      reason, through := BoundaryOverflow, Items(w, stream)[m].nano;
    } else {
      reason, through := x.reason, w.until;
    }
  }

  /** Every collected window meets the agent's own window and watermark relations. */
  lemma WindowRelations(w: Window, ctl: Control, stream: seq<Read>, n: nat, x: Exit)
    requires w.since < w.until && Stops(ctl, Items(w, stream), n, x)
    ensures var r := OutcomeOf(w, Items(w, stream), n, x);
            && (r.Failed? <==> x.Fail?)
            && (r.Collected? ==>
                  && ValidWindow(r.info) && ValidRelations(w.since, r.info, r.proposed.time)
                  && (r.info.lossy <==> r.events != [] && r.events[|r.events| - 1].GapMark?)
                  && (!x.Boundary? ==> r.proposed == Watermark(w.until, []))
                  && r.info.since == w.since && r.info.until == w.until && r.info.capped == r.info.lossy
                  && (r.info.lossy ==>
                        var gap := r.events[|r.events| - 1].gap;
                        gap.from == w.since && gap.through == r.proposed.time && r.info.reason == Some(gap.reason)
                        && gap.reason == if x.Boundary? then BoundaryOverflow else x.reason))
  {
    if x.Boundary? {
      var m := Trip(Items(w, stream), n).value;
      ClassifySpec(w, stream[m]);
    }
    assert x.Complete? ==> forall e :: e in Sendable(Taken(Items(w, stream), n)) ==> e.Sent?;
  }

  /** The events a non-failing stop transmits: a prefix of the accepted ones, then at most one gap event. */
  ghost predicate PrefixThenGap(env: Env, out: seq<Safe>, events: seq<Outgoing>) {
    || events == Sendable(out)
    || (exists k: nat, gap ::
          k <= |out| && events == Sendable(out[..k]) + [GapMark(gap)]
          && (env.gapSize(gap) + 1 <= MAX_BRANCH_BYTES ==> WireBytes(env, events) <= MAX_BRANCH_BYTES))
  }

  /** At most 100 events; within the branch budget unless not even the lone gap event is. */
  lemma WindowCaps(w: Window, ctl: Control, stream: seq<Read>, n: nat, x: Exit)
    requires w.since < w.until && Stops(ctl, Items(w, stream), n, x) && !x.Fail?
    ensures var r := OutcomeOf(w, Items(w, stream), n, x);
            && r.Collected? && |r.events| <= MAX_EVENTS
            && PrefixThenGap(w.env, Taken(Items(w, stream), n), r.events)
            && (x.Complete? ==> WireBytes(w.env, r.events) <= MAX_BRANCH_BYTES)
  {
    if x.Complete? { CompleteCaps(w, ctl, stream, n); } else { GapWindowCaps(w, ctl, stream, n, x); }
  }

  lemma CompleteCaps(w: Window, ctl: Control, stream: seq<Read>, n: nat)
    requires Stops(ctl, Items(w, stream), n, Complete)
    ensures var out := Taken(Items(w, stream), n);
            |Sendable(out)| <= MAX_EVENTS && WireBytes(w.env, Sendable(out)) <= MAX_BRANCH_BYTES
  {
    CompleteFits(ctl, Items(w, stream), n);
    TakenSizes(w, stream, n);
    WireBytesOfSafe(w.env, Taken(Items(w, stream), n));
  }

  lemma CompleteFits(ctl: Control, items: seq<Item>, n: nat)
    requires Stops(ctl, items, n, Complete)
    ensures Fits(Taken(items, n))
  {
    FitsUntilTrip(items, n);
  }

  lemma TakenSizes(w: Window, stream: seq<Read>, n: nat)
    requires n <= |stream|
    ensures forall i :: 0 <= i < |Taken(Items(w, stream), n)| ==>
              Taken(Items(w, stream), n)[i].size == w.env.size(Taken(Items(w, stream), n)[i].ev)
  {
    TakenFacts(w, stream, n);
    var out := Taken(Items(w, stream), n);
    forall i | 0 <= i < |out| ensures out[i].size == w.env.size(out[i].ev) { assert Sound(w, out[i]); }
  }

  lemma GapWindowCaps(w: Window, ctl: Control, stream: seq<Read>, n: nat, x: Exit)
    requires w.since < w.until && Stops(ctl, Items(w, stream), n, x) && (x.Boundary? || x.Abandon?)
    ensures var r := OutcomeOf(w, Items(w, stream), n, x);
            r.Collected? && |r.events| <= MAX_EVENTS && PrefixThenGap(w.env, Taken(Items(w, stream), n), r.events)
  {
    TakenSizes(w, stream, n);
    var reason, through, proposed := StopIsGap(w, ctl, stream, n, x);
    GapCaps(w, Taken(Items(w, stream), n), reason, through, proposed);
  }

  /** The caps of an outcome that ends in a gap event. */
  lemma GapCaps(w: Window, out: seq<Safe>, reason: Reason, through: nat, proposed: Watermark)
    requires forall i :: 0 <= i < |out| ==> out[i].size == w.env.size(out[i].ev)
    ensures var r := WithGap(w, out, reason, through, proposed);
            r.Collected? && |r.events| <= MAX_EVENTS && PrefixThenGap(w.env, out, r.events)
  {
    GapShape(w, out, reason, through);
    var gap := GapOf(out, reason, w.since, through);
    var k := Kept(w.env, out, gap);
    assert WithGap(w, out, reason, through, proposed).events == Sendable(out[..k]) + [GapMark(gap)];
  }

  lemma GapShape(w: Window, out: seq<Safe>, reason: Reason, through: nat)
    requires forall i :: 0 <= i < |out| ==> out[i].size == w.env.size(out[i].ev)
    ensures var gap := GapOf(out, reason, w.since, through);
            var k := Kept(w.env, out, gap);
            var events := Sendable(out[..k]) + [GapMark(gap)];
            && k <= Reserved(out) <= |out| && |events| <= MAX_EVENTS
            && (w.env.gapSize(gap) + 1 <= MAX_BRANCH_BYTES ==> WireBytes(w.env, events) <= MAX_BRANCH_BYTES)
  {
    var gap := GapOf(out, reason, w.since, through);
    var k := Kept(w.env, out, gap);
    var events := Sendable(out[..k]) + [GapMark(gap)];
    assert events[..|events| - 1] == Sendable(out[..k]);
    WireBytesOfSafe(w.env, out[..k]);
    LongestRoom(out, Reserved(out), MAX_BRANCH_BYTES - w.env.gapSize(gap) - 1);
    assert out[..0] == [];
  }

  /**
   * The gap event's count never exceeds what is missing, and is exact if and only if the
   * events kept when its slot was reserved leave room for its bytes, or there are none.
   */
  lemma GapCount(w: Window, ctl: Control, stream: seq<Read>, n: nat, x: Exit)
    requires w.since < w.until && Stops(ctl, Items(w, stream), n, x) && (x.Boundary? || x.Abandon?)
    ensures var out := Taken(Items(w, stream), n);
            var events := OutcomeOf(w, Items(w, stream), n, x).events;
            |events| > 0 && Counts(w, out, events)
  {
    var reason, through, proposed := StopIsGap(w, ctl, stream, n, x);
    CountOf(w, Taken(Items(w, stream), n), reason, through, proposed);
  }

  /** The kept events fit together with the gap event, or none is kept. */
  predicate RoomForGap(env: Env, out: seq<Safe>, gap: Gap) {
    Reserved(out) == 0 || Bytes(out[..Reserved(out)]) + env.gapSize(gap) + 1 <= MAX_BRANCH_BYTES
  }

  /** The last event is a gap that counts at most the missing events, and all of them exactly when there was room for it. */
  predicate Counts(w: Window, out: seq<Safe>, events: seq<Outgoing>)
    requires |events| > 0
  {
    var last := events[|events| - 1];
    var missing := |out| - (|events| - 1);
    && last.GapMark? && last.gap.skipped <= missing
    && (last.gap.skipped == missing <==> RoomForGap(w.env, out, last.gap))
  }

  /** The count of an outcome that ends in a gap event, for at most as many events as one response decodes. */
  lemma CountOf(w: Window, out: seq<Safe>, reason: Reason, through: nat, proposed: Watermark)
    requires |out| <= MAX_SKIPPED
    ensures var events := WithGap(w, out, reason, through, proposed).events;
            |events| > 0 && Counts(w, out, events)
  {
    var gap := GapOf(out, reason, w.since, through);
    var k := Kept(w.env, out, gap);
    assert k <= Reserved(out);
    assert |Sendable(out[..k])| == k;
  }

  /** A watermark listing, sorted and once each, the digests of the accepted events at its own time. */
  ghost predicate BoundaryMark(env: Env, out: seq<Safe>, mark: Watermark) {
    && Ascending(mark.digests)
    && forall d :: d in mark.digests <==>
         exists i :: 0 <= i < |out| && out[i].nano == mark.time && DigestOf(env, out[i].ev) == d
  }

  /** A boundary stop proposes its own timestamp with exactly the digests accepted there. */
  lemma ProposedDigests(w: Window, items: seq<Item>, n: nat)
    requires n <= |items| && Trip(items, n).Some?
    ensures var r := OutcomeOf(w, items, n, Boundary);
            r.Collected? && r.proposed.time == items[Trip(items, n).value].nano
            && BoundaryMark(w.env, Taken(items, n), r.proposed)
  {
    BoundaryDigestsSpec(w.env, Taken(items, n), items[Trip(items, n).value].nano);
  }

  /** The distinct digests of the accepted events at one time. */
  ghost function DigestsAt(env: Env, out: seq<Safe>, nano: nat): set<string> {
    set i | 0 <= i < |out| && out[i].nano == nano :: DigestOf(env, out[i].ev)
  }

  lemma BoundarySize(env: Env, out: seq<Safe>, mark: Watermark)
    requires BoundaryMark(env, out, mark)
    ensures |mark.digests| == |DigestsAt(env, out, mark.time)|
  {
    AscendingSize(mark.digests);
    assert ElementsOf(mark.digests) == DigestsAt(env, out, mark.time);
  }

  // ---- why a window stops, and what it transmits ----

  /** An in-scope read after the boundary one that still finishes its timestamp in time. */
  predicate InTime(items: seq<Item>, m: nat, j: nat)
    requires m < j < |items|
  {
    items[j].Scoped? ==> j - m + 1 <= 1000 && Source(items, j + 1) - Source(items, m) <= 524288
  }

  /** Each way to stop, in the caps' own numbers. */
  lemma WhyStopped(ctl: Control, items: seq<Item>, n: nat, x: Exit)
    requires Stops(ctl, items, n, x)
    ensures match x
            case Fail => n < |items| && items[n].Broken? && !ctl.failing(n) && Source(items, n + 1) <= 2097152
            case Complete =>
              n == |items| && |Taken(items, n)| <= 100 && Bytes(Taken(items, n)) <= 65536 && Source(items, n) <= 2097152
            case Boundary =>
              && (|Taken(items, n)| > 100 || Bytes(Taken(items, n)) > 65536) && Trip(items, n).Some?
              && (forall j :: Trip(items, n).value < j < n ==> InTime(items, Trip(items, n).value, j))
              && (n < |items| ==> Timed(items[n]) && items[n].nano != items[Trip(items, n).value].nano)
            case Abandon(reason) =>
              match reason
              case CollectionDeadline => ctl.done(n) || (n < |items| && items[n].Broken? && ctl.failing(n))
              case ResponseOversize =>
                || (n == |items| && Source(items, n) > 2097152)
                || (n < |items| && (items[n].Overlong? || n + 1 > 10000 || Source(items, n + 1) > 2097152))
              case BoundaryOverrun =>
                || (Trip(items, n).Some? && exists j :: Trip(items, n).value < j < n && !InTime(items, Trip(items, n).value, j))
                || (n < |items| && Trip(items, n).Some? && Source(items, n + 1) - Source(items, Trip(items, n).value) > 524288)
                || (n < |items| && Trip(items, n).None? && SizeOf(items[n]) > 524288)
              case BoundaryOverflow => false
  {
    FitsUntilTrip(items, n);
    if Trip(items, n).Some? { OverrunIsLate(items, Trip(items, n).value, n); }
    if n < |items| { assert Source(items, n + 1) == Source(items, n) + SizeOf(items[n]); }
  }

  lemma OverrunIsLate(items: seq<Item>, m: nat, n: nat)
    requires m < n <= |items|
    ensures Overrun(items, m, n) <==> exists j :: m < j < n && !InTime(items, m, j)
  {
    forall j | m < j < n ensures InTime(items, m, j) <==> !LateScoped(items, m, j) {}
  }

  /** A window that is not disturbed, on a response of objects within every cap, is read to its end. */
  lemma QuietWindowCompletes(w: Window, ctl: Control, stream: seq<Read>)
    requires |stream| <= 10000 && (forall j :: 0 <= j <= |stream| ==> !ctl.done(j))
    requires forall j :: 0 <= j < |stream| ==> stream[j].Decoded?
    requires Source(Items(w, stream), |stream|) <= 2097152
    requires |Taken(Items(w, stream), |stream|)| <= 100 && Bytes(Taken(Items(w, stream), |stream|)) <= 65536
    ensures Stops(ctl, Items(w, stream), |stream|, Complete)
  {
    var items := Items(w, stream);
    FitsUntilTrip(items, |items|);
    forall j | 0 <= j < |items| ensures Passes(ctl, items, j) {
      QuietPasses(ctl, items, j);
    }
  }

  lemma QuietPasses(ctl: Control, items: seq<Item>, j: nat)
    requires j < |items| <= 10000 && !ctl.done(j) && Trip(items, |items|).None? && Source(items, |items|) <= 2097152
    requires !items[j].Overlong? && !items[j].Broken?
    ensures Passes(ctl, items, j)
  {
    NoTripBefore(items, |items|, j);
    NoTripBefore(items, |items|, j + 1);
    SourceGrows(items, j + 1, |items|);
    assert ExitAtDecoded(items, j) == None;
  }

  lemma {:induction false} NoTripBefore(items: seq<Item>, n: nat, j: nat)
    requires j <= n <= |items| && Trip(items, n).None?
    ensures Trip(items, j).None?
  {
    if j < n {
      var p: nat := n - 1;
      assert Trip(items, p + 1).None?;
      NoTripBefore(items, p, j);
    }
  }

  lemma {:induction false} SourceGrows(items: seq<Item>, i: nat, j: nat)
    requires i <= j <= |items|
    ensures Source(items, i) <= Source(items, j)
  {
    if i < j { SourceGrows(items, i, j - 1); }
  }

  /** The event renders one of the first `n` reads, which nothing refuses. */
  ghost predicate FromRead(w: Window, stream: seq<Read>, n: nat, ev: Event)
    requires n <= |stream|
  {
    exists j :: 0 <= j < n && stream[j].Decoded? && Renders(w, stream[j].event, ev) && !PassedOver(w, stream[j].event, ev)
  }

  lemma {:induction false} TakenFromReads(w: Window, stream: seq<Read>, n: nat)
    requires n <= |stream|
    ensures forall i :: 0 <= i < |Taken(Items(w, stream), n)| ==> FromRead(w, stream, n, Taken(Items(w, stream), n)[i].ev)
  {
    if n > 0 {
      TakenFromReads(w, stream, n - 1);
      var prev: seq<Safe>, last: seq<Safe> := Taken(Items(w, stream), n - 1), Take(Items(w, stream)[n - 1]);
      forall i | 0 <= i < |prev + last| ensures FromRead(w, stream, n, (prev + last)[i].ev) {
        if i < |prev| {
          assert FromRead(w, stream, n - 1, prev[i].ev);
        } else {
          ClassifySpec(w, stream[n - 1]);
          AcceptsExactly(w, stream[n - 1].event, stream[n - 1].size, last[0].ev);
        }
      }
    }
  }

  ghost predicate AllFromReads(w: Window, stream: seq<Read>, n: nat, events: seq<Outgoing>)
    requires n <= |stream|
  {
    forall i :: 0 <= i < |events| && events[i].Sent? ==> FromRead(w, stream, n, events[i].ev)
  }

  /** Every transmitted event is some daemon event's own rendering, at that event's own time. */
  lemma SentEventsAreReads(w: Window, ctl: Control, stream: seq<Read>, n: nat, x: Exit)
    requires Stops(ctl, Items(w, stream), n, x) && !x.Fail?
    ensures var r := OutcomeOf(w, Items(w, stream), n, x);
            r.Collected? && AllFromReads(w, stream, n, r.events)
  {
    TakenFromReads(w, stream, n);
    var out := Taken(Items(w, stream), n);
    var events := OutcomeOf(w, Items(w, stream), n, x).events;
    SentAreTaken(w, Items(w, stream), n, x);
    forall i | 0 <= i < |events| && events[i].Sent? ensures FromRead(w, stream, n, events[i].ev) {
      assert FromRead(w, stream, n, out[i].ev);
    }
  }

  /** The transmitted events are the first accepted ones. */
  lemma SentAreTaken(w: Window, items: seq<Item>, n: nat, x: Exit)
    requires n <= |items| && !x.Fail? && (x.Boundary? ==> Trip(items, n).Some?)
    ensures var out := Taken(items, n);
            var events := OutcomeOf(w, items, n, x).events;
            forall i :: 0 <= i < |events| && events[i].Sent? ==> i < |out| && events[i] == Sent(out[i].ev)
  {}

  // ---- time-ordered streams ----

  predicate Timed(c: Item) { c.Unwanted? || c.Outside? || c.Scoped? }

  /** The daemon reports events in time order: no usable time precedes a smaller one. */
  ghost predicate TimeOrdered(stream: seq<Read>) {
    forall i, j :: 0 <= i < j < |stream| && HasTime(stream[i]) && HasTime(stream[j]) ==>
      TimeOf(stream[i]) <= TimeOf(stream[j])
  }

  predicate HasTime(r: Read) {
    r.Decoded? && Bounded(r.event) && NormalizeNano(r.event).Some?
  }

  function TimeOf(r: Read): nat
    requires HasTime(r)
  {
    NormalizeNano(r.event).value.0
  }

  lemma TimedSpec(w: Window, r: Read)
    ensures Timed(Classify(w, r)) <==> HasTime(r)
    ensures HasTime(r) ==> Classify(w, r).nano == TimeOf(r)
  {}

  ghost predicate ItemsOrdered(items: seq<Item>) {
    forall i, j :: 0 <= i < j < |items| && Timed(items[i]) && Timed(items[j]) ==> items[i].nano <= items[j].nano
  }

  lemma OrderedItems(w: Window, stream: seq<Read>)
    requires TimeOrdered(stream)
    ensures ItemsOrdered(Items(w, stream))
  {
    var items := Items(w, stream);
    forall i, j | 0 <= i < j < |items| && Timed(items[i]) && Timed(items[j])
      ensures items[i].nano <= items[j].nano
    {
      TimedSpec(w, stream[i]);
      TimedSpec(w, stream[j]);
    }
  }

  /** A boundary stop separates the stream at the boundary timestamp. */
  lemma BoundarySeparates(ctl: Control, items: seq<Item>, n: nat)
    requires Stops(ctl, items, n, Boundary) && ItemsOrdered(items)
    ensures Trip(items, n).Some?
    ensures var bt := items[Trip(items, n).value].nano;
            && (forall j :: 0 <= j < n && Timed(items[j]) ==> items[j].nano <= bt)
            && (forall j :: n <= j < |items| && Timed(items[j]) ==> bt < items[j].nano)
  {
    var m := Trip(items, n).value;
    var bt := items[m].nano;
    assert Timed(items[m]);
    forall j | 0 <= j < n && Timed(items[j]) ensures items[j].nano <= bt {
      if m < j {
        MiddleOfBoundary(ctl, items, n, j);
      }
    }
    forall j | n <= j < |items| && Timed(items[j]) ensures bt < items[j].nano {
      assert Timed(items[n]) && items[n].nano != bt;
    }
  }

  lemma MiddleOfBoundary(ctl: Control, items: seq<Item>, n: nat, j: nat)
    requires Stops(ctl, items, n, Boundary) && Trip(items, n).Some? && Trip(items, n).value < j < n && Timed(items[j])
    ensures items[j].nano == items[Trip(items, n).value].nano
  {
    var m := Trip(items, n).value;
    TripBefore(items, n, j);
    assert Passes(ctl, items, j);
    assert ExitAtDecoded(items, j) == None;
  }

  lemma {:induction false} TripBefore(items: seq<Item>, n: nat, j: nat)
    requires n <= |items| && Trip(items, n).Some? && Trip(items, n).value < j <= n
    ensures Trip(items, j) == Trip(items, n)
  {
    if j < n {
      assert Trip(items, n) == if Trip(items, n - 1).Some? then Trip(items, n - 1) else Some(n - 1);
      TripBefore(items, n - 1, j);
    }
  }
}
