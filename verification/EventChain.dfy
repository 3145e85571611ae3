/** Splitting one pass at a boundary, and chains of windows that lose nothing silently. */
module EventChain {
  import opened EventTypes
  import opened EventWindow
  import opened EventWindowProps

  /** What a single pass without any caps accepts, straight from the admission rule. */
  function Uncapped(w: Window, stream: seq<Read>, n: nat): seq<Safe>
    requires n <= |stream|
  {
    if n == 0 then []
    else
      var r := stream[n - 1];
      Uncapped(w, stream, n - 1) +
      (if Accepts(w, r) then [Safe(Candidate(w, r).nano, Candidate(w, r), w.env.size(Candidate(w, r)))] else [])
  }

  lemma {:induction false} TakenIsUncapped(w: Window, stream: seq<Read>, n: nat)
    requires n <= |stream|
    ensures Taken(Items(w, stream), n) == Uncapped(w, stream, n)
  {
    if n > 0 {
      TakenIsUncapped(w, stream, n - 1);
      ClassifySpec(w, stream[n - 1]);
    }
  }

  /** The window that resumes at the boundary another one proposed. */
  function Resume(w: Window, mark: Watermark): Window {
    Window(mark.time, w.until, mark.digests, w.env)
  }

  /** An event the window passes over because the one before it committed it. */
  predicate Committed(w: Window, r: Read) {
    Admissible(w, r) && Replayed(w, Candidate(w, r))
  }

  /** Reads before the stop are at or before the boundary, later ones after it. */
  ghost predicate Separated(stream: seq<Read>, n: nat, bt: nat) {
    && n <= |stream|
    && (forall j :: 0 <= j < n && HasTime(stream[j]) ==> TimeOf(stream[j]) <= bt)
    && (forall j :: n <= j < |stream| && HasTime(stream[j]) ==> bt < TimeOf(stream[j]))
  }

  lemma SeparatedStream(w: Window, ctl: Control, stream: seq<Read>, n: nat)
    requires TimeOrdered(stream) && Stops(ctl, Items(w, stream), n, Boundary)
    ensures Trip(Items(w, stream), n).Some?
    ensures var m := Trip(Items(w, stream), n).value;
            && Accepts(w, stream[m])
            && Separated(stream, n, TimeOf(stream[m])) && TimeOf(stream[m]) == Items(w, stream)[m].nano
            && w.since <= TimeOf(stream[m]) <= w.until
  {
    var items := Items(w, stream);
    OrderedItems(w, stream);
    BoundarySeparates(ctl, items, n);
    var m := Trip(items, n).value;
    ClassifySpec(w, stream[m]);
    TimedSpec(w, stream[m]);
    forall j | 0 <= j < |stream| && HasTime(stream[j]) ensures Timed(items[j]) && items[j].nano == TimeOf(stream[j]) {
      TimedSpec(w, stream[j]);
    }
  }

  /** An event accepted at the boundary's own time is listed in the proposal. */
  lemma AcceptedIsListed(w: Window, stream: seq<Read>, n: nat, mark: Watermark, j: nat)
    requires j < n <= |stream| && Accepts(w, stream[j]) && Candidate(w, stream[j]).nano == mark.time
    requires BoundaryMark(w.env, Uncapped(w, stream, n), mark)
    ensures DigestOf(w.env, Candidate(w, stream[j])) in mark.digests
  {
    UncappedHas(w, stream, n, j);
  }

  /** What is accepted was not committed before. */
  lemma {:induction false} UncappedNew(w: Window, stream: seq<Read>, n: nat)
    requires n <= |stream|
    ensures forall i :: 0 <= i < |Uncapped(w, stream, n)| ==>
              !Replayed(w, Uncapped(w, stream, n)[i].ev) && Uncapped(w, stream, n)[i].ev.nano == Uncapped(w, stream, n)[i].nano
  {
    if n > 0 { UncappedNew(w, stream, n - 1); }
  }

  /** Before the stop the resumed pass re-accepts only what was committed, and only at a boundary at the start. */
  lemma BeforeStop(w: Window, stream: seq<Read>, n: nat, mark: Watermark, j: nat)
    requires Separated(stream, n, mark.time) && j < n && w.since <= mark.time <= w.until
    requires BoundaryMark(w.env, Uncapped(w, stream, n), mark)
    ensures Accepts(Resume(w, mark), stream[j]) <==> mark.time == w.since && Committed(w, stream[j])
  {
    var v, r := Resume(w, mark), stream[j];
    UncappedNew(w, stream, n);
    if Accepts(v, r) {
      assert TimeOf(r) == mark.time;
      assert Admissible(w, r) && Candidate(w, r) == Candidate(v, r);
      if Accepts(w, r) { AcceptedIsListed(w, stream, n, mark, j); }
    }
  }

  lemma {:induction false} UncappedHas(w: Window, stream: seq<Read>, n: nat, j: nat)
    requires j < n <= |stream| && Accepts(w, stream[j])
    ensures exists i :: 0 <= i < |Uncapped(w, stream, n)| && Uncapped(w, stream, n)[i].ev == Candidate(w, stream[j])
                        && Uncapped(w, stream, n)[i].nano == Candidate(w, stream[j]).nano
  {
    var u := Uncapped(w, stream, n);
    if j == n - 1 {
      assert u[|u| - 1].ev == Candidate(w, stream[j]);
    } else {
      UncappedHas(w, stream, n - 1, j);
      var p := Uncapped(w, stream, n - 1);
      var i :| 0 <= i < |p| && p[i].ev == Candidate(w, stream[j]) && p[i].nano == Candidate(w, stream[j]).nano;
      assert u[i] == p[i];
    }
  }

  /** After the stop both passes accept the same events. */
  lemma AfterStop(w: Window, stream: seq<Read>, n: nat, mark: Watermark, j: nat)
    requires Separated(stream, n, mark.time) && n <= j < |stream| && w.since <= mark.time <= w.until
    ensures Accepts(Resume(w, mark), stream[j]) <==> Accepts(w, stream[j])
    ensures Accepts(w, stream[j]) ==> Candidate(Resume(w, mark), stream[j]) == Candidate(w, stream[j])
  {}

  /** Some read among the first `k` was committed before. */
  ghost predicate SomeCommitted(w: Window, stream: seq<Read>, k: nat)
    requires k <= |stream|
  {
    exists j :: 0 <= j < k && Committed(w, stream[j])
  }

  lemma {:induction false} ResumedBefore(w: Window, stream: seq<Read>, n: nat, mark: Watermark, k: nat)
    requires Separated(stream, n, mark.time) && k <= n && w.since <= mark.time <= w.until
    requires BoundaryMark(w.env, Uncapped(w, stream, n), mark)
    ensures Uncapped(Resume(w, mark), stream, k) == [] <==> !(mark.time == w.since && SomeCommitted(w, stream, k))
  {
    if k > 0 {
      ResumedBefore(w, stream, n, mark, k - 1);
      BeforeStop(w, stream, n, mark, k - 1);
      assert SomeCommitted(w, stream, k) <==> SomeCommitted(w, stream, k - 1) || Committed(w, stream[k - 1]);
    }
  }

  lemma {:induction false} ResumedAfter(w: Window, stream: seq<Read>, n: nat, mark: Watermark, k: nat)
    returns (tail: seq<Safe>)
    requires Separated(stream, n, mark.time) && n <= k <= |stream| && w.since <= mark.time <= w.until
    ensures Uncapped(w, stream, k) == Uncapped(w, stream, n) + tail
    ensures Uncapped(Resume(w, mark), stream, k) == Uncapped(Resume(w, mark), stream, n) + tail
    ensures forall i :: 0 <= i < |tail| ==> tail[i].nano > mark.time
  {
    if k == n {
      tail := [];
    } else {
      tail := ResumedAfter(w, stream, n, mark, k - 1);
      AfterStop(w, stream, n, mark, k - 1);
      if Accepts(w, stream[k - 1]) {
        var ev := Candidate(w, stream[k - 1]);
        tail := tail + [Safe(ev.nano, ev, w.env.size(ev))];
      }
    }
  }

  /**
   * Splitting: a window stopped by boundary overflow accepts a front of the one
   * uncapped pass, and the pass resumed at its watermark and digests accepts
   * exactly the rest, unless the boundary time is `since` and the response repeats an
   * event committed there before.
   */
  lemma SplitExactly(w: Window, ctl: Control, stream: seq<Read>, n: nat)
    requires TimeOrdered(stream) && Stops(ctl, Items(w, stream), n, Boundary)
    ensures Trip(Items(w, stream), n).Some?
    ensures var r := OutcomeOf(w, Items(w, stream), n, Boundary);
            var front := Taken(Items(w, stream), n);
            var rest := Uncapped(Resume(w, r.proposed), stream, |stream|);
            Uncapped(w, stream, |stream|) == front + rest
            <==> !(TimeOf(stream[Trip(Items(w, stream), n).value]) == w.since && SomeCommitted(w, stream, |stream|))
  {
    SeparatedStream(w, ctl, stream, n);
    TakenIsUncapped(w, stream, n);
    ProposedDigests(w, Items(w, stream), n);
    var mark := OutcomeOf(w, Items(w, stream), n, Boundary).proposed;
    ResumedBefore(w, stream, n, mark, n);
    var tail := ResumedAfter(w, stream, n, mark, |stream|);
    var again := Uncapped(Resume(w, mark), stream, n);
    assert mark.time == w.since ==> (SomeCommitted(w, stream, |stream|) <==> SomeCommitted(w, stream, n));
    var front := Taken(Items(w, stream), n);
    if again != [] {
      assert |front + (again + tail)| == |front| + |again| + |tail|;
      assert |front + tail| == |front| + |tail|;
    } else {
      assert again + tail == tail;
    }
  }

  /** None is accepted twice: the front ends at the boundary, the resumed pass starts after it. */
  lemma SplitDisjoint(w: Window, ctl: Control, stream: seq<Read>, n: nat)
    requires TimeOrdered(stream) && Stops(ctl, Items(w, stream), n, Boundary)
    ensures Trip(Items(w, stream), n).Some?
    ensures var mark := OutcomeOf(w, Items(w, stream), n, Boundary).proposed;
            var front := Taken(Items(w, stream), n);
            && (forall i :: 0 <= i < |front| ==> front[i].nano <= mark.time)
            && (w.since < mark.time ==>
                  forall s :: s in Uncapped(Resume(w, mark), stream, |stream|) ==> s.nano > mark.time)
  {
    SeparatedStream(w, ctl, stream, n);
    TakenIsUncapped(w, stream, n);
    ProposedDigests(w, Items(w, stream), n);
    var mark := OutcomeOf(w, Items(w, stream), n, Boundary).proposed;
    ResumedBefore(w, stream, n, mark, n);
    var tail := ResumedAfter(w, stream, n, mark, |stream|);
    FrontTimes(w, stream, n, mark.time, n);
    if w.since < mark.time {
      assert Uncapped(Resume(w, mark), stream, n) == [];
      assert Uncapped(Resume(w, mark), stream, |stream|) == tail;
    }
  }

  lemma {:induction false} FrontTimes(w: Window, stream: seq<Read>, n: nat, bt: nat, k: nat)
    requires Separated(stream, n, bt) && k <= n
    ensures forall i :: 0 <= i < |Uncapped(w, stream, k)| ==> Uncapped(w, stream, k)[i].nano <= bt
  {
    if k > 0 { FrontTimes(w, stream, n, bt, k - 1); }
  }

  /**
   * Accounting at a boundary stop on an ordered stream: the window accepts exactly
   * the events an uncapped pass accepts up to the proposed watermark.
   */
  lemma BoundaryTakesAll(w: Window, ctl: Control, stream: seq<Read>, n: nat, j: nat)
    requires TimeOrdered(stream) && Stops(ctl, Items(w, stream), n, Boundary) && j < |stream|
    ensures Trip(Items(w, stream), n).Some?
    ensures var mark := OutcomeOf(w, Items(w, stream), n, Boundary).proposed;
            Accepts(w, stream[j]) ==> (j < n <==> Candidate(w, stream[j]).nano <= mark.time)
  {
    SeparatedStream(w, ctl, stream, n);
  }

  // ---- chains of windows ----

  /** One collection: its window, the context's behaviour, the response, and where and why it stopped. */
  datatype Round = Round(w: Window, ctl: Control, stream: seq<Read>, n: nat, x: Exit)

  ghost predicate Completed(r: Round) {
    r.w.since < r.w.until && Stops(r.ctl, Items(r.w, r.stream), r.n, r.x) && !r.x.Fail?
  }

  ghost function Result(r: Round): (o: Outcome)
    requires Completed(r)
    ensures o.Collected?
  {
    OutcomeOf(r.w, Items(r.w, r.stream), r.n, r.x)
  }

  /** Each window starts at the watermark and digests the previous one proposed. */
  ghost predicate Chained(rs: seq<Round>) {
    && (forall k :: 0 <= k < |rs| ==> Completed(rs[k]) && rs[k].w.env == rs[0].w.env)
    && (forall k :: 0 < k < |rs| ==>
          rs[k].w.since == Result(rs[k - 1]).proposed.time && rs[k].w.digests == Result(rs[k - 1]).proposed.digests)
  }

  /** An event the agent is meant to deliver, whatever the window. */
  predicate Deliverable(env: Env, e: RawEvent) {
    && Bounded(e) && NormalizeNano(e).Some? && Wanted(e)
    && var ev := EventOf(env, e, NormalizeNano(e).value.0, NormalizeNano(e).value.1);
       SafeId(ev.key, MAX_CONTAINER_KEY_LEN) && ValidEvent(ev)
  }

  function Delivered(env: Env, e: RawEvent): Event
    requires NormalizeNano(e).Some?
  {
    EventOf(env, e, NormalizeNano(e).value.0, NormalizeNano(e).value.1)
  }

  /**
   * What the agent is meant to deliver is exactly what a window around it accepts, apart from
   * what was committed before; it is delivered as the rendering of the daemon's own fields.
   */
  lemma DeliverableIsAcceptable(w: Window, e: RawEvent, size: nat)
    requires HasTime(Decoded(e, size)) && w.since <= TimeOf(Decoded(e, size)) <= w.until
    ensures Deliverable(w.env, e) && !Replayed(w, Delivered(w.env, e)) <==> Accepts(w, Decoded(e, size))
    ensures Accepts(w, Decoded(e, size)) ==>
              Renders(w, e, Delivered(w.env, e)) && !PassedOver(w, e, Delivered(w.env, e)) && TimeOf(Decoded(e, size)) == Delivered(w.env, e).nano
  {
    if Accepts(w, Decoded(e, size)) { AcceptsExactly(w, e, size, Delivered(w.env, e)); }
  }

  /** The daemon's response contains the event whenever the window covers its time. */
  ghost predicate Sees(r: Round, e: RawEvent)
    requires NormalizeNano(e).Some?
  {
    r.w.since <= NormalizeNano(e).value.0 <= r.w.until ==>
      exists j :: 0 <= j < |r.stream| && r.stream[j].Decoded? && r.stream[j].event == e
  }

  /** The event itself was transmitted, or a transmitted gap event covers its time. */
  ghost predicate Accounted(events: seq<Outgoing>, ev: Event) {
    || Sent(ev) in events
    || exists i :: 0 <= i < |events| && events[i].GapMark? && events[i].gap.from <= ev.nano <= events[i].gap.through
  }

  /** A window read to its end transmits every deliverable event it has not committed before. */
  lemma CompleteSends(r: Round, e: RawEvent)
    requires Completed(r) && r.x.Complete? && Deliverable(r.w.env, e) && Sees(r, e)
    requires r.w.since <= NormalizeNano(e).value.0 <= r.w.until
    ensures Sent(Delivered(r.w.env, e)) in Result(r).events || Replayed(r.w, Delivered(r.w.env, e))
  {
    var w, items := r.w, Items(r.w, r.stream);
    var ev := Delivered(w.env, e);
    var j :| 0 <= j < |r.stream| && r.stream[j].Decoded? && r.stream[j].event == e;
    assert r.n == |items|;
    if !Replayed(w, ev) {
      assert Accepts(w, r.stream[j]);
      TakenIsUncapped(w, r.stream, r.n);
      UncappedHas(w, r.stream, r.n, j);
      var out := Taken(items, r.n);
      var i :| 0 <= i < |out| && out[i].ev == ev;
      assert Sendable(out)[i] == Sent(ev);
    }
  }

  /** Within one window nothing at or before the proposed watermark is lost silently. */
  lemma RoundAccounts(r: Round, e: RawEvent)
    requires Completed(r) && Deliverable(r.w.env, e) && Sees(r, e)
    requires r.w.since <= NormalizeNano(e).value.0 <= Result(r).proposed.time
    ensures || Accounted(Result(r).events, Delivered(r.w.env, e))
            || Replayed(r.w, Delivered(r.w.env, e))
  {
    WindowRelations(r.w, r.ctl, r.stream, r.n, r.x);
    var events := Result(r).events;
    if r.x.Complete? {
      CompleteSends(r, e);
    } else {
      assert events[|events| - 1].GapMark?;
    }
  }

  /**
   * A chain of windows accounts for every deliverable event between its start and
   * its last watermark: transmitted, inside a transmitted gap's range, or already
   * committed before the chain started.
   */
  lemma NothingLostSilently(rs: seq<Round>, e: RawEvent)
    requires Chained(rs) && |rs| > 0 && Deliverable(rs[0].w.env, e)
    requires forall k :: 0 <= k < |rs| ==> Sees(rs[k], e)
    requires rs[0].w.since <= NormalizeNano(e).value.0 <= Result(rs[|rs| - 1]).proposed.time
    ensures || Replayed(rs[0].w, Delivered(rs[0].w.env, e))
            || exists k :: 0 <= k < |rs| && Accounted(Result(rs[k]).events, Delivered(rs[0].w.env, e))
  {
    var t := NormalizeNano(e).value.0;
    var k := FirstCovering(rs, t);
    RoundAccounts(rs[k], e);
  }

  /** The first window whose proposal reaches a given time starts before it, unless it is the very first. */
  lemma {:induction false} FirstCovering(rs: seq<Round>, t: nat) returns (k: nat)
    requires Chained(rs) && |rs| > 0 && rs[0].w.since <= t <= Result(rs[|rs| - 1]).proposed.time
    ensures k < |rs| && rs[k].w.since <= t <= Result(rs[k]).proposed.time
    ensures k > 0 ==> rs[k].w.since < t
  {
    k := |rs| - 1;
    while k > 0 && t <= rs[k].w.since
      invariant k < |rs| && t <= Result(rs[k]).proposed.time
    {
      k := k - 1;
    }
  }
}
