/** A later window over the same events, and possibly more, stops at the same boundary. */
module EventStall {
  import opened EventTypes
  import opened Options
  import opened EventWindow
  import opened EventWindowProps
  import opened EventChain

  // ---- items that agree on a prefix ----

  ghost predicate AgreeTo(a: seq<Item>, b: seq<Item>, n: nat) {
    n <= |a| && n <= |b| && forall i :: 0 <= i < n ==> a[i] == b[i]
  }

  lemma {:induction false} PrefixAlike(a: seq<Item>, b: seq<Item>, n: nat)
    requires AgreeTo(a, b, n)
    ensures Taken(a, n) == Taken(b, n) && Source(a, n) == Source(b, n) && Trip(a, n) == Trip(b, n)
  {
    if n > 0 { PrefixAlike(a, b, n - 1); }
  }

  lemma PrefixPasses(ctl: Control, later: Control, a: seq<Item>, b: seq<Item>, j: nat)
    requires AgreeTo(a, b, j + 1) && Passes(ctl, a, j) && !later.done(j)
    ensures Passes(later, b, j)
  {
    PrefixAlike(a, b, j);
    PrefixAlike(a, b, j + 1);
    var t := Trip(a, j);
    if t.Some? { PrefixAlike(a, b, t.value); }
    assert ExitAtDecoded(a, j) == None;
    assert ExitAtDecoded(b, j) == None;
  }

  lemma PrefixInTime(a: seq<Item>, b: seq<Item>, m: nat, n: nat)
    requires m < n && AgreeTo(a, b, n) && !Overrun(a, m, n)
    ensures !Overrun(b, m, n)
  {
    forall j | m < j < n ensures !LateScoped(b, m, j) {
      assert !LateScoped(a, m, j);
      LateAlike(a, b, m, j);
    }
  }

  lemma LateAlike(a: seq<Item>, b: seq<Item>, m: nat, j: nat)
    requires m <= j && AgreeTo(a, b, j + 1)
    ensures LateScoped(a, m, j) == LateScoped(b, m, j)
  {
    PrefixAlike(a, b, m);
    PrefixAlike(a, b, j + 1);
  }

  // ---- windows that repeat another one ----

  /** Until the earlier window's end both windows treat a read alike; after it they still agree on its size and time. */
  lemma LaterWindow(w: Window, v: Window, r: Read)
    requires v == w.(until := v.until) && w.until <= v.until
    ensures (HasTime(r) && TimeOf(r) > w.until) || Classify(w, r) == Classify(v, r)
    ensures SizeOf(Classify(w, r)) == SizeOf(Classify(v, r))
  {}

  function BoundaryTime(w: Window, stream: seq<Read>, n: nat): nat
    requires n <= |stream| && Trip(Items(w, stream), n).Some?
  {
    Items(w, stream)[Trip(Items(w, stream), n).value].nano
  }

  /** After `n` reads the response ends, or goes on with a later event within the decode caps. */
  predicate ReadsOn(v: Window, stream: seq<Read>, n: nat, time: nat) {
    && n <= |stream|
    && (n == |stream|
        || (&& HasTime(stream[n]) && time < TimeOf(stream[n])
            && n < DECODE_MAX_EVENTS && Source(Items(v, stream), n + 1) <= DECODE_MAX_BYTES))
  }

  /** A completed window from the same watermark, at least as long, over a response that extends the other, and not cut off. */
  ghost predicate Repeats(w: Window, stream: seq<Read>, n: nat, q: Round)
    requires n <= |stream| && Trip(Items(w, stream), n).Some?
  {
    && Completed(q) && q.w == w.(until := q.w.until) && w.until <= q.w.until && stream <= q.stream
    && (forall j :: 0 <= j <= n ==> !q.ctl.done(j))
    && (n == |stream| ==> ReadsOn(q.w, q.stream, n, BoundaryTime(w, stream, n)))
  }

  lemma ItemsAgree(w: Window, ctl: Control, stream: seq<Read>, n: nat, v: Window, longer: seq<Read>)
    requires TimeOrdered(stream) && Stops(ctl, Items(w, stream), n, Boundary)
    requires v == w.(until := v.until) && w.until <= v.until && stream <= longer
    ensures AgreeTo(Items(w, stream), Items(v, longer), n)
  {
    SeparatedStream(w, ctl, stream, n);
    forall i | 0 <= i < n ensures Items(w, stream)[i] == Items(v, longer)[i] {
      LaterWindow(w, v, stream[i]);
    }
  }

  /** A boundary that is complete at the `n`-th read, or at the end, is closed by whatever timed read follows. */
  lemma ClosesAt(ctl: Control, items: seq<Item>, n: nat, m: nat)
    requires n <= |items| && !ctl.done(n) && Trip(items, n) == Some(m) && !Overrun(items, m, n)
    requires Source(items, n) <= DECODE_MAX_BYTES
    requires n < |items| ==>
               && Timed(items[n]) && items[n].nano != items[m].nano
               && n < DECODE_MAX_EVENTS && Source(items, n + 1) <= DECODE_MAX_BYTES
    ensures ExitAt(ctl, items, n) == Some(Boundary)
  {
    if n < |items| { assert ExitAtDecoded(items, n) == Some(Boundary); }
  }

  /** What a boundary stop says about the read it stops at. */
  lemma ClosedAt(ctl: Control, items: seq<Item>, n: nat, m: nat)
    requires Stops(ctl, items, n, Boundary) && Trip(items, n) == Some(m)
    ensures !Overrun(items, m, n) && Source(items, n) <= DECODE_MAX_BYTES
    ensures n < |items| ==>
              && Timed(items[n]) && items[n].nano != items[m].nano
              && n < DECODE_MAX_EVENTS && Source(items, n + 1) <= DECODE_MAX_BYTES
  {
    if n < |items| { assert ExitAtDecoded(items, n) == Some(Boundary); }
  }

  /** The read after the boundary, in the window that stopped there and in the one that repeats it. */
  lemma NextAgrees(w: Window, ctl: Control, stream: seq<Read>, n: nat, q: Round)
    requires TimeOrdered(stream) && Stops(ctl, Items(w, stream), n, Boundary)
    requires Trip(Items(w, stream), n).Some? && Repeats(w, stream, n, q)
    requires Source(Items(w, stream), n) == Source(Items(q.w, q.stream), n)
    ensures n < |q.stream| ==>
              && Timed(Items(q.w, q.stream)[n]) && Items(q.w, q.stream)[n].nano != BoundaryTime(w, stream, n)
              && n < DECODE_MAX_EVENTS && Source(Items(q.w, q.stream), n + 1) <= DECODE_MAX_BYTES
  {
    if n < |q.stream| { TimedSpec(q.w, q.stream[n]); }
    if n < |stream| {
      ClosedAt(ctl, Items(w, stream), n, Trip(Items(w, stream), n).value);
      LaterWindow(w, q.w, stream[n]);
      TimedSpec(w, stream[n]);
    }
  }

  /** What follows the boundary closes it in the repeated window too. */
  lemma ClosesAgain(w: Window, ctl: Control, stream: seq<Read>, n: nat, q: Round)
    requires TimeOrdered(stream) && Stops(ctl, Items(w, stream), n, Boundary)
    requires Trip(Items(w, stream), n).Some? && Repeats(w, stream, n, q)
    ensures ExitAt(q.ctl, Items(q.w, q.stream), n) == Some(Boundary)
  {
    var a, b := Items(w, stream), Items(q.w, q.stream);
    var m := Trip(a, n).value;
    ItemsAgree(w, ctl, stream, n, q.w, q.stream);
    PrefixAlike(a, b, n);
    ClosedAt(ctl, a, n, m);
    PrefixInTime(a, b, m, n);
    NextAgrees(w, ctl, stream, n, q);
    ClosesAt(q.ctl, b, n, m);
  }

  lemma StopsOnce(ctl: Control, items: seq<Item>, n: nat, x: Exit, k: nat, y: Exit)
    requires Stops(ctl, items, n, x) && Stops(ctl, items, k, y)
    ensures n == k && x == y
  {
    assert n < k ==> Passes(ctl, items, n);
    assert k < n ==> Passes(ctl, items, k);
  }

  /** The repeated window stops at the same read and proposes the same watermark. */
  lemma SameBoundary(w: Window, ctl: Control, stream: seq<Read>, n: nat, q: Round)
    requires TimeOrdered(stream) && Stops(ctl, Items(w, stream), n, Boundary)
    requires Trip(Items(w, stream), n).Some? && Repeats(w, stream, n, q)
    ensures q.n == n && q.x == Boundary && Result(q).proposed == OutcomeOf(w, Items(w, stream), n, Boundary).proposed
  {
    var a, b := Items(w, stream), Items(q.w, q.stream);
    ItemsAgree(w, ctl, stream, n, q.w, q.stream);
    forall j | 0 <= j < n ensures Passes(q.ctl, b, j) {
      PrefixPasses(ctl, q.ctl, a, b, j);
    }
    ClosesAgain(w, ctl, stream, n, q);
    StopsOnce(q.ctl, b, n, Boundary, q.n, q.x);
    PrefixAlike(a, b, n);
  }
}
