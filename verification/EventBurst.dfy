/**
 * Concrete responses: one second in which containers die one after the other, reported
 * without nanoseconds. They show where the exact conditions of the other modules fail.
 */
module EventBurst {
  import opened EventTypes
  import opened Options
  import opened EventWindow
  import opened EventWindowProps
  import opened EventChain
  import Nano

  // ---- items that come at one time, all of one encoded size ----

  const READ_SIZE: nat := 300

  /** Items of one timestamp; the first `skip` are passed over, every other one is accepted at this size. */
  ghost predicate Uniform(items: seq<Item>, skip: nat, nano: nat, size: nat) {
    && |items| <= BOUNDARY_MAX_EVENTS
    && forall i :: 0 <= i < |items| ==> UniformItem(items[i], i < skip, nano, size)
  }

  predicate UniformItem(c: Item, skipped: bool, nano: nat, size: nat) {
    && c.Scoped? && c.nano == nano && c.size == READ_SIZE && (c.take.None? <==> skipped)
    && (c.take.Some? ==> c.take.value.size == size)
  }

  /** The caps admit exactly `cap` events of this size. */
  predicate Admits(cap: nat, size: nat) {
    && cap <= MAX_EVENTS && cap * (size + 1) <= MAX_BRANCH_BYTES
    && (cap == MAX_EVENTS || (cap + 1) * (size + 1) > MAX_BRANCH_BYTES)
  }

  lemma {:induction false} UniformTaken(items: seq<Item>, skip: nat, nano: nat, size: nat, n: nat)
    requires Uniform(items, skip, nano, size) && n <= |items|
    ensures |Taken(items, n)| == if n <= skip then 0 else n - skip
    ensures forall i :: 0 <= i < |Taken(items, n)| ==>
              Taken(items, n)[i].size == size && Taken(items, n)[i] == items[skip + i].take.value
  {
    if n > 0 {
      UniformTaken(items, skip, nano, size, n - 1);
      assert UniformItem(items[n - 1], n - 1 < skip, nano, size);
    }
  }

  lemma {:induction false} UniformBytes(out: seq<Safe>, size: nat)
    requires forall i :: 0 <= i < |out| ==> out[i].size == size
    ensures Bytes(out) == |out| * (size + 1)
  {
    if out != [] { UniformBytes(out[..|out| - 1], size); }
  }

  lemma {:induction false} UniformSource(items: seq<Item>, skip: nat, nano: nat, size: nat, n: nat)
    requires Uniform(items, skip, nano, size) && n <= |items|
    ensures Source(items, n) == READ_SIZE * n
  {
    if n > 0 {
      UniformSource(items, skip, nano, size, n - 1);
      assert UniformItem(items[n - 1], n - 1 < skip, nano, size);
    }
  }

  lemma Scale(a: nat, b: nat, c: nat)
    requires a <= b
    ensures a * c <= b * c
  {}

  lemma Within(cap: nat, size: nat, k: nat)
    requires Admits(cap, size)
    ensures k <= cap <==> k <= MAX_EVENTS && k * (size + 1) <= MAX_BRANCH_BYTES
  {
    if k <= cap { Scale(k, cap, size + 1); } else { Scale(cap + 1, k, size + 1); }
  }

  lemma UniformFits(items: seq<Item>, skip: nat, nano: nat, size: nat, cap: nat, n: nat)
    requires Uniform(items, skip, nano, size) && Admits(cap, size) && n <= |items|
    ensures Fits(Taken(items, n)) <==> n <= skip + cap
  {
    UniformTaken(items, skip, nano, size, n);
    UniformBytes(Taken(items, n), size);
    Within(cap, size, |Taken(items, n)|);
  }

  lemma {:induction false} UniformTrip(items: seq<Item>, skip: nat, nano: nat, size: nat, cap: nat, n: nat)
    requires Uniform(items, skip, nano, size) && Admits(cap, size) && n <= |items|
    ensures Trip(items, n) == if n <= skip + cap then None else Some(skip + cap)
  {
    if n > 0 {
      var p: nat := n - 1;
      UniformTrip(items, skip, nano, size, cap, p);
      UniformFits(items, skip, nano, size, cap, n);
      FitsUntilTrip(items, n);
      assert UniformItem(items[p], p < skip, nano, size);
      assert Trip(items, p + 1) == Trip(items, n);
    }
  }

  /** A context that is never found done. */
  const UNHURRIED: Control := Control(_ => false, _ => false)

  lemma UniformPasses(items: seq<Item>, skip: nat, nano: nat, size: nat, cap: nat, j: nat)
    requires Uniform(items, skip, nano, size) && Admits(cap, size) && j < |items|
    ensures Passes(UNHURRIED, items, j)
  {
    assert UniformItem(items[j], j < skip, nano, size);
    UniformSource(items, skip, nano, size, j);
    UniformSource(items, skip, nano, size, j + 1);
    UniformTrip(items, skip, nano, size, cap, j);
    if j > skip + cap { assert UniformItem(items[skip + cap], false, nano, size); }
    assert ExitAtDecoded(items, j) == None;
  }

  lemma UniformInTime(items: seq<Item>, skip: nat, nano: nat, size: nat, m: nat, j: nat)
    requires Uniform(items, skip, nano, size) && m < j < |items|
    ensures !LateScoped(items, m, j)
  {
    UniformSource(items, skip, nano, size, m);
    UniformSource(items, skip, nano, size, j + 1);
  }

  /** The window reads all of it and stops at its end, at the boundary of the one timestamp. */
  lemma UniformStops(items: seq<Item>, skip: nat, nano: nat, size: nat, cap: nat)
    requires Uniform(items, skip, nano, size) && Admits(cap, size) && skip + cap < |items|
    ensures Trip(items, |items|) == Some(skip + cap) && Stops(UNHURRIED, items, |items|, Boundary)
  {
    var n, m := |items|, skip + cap;
    UniformTrip(items, skip, nano, size, cap, n);
    UniformSource(items, skip, nano, size, n);
    forall j | 0 <= j < n ensures Passes(UNHURRIED, items, j) {
      UniformPasses(items, skip, nano, size, cap, j);
    }
    forall j | m < j < n ensures !LateScoped(items, m, j) {
      UniformInTime(items, skip, nano, size, m, j);
    }
    assert ExitAtEnd(items) == Boundary;
  }

  // ---- a burst of container deaths within one second ----

  const SECOND: int := 1700000000
  const BURST: nat := 1700000000000000000

  /** Keys and digests tell containers apart; every event is encoded in `size` bytes, a gap event in 300. */
  function BurstEnv(size: nat): Env {
    Env(actor => actor, _ => Context(Unreported, Some(137), None, false), (_, _, key, _) => key, _ => size, _ => 300)
  }

  function Died(i: nat): Read {
    Decoded(RawEvent(Container, Die, Nano.Spell(i), [], Some(SECOND), None), READ_SIZE)
  }

  function Deaths(n: nat): (r: seq<Read>)
    ensures |r| == n && forall i :: 0 <= i < n ==> r[i] == Died(i)
  {
    seq(n, i requires 0 <= i < n => Died(i))
  }

  function Death(i: nat): Event {
    Event(EventId(Nano.Spell(i)), Nano.Spell(i), Die, BURST, Context(Unreported, Some(137), None, true))
  }

  /** A window over the burst that starts at the very beginning, or at it with the first death already committed. */
  function BurstWindow(size: nat, committed: bool): Window {
    Window(if committed then BURST else 0, BURST + NANOS_PER_SECOND,
           if committed then [Nano.Spell(0)] else [], BurstEnv(size))
  }

  lemma DigitsAreSafe(s: string)
    requires Nano.Digits(s) && 0 < |s| <= 3
    ensures SafeId(s, MAX_CONTAINER_KEY_LEN) && SafeId(EventId(s), MAX_EVENT_ID_LEN)
  {}

  /** Every death is admissible, and is passed over exactly if it was committed before. */
  lemma DeathIsAccepted(size: nat, committed: bool, i: nat)
    requires i < 1000
    ensures var w := BurstWindow(size, committed);
            && HasTime(Died(i)) && TimeOf(Died(i)) == BURST
            && Admissible(w, Died(i)) && Candidate(w, Died(i)) == Death(i)
            && (Replayed(w, Death(i)) <==> committed && i == 0)
            && Classify(w, Died(i)) == Scoped(BURST, READ_SIZE, if committed && i == 0 then None else Some(Safe(BURST, Death(i), size)))
  {
    var w := BurstWindow(size, committed);
    assert Nano.Power10(3) == 1000;
    Nano.SpellLength(i, 3);
    Nano.SpellValue(i);
    Nano.SpellValue(0);
    assert AttrBytes([]) == 0;
    DigitsAreSafe(Nano.Spell(i));
    assert Candidate(w, Died(i)) == Death(i);
    assert DigestOf(w.env, Death(i)) == Nano.Spell(i);
  }

  /** The window over `n` deaths stops at their second, having accepted all that were not committed. */
  lemma BurstStops(size: nat, committed: bool, cap: nat, n: nat)
    requires Admits(cap, size) && cap + 1 < n < 1000
    ensures var w := BurstWindow(size, committed);
            var skip := if committed then 1 else 0;
            var items := Items(w, Deaths(n));
            && TimeOrdered(Deaths(n)) && Stops(UNHURRIED, items, n, Boundary)
            && Trip(items, n) == Some(skip + cap) && items[skip + cap].nano == BURST
            && |Taken(items, n)| == n - skip
            && forall i :: 0 <= i < n - skip ==> Taken(items, n)[i] == Safe(BURST, Death(skip + i), size)
  {
    var w := BurstWindow(size, committed);
    var skip := if committed then 1 else 0;
    var items := Items(w, Deaths(n));
    DeathsUniform(size, committed, n);
    UniformStops(items, skip, BURST, size, cap);
    DeathsTaken(size, committed, n);
    assert UniformItem(items[skip + cap], false, BURST, size);
  }

  lemma DeathsTaken(size: nat, committed: bool, n: nat)
    requires 0 < n < 1000
    ensures var skip := if committed then 1 else 0;
            var out := Taken(Items(BurstWindow(size, committed), Deaths(n)), n);
            && |out| == n - skip
            && forall i :: 0 <= i < n - skip ==> out[i] == Safe(BURST, Death(skip + i), size)
  {
    DeathsUniform(size, committed, n);
    UniformTaken(Items(BurstWindow(size, committed), Deaths(n)), if committed then 1 else 0, BURST, size, n);
  }

  lemma DeathsUniform(size: nat, committed: bool, n: nat)
    requires n < 1000
    ensures var skip := if committed then 1 else 0;
            var items := Items(BurstWindow(size, committed), Deaths(n));
            && Uniform(items, skip, BURST, size) && TimeOrdered(Deaths(n))
            && forall i :: skip <= i < n ==> items[i].take == Some(Safe(BURST, Death(i), size))
  {
    var skip := if committed then 1 else 0;
    var items := Items(BurstWindow(size, committed), Deaths(n));
    forall i | 0 <= i < n
      ensures UniformItem(items[i], i < skip, BURST, size) && HasTime(Deaths(n)[i]) && TimeOf(Deaths(n)[i]) == BURST
      ensures i >= skip ==> items[i].take == Some(Safe(BURST, Death(i), size))
    {
      DeathIsAccepted(size, committed, i);
    }
  }

  // ---- where the exact conditions fail ----

  /**
   * A boundary at the window's own start forgets: after one death was committed, a hundred
   * and one more within the same second fill the batch, and the resumed pass accepts the
   * first death again.
   */
  lemma BoundaryAtSinceForgets()
    ensures var w, stream := BurstWindow(250, true), Deaths(102);
            var items := Items(w, stream);
            && TimeOrdered(stream) && Stops(UNHURRIED, items, 102, Boundary) && Trip(items, 102).Some?
            && var mark := OutcomeOf(w, items, 102, Boundary).proposed;
               && mark.time == w.since && Replayed(w, Death(0)) && Accepts(Resume(w, mark), stream[0])
               && Uncapped(w, stream, 102) != Taken(items, 102) + Uncapped(Resume(w, mark), stream, 102)
  {
    var w, stream := BurstWindow(250, true), Deaths(102);
    BurstStops(250, true, 100, 102);
    DeathIsAccepted(250, true, 0);
    SplitExactly(w, UNHURRIED, stream, 102);
    SeparatedStream(w, UNHURRIED, stream, 102);
    TakenIsUncapped(w, stream, 102);
    ProposedDigests(w, Items(w, stream), 102);
    assert Committed(w, stream[0]);
    BeforeStop(w, stream, 102, OutcomeOf(w, Items(w, stream), 102, Boundary).proposed, 0);
  }

  /**
   * The gap event counts too few when its own bytes push an event out: of 101 events of
   * 660 bytes, longer than any EventJson spells, 99 are kept and the gap counts two, but
   * then one more is popped and three are missing.
   */
  lemma GapCountsTooFew()
    ensures var w, stream := BurstWindow(660, false), Deaths(101);
            var items := Items(w, stream);
            && Stops(UNHURRIED, items, 101, Boundary) && Trip(items, 101).Some?
            && var events := OutcomeOf(w, items, 101, Boundary).events;
               && |events| == 99 && |Taken(items, 101)| - (|events| - 1) == 3
               && events[98].GapMark? && events[98].gap.skipped == 2
  {
    var w, stream := BurstWindow(660, false), Deaths(101);
    BurstStops(660, false, 99, 101);
    var out := Taken(Items(w, stream), 101);
    UniformBytes(out[..99], 660);
    UniformBytes(out[..98], 660);
    assert Reserved(out) == 99;
    var gap := GapOf(out, BoundaryOverflow, w.since, BURST);
    assert Longest(out, 99, MAX_BRANCH_BYTES - 301) == Longest(out, 98, MAX_BRANCH_BYTES - 301) == 98;
    assert Kept(w.env, out, gap) == 98;
  }

  /** 257 deaths within one second: the window proposes 257 boundary digests. */
  lemma BoundaryTooWide()
    ensures var w, stream := BurstWindow(250, false), Deaths(257);
            var items := Items(w, stream);
            && Stops(UNHURRIED, items, 257, Boundary) && Trip(items, 257).Some?
            && |DigestsAt(w.env, Taken(items, 257), BURST)| == 257
            && |OutcomeOf(w, items, 257, Boundary).proposed.digests| == 257
  {
    var w, stream := BurstWindow(250, false), Deaths(257);
    var items := Items(w, stream);
    BurstStops(250, false, 100, 257);
    DeathsTold(w.env, Taken(items, 257), 250);
    ProposedDigests(w, items, 257);
    BoundarySize(w.env, Taken(items, 257), OutcomeOf(w, items, 257, Boundary).proposed);
  }

  /** Every death has a digest of its own. */
  lemma DeathsTold(env: Env, out: seq<Safe>, size: nat)
    requires env == BurstEnv(size) && forall i :: 0 <= i < |out| ==> out[i] == Safe(BURST, Death(i), size)
    ensures |DigestsAt(env, out, BURST)| == |out|
  {
    forall i | 0 <= i < |out| ensures DigestOf(env, out[i].ev) == Nano.Spell(i) {
      assert out[i] == Safe(BURST, Death(i), size);
    }
    assert DigestsAt(env, out, BURST) == Spellings(|out|);
    SpellingsDiffer(|out|);
  }

  ghost function Spellings(n: nat): set<string> { set i: nat | i < n :: Nano.Spell(i) }

  lemma {:induction false} SpellingsDiffer(n: nat)
    ensures |Spellings(n)| == n
  {
    if n > 0 {
      SpellingsDiffer(n - 1);
      Nano.SpellValue(n - 1);
      forall i: nat | i < n - 1 ensures Nano.Spell(i) != Nano.Spell(n - 1) { Nano.SpellValue(i); }
      assert Spellings(n) == Spellings(n - 1) + {Nano.Spell(n - 1)};
    }
  }
}
