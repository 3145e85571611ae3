/** The Docker alert evaluators: a stateful machine against a stateless rule, and when a clear run can be reached. */
module Alerts {
  import opened Options

  const WINDOW_SIZE: nat := 5
  const OPEN_THRESHOLD: nat := 3
  const RESOLVE_THRESHOLD: nat := 3

  function LastN<T>(s: seq<T>, n: nat): (r: seq<T>)
    ensures |r| <= n && |r| <= |s|
  {
    if |s| <= n then s else s[|s| - n..]
  }

  // ---- docker unavailable ----

  datatype Signal = Available | Unavailable

  datatype Availability = IsAvailable | IsUnavailable | IsUnknown

  /** One observation; an absent flag means its default, an unparseable time is None. */
  datatype Observation = Observation(availability: Option<Availability>, complete: Option<bool>, stale: Option<bool>,
                                     gap: Option<bool>, observedAt: Option<int>)

  datatype ActiveAlert = ActiveAlert(acknowledged: bool, openedAt: int, lastObservedAt: int, occurrences: nat)

  datatype State = State(window: seq<Signal>, alert: Option<ActiveAlert>)

  datatype Transition = Opened | Persisted | AcknowledgedPersisted | Resolved | NoChange | Frozen

  datatype Evaluation = Threw | Evaluated(next: State, transition: Transition)

  function Count(w: seq<Signal>, s: Signal): nat {
    if w == [] then 0 else (if w[0] == s then 1 else 0) + Count(w[1..], s)
  }

  /** The complete signal of an observation, or None when it must freeze the evaluator. */
  function ClassifyObservation(o: Option<Observation>): Option<Signal> {
    if o.None? || o.value.stale == Some(true) || o.value.gap == Some(true) || o.value.complete == Some(false) then None
    else if o.value.availability == Some(IsAvailable) then Some(Available)
    else if o.value.availability == Some(IsUnavailable) then Some(Unavailable)
    else None
  }

  function EvaluateDockerUnavailable(prev: State, o: Option<Observation>): Evaluation {
    var signal := ClassifyObservation(o);
    if signal.None? then Evaluated(State(LastN(prev.window, WINDOW_SIZE), prev.alert), Frozen)
    else if o.value.observedAt.None? then Threw
    else
      var at := o.value.observedAt.value;
      var window := LastN(prev.window + [signal.value], WINDOW_SIZE);
      if prev.alert.Some? then
        if Count(window, Available) >= RESOLVE_THRESHOLD then Evaluated(State(window, None), Resolved)
        else if signal.value.Unavailable? then
          var a := prev.alert.value;
          Evaluated(State(window, Some(a.(lastObservedAt := at, occurrences := a.occurrences + 1))),
                    if a.acknowledged then AcknowledgedPersisted else Persisted)
        else Evaluated(State(window, prev.alert), NoChange)
      else if Count(window, Unavailable) >= OPEN_THRESHOLD then
        Evaluated(State(window, Some(ActiveAlert(false, at, at, 1))), Opened)
      else Evaluated(State(window, None), NoChange)
  }

  /** What happens to an alert: an observation, or somebody acknowledging it. */
  datatype Input = Observe(o: Option<Observation>) | Acknowledge

  function Step(s: State, i: Input): State {
    match i
    case Acknowledge => s.(alert := if s.alert.Some? then Some(s.alert.value.(acknowledged := true)) else None)
    case Observe(o) =>
      var e := EvaluateDockerUnavailable(s, o);
      if e.Threw? then s else e.next
  }

  function Run(inputs: seq<Input>): State {
    if inputs == [] then State([], None) else Step(Run(inputs[..|inputs| - 1]), inputs[|inputs| - 1])
  }

  /** Neither missing nor stale, a gap or partial, and dated: the observation counts if it says available or unavailable. */
  predicate Counts(o: Option<Observation>) {
    && o.Some? && o.value.stale != Some(true) && o.value.gap != Some(true) && o.value.complete != Some(false)
    && o.value.observedAt.Some?
  }

  predicate SaysUnavailable(o: Option<Observation>) { Counts(o) && o.value.availability == Some(IsUnavailable) }

  /** The signal a complete, dated observation adds to the window; every other input adds none. */
  function Contribution(i: Input): seq<Signal> {
    if i.Observe? && SaysUnavailable(i.o) then [Unavailable]
    else if i.Observe? && Counts(i.o) && i.o.value.availability == Some(IsAvailable) then [Available]
    else []
  }

  /** The complete observations of a run, in order. */
  function Signals(inputs: seq<Input>): seq<Signal> {
    if inputs == [] then [] else Signals(inputs[..|inputs| - 1]) + Contribution(inputs[|inputs| - 1])
  }

  lemma {:induction false} CountsAddUp(w: seq<Signal>)
    ensures Count(w, Available) + Count(w, Unavailable) == |w|
  {
    if w != [] { CountsAddUp(w[1..]); }
  }

  lemma {:induction false} CountAppend(w: seq<Signal>, x: Signal, s: Signal)
    ensures Count(w + [x], s) == Count(w, s) + (if x == s then 1 else 0)
  {
    if w == [] {
      assert w + [x] == [x];
    } else {
      assert (w + [x])[1..] == w[1..] + [x];
      CountAppend(w[1..], x, s);
    }
  }

  /** Sliding a window by one signal drops at most its oldest entry. */
  lemma Slide(w: seq<Signal>, x: Signal)
    requires |w| <= WINDOW_SIZE
    ensures var v := LastN(w + [x], WINDOW_SIZE);
            && |v| == (if |w| < WINDOW_SIZE then |w| + 1 else WINDOW_SIZE)
            && Count(v, Unavailable) ==
                 Count(w, Unavailable) + (if x.Unavailable? then 1 else 0)
                 - (if |w| == WINDOW_SIZE && w[0].Unavailable? then 1 else 0)
            && Count(v, Available) + Count(v, Unavailable) == |v|
  {
    CountAppend(w, x, Unavailable);
    CountsAddUp(LastN(w + [x], WINDOW_SIZE));
    if |w| == WINDOW_SIZE { assert LastN(w + [x], WINDOW_SIZE) == (w + [x])[1..]; }
  }

  /** The alert is active exactly when enough of the window is unavailable. */
  predicate Agrees(s: State) {
    |s.window| <= WINDOW_SIZE && (s.alert.Some? <==> Count(s.window, Unavailable) >= OPEN_THRESHOLD)
  }

  lemma StepAgrees(s: State, i: Input)
    requires Agrees(s)
    ensures Agrees(Step(s, i))
  {
    if i.Observe? && ClassifyObservation(i.o).Some? && i.o.value.observedAt.Some? {
      Slide(s.window, ClassifyObservation(i.o).value);
      CountsAddUp(s.window);
    }
  }

  lemma LastOfLast<T>(s: seq<T>, x: seq<T>, n: nat)
    requires n > 0 && |x| <= 1
    ensures LastN(LastN(s, n) + x, n) == LastN(s + x, n)
  {}

  lemma StepWindow(s: State, i: Input)
    requires |s.window| <= WINDOW_SIZE
    ensures Step(s, i).window == LastN(s.window + Contribution(i), 5)
  {}

  /** The window is the last five complete observations. */
  lemma {:induction false} WindowIsRecent(inputs: seq<Input>)
    ensures Run(inputs).window == LastN(Signals(inputs), 5)
  {
    if inputs != [] {
      var front, i := inputs[..|inputs| - 1], inputs[|inputs| - 1];
      WindowIsRecent(front);
      StepWindow(Run(front), i);
      LastOfLast(Signals(front), Contribution(i), WINDOW_SIZE);
    }
  }

  lemma {:induction false} RunAgrees(inputs: seq<Input>)
    ensures Agrees(Run(inputs))
  {
    if inputs != [] {
      RunAgrees(inputs[..|inputs| - 1]);
      StepAgrees(Run(inputs[..|inputs| - 1]), inputs[|inputs| - 1]);
    }
  }

  /**
   * After any run, acknowledgements included, the alert is active exactly when at
   * least three of the last five complete observations were unavailable, however
   * many other observations were mixed in.
   */
  lemma MachineIsStatelessRule(inputs: seq<Input>)
    ensures Run(inputs).alert.Some? <==> Count(LastN(Signals(inputs), 5), Unavailable) >= 3
  {
    RunAgrees(inputs);
    WindowIsRecent(inputs);
  }

  /** An alert that stays active keeps its opening time and its acknowledgement; each persisting report counts once. */
  lemma ActiveAlertPersists(s: State, o: Option<Observation>)
    requires s.alert.Some? && Step(s, Observe(o)).alert.Some?
    ensures var a, b := s.alert.value, Step(s, Observe(o)).alert.value;
            && b.openedAt == a.openedAt && b.acknowledged == a.acknowledged
            && b.occurrences == a.occurrences + (if SaysUnavailable(o) then 1 else 0)
            && b.lastObservedAt == if SaysUnavailable(o) then o.value.observedAt.value else a.lastObservedAt
  {}

  /** An alert that an observation opens is new, unacknowledged, and dated by it. */
  lemma OpenedByObservation(s: State, o: Option<Observation>)
    requires Agrees(s) && s.alert.None? && Step(s, Observe(o)).alert.Some?
    ensures SaysUnavailable(o)
    ensures Step(s, Observe(o)).alert == Some(ActiveAlert(false, o.value.observedAt.value, o.value.observedAt.value, 1))
  {
    if !SaysUnavailable(o) && Contribution(Observe(o)) != [] { Slide(s.window, Available); }
  }

  /** Acknowledging marks the active alert and changes nothing else. */
  lemma AcknowledgeEffect(s: State)
    ensures Step(s, Acknowledge).window == s.window && (Step(s, Acknowledge).alert.Some? <==> s.alert.Some?)
    ensures s.alert.Some? ==>
              var a, b := s.alert.value, Step(s, Acknowledge).alert.value;
              b.acknowledged && b.openedAt == a.openedAt && b.lastObservedAt == a.lastObservedAt && b.occurrences == a.occurrences
  {}

  /** What the evaluator answers: it throws only on an undated signal, and its transition tells what became of the alert. */
  lemma TransitionTells(s: State, o: Option<Observation>)
    requires Agrees(s)
    ensures var e := EvaluateDockerUnavailable(s, o);
            && (e.Threw? ==> o.Some? && o.value.observedAt.None?)
            && (e.Evaluated? ==>
                  && e.next == Step(s, Observe(o))
                  && (e.transition == Opened <==> s.alert.None? && e.next.alert.Some?)
                  && (e.transition == Resolved <==> s.alert.Some? && e.next.alert.None?)
                  && (e.transition == Frozen <==> Contribution(Observe(o)) == [])
                  && (e.transition == Persisted <==>
                        s.alert.Some? && e.next.alert.Some? && SaysUnavailable(o) && !s.alert.value.acknowledged)
                  && (e.transition == AcknowledgedPersisted <==>
                        s.alert.Some? && e.next.alert.Some? && SaysUnavailable(o) && s.alert.value.acknowledged))
  {}

  // ---- threshold rules ----

  datatype Reading = Positive | Negative | Neutral

  datatype Rule = Rule(open: nat, window: nat, clear: nat, cooldown: nat)

  datatype Tracker = Tracker(window: seq<Reading>, quiet: nat, cooldown: nat, alert: Option<ActiveAlert>)

  const CONTAINER_UNHEALTHY: Rule := Rule(1, 1, 3, 2)
  const CONTAINER_CPU_HIGH: Rule := Rule(3, 5, 3, 2)
  const CONTAINER_MEMORY_HIGH: Rule := Rule(3, 5, 3, 2)
  const DOCKER_STORAGE_PRESSURE: Rule := Rule(1, 2, 2, 2)

  function Positives(w: seq<Reading>): nat {
    if w == [] then 0 else (if w[0].Positive? then 1 else 0) + Positives(w[1..])
  }

  /** The last `clear` entries are all negative, and there are that many. */
  predicate ClearRun(w: seq<Reading>, clear: nat) {
    |w| >= clear && forall i :: |w| - clear <= i < |w| ==> w[i].Negative?
  }

  function EvaluateSimpleThreshold(prev: Tracker, signal: Reading, at: int, rule: Rule): Tracker {
    var window := LastN(prev.window + [signal], rule.window);
    if signal.Neutral? && prev.alert.None? then prev.(window := window, quiet := 0)
    else if prev.alert.Some? && ClearRun(window, rule.clear) then Tracker(window, 0, rule.cooldown, None)
    else if prev.alert.Some? then
      if signal.Positive? then
        var a := prev.alert.value;
        prev.(window := window, alert := Some(a.(lastObservedAt := at, occurrences := a.occurrences + 1)))
      else prev.(window := window)
    else if prev.cooldown > 0 then prev.(window := window, cooldown := prev.cooldown - 1)
    else if Positives(window) >= rule.open then
      prev.(window := window, quiet := 0, alert := Some(ActiveAlert(false, at, at, 1)))
    else prev.(window := window)
  }

  /** How many of the last `n` readings, the new one included, are positive. */
  function Recent(t: Tracker, signal: Reading, n: nat): nat { Positives(LastN(t.window + [signal], n)) }

  /** A rule opens exactly on a signal that is not neutral, after its cooldown, when enough of its window is positive. */
  lemma OpensExactly(t: Tracker, signal: Reading, at: int, rule: Rule)
    requires t.alert.None?
    ensures var u := EvaluateSimpleThreshold(t, signal, at, rule);
            && (u.alert.Some? <==> signal != Neutral && t.cooldown == 0 && Recent(t, signal, rule.window) >= rule.open)
            && (u.alert.Some? ==> u.alert == Some(ActiveAlert(false, at, at, 1)))
            && u.cooldown == (if signal != Neutral && t.cooldown > 0 then t.cooldown - 1 else t.cooldown)
            && u.window == LastN(t.window + [signal], rule.window)
  {}

  /** An active alert resolves exactly on a full run of negatives, then cools down; a positive reading counts as an occurrence. */
  lemma ResolvesExactly(t: Tracker, signal: Reading, at: int, rule: Rule)
    requires t.alert.Some?
    ensures var u := EvaluateSimpleThreshold(t, signal, at, rule);
            var w := LastN(t.window + [signal], rule.window);
            && u.window == w
            && (u.alert.None? <==> EndsNegative(w, rule.clear))
            && u.cooldown == (if u.alert.None? then rule.cooldown else t.cooldown)
            && (u.alert.Some? ==> u.alert.value.openedAt == t.alert.value.openedAt
                                  && u.alert.value.acknowledged == t.alert.value.acknowledged
                                  && u.alert.value.occurrences == t.alert.value.occurrences + (if signal == Positive then 1 else 0))
  {}

  /** When each rule opens, in its own numbers: how many of how many readings have to be positive. */
  lemma RulesOpen(t: Tracker, signal: Reading, at: int)
    requires t.alert.None?
    ensures var live := signal != Neutral && t.cooldown == 0;
            && (EvaluateSimpleThreshold(t, signal, at, CONTAINER_UNHEALTHY).alert.Some? <==> live && Recent(t, signal, 1) >= 1)
            && (EvaluateSimpleThreshold(t, signal, at, CONTAINER_CPU_HIGH).alert.Some? <==> live && Recent(t, signal, 5) >= 3)
            && (EvaluateSimpleThreshold(t, signal, at, CONTAINER_MEMORY_HIGH).alert.Some? <==> live && Recent(t, signal, 5) >= 3)
            && (EvaluateSimpleThreshold(t, signal, at, DOCKER_STORAGE_PRESSURE).alert.Some? <==> live && Recent(t, signal, 2) >= 1)
  {
    OpensExactly(t, signal, at, CONTAINER_UNHEALTHY);
    OpensExactly(t, signal, at, CONTAINER_CPU_HIGH);
    OpensExactly(t, signal, at, CONTAINER_MEMORY_HIGH);
    OpensExactly(t, signal, at, DOCKER_STORAGE_PRESSURE);
  }

  /** How long a run of negatives each rule resolves on, and that two readings of cooldown follow. */
  lemma RulesResolve(t: Tracker, signal: Reading, at: int)
    requires t.alert.Some?
    ensures var cpu, mem := EvaluateSimpleThreshold(t, signal, at, CONTAINER_CPU_HIGH), EvaluateSimpleThreshold(t, signal, at, CONTAINER_MEMORY_HIGH);
            var disk := EvaluateSimpleThreshold(t, signal, at, DOCKER_STORAGE_PRESSURE);
            && (cpu.alert.None? <==> EndsNegative(LastN(t.window + [signal], 5), 3)) && (cpu.alert.None? ==> cpu.cooldown == 2)
            && (mem.alert.None? <==> EndsNegative(LastN(t.window + [signal], 5), 3)) && (mem.alert.None? ==> mem.cooldown == 2)
            && (disk.alert.None? <==> EndsNegative(LastN(t.window + [signal], 2), 2)) && (disk.alert.None? ==> disk.cooldown == 2)
  {
    ResolvesExactly(t, signal, at, CONTAINER_CPU_HIGH);
    ResolvesExactly(t, signal, at, CONTAINER_MEMORY_HIGH);
    ResolvesExactly(t, signal, at, DOCKER_STORAGE_PRESSURE);
  }

  function RunRule(t: Tracker, readings: seq<(Reading, int)>, rule: Rule): Tracker {
    if readings == [] then t
    else
      EvaluateSimpleThreshold(RunRule(t, readings[..|readings| - 1], rule),
                              readings[|readings| - 1].0, readings[|readings| - 1].1, rule)
  }

  /** A rule whose window is shorter than its clear run never resolves an active alert, whatever is observed. */
  lemma {:induction false} ShortWindowNeverClears(t: Tracker, readings: seq<(Reading, int)>, rule: Rule)
    requires rule.window < rule.clear && t.alert.Some?
    ensures RunRule(t, readings, rule).alert.Some?
  {
    if readings != [] { ShortWindowNeverClears(t, readings[..|readings| - 1], rule); }
  }

  /** `n` negative observations at one time. */
  function Negatives(n: nat, at: int): seq<(Reading, int)> { seq(n, _ => (Negative, at)) }

  predicate EndsNegative(w: seq<Reading>, n: nat) {
    n <= |w| && forall i :: |w| - n <= i < |w| ==> w[i].Negative?
  }

  /** While the alert stays active, the window collects the negatives. */
  lemma {:induction false} NegativesCollect(t: Tracker, n: nat, at: int, rule: Rule)
    requires t.alert.Some? && n <= rule.clear <= rule.window
    requires forall k :: 0 <= k <= n ==> RunRule(t, Negatives(k, at), rule).alert.Some?
    ensures EndsNegative(RunRule(t, Negatives(n, at), rule).window, n)
  {
    if n > 0 {
      NegativesCollect(t, n - 1, at, rule);
      assert Negatives(n, at)[..n - 1] == Negatives(n - 1, at);
      var s := RunRule(t, Negatives(n - 1, at), rule);
      var w := LastN(s.window + [Negative], rule.window);
      assert RunRule(t, Negatives(n, at), rule).window == w;
      forall i | |w| - n <= i < |w| ensures w[i].Negative? {
        assert w[i] == (s.window + [Negative])[|s.window| + 1 - |w| + i];
      }
    }
  }

  /** The alert is resolved at some point of a run of negative observations of the rule's own clear length. */
  predicate ClearsWithin(t: Tracker, n: nat, at: int, rule: Rule) {
    exists k :: 0 <= k <= n && RunRule(t, Negatives(k, at), rule).alert.None?
  }

  /** The last negative of a clear run resolves. */
  lemma LastNegativeClears(s: Tracker, at: int, rule: Rule)
    requires s.alert.Some? && 0 < rule.clear <= rule.window && EndsNegative(s.window, rule.clear - 1)
    ensures EvaluateSimpleThreshold(s, Negative, at, rule).alert.None?
  {
    var w := LastN(s.window + [Negative], rule.window);
    forall i | |w| - rule.clear <= i < |w| ensures w[i].Negative? {
      assert w[i] == (s.window + [Negative])[|s.window| + 1 - |w| + i];
    }
    assert ClearRun(w, rule.clear);
  }

  /**
   * An active alert is resolved by its clear run of negative observations exactly
   * when the window can hold one: at 1 against 3, container_unhealthy never is.
   */
  lemma ClearRunReachable(t: Tracker, at: int, rule: Rule)
    requires t.alert.Some?
    ensures ClearsWithin(t, rule.clear, at, rule) <==> 0 < rule.clear <= rule.window
  {
    if rule.window < rule.clear {
      forall k | 0 <= k <= rule.clear ensures RunRule(t, Negatives(k, at), rule).alert.Some? {
        ShortWindowNeverClears(t, Negatives(k, at), rule);
      }
    } else if rule.clear > 0 {
      var n := rule.clear - 1;
      if !ClearsWithin(t, n, at, rule) {
        NegativesCollect(t, n, at, rule);
        assert Negatives(n + 1, at)[..n] == Negatives(n, at);
        LastNegativeClears(RunRule(t, Negatives(n, at), rule), at, rule);
        assert RunRule(t, Negatives(n + 1, at), rule).alert.None?;
      }
    } else {
      assert RunRule(t, Negatives(0, at), rule) == t;
    }
  }

  /** Of the rules evaluated this way, only container_unhealthy can never be cleared by negative observations. */
  lemma WhichRulesClear(t: Tracker, at: int, readings: seq<(Reading, int)>)
    requires t.alert.Some?
    ensures RunRule(t, readings, CONTAINER_UNHEALTHY).alert.Some?
    ensures ClearsWithin(t, CONTAINER_CPU_HIGH.clear, at, CONTAINER_CPU_HIGH)
    ensures ClearsWithin(t, CONTAINER_MEMORY_HIGH.clear, at, CONTAINER_MEMORY_HIGH)
    ensures ClearsWithin(t, DOCKER_STORAGE_PRESSURE.clear, at, DOCKER_STORAGE_PRESSURE)
  {
    ShortWindowNeverClears(t, readings, CONTAINER_UNHEALTHY);
    ClearRunReachable(t, at, CONTAINER_CPU_HIGH);
    ClearRunReachable(t, at, CONTAINER_MEMORY_HIGH);
    ClearRunReachable(t, at, DOCKER_STORAGE_PRESSURE);
  }
}
