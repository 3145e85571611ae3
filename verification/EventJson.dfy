/**
 * The encoder's text of events, and what its lengths mean for a window: the byte cap
 * never bites before the count cap does.
 */
module EventJson {
  import opened EventTypes
  import opened Options
  import opened EventWindow
  import opened EventWindowProps
  import Nano

  // ---- the text of one event ----

  function Quoted(s: string): string { "\"" + s + "\"" }

  function Field(name: string, value: string): string { Quoted(name) + ":" + value }

  /** A field that is left out when it has no value. */
  function Optional(name: string, value: Option<string>): string {
    if value.None? then "" else "," + Field(name, value.value)
  }

  function Number(i: int): string { if i < 0 then "-" + Nano.Spell(-i) else Nano.Spell(i) }

  function ActionName(a: Action): string {
    match a
    case Create => "create"
    case Start => "start"
    case Restart => "restart"
    case Die => "die"
    case Stop => "stop"
    case Kill => "kill"
    case Destroy => "destroy"
    case Remove => "remove"
    case HealthStatus => "health_status"
    case OtherAction(name) => name
  }

  function HealthName(h: Health): Option<string> {
    match h
    case Unreported => None
    case Healthy => Some(Quoted("healthy"))
    case Unhealthy => Some(Quoted("unhealthy"))
    case Starting => Some(Quoted("starting"))
    case NoCheck => Some(Quoted("none"))
    case OtherHealth(name) => Some(Quoted(name))
  }

  function Code(c: Option<int>): Option<string> { if c.None? then None else Some(Number(c.value)) }

  function ContextText(c: Context): string {
    "{" + Field("version", "1") + Optional("healthStatus", HealthName(c.health))
    + Optional("exitCode", Code(c.exitCode)) + Optional("signal", Code(c.signal))
    + Optional("reducedPrecision", if c.reduced then Some("true") else None) + "}"
  }

  /** `at` is the formatted time of occurrence. */
  function EventText(ev: Event, at: string): string {
    "{" + Field("eventId", Quoted(ev.id)) + "," + Field("eventOccurredAt", Quoted(at))
    + "," + Field("containerKey", Quoted(ev.key)) + "," + Field("action", Quoted(ActionName(ev.action)))
    + "," + Field("context", ContextText(ev.context)) + "}"
  }

  function ReasonName(r: Reason): string {
    match r
    case BoundaryOverflow => "boundary_overflow"
    case BoundaryOverrun => "boundary_overrun_abandoned"
    case ResponseOversize => "response_oversize"
    case CollectionDeadline => "collection_deadline"
  }

  function GapContextText(g: Gap): string {
    "{" + Field("version", "1") + "," + Field("reason", Quoted(ReasonName(g.reason)))
    + "," + Field("skippedFromNano", Quoted(Nano.Spell(g.from)))
    + "," + Field("skippedThroughNano", Quoted(Nano.Spell(g.through)))
    + "," + Field("skippedCount", Nano.Spell(g.skipped)) + "}"
  }

  function GapText(g: Gap, id: string, at: string): string {
    "{" + Field("eventId", Quoted(id)) + "," + Field("eventOccurredAt", Quoted(at))
    + "," + Field("action", Quoted("stream_gap")) + "," + Field("context", GapContextText(g)) + "}"
  }

  /** Bounds on what the texts are made of: a formatted time, and "gap-" with 32 hexadecimal digits. */
  const MAX_TIME_LEN: nat := 64
  const GAP_ID_LEN: nat := 36
  const MAX_EVENT_TEXT: nat := 500

  lemma FieldLength(name: string, value: string)
    ensures |Field(name, value)| == |name| + |value| + 3
    ensures |Optional(name, Some(value))| == |name| + |value| + 4 && |Optional(name, None)| == 0
  {}

  lemma CodeShort(c: Option<int>)
    requires ValidCode(c)
    ensures c.Some? ==> |Code(c).value| <= 3
  {
    if c.Some? {
      assert Nano.Power10(3) == 1000;
      Nano.SpellLength(c.value, 3);
    }
  }

  lemma ContextShort(c: Context)
    requires !c.health.OtherHealth? && ValidCode(c.exitCode) && ValidCode(c.signal)
    ensures |ContextText(c)| <= 120
  {
    CodeShort(c.exitCode);
    CodeShort(c.signal);
    assert HealthName(c.health).Some? ==> |HealthName(c.health).value| <= 11;
    assert |Optional("healthStatus", HealthName(c.health))| <= 27;
    assert |Optional("exitCode", Code(c.exitCode))| <= 15;
    assert |Optional("signal", Code(c.signal))| <= 13;
    assert |Optional("reducedPrecision", if c.reduced then Some("true") else None)| <= 24;
    FieldLength("version", "1");
  }

  lemma EventShort(ev: Event, at: string)
    requires ValidEvent(ev) && !ev.action.OtherAction? && |at| <= MAX_TIME_LEN
    ensures |EventText(ev, at)| <= MAX_EVENT_TEXT
  {
    ContextShort(ev.context);
    assert |ActionName(ev.action)| <= 13;
    FieldLength("eventId", Quoted(ev.id));
    FieldLength("eventOccurredAt", Quoted(at));
    FieldLength("containerKey", Quoted(ev.key));
    FieldLength("action", Quoted(ActionName(ev.action)));
    FieldLength("context", ContextText(ev.context));
  }

  lemma GapShort(g: Gap, id: string, at: string)
    requires Nano.Spellable(g.from) && Nano.Spellable(g.through) && g.skipped <= MAX_SKIPPED
    requires |id| == GAP_ID_LEN && |at| <= MAX_TIME_LEN
    ensures |GapText(g, id, at)| <= MAX_EVENT_TEXT
  {
    Nano.SpellLength(g.from, Nano.MAX_NANO_LEN);
    Nano.SpellLength(g.through, Nano.MAX_NANO_LEN);
    assert Nano.Power10(5) == 100000;
    Nano.SpellLength(g.skipped, 5);
    assert |ReasonName(g.reason)| <= 26;
    FieldLength("version", "1");
    FieldLength("reason", Quoted(ReasonName(g.reason)));
    FieldLength("skippedFromNano", Quoted(Nano.Spell(g.from)));
    FieldLength("skippedThroughNano", Quoted(Nano.Spell(g.through)));
    FieldLength("skippedCount", Nano.Spell(g.skipped));
    assert |GapContextText(g)| <= 245;
    FieldLength("eventId", Quoted(id));
    FieldLength("eventOccurredAt", Quoted(at));
    FieldLength("action", Quoted("stream_gap"));
    FieldLength("context", GapContextText(g));
  }

  // ---- what the lengths mean for a window ----

  /** The environment's sizes are the lengths of the encoder's texts, whatever times and ids are formatted as. */
  ghost predicate Encodes(env: Env, at: nat -> string, id: Gap -> string) {
    && (forall n :: |at(n)| <= MAX_TIME_LEN) && (forall g :: |id(g)| == GAP_ID_LEN)
    && (forall ev :: env.size(ev) == |EventText(ev, at(ev.nano))|)
    && (forall g :: env.gapSize(g) == |GapText(g, id(g), at(g.through))|)
  }

  /** The size is the encoded event's, and short. */
  predicate Encoded(env: Env, s: Safe) { s.size == env.size(s.ev) && s.size <= MAX_EVENT_TEXT }

  lemma {:induction false} BytesShort(out: seq<Safe>)
    requires forall i :: 0 <= i < |out| ==> out[i].size <= MAX_EVENT_TEXT
    ensures Bytes(out) <= |out| * (MAX_EVENT_TEXT + 1)
  {
    if out != [] { BytesShort(out[..|out| - 1]); }
  }

  lemma TakenShort(w: Window, stream: seq<Read>, n: nat, at: nat -> string, id: Gap -> string)
    requires n <= |stream| && Encodes(w.env, at, id)
    ensures forall i :: 0 <= i < |Taken(Items(w, stream), n)| ==> Encoded(w.env, Taken(Items(w, stream), n)[i])
  {
    TakenFacts(w, stream, n);
    var out := Taken(Items(w, stream), n);
    forall i | 0 <= i < |out| ensures Encoded(w.env, out[i]) {
      assert Sound(w, out[i]);
      EventShort(out[i].ev, at(out[i].ev.nano));
    }
  }

  /** With the encoder's own texts the batch fills up by count alone, never by bytes. */
  lemma FullByCount(w: Window, stream: seq<Read>, n: nat, at: nat -> string, id: Gap -> string)
    requires n <= |stream| && Encodes(w.env, at, id)
    ensures Trip(Items(w, stream), n).Some? <==> |Taken(Items(w, stream), n)| > MAX_EVENTS
  {
    FitsUntilTrip(Items(w, stream), n);
    TakenShort(w, stream, n, at, id);
    BytesShort(Taken(Items(w, stream), n));
  }

  lemma {:induction false} LongestAll(out: seq<Safe>, k: nat, room: int)
    requires k <= |out| && k <= MAX_EVENTS && room >= MAX_BRANCH_BYTES - MAX_EVENT_TEXT - 1
    requires forall i :: 0 <= i < |out| ==> out[i].size <= MAX_EVENT_TEXT
    ensures Longest(out, k, room) == k && Bytes(out[..k]) <= room
  {
    BytesShort(out[..k]);
  }

  /** The first 99 accepted events, or all, then a gap event counting exactly the others, within the branch budget. */
  predicate KeepsAndCounts(env: Env, out: seq<Safe>, events: seq<Outgoing>) {
    var k := Min(|out|, MAX_EVENTS - 1);
    && |events| == k + 1 && events[..k] == Sendable(out)[..k]
    && events[k].GapMark? && events[k].gap.skipped == |out| - k
    && WireBytes(env, events) <= MAX_BRANCH_BYTES
  }

  lemma ShortGap(w: Window, out: seq<Safe>, reason: Reason, through: nat, proposed: Watermark)
    requires |out| <= MAX_SKIPPED && w.env.gapSize(GapOf(out, reason, w.since, through)) <= MAX_EVENT_TEXT
    requires forall i :: 0 <= i < |out| ==> Encoded(w.env, out[i])
    ensures KeepsAndCounts(w.env, out, WithGap(w, out, reason, through, proposed).events)
  {
    var k := Min(|out|, MAX_EVENTS - 1);
    var gap := GapOf(out, reason, w.since, through);
    LongestAll(out, k, MAX_BRANCH_BYTES);
    LongestAll(out, k, MAX_BRANCH_BYTES - w.env.gapSize(gap) - 1);
    GapShape(w, out, reason, through);
    var events := Sendable(out[..k]) + [GapMark(gap)];
    assert events[..k] == Sendable(out[..k]) == Sendable(out)[..k];
  }

  lemma EncodedGapShort(env: Env, at: nat -> string, id: Gap -> string, from: nat, until: nat, gap: Gap)
    requires Encodes(env, at, id) && from <= until && Nano.Spellable(until)
    requires gap.from == from <= gap.through <= until && gap.skipped <= MAX_SKIPPED
    ensures env.gapSize(gap) <= MAX_EVENT_TEXT
  {
    GapShort(gap, id(gap), at(gap.through));
  }

  lemma EncodedWithGap(w: Window, stream: seq<Read>, n: nat, reason: Reason, through: nat, proposed: Watermark,
                       at: nat -> string, id: Gap -> string)
    requires n <= |stream| && |Taken(Items(w, stream), n)| <= MAX_SKIPPED && w.since <= through <= w.until
    requires Nano.Spellable(w.until) && Encodes(w.env, at, id)
    ensures var out := Taken(Items(w, stream), n);
            KeepsAndCounts(w.env, out, WithGap(w, out, reason, through, proposed).events)
  {
    var out := Taken(Items(w, stream), n);
    TakenShort(w, stream, n, at, id);
    EncodedGapShort(w.env, at, id, w.since, w.until, GapOf(out, reason, w.since, through));
    ShortGap(w, out, reason, through, proposed);
  }

  /**
   * With the encoder's own texts a stopped window transmits the first 99 accepted events,
   * or all if there are fewer, a gap event that counts exactly the others, and no more
   * than 64 KiB: events are never popped for the gap's bytes.
   */
  lemma EncodedCountsAreExact(w: Window, ctl: Control, stream: seq<Read>, n: nat, x: Exit, at: nat -> string, id: Gap -> string)
    requires w.since < w.until && Nano.Spellable(w.until) && Encodes(w.env, at, id)
    requires Stops(ctl, Items(w, stream), n, x) && (x.Boundary? || x.Abandon?)
    ensures KeepsAndCounts(w.env, Taken(Items(w, stream), n), OutcomeOf(w, Items(w, stream), n, x).events)
  {
    var reason, through, proposed := StopIsGap(w, ctl, stream, n, x);
    EncodedWithGap(w, stream, n, reason, through, proposed, at, id);
  }
}
