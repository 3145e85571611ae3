/** Docker daemon events as the agent sees them, and which of them it admits. */
module EventTypes {
  import opened Lex
  import opened Options

  // Caps of the transmitted batch, of one decoded response, and of the overrun
  // allowed to finish the timestamp the batch filled up in.
  const MAX_EVENTS: nat := 100
  const MAX_BRANCH_BYTES: nat := 65536
  const DECODE_MAX_EVENTS: nat := 10000
  const DECODE_MAX_BYTES: nat := 2097152
  const BOUNDARY_MAX_EVENTS: nat := 1000
  const BOUNDARY_MAX_BYTES: nat := 524288
  const MAX_BOUNDARY_DIGESTS: nat := 256
  const MAX_SKIPPED: nat := 10000

  const RAW_FIELD_CAP: nat := 256
  const RAW_ATTR_CAP: nat := 256
  const RAW_ATTR_BYTES_CAP: nat := 8192
  const MAX_CONTAINER_KEY_LEN: nat := 32
  const MAX_EVENT_ID_LEN: nat := 128

  const NANOS_PER_SECOND := 1000000000

  /** Object type and action names of the wire; the named ones are those the agent compares with. */
  datatype Kind = Container | OtherKind(name: string)

  datatype Action =
    | Create | Start | Restart | Die | Stop | Kill | Destroy | Remove | HealthStatus
    | OtherAction(name: string)

  datatype Health = Unreported | Healthy | Unhealthy | Starting | NoCheck | OtherHealth(name: string)

  /** One decoded daemon event; attributes are the decoded map's entries. */
  datatype RawEvent = RawEvent(kind: Kind, action: Action, actor: string,
                               attrs: seq<(string, string)>,
                               time: Option<int>, timeNano: Option<int>)

  /** What one read of the response body yields; `size` counts the object's own bytes. */
  datatype Read =
    | Decoded(event: RawEvent, size: nat)
    | Oversize
    | Malformed(size: nat)

  datatype Context = Context(health: Health, exitCode: Option<int>, signal: Option<int>, reduced: bool)

  datatype Event = Event(id: string, key: string, action: Action, nano: nat, context: Context)

  datatype Reason = BoundaryOverflow | BoundaryOverrun | ResponseOversize | CollectionDeadline

  datatype Gap = Gap(reason: Reason, from: nat, through: nat, skipped: nat)

  datatype Watermark = Watermark(time: nat, digests: seq<string>)

  /** An accepted event together with its marshalled length. */
  datatype Safe = Safe(nano: nat, ev: Event, size: nat)

  /** Foreign computations: the key and digest hashes, the context builder, the JSON encoder's lengths. */
  datatype Env = Env(key: string -> string,
                     context: RawEvent -> Context,
                     digest: (nat, Action, string, Context) -> string,
                     size: Event -> nat,
                     gapSize: Gap -> nat)

  /** One collection window: bounds, the digests already committed at `since`, and the environment. */
  datatype Window = Window(since: nat, until: nat, digests: seq<string>, env: Env)

  // ---- field bounds ----

  function AttrBytes(attrs: seq<(string, string)>): nat {
    if attrs == [] then 0 else |attrs[0].0| + |attrs[0].1| + AttrBytes(attrs[1..])
  }

  predicate Bounded(e: RawEvent) {
    && (e.kind.OtherKind? ==> |e.kind.name| <= RAW_FIELD_CAP)
    && (e.action.OtherAction? ==> |e.action.name| <= RAW_FIELD_CAP)
    && |e.actor| <= RAW_FIELD_CAP
    && |e.attrs| <= RAW_ATTR_CAP
    && AttrBytes(e.attrs) <= RAW_ATTR_BYTES_CAP
  }

  predicate IsSafeIdChar(c: char) {
    'A' <= c <= 'Z' || 'a' <= c <= 'z' || '0' <= c <= '9' || c == '.' || c == '_' || c == '~' || c == '-'
  }

  predicate SafeId(value: string, max: nat) {
    0 < |value| <= max && forall i :: 0 <= i < |value| ==> IsSafeIdChar(value[i])
  }

  /** A bounded id: not empty, not too long, letters, digits and the four marks of section 2.3 of RFC 3986 only. */
  lemma SafeIdExactly(value: string, max: nat)
    ensures SafeId(value, max) <==>
              && value != "" && |value| <= max
              && forall c :: c in value ==>
                   var n := c as int;
                   48 <= n <= 57 || 65 <= n <= 90 || 97 <= n <= 122 || n == 45 || n == 46 || n == 95 || n == 126
  {
    if SafeId(value, max) {
      forall c | c in value ensures IsSafeIdChar(c) {
        var i :| 0 <= i < |value| && value[i] == c;
      }
    } else {
      forall i | 0 <= i < |value| ensures value[i] in value {}
    }
  }

  /**
   * Nanosecond time of an event and whether it was widened from seconds. A zero
   * `timeNano` falls back to seconds, and zero seconds spell "0000000000", which
   * is not canonical.
   */
  function NormalizeNano(e: RawEvent): Option<(nat, bool)> {
    if e.timeNano.Some? && e.timeNano.value != 0 then
      if e.timeNano.value < 0 then None else Some((e.timeNano.value, false))
    else if e.time.None? || e.time.value <= 0 then None
    else Some((e.time.value * NANOS_PER_SECOND, true))
  }

  predicate Wanted(e: RawEvent) {
    e.kind.Container? && !e.action.OtherAction?
  }

  function EventId(digest: string): string {
    if |digest| >= 32 then digest[..32] else digest
  }

  predicate ValidCode(c: Option<int>) {
    c.Some? ==> 0 <= c.value <= 255
  }

  predicate ValidEvent(ev: Event) {
    && SafeId(ev.id, MAX_EVENT_ID_LEN)
    && SafeId(ev.key, MAX_CONTAINER_KEY_LEN)
    && !ev.context.health.OtherHealth? && ValidCode(ev.context.exitCode) && ValidCode(ev.context.signal)
  }

  function ContextOf(env: Env, e: RawEvent, reduced: bool): Context {
    env.context(e).(reduced := reduced)
  }

  function DigestOf(env: Env, ev: Event): string {
    env.digest(ev.nano, ev.action, ev.key, ev.context)
  }

  /** The transmitted form of a raw event at a given time. */
  function EventOf(env: Env, e: RawEvent, nano: nat, reduced: bool): Event {
    var ctx := ContextOf(env, e, reduced);
    var key := env.key(e.actor);
    Event(EventId(env.digest(nano, e.action, key, ctx)), key, e.action, nano, ctx)
  }

  // ---- admission ----

  /** Bounded, timed, wanted and inside the window: what the overrun rule looks at. */
  predicate InScope(w: Window, r: Read) {
    && r.Decoded? && Bounded(r.event) && NormalizeNano(r.event).Some? && Wanted(r.event)
    && w.since <= NormalizeNano(r.event).value.0 <= w.until
  }

  /** The event an admissible read stands for, before digests are compared. */
  function Candidate(w: Window, r: Read): Event
    requires InScope(w, r)
  {
    var (nano, reduced) := NormalizeNano(r.event).value;
    EventOf(w.env, r.event, nano, reduced)
  }

  /** In scope, with a valid key, and valid as an event. */
  predicate Admissible(w: Window, r: Read) {
    InScope(w, r) && SafeId(Candidate(w, r).key, MAX_CONTAINER_KEY_LEN) && ValidEvent(Candidate(w, r))
  }

  /** Already committed by the previous window: exactly at `since` with a known digest. */
  predicate Replayed(w: Window, ev: Event) {
    ev.nano == w.since && DigestOf(w.env, ev) in w.digests
  }

  predicate Accepts(w: Window, r: Read) {
    Admissible(w, r) && !Replayed(w, Candidate(w, r))
  }

  /**
   * A read as the window loop treats it. `Noise` carries no usable time; a timed
   * read can end the boundary timestamp even when it is `Unwanted` or `Outside`
   * the window; an in-scope read is `Scoped`, with the accepted event if any.
   */
  datatype Item =
    | Overlong
    | Broken(size: nat)
    | Noise(size: nat)
    | Unwanted(nano: nat, size: nat)
    | Outside(nano: nat, size: nat)
    | Scoped(nano: nat, size: nat, take: Option<Safe>)

  function Classify(w: Window, r: Read): Item {
    match r
    case Oversize => Overlong
    case Malformed(size) => Broken(size)
    case Decoded(e, size) =>
      var nano := NormalizeNano(e);
      if !Bounded(e) || nano.None? then Noise(size)
      else if !Wanted(e) then Unwanted(nano.value.0, size)
      else if nano.value.0 < w.since || nano.value.0 > w.until then Outside(nano.value.0, size)
      else
        var ev := Candidate(w, r);
        Scoped(nano.value.0, size,
               if !SafeId(ev.key, MAX_CONTAINER_KEY_LEN) || Replayed(w, ev) || !ValidEvent(ev) then None
               else Some(Safe(ev.nano, ev, w.env.size(ev))))
  }

  function Items(w: Window, stream: seq<Read>): (r: seq<Item>)
    ensures |r| == |stream| && forall i :: 0 <= i < |r| ==> r[i] == Classify(w, stream[i])
  {
    seq(|stream|, i requires 0 <= i < |stream| => Classify(w, stream[i]))
  }

  /** Classification keeps exactly the accepted reads, at their own time. */
  lemma ClassifySpec(w: Window, r: Read)
    ensures var c := Classify(w, r);
            && (c.Scoped? <==> InScope(w, r))
            && (c.Scoped? ==> c.nano == Candidate(w, r).nano)
            && (c.Scoped? && c.take.Some? <==> Accepts(w, r))
            && (Accepts(w, r) ==> c.take.value == Safe(c.nano, Candidate(w, r), w.env.size(Candidate(w, r))))
  {}

  // ---- admission in the raw event's own terms ----

  /** The raw event happened at this time, to the nanosecond or, reduced, only known to the second. */
  predicate HappenedAt(e: RawEvent, nano: nat, reduced: bool) {
    || (e.timeNano.Some? && e.timeNano.value > 0 && nano == e.timeNano.value && !reduced)
    || ((e.timeNano.None? || e.timeNano.value == 0) && e.time.Some? && e.time.value > 0
        && nano == e.time.value * 1000000000 && reduced)
  }

  /**
   * An event is transmitted at its own nanosecond time whenever it has one, unreduced; only
   * without one at its seconds, marked reduced; with a negative one, or no time at all, never.
   */
  lemma AcceptedTime(w: Window, e: RawEvent, size: nat)
    ensures var r := Decoded(e, size);
            && (Accepts(w, r) ==> HappenedAt(e, Candidate(w, r).nano, Candidate(w, r).context.reduced))
            && (Accepts(w, r) && e.timeNano.Some? && e.timeNano.value > 0 ==>
                  Candidate(w, r).nano == e.timeNano.value && !Candidate(w, r).context.reduced)
            && (Accepts(w, r) && (e.timeNano.None? || e.timeNano.value == 0) ==>
                  e.time.Some? && Candidate(w, r).nano == e.time.value * 1000000000 && Candidate(w, r).context.reduced)
            && (e.timeNano.Some? && e.timeNano.value < 0 ==> !Accepts(w, r))
            && ((e.timeNano.None? || e.timeNano.value == 0) && (e.time.None? || e.time.value <= 0) ==> !Accepts(w, r))
  {}

  /** The event an accepted read turns into: whose, what, when, and the digest it is told apart by. */
  predicate Renders(w: Window, e: RawEvent, ev: Event) {
    && HappenedAt(e, ev.nano, ev.context.reduced) && w.since <= ev.nano <= w.until
    && ev.action == e.action && ev.key == w.env.key(e.actor)
    && ev.context == w.env.context(e).(reduced := ev.context.reduced)
    && (var d := w.env.digest(ev.nano, ev.action, ev.key, ev.context);
        |ev.id| == (if |d| < 32 then |d| else 32) && ev.id == d[..|ev.id|])
  }

  /** Why an event is passed over although it can be rendered. */
  predicate PassedOver(w: Window, e: RawEvent, ev: Event) {
    || !e.kind.Container? || e.action.OtherAction?
    || |e.actor| > 256 || |e.attrs| > 256 || AttrBytes(e.attrs) > 8192
    || !SafeId(ev.key, 32) || !SafeId(ev.id, 128)
    || ev.context.health.OtherHealth?
    || (ev.context.exitCode.Some? && !(0 <= ev.context.exitCode.value <= 255))
    || (ev.context.signal.Some? && !(0 <= ev.context.signal.value <= 255))
    || (ev.nano == w.since && w.env.digest(ev.nano, ev.action, ev.key, ev.context) in w.digests)
  }

  /**
   * Admission as the daemon's own fields decide it: an event is accepted exactly when it can
   * be rendered within the window and nothing refuses it, and it is the one rendering.
   */
  lemma AcceptsExactly(w: Window, e: RawEvent, size: nat, ev: Event)
    ensures Accepts(w, Decoded(e, size)) && Candidate(w, Decoded(e, size)) == ev <==> Renders(w, e, ev) && !PassedOver(w, e, ev)
  {
    if Renders(w, e, ev) {
      var d := w.env.digest(ev.nano, ev.action, ev.key, ev.context);
      assert ev.id == EventId(d);
    }
  }

  predicate Takes(c: Item) { c.Scoped? && c.take.Some? }

  function Take(c: Item): seq<Safe> { if Takes(c) then [c.take.value] else [] }

  /** Everything an uncapped pass over the first `n` items accepts, in order. */
  function Taken(items: seq<Item>, n: nat): (r: seq<Safe>)
    requires n <= |items|
  {
    if n == 0 then [] else Taken(items, n - 1) + Take(items[n - 1])
  }

  // ---- byte accounting ----

  function Bytes(out: seq<Safe>): nat {
    if out == [] then 0 else Bytes(out[..|out| - 1]) + out[|out| - 1].size + 1
  }

  predicate Fits(out: seq<Safe>) {
    |out| <= MAX_EVENTS && Bytes(out) <= MAX_BRANCH_BYTES
  }

  function SizeOf(c: Item): nat {
    if c.Overlong? then 0 else c.size
  }

  /** Source bytes of the first `n` items. */
  function Source(items: seq<Item>, n: nat): nat
    requires n <= |items|
  {
    if n == 0 then 0 else Source(items, n - 1) + SizeOf(items[n - 1])
  }

  // ---- boundary digests ----

  /** Sorted set of the digests of the accepted events at one timestamp. */
  function BoundaryDigests(env: Env, out: seq<Safe>, nano: nat): seq<string> {
    if out == [] then []
    else
      var rest := BoundaryDigests(env, out[..|out| - 1], nano);
      var s := out[|out| - 1];
      if s.nano == nano then Insert(DigestOf(env, s.ev), rest) else rest
  }

  lemma {:induction false} BoundaryDigestsSpec(env: Env, out: seq<Safe>, nano: nat)
    ensures Ascending(BoundaryDigests(env, out, nano))
    ensures forall d :: d in BoundaryDigests(env, out, nano) <==>
              exists i :: 0 <= i < |out| && out[i].nano == nano && DigestOf(env, out[i].ev) == d
  {
    if out != [] {
      var front, s := out[..|out| - 1], out[|out| - 1];
      BoundaryDigestsSpec(env, front, nano);
      InsertAscending(DigestOf(env, s.ev), BoundaryDigests(env, front, nano));
      InsertElements(DigestOf(env, s.ev), BoundaryDigests(env, front, nano));
      forall d
        ensures d in BoundaryDigests(env, out, nano) <==>
                exists i :: 0 <= i < |out| && out[i].nano == nano && DigestOf(env, out[i].ev) == d
      {
        if i :| 0 <= i < |out| && out[i].nano == nano && DigestOf(env, out[i].ev) == d {
          assert i < |front| ==> front[i] == out[i];
        }
        if i :| 0 <= i < |front| && front[i].nano == nano && DigestOf(env, front[i].ev) == d {
          assert out[i] == front[i];
        }
      }
    }
  }
}
