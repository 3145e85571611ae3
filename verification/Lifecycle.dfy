/**
 * Mutual exclusion of agent lifecycle operations and ingests per VPS, on slot
 * objects that are dropped from the map when idle. Object references are indices
 * of an allocation list, so a dropped slot and its successor stay distinct. Each
 * call runs without interruption, as the event loop runs it; a waiting uninstall
 * goes on when its ticket is granted.
 */
module Lifecycle {
  import opened Options

  datatype Operation = Install | Uninstall | Upgrade | RestartOp | Rotate

  type SlotRef = nat
  type TicketRef = nat

  datatype Slot = Slot(lifecycle: Option<Operation>, ingests: nat, waiters: seq<TicketRef>)

  /** A release closure: the slot it captured, its operation (None for an ingest), and whether its caller runs yet. */
  datatype Ticket = Ticket(id: string, slot: SlotRef, op: Option<Operation>, granted: bool, released: bool)

  datatype World = World(slots: map<string, SlotRef>, heap: seq<Slot>, tickets: seq<Ticket>)

  const IDLE: Slot := Slot(None, 0, [])

  // ---- one call at a time ----

  /** The slot shown to callers, created on first use. */
  function WithSlot(w: World, id: string): (r: World)
    ensures id in r.slots
  {
    if id in w.slots then w else w.(slots := w.slots[id := |w.heap|], heap := w.heap + [IDLE])
  }

  predicate Busy(w: World, id: string) {
    id in w.slots && w.slots[id] < |w.heap| && w.heap[w.slots[id]].lifecycle.Some?
  }

  predicate Uninstalling(w: World, id: string) {
    id in w.slots && w.slots[id] < |w.heap| && w.heap[w.slots[id]].lifecycle == Some(Uninstall)
  }

  function Acquire(w0: World, id: string, op: Operation): World {
    var w := WithSlot(w0, id);
    var ref := w.slots[id];
    if Busy(w, id) || ref >= |w.heap| then w
    else
      var waits := op.Uninstall? && w.heap[ref].ingests > 0;
      var s := w.heap[ref].(lifecycle := Some(op),
                            waiters := w.heap[ref].waiters + (if waits then [|w.tickets|] else []));
      World(w.slots, w.heap[ref := s], w.tickets + [Ticket(id, ref, Some(op), !waits, false)])
  }

  function BeginIngest(w0: World, id: string): World {
    var w := WithSlot(w0, id);
    var ref := w.slots[id];
    if Uninstalling(w, id) || ref >= |w.heap| then w
    else
      World(w.slots, w.heap[ref := w.heap[ref].(ingests := w.heap[ref].ingests + 1)],
            w.tickets + [Ticket(id, ref, None, true, false)])
  }

  function GrantAll(tickets: seq<Ticket>, waiters: seq<TicketRef>): (r: seq<Ticket>)
    ensures |r| == |tickets|
  {
    if waiters == [] then tickets
    else
      var rest := GrantAll(tickets, waiters[..|waiters| - 1]);
      var k := waiters[|waiters| - 1];
      if k < |rest| then rest[k := rest[k].(granted := true)] else rest
  }

  /** Wakes the waiters once no ingest is left, and drops an idle slot from the map. */
  function Drain(w: World, id: string, ref: SlotRef): World
    requires ref < |w.heap|
  {
    var s := w.heap[ref];
    var v := if s.ingests == 0 then World(w.slots, w.heap[ref := s.(waiters := [])], GrantAll(w.tickets, s.waiters)) else w;
    var t := v.heap[ref];
    if t.lifecycle.None? && t.ingests == 0 && t.waiters == [] then v.(slots := v.slots - {id}) else v
  }

  /** Calling a release closure, which its caller has only once granted; a second call does nothing. */
  function Release(w: World, k: TicketRef): World
    requires k < |w.tickets| && w.tickets[k].granted
  {
    var t := w.tickets[k];
    if t.released || t.slot >= |w.heap| then w
    else
      var s := w.heap[t.slot];
      var freed := if t.op.Some? then s.(lifecycle := None)
                   else s.(ingests := if s.ingests > 0 then s.ingests - 1 else 0);
      Drain(World(w.slots, w.heap[t.slot := freed], w.tickets[k := t.(released := true)]), t.id, t.slot)
  }

  // ---- the coordinator ----

  class Coordinator {
    var slots: map<string, SlotRef>
    var heap: seq<Slot>
    var tickets: seq<Ticket>

    function State(): World
      reads this
    {
      World(slots, heap, tickets)
    }

    constructor ()
      ensures State() == World(map[], [], [])
    {
      slots, heap, tickets := map[], [], [];
    }

    method SlotOf(id: string) returns (ref: SlotRef)
      modifies this
      ensures State() == WithSlot(old(State()), id) && ref == slots[id]
    {
      if id !in slots {
        slots := slots[id := |heap|];
        heap := heap + [IDLE];
      }
      ref := slots[id];
    }

    /** Refused while any operation holds the lifecycle; an uninstall may have to wait for ingests. */
    method TryAcquire(id: string, op: Operation) returns (k: Option<TicketRef>)
      requires Inv(State())
      modifies this
      ensures State() == Acquire(old(State()), id, op) && Inv(State())
      ensures k.Some? <==> !Busy(old(State()), id)
      ensures k.Some? ==>
                && k.value == |old(tickets)| && |tickets| == |old(tickets)| + 1
                && tickets[k.value].id == id && tickets[k.value].op == Some(op) && !tickets[k.value].released
                && (tickets[k.value].granted <==> !(op == Uninstall && exists i: nat :: LiveIngest(old(State()), i, id)))
    {
      AcquireEffect(State(), id, op);
      BusyIsHeld(State(), id);
      AcquireKeeps(State(), id, op);
      var ref := SlotOf(id);
      if heap[ref].lifecycle.Some? { return None; }
      var s := heap[ref].(lifecycle := Some(op));
      var waits := op.Uninstall? && s.ingests > 0;
      s := s.(waiters := s.waiters + (if waits then [|tickets|] else []));
      heap := heap[ref := s];
      tickets := tickets + [Ticket(id, ref, Some(op), !waits, false)];
      k := Some(|tickets| - 1);
    }

    /** Refused only while an uninstall holds or awaits the lifecycle. */
    method StartIngest(id: string) returns (k: Option<TicketRef>)
      requires Inv(State())
      modifies this
      ensures State() == BeginIngest(old(State()), id) && Inv(State())
      ensures k.Some? <==> !Uninstalling(old(State()), id)
      ensures k.Some? ==>
                && k.value == |old(tickets)| && |tickets| == |old(tickets)| + 1 && tickets[k.value].granted
                && LiveIngest(State(), k.value, id)
    {
      IngestKeeps(State(), id);
      var ref := SlotOf(id);
      if heap[ref].lifecycle == Some(Uninstall) { return None; }
      heap := heap[ref := heap[ref].(ingests := heap[ref].ingests + 1)];
      tickets := tickets + [Ticket(id, ref, None, true, false)];
      k := Some(|tickets| - 1);
    }

    method DrainSlot(id: string, ref: SlotRef)
      requires ref < |heap|
      modifies this
      ensures State() == Drain(old(State()), id, ref)
    {
      if heap[ref].ingests == 0 {
        var waiters := heap[ref].waiters;
        heap := heap[ref := heap[ref].(waiters := [])];
        ghost var was := tickets;
        for i := 0 to |waiters|
          invariant tickets == GrantAll(was, waiters[..i])
          invariant slots == old(slots) && heap == old(heap)[ref := old(heap)[ref].(waiters := [])]
        {
          assert waiters[..i + 1][..i] == waiters[..i];
          if waiters[i] < |tickets| {
            tickets := tickets[waiters[i] := tickets[waiters[i]].(granted := true)];
          }
        }
        assert waiters[..|waiters|] == waiters;
      }
      var s := heap[ref];
      if s.lifecycle.None? && s.ingests == 0 && s.waiters == [] { slots := slots - {id}; }
    }

    /** Calls a release closure handed out before. */
    method ReleaseTicket(k: TicketRef)
      requires Inv(State()) && k < |tickets| && tickets[k].granted
      modifies this
      ensures State() == Release(old(State()), k) && Inv(State())
      ensures old(tickets)[k].released ==> State() == old(State())
      ensures !old(tickets)[k].released ==>
                && |tickets| == |old(tickets)| && tickets[k] == old(tickets)[k].(released := true)
                && (tickets[k].op.Some? ==> !Busy(State(), tickets[k].id))
                && (forall j :: 0 <= j < |tickets| && j != k ==> tickets[j] == old(tickets)[j].(granted := tickets[j].granted))
    {
      if !tickets[k].released { ReleaseEffect(State(), k, tickets[k].id); }
      FreeTicket(k);
    }

    method FreeTicket(k: TicketRef)
      requires Inv(State()) && k < |tickets| && tickets[k].granted
      modifies this
      ensures State() == Release(old(State()), k) && Inv(State())
    {
      ReleaseKeeps(State(), k);
      assert TicketOk(State(), k);
      var t := tickets[k];
      if t.released { return; }
      tickets := tickets[k := t.(released := true)];
      var s := heap[t.slot];
      if t.op.Some? {
        heap := heap[t.slot := s.(lifecycle := None)];
      } else {
        assert SlotOk(old(State()), t.slot);
        CountFound(old(tickets), t.slot, false, k, k);
        heap := heap[t.slot := s.(ingests := s.ingests - 1)];
      }
      DrainSlot(t.id, t.slot);
    }

    /** A query; it may leave a new idle slot behind. */
    method IsLifecycleActive(id: string) returns (active: bool)
      requires Inv(State())
      modifies this
      ensures State() == WithSlot(old(State()), id) && Inv(State())
      ensures active <==> Busy(old(State()), id)
    {
      ProbeKeeps(State(), id);
      var ref := SlotOf(id);
      active := heap[ref].lifecycle.Some?;
    }
  }

  // ---- the invariant ----

  /** An unreleased ticket of one slot: a lifecycle holder, or an ingest. */
  predicate Held(t: Ticket, ref: SlotRef, holder: bool) {
    !t.released && t.slot == ref && t.op.Some? == holder
  }

  function CountHeld(tickets: seq<Ticket>, ref: SlotRef, holder: bool): nat {
    if tickets == [] then 0
    else CountHeld(tickets[..|tickets| - 1], ref, holder) + (if Held(tickets[|tickets| - 1], ref, holder) then 1 else 0)
  }

  /** A waiting ticket is an ungranted uninstall of this slot. */
  predicate Waits(w: World, ref: SlotRef, k: TicketRef) {
    k < |w.tickets| && Held(w.tickets[k], ref, true) && w.tickets[k].op == Some(Uninstall) && !w.tickets[k].granted
  }

  /** The slot's fields say exactly which unreleased tickets there are, and nobody waits for nothing. */
  predicate SlotOk(w: World, ref: SlotRef)
    requires ref < |w.heap|
  {
    var s := w.heap[ref];
    && s.ingests == CountHeld(w.tickets, ref, false)
    && CountHeld(w.tickets, ref, true) == (if s.lifecycle.Some? then 1 else 0)
    && (forall i :: 0 <= i < |s.waiters| ==> Waits(w, ref, s.waiters[i]))
    && (s.waiters != [] ==> s.ingests > 0)
  }

  /** A live ticket captured the very slot new callers see, which shows its operation; it waits or is granted. */
  predicate TicketOk(w: World, k: TicketRef)
    requires k < |w.tickets|
  {
    var t := w.tickets[k];
    && t.slot < |w.heap|
    && (!t.released ==>
      && t.id in w.slots && w.slots[t.id] == t.slot
      && (t.op.Some? ==> w.heap[t.slot].lifecycle == t.op)
      && (!t.granted ==> k in w.heap[t.slot].waiters)
      && (t.granted && t.op == Some(Uninstall) ==> w.heap[t.slot].ingests == 0))
  }

  predicate SlotsApart(w: World) {
    && (forall i :: i in w.slots ==> w.slots[i] < |w.heap|)
    && (forall i, j :: i in w.slots && j in w.slots && w.slots[i] == w.slots[j] ==> i == j)
  }

  predicate Inv(w: World) {
    && SlotsApart(w)
    && (forall ref: nat :: ref < |w.heap| ==> SlotOk(w, ref))
    && (forall k: nat :: k < |w.tickets| ==> TicketOk(w, k))
  }

  lemma {:induction false} CountUpdated(tickets: seq<Ticket>, k: nat, t: Ticket, ref: SlotRef, holder: bool)
    requires k < |tickets|
    ensures CountHeld(tickets[k := t], ref, holder)
            == CountHeld(tickets, ref, holder) - (if Held(tickets[k], ref, holder) then 1 else 0)
               + (if Held(t, ref, holder) then 1 else 0)
  {
    var n := |tickets| - 1;
    if k < n {
      CountUpdated(tickets[..n], k, t, ref, holder);
      assert tickets[k := t][..n] == tickets[..n][k := t];
    } else {
      assert tickets[k := t][..n] == tickets[..n];
    }
  }

  lemma CountAppended(tickets: seq<Ticket>, t: Ticket, ref: SlotRef, holder: bool)
    ensures CountHeld(tickets + [t], ref, holder) == CountHeld(tickets, ref, holder) + (if Held(t, ref, holder) then 1 else 0)
  {
    assert (tickets + [t])[..|tickets|] == tickets;
  }

  /** A held ticket is counted; two of them count as two. */
  lemma {:induction false} CountFound(tickets: seq<Ticket>, ref: SlotRef, holder: bool, i: nat, j: nat)
    requires i <= j < |tickets| && Held(tickets[i], ref, holder) && Held(tickets[j], ref, holder)
    ensures CountHeld(tickets, ref, holder) >= (if i < j then 2 else 1)
  {
    var n := |tickets| - 1;
    if j < n {
      CountFound(tickets[..n], ref, holder, i, j);
    } else if i < n {
      CountFound(tickets[..n], ref, holder, i, i);
    }
  }

  /** A positive count has a witness. */
  lemma {:induction false} CountWitness(tickets: seq<Ticket>, ref: SlotRef, holder: bool) returns (k: nat)
    requires CountHeld(tickets, ref, holder) > 0
    ensures k < |tickets| && Held(tickets[k], ref, holder)
  {
    var n := |tickets| - 1;
    if Held(tickets[n], ref, holder) { k := n; }
    else { k := CountWitness(tickets[..n], ref, holder); }
  }

  lemma {:induction false} CountNone(tickets: seq<Ticket>, ref: SlotRef, holder: bool)
    requires forall k :: 0 <= k < |tickets| ==> tickets[k].slot != ref
    ensures CountHeld(tickets, ref, holder) == 0
  {
    if tickets != [] { CountNone(tickets[..|tickets| - 1], ref, holder); }
  }

  /** Counting looks only at what makes a ticket held. */
  lemma {:induction false} CountSame(a: seq<Ticket>, b: seq<Ticket>, ref: SlotRef, holder: bool)
    requires |a| == |b| && forall i :: 0 <= i < |a| ==> Held(a[i], ref, holder) == Held(b[i], ref, holder)
    ensures CountHeld(a, ref, holder) == CountHeld(b, ref, holder)
  {
    if a != [] { CountSame(a[..|a| - 1], b[..|b| - 1], ref, holder); }
  }

  lemma {:induction false} GrantSpec(tickets: seq<Ticket>, waiters: seq<TicketRef>)
    ensures var r := GrantAll(tickets, waiters);
            forall i :: 0 <= i < |r| ==> r[i] == tickets[i].(granted := tickets[i].granted || i in waiters)
  {
    if waiters != [] {
      var front := waiters[..|waiters| - 1];
      GrantSpec(tickets, front);
      assert waiters == front + [waiters[|waiters| - 1]];
    }
  }

  /** A slot has at most one lifecycle ticket, and exactly the ingests it counts. */
  lemma OneHolder(w: World, i: nat, j: nat, ref: SlotRef)
    requires Inv(w) && i < |w.tickets| && j < |w.tickets|
    requires Held(w.tickets[i], ref, true) && Held(w.tickets[j], ref, true)
    ensures i == j
  {
    assert TicketOk(w, i) && SlotOk(w, ref);
    if i < j { CountFound(w.tickets, ref, true, i, j); }
    if j < i { CountFound(w.tickets, ref, true, j, i); }
  }

  /** Whoever waits in a slot holds its lifecycle for an uninstall. */
  lemma WaiterUninstalls(w: World, ref: SlotRef, k: TicketRef)
    requires Inv(w) && ref < |w.heap| && k in w.heap[ref].waiters
    ensures k < |w.tickets| && w.tickets[k].slot == ref && w.heap[ref].lifecycle == Some(Uninstall)
  {
    var i :| 0 <= i < |w.heap[ref].waiters| && w.heap[ref].waiters[i] == k;
    assert SlotOk(w, ref);
    assert Waits(w, ref, w.heap[ref].waiters[i]);
    assert TicketOk(w, k);
  }

  /** Only the holder waits, and only while ungranted. */
  lemma NoWaiters(w: World, ref: SlotRef)
    requires Inv(w) && ref < |w.heap| && w.heap[ref].lifecycle != Some(Uninstall)
    ensures w.heap[ref].waiters == []
  {
    if w.heap[ref].waiters != [] { WaiterUninstalls(w, ref, w.heap[ref].waiters[0]); }
  }

  // ---- preservation ----

  lemma ProbeKeeps(w: World, id: string)
    requires Inv(w)
    ensures Inv(WithSlot(w, id)) && Busy(WithSlot(w, id), id) == Busy(w, id)
    ensures Uninstalling(WithSlot(w, id), id) == Uninstalling(w, id)
  {
    var v := WithSlot(w, id);
    if id !in w.slots {
      forall k: nat | k < |v.tickets| ensures TicketOk(v, k) { assert TicketOk(w, k); }
      forall ref: nat | ref < |v.heap| ensures SlotOk(v, ref) {
        if ref < |w.heap| {
          assert SlotOk(w, ref);
          forall i | 0 <= i < |v.heap[ref].waiters| ensures Waits(v, ref, v.heap[ref].waiters[i]) {
            assert Waits(w, ref, w.heap[ref].waiters[i]);
          }
        } else {
          forall k | 0 <= k < |w.tickets| ensures w.tickets[k].slot != ref { assert TicketOk(w, k); }
          CountNone(w.tickets, ref, false);
          CountNone(w.tickets, ref, true);
        }
      }
    }
  }

  /** One slot changes and one ticket is added; the other slots see neither. */
  lemma OtherSlot(w: World, v: World, ref: SlotRef, r: SlotRef, t: Ticket)
    requires Inv(w) && ref < |w.heap| && r < |w.heap| && r != ref && t.slot == ref
    requires |v.heap| == |w.heap| && v.heap[r] == w.heap[r] && v.tickets == w.tickets + [t]
    ensures SlotOk(v, r)
  {
    assert SlotOk(w, r);
    CountAppended(w.tickets, t, r, false);
    CountAppended(w.tickets, t, r, true);
    forall i | 0 <= i < |v.heap[r].waiters| ensures Waits(v, r, v.heap[r].waiters[i]) {
      assert Waits(w, r, w.heap[r].waiters[i]);
    }
  }

  lemma AcquireKeeps(w0: World, id: string, op: Operation)
    requires Inv(w0)
    ensures Inv(Acquire(w0, id, op))
  {
    ProbeKeeps(w0, id);
    var w := WithSlot(w0, id);
    var ref := w.slots[id];
    if !Busy(w, id) {
      var v := Acquire(w0, id, op);
      var t := v.tickets[|w.tickets|];
      NoWaiters(w, ref);
      OwnSlotTaken(w, v, ref, t);
      forall r: nat | r < |v.heap| ensures SlotOk(v, r) {
        if r != ref { OtherSlot(w, v, ref, r, t); }
      }
      forall k: nat | k < |v.tickets| ensures TicketOk(v, k) {
        if k < |w.tickets| { assert TicketOk(w, k); }
      }
    }
  }

  /** The slot of a new lifecycle holder, who waits exactly when it is an uninstall and ingests run. */
  lemma OwnSlotTaken(w: World, v: World, ref: SlotRef, t: Ticket)
    requires Inv(w) && ref < |w.heap| && w.heap[ref].lifecycle.None? && w.heap[ref].waiters == []
    requires t.slot == ref && t.op.Some? && !t.released && v.tickets == w.tickets + [t] && ref < |v.heap|
    requires v.heap[ref].lifecycle == t.op && v.heap[ref].ingests == w.heap[ref].ingests
    requires v.heap[ref].waiters == if t.granted then [] else [|w.tickets|]
    requires !t.granted ==> t.op == Some(Uninstall) && w.heap[ref].ingests > 0
    ensures SlotOk(v, ref)
  {
    assert SlotOk(w, ref);
    CountAppended(w.tickets, t, ref, false);
    CountAppended(w.tickets, t, ref, true);
    assert !t.granted ==> Waits(v, ref, |w.tickets|);
  }

  lemma IngestKeeps(w0: World, id: string)
    requires Inv(w0)
    ensures Inv(BeginIngest(w0, id))
  {
    ProbeKeeps(w0, id);
    var w := WithSlot(w0, id);
    var ref := w.slots[id];
    if !Uninstalling(w, id) {
      var v := BeginIngest(w0, id);
      var t := v.tickets[|w.tickets|];
      NoWaiters(w, ref);
      assert SlotOk(w, ref);
      CountAppended(w.tickets, t, ref, false);
      CountAppended(w.tickets, t, ref, true);
      forall r: nat | r < |v.heap| ensures SlotOk(v, r) {
        if r != ref { OtherSlot(w, v, ref, r, t); }
      }
      forall k: nat | k < |v.tickets| ensures TicketOk(v, k) {
        if k < |w.tickets| { assert TicketOk(w, k); }
      }
    }
  }

  /** The world after releasing a ticket, before anybody is woken or any slot dropped. */
  function Freed(w: World, k: TicketRef, s: Slot): World
    requires k < |w.tickets| && w.tickets[k].slot < |w.heap|
  {
    World(w.slots, w.heap[w.tickets[k].slot := s], w.tickets[k := w.tickets[k].(released := true)])
  }

  lemma CountsFreed(w: World, k: TicketRef, ref: SlotRef, holder: bool)
    requires k < |w.tickets| && !w.tickets[k].released
    ensures CountHeld(w.tickets[k := w.tickets[k].(released := true)], ref, holder)
            == CountHeld(w.tickets, ref, holder) - (if Held(w.tickets[k], ref, holder) then 1 else 0)
  {
    CountUpdated(w.tickets, k, w.tickets[k].(released := true), ref, holder);
  }

  /** Releasing a ticket leaves the other slots as they were. */
  lemma OtherSlotFreed(w: World, k: TicketRef, s: Slot, r: SlotRef)
    requires Inv(w) && k < |w.tickets| && !w.tickets[k].released && r < |w.heap| && r != w.tickets[k].slot
    requires w.tickets[k].slot < |w.heap|
    ensures SlotOk(Freed(w, k, s), r)
  {
    assert SlotOk(w, r);
    CountsFreed(w, k, r, false);
    CountsFreed(w, k, r, true);
    var v := Freed(w, k, s);
    forall i | 0 <= i < |v.heap[r].waiters| ensures Waits(v, r, v.heap[r].waiters[i]) {
      assert Waits(w, r, w.heap[r].waiters[i]);
    }
  }

  /** Releasing the lifecycle. */
  lemma HolderFreed(w: World, k: TicketRef)
    requires Inv(w) && k < |w.tickets| && !w.tickets[k].released && w.tickets[k].granted && w.tickets[k].op.Some?
    requires w.tickets[k].slot < |w.heap|
    ensures Inv(Freed(w, k, w.heap[w.tickets[k].slot].(lifecycle := None)))
    ensures w.heap[w.tickets[k].slot].waiters == []
  {
    var t := w.tickets[k];
    var s := w.heap[t.slot].(lifecycle := None);
    var v := Freed(w, k, s);
    assert TicketOk(w, k) && SlotOk(w, t.slot);
    if s.waiters != [] {
      assert Waits(w, t.slot, s.waiters[0]);
      OneHolder(w, k, s.waiters[0], t.slot);
    }
    CountsFreed(w, k, t.slot, false);
    CountsFreed(w, k, t.slot, true);
    forall r: nat | r < |v.heap| ensures SlotOk(v, r) {
      if r != t.slot { OtherSlotFreed(w, k, s, r); }
    }
    forall j: nat | j < |v.tickets| ensures TicketOk(v, j) {
      assert TicketOk(w, j);
      if j != k && Held(w.tickets[j], t.slot, true) { OneHolder(w, j, k, t.slot); }
    }
  }

  /** Releasing an ingest while others are still running. */
  lemma IngestFreed(w: World, k: TicketRef)
    requires Inv(w) && k < |w.tickets| && !w.tickets[k].released && w.tickets[k].op.None?
    requires w.tickets[k].slot < |w.heap| && w.heap[w.tickets[k].slot].ingests > 1
    ensures var s := w.heap[w.tickets[k].slot]; Inv(Freed(w, k, s.(ingests := s.ingests - 1)))
  {
    var t := w.tickets[k];
    var s := w.heap[t.slot].(ingests := w.heap[t.slot].ingests - 1);
    var v := Freed(w, k, s);
    assert SlotOk(w, t.slot);
    CountsFreed(w, k, t.slot, false);
    CountsFreed(w, k, t.slot, true);
    forall r: nat | r < |v.heap| ensures SlotOk(v, r) {
      if r != t.slot { OtherSlotFreed(w, k, s, r); }
      else {
        forall i | 0 <= i < |s.waiters| ensures Waits(v, r, s.waiters[i]) { assert Waits(w, r, s.waiters[i]); }
      }
    }
    forall j: nat | j < |v.tickets| ensures TicketOk(v, j) { assert TicketOk(w, j); }
  }

  /** The last ingest leaves: whoever waited is granted. */
  function Woken(w: World, k: TicketRef): World
    requires k < |w.tickets| && w.tickets[k].slot < |w.heap|
  {
    var t := w.tickets[k];
    var s := w.heap[t.slot].(ingests := 0, waiters := []);
    World(w.slots, w.heap[t.slot := s], GrantAll(w.tickets[k := t.(released := true)], w.heap[t.slot].waiters))
  }

  /** Granting the waiters of one slot is invisible to the others. */
  lemma OtherSlotWoken(w: World, k: TicketRef, r: SlotRef)
    requires Inv(w) && k < |w.tickets| && !w.tickets[k].released && r < |w.heap| && r != w.tickets[k].slot
    requires w.tickets[k].slot < |w.heap|
    ensures SlotOk(Woken(w, k), r)
  {
    var t, v := w.tickets[k], Woken(w, k);
    var freed := w.tickets[k := t.(released := true)];
    var ws := w.heap[t.slot].waiters;
    GrantSpec(freed, ws);
    CountSame(freed, v.tickets, r, false);
    CountSame(freed, v.tickets, r, true);
    CountsFreed(w, k, r, false);
    CountsFreed(w, k, r, true);
    assert SlotOk(w, r) && SlotOk(w, t.slot);
    forall i | 0 <= i < |v.heap[r].waiters| ensures Waits(v, r, v.heap[r].waiters[i]) {
      var x := w.heap[r].waiters[i];
      assert Waits(w, r, x);
      if x in ws { WaiterUninstalls(w, t.slot, x); }
    }
  }

  lemma LastIngestFreed(w: World, k: TicketRef)
    requires Inv(w) && k < |w.tickets| && !w.tickets[k].released && w.tickets[k].op.None?
    requires w.tickets[k].slot < |w.heap| && w.heap[w.tickets[k].slot].ingests == 1
    ensures Inv(Woken(w, k))
  {
    var t, v := w.tickets[k], Woken(w, k);
    var freed := w.tickets[k := t.(released := true)];
    GrantSpec(freed, w.heap[t.slot].waiters);
    CountSame(freed, v.tickets, t.slot, false);
    CountSame(freed, v.tickets, t.slot, true);
    CountsFreed(w, k, t.slot, false);
    CountsFreed(w, k, t.slot, true);
    assert SlotOk(w, t.slot);
    forall r: nat | r < |v.heap| ensures SlotOk(v, r) {
      if r != t.slot { OtherSlotWoken(w, k, r); }
    }
    forall j: nat | j < |v.tickets| ensures TicketOk(v, j) {
      assert TicketOk(w, j);
      if j in w.heap[t.slot].waiters {
        var i :| 0 <= i < |w.heap[t.slot].waiters| && w.heap[t.slot].waiters[i] == j;
        assert Waits(w, t.slot, w.heap[t.slot].waiters[i]);
      }
    }
  }

  /** An idle slot has no live ticket, so dropping it from the map separates nobody from it. */
  lemma DropKeeps(w: World, id: string)
    requires Inv(w) && id in w.slots && w.slots[id] < |w.heap| && w.heap[w.slots[id]] == IDLE
    ensures Inv(w.(slots := w.slots - {id}))
  {
    var v, ref := w.(slots := w.slots - {id}), w.slots[id];
    assert SlotOk(w, ref);
    forall k: nat | k < |v.tickets| ensures TicketOk(v, k) {
      assert TicketOk(w, k);
      if Held(w.tickets[k], ref, true) { CountFound(w.tickets, ref, true, k, k); }
      if Held(w.tickets[k], ref, false) { CountFound(w.tickets, ref, false, k, k); }
    }
    forall r: nat | r < |v.heap| ensures SlotOk(v, r) {
      assert SlotOk(w, r);
      forall i | 0 <= i < |v.heap[r].waiters| ensures Waits(v, r, v.heap[r].waiters[i]) {
        assert Waits(w, r, w.heap[r].waiters[i]);
      }
    }
  }

  lemma ReleaseKeeps(w: World, k: TicketRef)
    requires Inv(w) && k < |w.tickets| && w.tickets[k].granted
    ensures Inv(Release(w, k))
  {
    var t := w.tickets[k];
    assert TicketOk(w, k);
    if !t.released {
      var s := w.heap[t.slot];
      if t.op.Some? {
        HolderFreed(w, k);
        var v := Freed(w, k, s.(lifecycle := None));
        assert GrantAll(v.tickets, []) == v.tickets;
        assert v.heap[t.slot := v.heap[t.slot].(waiters := [])] == v.heap;
        if s.ingests == 0 { DropKeeps(v, t.id); }
      } else {
        assert SlotOk(w, t.slot);
        CountFound(w.tickets, t.slot, false, k, k);
        if s.ingests > 1 {
          IngestFreed(w, k);
        } else {
          LastIngestFreed(w, k);
          var v := Woken(w, k);
          assert w.heap[t.slot := s.(ingests := 0)][t.slot := s.(ingests := 0, waiters := [])] == v.heap;
          if s.lifecycle.None? { DropKeeps(v, t.id); }
        }
      }
    }
  }

  // ---- what each call does, told by who is live ----

  predicate Live(w: World, k: TicketRef, id: string) {
    k < |w.tickets| && !w.tickets[k].released && w.tickets[k].id == id
  }

  predicate LiveHolder(w: World, k: TicketRef, id: string) { Live(w, k, id) && w.tickets[k].op.Some? }

  predicate LiveIngest(w: World, k: TicketRef, id: string) { Live(w, k, id) && w.tickets[k].op.None? }

  predicate LiveUninstall(w: World, k: TicketRef, id: string) { Live(w, k, id) && w.tickets[k].op == Some(Uninstall) }

  /** Busy exactly while somebody unreleased holds the lifecycle, and uninstalling exactly while that is an uninstall. */
  lemma BusyIsHeld(w: World, id: string)
    requires Inv(w)
    ensures Busy(w, id) <==> exists k: nat :: LiveHolder(w, k, id)
    ensures Uninstalling(w, id) <==> exists k: nat :: LiveUninstall(w, k, id)
  {
    if Busy(w, id) {
      assert SlotOk(w, w.slots[id]);
      var k := CountWitness(w.tickets, w.slots[id], true);
      assert TicketOk(w, k);
      assert LiveHolder(w, k, id);
      assert Uninstalling(w, id) ==> LiveUninstall(w, k, id);
    }
    if k: nat :| LiveHolder(w, k, id) { assert TicketOk(w, k); }
    if k: nat :| LiveUninstall(w, k, id) { assert TicketOk(w, k); }
  }

  /** The slot counts exactly the live ingests of its VPS. */
  lemma IngestsAreLive(w: World, id: string)
    requires Inv(w) && id in w.slots
    ensures w.slots[id] < |w.heap| && (w.heap[w.slots[id]].ingests > 0 <==> exists k: nat :: LiveIngest(w, k, id))
  {
    var ref := w.slots[id];
    assert SlotOk(w, ref);
    if w.heap[ref].ingests > 0 {
      var k := CountWitness(w.tickets, ref, false);
      assert TicketOk(w, k);
      assert LiveIngest(w, k, id);
    }
    if k: nat :| LiveIngest(w, k, id) {
      assert TicketOk(w, k);
      CountFound(w.tickets, ref, false, k, k);
    }
  }

  /**
   * Acquiring is refused exactly while somebody holds the lifecycle; otherwise it adds one
   * live ticket, which waits exactly when it is an uninstall and an ingest is running.
   */
  lemma AcquireEffect(w: World, id: string, op: Operation)
    requires Inv(w)
    ensures var v := Acquire(w, id, op);
            if exists k: nat :: LiveHolder(w, k, id) then v.tickets == w.tickets
            else && |v.tickets| == |w.tickets| + 1 && v.tickets[..|w.tickets|] == w.tickets
                 && var t := v.tickets[|w.tickets|];
                    && t.id == id && t.op == Some(op) && !t.released
                    && (t.granted <==> !(op == Uninstall && exists k: nat :: LiveIngest(w, k, id)))
  {
    ProbeKeeps(w, id);
    BusyIsHeld(w, id);
    var p := WithSlot(w, id);
    IngestsAreLive(p, id);
    forall k: nat ensures LiveIngest(p, k, id) == LiveIngest(w, k, id) {}
  }

  /** An ingest is refused exactly while an uninstall holds or awaits the lifecycle; otherwise it runs at once. */
  lemma IngestEffect(w: World, id: string)
    requires Inv(w)
    ensures var v := BeginIngest(w, id);
            if exists k: nat :: LiveUninstall(w, k, id) then v.tickets == w.tickets
            else && |v.tickets| == |w.tickets| + 1 && v.tickets[..|w.tickets|] == w.tickets
                 && var t := v.tickets[|w.tickets|];
                    t.id == id && t.op.None? && !t.released && t.granted
  {
    ProbeKeeps(w, id);
    BusyIsHeld(w, id);
    IngestsAreLive(WithSlot(w, id), id);
  }

  /** A waiting ticket is an uninstall and has a running ingest to wait for. */
  lemma WaiterHasIngest(w: World, id: string, i: nat) returns (j: nat)
    requires Inv(w) && Live(w, i, id) && !w.tickets[i].granted
    ensures w.tickets[i].op == Some(Uninstall) && LiveIngest(w, j, id)
  {
    assert TicketOk(w, i) && SlotOk(w, w.slots[id]);
    var ws := w.heap[w.slots[id]].waiters;
    var x :| 0 <= x < |ws| && ws[x] == i;
    assert Waits(w, w.slots[id], ws[x]);
    j := CountWitness(w.tickets, w.slots[id], false);
    assert TicketOk(w, j);
  }

  lemma UninstallAlone(w: World, id: string, i: nat, j: nat)
    requires Inv(w) && LiveUninstall(w, i, id) && w.tickets[i].granted
    ensures !LiveIngest(w, j, id)
  {
    assert TicketOk(w, i) && SlotOk(w, w.slots[id]);
    if LiveIngest(w, j, id) {
      assert TicketOk(w, j);
      CountFound(w.tickets, w.slots[id], false, j, j);
    }
  }

  /** Releasing changes no other ticket except that waiting ones may be granted. */
  lemma ReleaseTickets(w: World, k: TicketRef)
    requires Inv(w) && k < |w.tickets| && w.tickets[k].granted && !w.tickets[k].released
    ensures var v := Release(w, k);
            && |v.tickets| == |w.tickets| && v.tickets[k] == w.tickets[k].(released := true)
            && forall j :: 0 <= j < |w.tickets| && j != k ==>
                 v.tickets[j] == w.tickets[j].(granted := v.tickets[j].granted) && (w.tickets[j].granted ==> v.tickets[j].granted)
  {
    assert TicketOk(w, k);
    var t := w.tickets[k];
    GrantSpec(w.tickets[k := t.(released := true)], w.heap[t.slot].waiters);
  }

  /**
   * The first release ends its ticket and only it. A lifecycle is free afterwards, and an
   * uninstall that waits is granted exactly when no ingest of its VPS is left.
   */
  lemma ReleaseEffect(w: World, k: TicketRef, id: string)
    requires Inv(w) && k < |w.tickets| && w.tickets[k].granted && !w.tickets[k].released && w.tickets[k].id == id
    ensures var v := Release(w, k);
            && |v.tickets| == |w.tickets| && v.tickets[k] == w.tickets[k].(released := true)
            && (w.tickets[k].op.Some? ==> !Busy(v, id))
            && (id in v.slots <==> exists j: nat :: Live(v, j, id))
            && (forall j :: 0 <= j < |w.tickets| && j != k ==> v.tickets[j] == w.tickets[j].(granted := v.tickets[j].granted))
            && (forall j :: 0 <= j < |w.tickets| && j != k && !w.tickets[j].released ==>
                  (v.tickets[j].granted <==> w.tickets[j].granted || !exists i: nat :: LiveIngest(v, i, w.tickets[j].id)))
  {
    var v := Release(w, k);
    ReleaseTickets(w, k);
    ReleaseKeeps(w, k);
    BusyIsHeld(v, id);
    SlotKept(w, k, id);
    if w.tickets[k].op.Some? {
      forall j: nat ensures !LiveHolder(v, j, id) {
        if LiveHolder(v, j, id) { HoldersMeet(w, id, j, k); }
      }
    }
    forall j | 0 <= j < |w.tickets| && j != k && !w.tickets[j].released
      ensures v.tickets[j].granted <==> w.tickets[j].granted || !exists i: nat :: LiveIngest(v, i, w.tickets[j].id)
    {
      var x := w.tickets[j].id;
      if !v.tickets[j].granted {
        var i := WaiterHasIngest(v, x, j);
      } else if !w.tickets[j].granted {
        var _ := WaiterHasIngest(w, x, j);
        forall i: nat ensures !LiveIngest(v, i, x) { UninstallAlone(v, x, j, i); }
      }
    }
  }

  /** After a release the slot is still there exactly if somebody is live in it. */
  lemma SlotKept(w: World, k: TicketRef, id: string)
    requires Inv(w) && k < |w.tickets| && w.tickets[k].granted && !w.tickets[k].released && w.tickets[k].id == id
    requires Inv(Release(w, k))
    ensures id in Release(w, k).slots <==> exists j: nat :: Live(Release(w, k), j, id)
  {
    var v := Release(w, k);
    assert TicketOk(w, k);
    if id in v.slots {
      BusyIsHeld(v, id);
      IngestsAreLive(v, id);
      var s := v.heap[v.slots[id]];
      assert SlotOk(v, v.slots[id]);
      if s.lifecycle.Some? {
        var j: nat :| LiveHolder(v, j, id);
        assert Live(v, j, id);
      } else {
        assert s.ingests > 0;
        var j: nat :| LiveIngest(v, j, id);
        assert Live(v, j, id);
      }
    }
    if j: nat :| Live(v, j, id) { assert TicketOk(v, j); }
  }

  lemma HoldersMeet(w: World, id: string, i: nat, j: nat)
    requires Inv(w) && LiveHolder(w, i, id) && LiveHolder(w, j, id)
    ensures i == j
  {
    assert TicketOk(w, i) && TicketOk(w, j);
    OneHolder(w, i, j, w.slots[id]);
  }

  // ---- every interleaving ----

  datatype Step = AcquireStep(id: string, op: Operation) | IngestStep(id: string) | ReleaseStep(k: TicketRef) | ProbeStep(id: string)

  function Next(w: World, s: Step): World {
    match s
    case AcquireStep(id, op) => Acquire(w, id, op)
    case IngestStep(id) => BeginIngest(w, id)
    case ReleaseStep(k) => if k < |w.tickets| && w.tickets[k].granted then Release(w, k) else w
    case ProbeStep(id) => WithSlot(w, id)
  }

  function Run(steps: seq<Step>): World {
    if steps == [] then World(map[], [], []) else Next(Run(steps[..|steps| - 1]), steps[|steps| - 1])
  }

  lemma {:induction false} RunKeeps(steps: seq<Step>)
    ensures Inv(Run(steps))
  {
    if steps != [] {
      var w, s := Run(steps[..|steps| - 1]), steps[|steps| - 1];
      RunKeeps(steps[..|steps| - 1]);
      match s
      case AcquireStep(id, op) => AcquireKeeps(w, id, op);
      case IngestStep(id) => IngestKeeps(w, id);
      case ReleaseStep(k) => if k < |w.tickets| && w.tickets[k].granted { ReleaseKeeps(w, k); }
      case ProbeStep(id) => ProbeKeeps(w, id);
    }
  }

  /** Under every interleaving a VPS has at most one lifecycle holder. */
  lemma AtMostOneHolder(steps: seq<Step>, id: string, i: nat, j: nat)
    requires LiveHolder(Run(steps), i, id) && LiveHolder(Run(steps), j, id)
    ensures i == j
  {
    RunKeeps(steps);
    HoldersMeet(Run(steps), id, i, j);
  }

  /** A granted uninstall sees no ingest until it is released. */
  lemma UninstallSeesNoIngest(steps: seq<Step>, id: string, i: nat, j: nat)
    requires LiveUninstall(Run(steps), i, id) && Run(steps).tickets[i].granted
    ensures !LiveIngest(Run(steps), j, id)
  {
    RunKeeps(steps);
    UninstallAlone(Run(steps), id, i, j);
  }

  /** An uninstall still waiting has a running ingest to wait for, so no wake-up was missed. */
  lemma WaitingHasReason(steps: seq<Step>, id: string, i: nat) returns (j: nat)
    requires Live(Run(steps), i, id) && !Run(steps).tickets[i].granted
    ensures LiveUninstall(Run(steps), i, id) && LiveIngest(Run(steps), j, id)
  {
    RunKeeps(steps);
    j := WaiterHasIngest(Run(steps), id, i);
  }

  /** Whoever is live holds the slot that new callers of its VPS get, and two VPS never share one. */
  lemma LiveTicketsStayRegistered(steps: seq<Step>, i: nat, j: nat)
    requires var w := Run(steps);
             i < |w.tickets| && j < |w.tickets| && !w.tickets[i].released && !w.tickets[j].released
    ensures var w := Run(steps);
            && w.tickets[i].id in w.slots && w.slots[w.tickets[i].id] == w.tickets[i].slot
            && (w.tickets[i].slot == w.tickets[j].slot <==> w.tickets[i].id == w.tickets[j].id)
  {
    RunKeeps(steps);
    assert TicketOk(Run(steps), i) && TicketOk(Run(steps), j);
  }

  /** A VPS is busy exactly while somebody unreleased holds its lifecycle; refusals and queries are never stale. */
  lemma BusyMeansHeld(steps: seq<Step>, id: string)
    ensures Busy(Run(steps), id) <==> exists k: nat :: LiveHolder(Run(steps), k, id)
    ensures Uninstalling(Run(steps), id) <==> exists k: nat :: LiveUninstall(Run(steps), k, id)
  {
    RunKeeps(steps);
    BusyIsHeld(Run(steps), id);
  }
}
