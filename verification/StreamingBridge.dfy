/** The provider bridge: it hands coordinator work to a provider that may refuse it, and moves
    stages only on the provider's acknowledgements. */
module StreamingBridge {
  import opened Wrappers
  import opened StreamingCoordinator

  datatype BridgeSlot = BridgeSlot(ticketGeneration: nat, prepareOut: bool, cancelSent: bool, activateOut: bool, retireOut: bool)

  const UNUSED: BridgeSlot := BridgeSlot(0, false, false, false, false)

  datatype Work = Prepare | CancelPrepare | Activate | Retire

  /** Work that the provider accepted for a ticket. */
  datatype Event = Accepted(work: Work, ticket: Ticket)

  ghost predicate Outstanding(b: BridgeSlot)
  {
    b.prepareOut || b.activateOut || b.retireOut
  }

  /** What the two sides of a slot and the history of accepted work have to do with each other.
      Work is outstanding exactly in the stage it belongs to; an activation that has been accepted
      is outstanding until the unit is active, broken or cancelled. */
  ghost predicate SlotAgrees(s: nat, c: Slot, b: BridgeSlot, log: seq<Event>)
  {
    var t := Ticket(s, c.generation);
    && (forall e :: e in log && e.ticket.slot == s ==> e.ticket.generation <= c.generation)
    && b.ticketGeneration <= c.generation
    && (Outstanding(b) ==> c.occupied && b.ticketGeneration == c.generation)
    && (!c.occupied || c.stage == Queued ==> forall e :: e in log ==> e.ticket != t)
    && (c.occupied && c.stage != Queued ==> b.ticketGeneration == c.generation && Accepted(Prepare, t) in log)
    && (b.prepareOut <==> c.stage == Preparing)
    && (b.retireOut <==> c.stage == Retiring)
    && (b.activateOut ==> c.stage == Prepared)
    && (Accepted(CancelPrepare, t) in log <==> b.cancelSent && b.ticketGeneration == c.generation)
    && (Accepted(Activate, t) in log ==> c.stage != Preparing && (c.stage == Prepared ==> b.activateOut || c.cancelled))
    && (Accepted(Retire, t) in log <==> c.stage == Retiring)
    && (b.activateOut || c.stage == Active ==> Accepted(Activate, t) in log)
  }

  /** No piece of work is accepted twice for the same ticket. */
  ghost predicate OnceOnly(log: seq<Event>)
  {
    forall i, j :: 0 <= i < j < |log| ==> log[i] != log[j]
  }

  ghost predicate Joint(cs: seq<Slot>, bs: seq<BridgeSlot>, log: seq<Event>)
  {
    && |cs| == |bs| && OnceOnly(log)
    && (forall s :: 0 <= s < |cs| ==> SlotOk(cs[s]) && SlotAgrees(s, cs[s], bs[s], log))
    && (forall e :: e in log ==> e.ticket.slot < |cs|)
  }

  // ---------------------------------------------------------------- what clients of the coordinator may do

  /** One coordinator slot changes; its own agreement is all there is to show. */
  lemma OneSlotMoves(cs: seq<Slot>, bs: seq<BridgeSlot>, log: seq<Event>, s: nat, c: Slot, b: BridgeSlot)
    requires Joint(cs, bs, log) && s < |cs| && SlotOk(c) && SlotAgrees(s, c, b, log)
    ensures Joint(cs[s := c], bs[s := b], log)
  {
  }

  lemma SubmitKeepsJoint(cs: seq<Slot>, bs: seq<BridgeSlot>, log: seq<Event>, s: nat, d: Demand)
    requires Joint(cs, bs, log) && s < |cs| && !cs[s].occupied && cs[s].generation != UINT32_MAX && DemandOk(d)
    ensures Joint(cs[s := Slot(d, cs[s].generation, Queued, true, false)], bs, log)
  {
    OneSlotMoves(cs, bs, log, s, Slot(d, cs[s].generation, Queued, true, false), bs[s]);
    assert bs[s := bs[s]] == bs;
  }

  lemma UpdateKeepsJoint(cs: seq<Slot>, bs: seq<BridgeSlot>, log: seq<Event>, s: nat, d: Demand)
    requires Joint(cs, bs, log) && s < |cs| && cs[s].occupied && DemandOk(d)
    ensures Joint(cs[s := cs[s].(demand := d)], bs, log)
  {
    OneSlotMoves(cs, bs, log, s, cs[s].(demand := d), bs[s]);
    assert bs[s := bs[s]] == bs;
  }

  lemma CancelKeepsJoint(cs: seq<Slot>, bs: seq<BridgeSlot>, log: seq<Event>, s: nat)
    requires Joint(cs, bs, log) && s < |cs| && cs[s].occupied
    ensures Joint(cs[s := Cancelled(cs[s])], bs, log)
  {
    OneSlotMoves(cs, bs, log, s, Cancelled(cs[s]), bs[s]);
    assert bs[s := bs[s]] == bs;
  }

  /** A slot keeps its ticket, and its cancellation if it has one. */
  ghost predicate KeepsTicket(c: Slot, c': Slot)
  {
    c'.occupied && c'.generation == c.generation && c'.demand == c.demand && (c.cancelled ==> c'.cancelled)
  }

  /** What a stage says about work under way, in every state the bridge can reach. */
  lemma StagesTellOutstandingWork(cs: seq<Slot>, bs: seq<BridgeSlot>, log: seq<Event>, s: nat)
    requires Joint(cs, bs, log) && s < |cs|
    ensures bs[s].prepareOut <==> cs[s].stage == Preparing
    ensures bs[s].retireOut <==> cs[s].stage == Retiring
    ensures bs[s].activateOut ==> cs[s].stage == Prepared
    ensures bs[s].retireOut ==> !bs[s].prepareOut && !bs[s].activateOut
  {
    assert SlotAgrees(s, cs[s], bs[s], log);
  }

  // ---------------------------------------------------------------- what the bridge does

  /** The provider accepts work for the current ticket of a slot. */
  lemma AcceptKeepsJoint(cs: seq<Slot>, bs: seq<BridgeSlot>, log: seq<Event>, s: nat, work: Work, c: Slot, b: BridgeSlot)
    requires Joint(cs, bs, log) && s < |cs| && SlotOk(c) && c.generation == cs[s].generation
    requires Accepted(work, Ticket(s, cs[s].generation)) !in log
    requires SlotAgrees(s, c, b, log + [Accepted(work, Ticket(s, cs[s].generation))])
    ensures Joint(cs[s := c], bs[s := b], log + [Accepted(work, Ticket(s, cs[s].generation))])
  {
    var e := Accepted(work, Ticket(s, cs[s].generation));
    var log' := log + [e];
    forall q | 0 <= q < |cs| && q != s ensures SlotAgrees(q, cs[q], bs[q], log') {
      assert SlotAgrees(q, cs[q], bs[q], log);
      assert forall f :: f in log' && f.ticket.slot == q ==> f in log;
    }
  }

  /** The work that a slot calls for, once its flags belong to its ticket. Retirement waits for
      everything else that is outstanding. */
  ghost function DueWork(c: Slot, b: BridgeSlot): Option<Work>
  {
    match c.stage
    case Queued => Some(Prepare)
    case Preparing => if c.cancelled && !b.cancelSent then Some(CancelPrepare) else None
    case Prepared =>
      if c.cancelled then RetireWhenIdle(b)
      else if c.demand.target == ToActive && !b.activateOut then Some(Activate) else None
    case Active => if c.cancelled then RetireWhenIdle(b) else None
    case Broken => RetireWhenIdle(b)
    case _ => None
  }

  ghost function RetireWhenIdle(b: BridgeSlot): Option<Work>
  {
    if b.activateOut || b.prepareOut then None else Some(Retire)
  }

  /** Where accepted work takes the two sides of a slot. */
  ghost function StageAfter(work: Work, c: Slot): Slot
  {
    match work
    case Prepare => c.(stage := Preparing)
    case Retire => c.(stage := Retiring)
    case _ => c
  }

  ghost function FlagsAfter(work: Work, b: BridgeSlot): BridgeSlot
  {
    match work
    case Prepare => b.(prepareOut := true)
    case CancelPrepare => b.(cancelSent := true)
    case Activate => b.(activateOut := true)
    case Retire => b.(retireOut := true)
  }

  /** A new ticket starts with clean flags. */
  ghost function Matched(c: Slot, b: BridgeSlot): BridgeSlot
  {
    if b.ticketGeneration != c.generation then BridgeSlot(c.generation, false, false, false, false) else b
  }

  /** Both sides of all slots, and everything the provider has accepted so far. */
  datatype View = View(cs: seq<Slot>, bs: seq<BridgeSlot>, log: seq<Event>)

  /** One slot has its turn: the provider is offered what is due, and may refuse it. */
  ghost function Turn(v: View, s: nat, accepts: Event -> bool): (v': View)
    requires s < |v.cs| == |v.bs|
    ensures |v'.cs| == |v'.bs| == |v.cs|
  {
    var c := v.cs[s];
    if !c.occupied then v else
      var b := Matched(c, v.bs[s]);
      var work := DueWork(c, b);
      if work.Some? && accepts(Accepted(work.value, Ticket(s, c.generation))) then
        View(v.cs[s := StageAfter(work.value, c)], v.bs[s := FlagsAfter(work.value, b)],
             v.log + [Accepted(work.value, Ticket(s, c.generation))])
      else v.(bs := v.bs[s := b])
  }

  ghost function NextIn(s: nat, length: nat): (next: nat)
    requires s < length
    ensures next < length
  {
    if s + 1 == length then 0 else s + 1
  }

  /** A number of turns, round and round from a slot on. */
  ghost function Turns(v: View, s: nat, n: nat, accepts: Event -> bool): (v': View)
    requires s < |v.cs| == |v.bs|
    ensures |v'.cs| == |v'.bs| == |v.cs|
    decreases n
  {
    if n == 0 then v else Turns(Turn(v, s, accepts), NextIn(s, |v.cs|), n - 1, accepts)
  }

  lemma OneMoreTurn(v: View, s: nat, n: nat, accepts: Event -> bool)
    requires s < |v.cs| == |v.bs|
    ensures Turns(v, s, n, accepts) == if n == 0 then v else Turns(Turn(v, s, accepts), NextIn(s, |v.cs|), n - 1, accepts)
  {
  }

  ghost predicate InStep(v: View)
  {
    Joint(v.cs, v.bs, v.log)
  }

  /** Flags of an earlier ticket are never outstanding when a slot has a new one. */
  lemma MatchingKeepsJoint(v: View, s: nat)
    requires InStep(v) && s < |v.cs| && v.cs[s].occupied
    ensures v.bs[s].ticketGeneration != v.cs[s].generation ==> v.cs[s].stage == Queued && !Outstanding(v.bs[s])
    ensures InStep(v.(bs := v.bs[s := Matched(v.cs[s], v.bs[s])]))
  {
    assert SlotAgrees(s, v.cs[s], v.bs[s], v.log);
    OneSlotMoves(v.cs, v.bs, v.log, s, v.cs[s], Matched(v.cs[s], v.bs[s]));
    assert v.cs[s := v.cs[s]] == v.cs;
  }

  /** Work that is due has not been accepted before, and accepting it keeps the two sides in step. */
  lemma DueIsNew(v: View, s: nat)
    requires InStep(v) && s < |v.cs| && v.cs[s].occupied && v.bs[s].ticketGeneration == v.cs[s].generation
    ensures var work := DueWork(v.cs[s], v.bs[s]);
      work.Some? ==>
        && Accepted(work.value, Ticket(s, v.cs[s].generation)) !in v.log
        && Joint(v.cs[s := StageAfter(work.value, v.cs[s])], v.bs[s := FlagsAfter(work.value, v.bs[s])],
                 v.log + [Accepted(work.value, Ticket(s, v.cs[s].generation))])
  {
    assert SlotAgrees(s, v.cs[s], v.bs[s], v.log);
    var work := DueWork(v.cs[s], v.bs[s]);
    if work.Some? {
      AcceptKeepsJoint(v.cs, v.bs, v.log, s, work.value, StageAfter(work.value, v.cs[s]), FlagsAfter(work.value, v.bs[s]));
    }
  }

  lemma TurnKeepsJoint(v: View, s: nat, accepts: Event -> bool)
    requires InStep(v) && s < |v.cs|
    ensures InStep(Turn(v, s, accepts))
  {
    if v.cs[s].occupied {
      MatchingKeepsJoint(v, s);
      var m := v.(bs := v.bs[s := Matched(v.cs[s], v.bs[s])]);
      DueIsNew(m, s);
      var work := DueWork(m.cs[s], m.bs[s]);
      if work.Some? {
        var b := FlagsAfter(work.value, m.bs[s]);
        assert m.bs[s := b] == v.bs[s := b];
      }
    }
  }

  ghost predicate TicketsKept(v: View, v': View)
    requires |v.cs| == |v'.cs|
  {
    && v.log <= v'.log
    && forall q :: 0 <= q < |v.cs| ==> if v.cs[q].occupied then KeepsTicket(v.cs[q], v'.cs[q]) else v'.cs[q] == v.cs[q]
  }

  lemma TurnKeepsTickets(v: View, s: nat, accepts: Event -> bool)
    requires s < |v.cs| == |v.bs|
    ensures TicketsKept(v, Turn(v, s, accepts))
  {
  }

  /** Turns keep the two sides in step, lose no ticket and only add accepted work. */
  lemma {:induction false} TurnsKeepJoint(v: View, s: nat, n: nat, accepts: Event -> bool)
    requires |v.cs| == |v.bs| && s < |v.cs| && InStep(v)
    ensures InStep(Turns(v, s, n, accepts)) && TicketsKept(v, Turns(v, s, n, accepts))
    decreases n
  {
    hide InStep, Turn;
    if n > 0 {
      TurnKeepsJoint(v, s, accepts);
      TurnKeepsTickets(v, s, accepts);
      TurnsKeepJoint(Turn(v, s, accepts), NextIn(s, |v.cs|), n - 1, accepts);
    }
  }

  /** Whether a slot is among the next few, going round. */
  ghost predicate Visited(q: nat, s: nat, n: nat, length: nat)
  {
    s <= q < s + n || q + length < s + n
  }

  /** In one round no slot has a second turn, and no slot's turn depends on another's: the visited
      slots end as if each had had its turn alone, and the others as they were. */
  lemma {:induction false} TurnsAreIndependent(v: View, s: nat, n: nat, accepts: Event -> bool, q: nat)
    requires s < |v.cs| == |v.bs| && n <= |v.cs| && q < |v.cs|
    ensures var v' := Turns(v, s, n, accepts);
      var alone := if Visited(q, s, n, |v.cs|) then Turn(v, q, accepts) else v;
      v'.cs[q] == alone.cs[q] && v'.bs[q] == alone.bs[q]
    decreases n
  {
    if n > 0 {
      TurnsAreIndependent(Turn(v, s, accepts), NextIn(s, |v.cs|), n - 1, accepts, q);
    }
  }

  /** An acknowledgement moves a slot on and clears the flag of the finished work. */
  lemma AcknowledgeKeepsJoint(cs: seq<Slot>, bs: seq<BridgeSlot>, log: seq<Event>, s: nat, c: Slot, b: BridgeSlot)
    requires Joint(cs, bs, log) && s < |cs| && cs[s].occupied
    requires
      || (bs[s].prepareOut && c in {cs[s].(stage := Prepared), cs[s].(stage := Broken)} && b == bs[s].(prepareOut := false))
      || (bs[s].activateOut && b == bs[s].(activateOut := false)
          && (c == cs[s].(stage := Broken) || (c == cs[s].(stage := Active) && !cs[s].cancelled) || c == cs[s].(cancelled := true)))
      || (bs[s].retireOut && c == Released(cs[s]) && b == UNUSED)
    ensures Joint(cs[s := c], bs[s := b], log)
  {
    assert SlotAgrees(s, cs[s], bs[s], log);
    OneSlotMoves(cs, bs, log, s, c, b);
  }

  ghost predicate Known(bs: seq<BridgeSlot>, t: Ticket)
  {
    t.slot < |bs| && t.generation != 0 && bs[t.slot].ticketGeneration == t.generation
  }

  /** The provider finished a preparation; an acknowledgement of anything else changes nothing. */
  ghost function AfterPrepared(v: View, t: Ticket, succeeded: bool): View
    requires |v.cs| == |v.bs|
  {
    if !Known(v.bs, t) || !v.bs[t.slot].prepareOut then v
    else v.(cs := v.cs[t.slot := v.cs[t.slot].(stage := if succeeded then Prepared else Broken)],
            bs := v.bs[t.slot := v.bs[t.slot].(prepareOut := false)])
  }

  /** The slot after a finished activation: active if that is still wanted, otherwise marked so
      that only retirement follows. */
  ghost function Activated(c: Slot, succeeded: bool): Slot
  {
    if !succeeded then c.(stage := Broken)
    else if c.demand.target != ToActive || c.cancelled then c.(cancelled := true)
    else c.(stage := Active)
  }

  ghost function AfterActivated(v: View, t: Ticket, succeeded: bool): View
    requires |v.cs| == |v.bs|
  {
    if !Known(v.bs, t) || !v.bs[t.slot].activateOut then v
    else v.(cs := v.cs[t.slot := Activated(v.cs[t.slot], succeeded)], bs := v.bs[t.slot := v.bs[t.slot].(activateOut := false)])
  }

  /** The provider finished a retirement: the slot is free, and its ticket is spent. */
  ghost function AfterRetired(v: View, t: Ticket): View
    requires |v.cs| == |v.bs|
  {
    if !Known(v.bs, t) || !v.bs[t.slot].retireOut then v
    else v.(cs := v.cs[t.slot := Released(v.cs[t.slot])], bs := v.bs[t.slot := UNUSED])
  }

  class Bridge {
    const coordinator: Coordinator
    const slots: array<BridgeSlot>
    var nextSlot: nat
    /** Everything the provider has accepted so far. */
    ghost var log: seq<Event>

    ghost predicate Valid()
      reads this, slots, coordinator, coordinator.slots
      ensures Valid() ==> coordinator.Valid() && Joint(coordinator.slots[..], slots[..], log)
    {
      && coordinator.Valid() && nextSlot < slots.Length == coordinator.slots.Length
      && Joint(coordinator.slots[..], slots[..], log)
    }

    /** A bridge starts over a coordinator that has no work under way; queued demand is fine. */
    constructor (coordinator: Coordinator)
      requires coordinator.Valid() && coordinator.slots.Length > 0
      requires forall s :: 0 <= s < coordinator.slots.Length && coordinator.slots[s].occupied ==> coordinator.slots[s].stage == Queued
      ensures Valid() && log == [] && this.coordinator == coordinator && fresh(slots)
    {
      this.coordinator := coordinator;
      slots := new BridgeSlot[coordinator.slots.Length](i => UNUSED);
      nextSlot, log := 0, [];
    }

    ghost function Now(): View
      reads this, slots, coordinator, coordinator.slots
    {
      View(coordinator.slots[..], slots[..], log)
    }

    /** Offer one piece of work; the provider may refuse it, and then nothing changes. */
    method Offer(s: nat, work: Work, accepts: Event -> bool)
      requires coordinator.Valid() && s < slots.Length == coordinator.slots.Length && coordinator.slots[s].occupied
      requires work == Prepare ==> coordinator.slots[s].stage == Queued
      requires work == Retire ==> Allowed(coordinator.slots[s], Retiring)
      modifies this`log, slots, coordinator`occupied, coordinator.slots
      ensures coordinator.Valid()
      ensures var c := old(coordinator.slots[s]);
        Now() == if accepts(Accepted(work, Ticket(s, c.generation)))
                 then View(old(coordinator.slots[..])[s := StageAfter(work, c)], old(slots[..])[s := FlagsAfter(work, old(slots[s]))],
                           old(log) + [Accepted(work, Ticket(s, c.generation))])
                 else old(Now())
    {
      var c := coordinator.slots[s];
      var t := Ticket(s, c.generation);
      if accepts(Accepted(work, t)) {
        match work {
          case Prepare =>
            var result := coordinator.Advance(t, Preparing);
            slots[s] := slots[s].(prepareOut := true);
          case CancelPrepare => slots[s] := slots[s].(cancelSent := true);
          case Activate => slots[s] := slots[s].(activateOut := true);
          case Retire =>
            var result := coordinator.Advance(t, Retiring);
            slots[s] := slots[s].(retireOut := true);
        }
        log := log + [Accepted(work, t)];
      }
    }

    /** Retirement waits for everything else that is outstanding. */
    method BeginRetirement(s: nat, accepts: Event -> bool)
      requires coordinator.Valid() && s < slots.Length == coordinator.slots.Length && coordinator.slots[s].occupied
      requires Allowed(coordinator.slots[s], Retiring)
      modifies this`log, slots, coordinator`occupied, coordinator.slots
      ensures coordinator.Valid()
      ensures var c := old(coordinator.slots[s]);
        Now() == if RetireWhenIdle(old(slots[s])).Some? && accepts(Accepted(Retire, Ticket(s, c.generation)))
                 then View(old(coordinator.slots[..])[s := StageAfter(Retire, c)], old(slots[..])[s := FlagsAfter(Retire, old(slots[s]))],
                           old(log) + [Accepted(Retire, Ticket(s, c.generation))])
                 else old(Now())
    {
      if slots[s].activateOut || slots[s].prepareOut {
        return;
      }
      Offer(s, Retire, accepts);
    }

    /** Offer the provider what the stage of an occupied slot calls for. */
    method Dispatch(s: nat, accepts: Event -> bool)
      requires coordinator.Valid() && s < slots.Length == coordinator.slots.Length && coordinator.slots[s].occupied
      requires slots[s].ticketGeneration == coordinator.slots[s].generation
      modifies this`log, slots, coordinator`occupied, coordinator.slots
      ensures coordinator.Valid() && Now() == Turn(old(Now()), s, accepts)
    {
      var c := coordinator.slots[s];
      assert slots[..][s := slots[s]] == slots[..];
      if c.stage == Queued {
        Offer(s, Prepare, accepts);
      } else if c.stage == Preparing {
        if c.cancelled && !slots[s].cancelSent {
          Offer(s, CancelPrepare, accepts);
        }
      } else if c.stage == Prepared {
        if c.cancelled {
          BeginRetirement(s, accepts);
        } else if c.demand.target == ToActive && !slots[s].activateOut {
          Offer(s, Activate, accepts);
        }
      } else if (c.stage == Active && c.cancelled) || c.stage == Broken {
        BeginRetirement(s, accepts);
      }
    }

    /** Give one occupied slot its turn. The source also returns here when an earlier ticket's work
        is still outstanding under a new one; that state cannot be reached. */
    method ProcessSlot(s: nat, accepts: Event -> bool)
      requires Valid() && s < slots.Length && coordinator.slots[s].occupied
      modifies this`log, slots, coordinator`occupied, coordinator.slots
      ensures Valid() && Now() == Turn(old(Now()), s, accepts)
    {
      hide Joint, SlotsOk;
      TurnKeepsJoint(Now(), s, accepts);
      MatchingKeepsJoint(Now(), s);
      ghost var before := Now();
      if slots[s].ticketGeneration != coordinator.slots[s].generation {
        assert !Outstanding(slots[s]);
        slots[s] := BridgeSlot(coordinator.slots[s].generation, false, false, false, false);
      }
      assert Now() == before.(bs := before.bs[s := Matched(before.cs[s], before.bs[s])]);
      Dispatch(s, accepts);
      assert Now() == Turn(before, s, accepts);
    }

    /** Visit the next slots in turn, each at most once. */
    method Pump(maximumSlots: nat, accepts: Event -> bool) returns (result: StreamingResult)
      requires Valid()
      modifies this`log, this`nextSlot, slots, coordinator`occupied, coordinator.slots
      ensures Valid() && result == if maximumSlots == 0 then InvalidArgument else Ok
      ensures var visits := if maximumSlots < slots.Length then maximumSlots else slots.Length;
        && Now() == Turns(old(Now()), old(nextSlot), visits, accepts)
        && nextSlot == if old(nextSlot) + visits < slots.Length then old(nextSlot) + visits else old(nextSlot) + visits - slots.Length
    {
      if maximumSlots == 0 {
        return InvalidArgument;
      }
      var visits := if maximumSlots < slots.Length then maximumSlots else slots.Length;
      VisitSome(visits, accepts);
      return Ok;
    }

    method VisitSome(visits: nat, accepts: Event -> bool)
      requires Valid() && visits <= slots.Length
      modifies this`log, this`nextSlot, slots, coordinator`occupied, coordinator.slots
      ensures Valid() && Now() == Turns(old(Now()), old(nextSlot), visits, accepts)
      ensures nextSlot == if old(nextSlot) + visits < slots.Length then old(nextSlot) + visits else old(nextSlot) + visits - slots.Length
    {
      ghost var before, first := Now(), nextSlot;
      hide Joint, Turn, Turns, Coordinator.Valid;
      for visit := 0 to visits
        invariant Valid()
        invariant Turns(Now(), nextSlot, visits - visit, accepts) == Turns(before, first, visits, accepts)
        invariant nextSlot == if first + visit < slots.Length then first + visit else first + visit - slots.Length
      {
        OneMoreTurn(Now(), nextSlot, visits - visit, accepts);
        VisitNext(accepts);
      }
      OneMoreTurn(Now(), nextSlot, 0, accepts);
    }

    /** Move the cursor on; a free slot is passed over. */
    method VisitNext(accepts: Event -> bool)
      requires Valid()
      modifies this`log, this`nextSlot, slots, coordinator`occupied, coordinator.slots
      ensures Valid() && Now() == Turn(old(Now()), old(nextSlot), accepts)
      ensures nextSlot == NextIn(old(nextSlot), slots.Length)
    {
      hide Joint;
      var s := nextSlot;
      nextSlot := if nextSlot + 1 == slots.Length then 0 else nextSlot + 1;
      if coordinator.slots[s].occupied {
        ProcessSlot(s, accepts);
      }
    }

    method HasValidEntry(t: Ticket) returns (ok: bool)
      ensures ok == Known(slots[..], t)
    {
      return t.slot < slots.Length && slots[t.slot].ticketGeneration == t.generation && t.generation != 0;
    }

    /** The provider finished a preparation. */
    method AcknowledgePrepared(t: Ticket, succeeded: bool) returns (result: StreamingResult)
      requires Valid()
      modifies slots, coordinator`occupied, coordinator.slots
      ensures Valid() && Now() == AfterPrepared(old(Now()), t, succeeded)
      ensures result == if !Known(old(slots[..]), t) then StaleTicket else if !old(slots[t.slot]).prepareOut then InvalidTransition else Ok
    {
      hide Joint, SlotsOk;
      var known := HasValidEntry(t);
      if !known {
        return StaleTicket;
      }
      if !slots[t.slot].prepareOut {
        return InvalidTransition;
      }
      StagesTellOutstandingWork(coordinator.slots[..], slots[..], log, t.slot);
      OutstandingIsOccupied(t.slot);
      var next := if succeeded then Prepared else Broken;
      AcknowledgeKeepsJoint(coordinator.slots[..], slots[..], log, t.slot, coordinator.slots[t.slot].(stage := next),
                            slots[t.slot].(prepareOut := false));
      var moved := coordinator.Advance(t, next);
      slots[t.slot] := slots[t.slot].(prepareOut := false);
      return Ok;
    }

    lemma OutstandingIsOccupied(s: nat)
      requires Valid() && s < slots.Length && Outstanding(slots[s])
      ensures coordinator.slots[s].occupied && slots[s].ticketGeneration == coordinator.slots[s].generation
    {
      assert SlotAgrees(s, coordinator.slots[s], slots[s], log);
    }

    /** The provider finished an activation. */
    method AcknowledgeActivated(t: Ticket, succeeded: bool) returns (result: StreamingResult)
      requires Valid()
      modifies slots, coordinator`occupied, coordinator.slots
      ensures Valid() && Now() == AfterActivated(old(Now()), t, succeeded)
      ensures result == if !Known(old(slots[..]), t) then StaleTicket else if !old(slots[t.slot]).activateOut then InvalidTransition else Ok
    {
      hide Joint, SlotsOk;
      var known := HasValidEntry(t);
      if !known {
        return StaleTicket;
      }
      if !slots[t.slot].activateOut {
        return InvalidTransition;
      }
      StagesTellOutstandingWork(coordinator.slots[..], slots[..], log, t.slot);
      OutstandingIsOccupied(t.slot);
      var c := coordinator.slots[t.slot];
      AcknowledgeKeepsJoint(coordinator.slots[..], slots[..], log, t.slot, Activated(c, succeeded), slots[t.slot].(activateOut := false));
      assert coordinator.slots[..][t.slot := c] == coordinator.slots[..];
      if succeeded && c.demand.target != ToActive {
        var cancelled := coordinator.Cancel(t);
      } else if !(succeeded && c.cancelled) {
        var moved := coordinator.Advance(t, if succeeded then Active else Broken);
      }
      slots[t.slot] := slots[t.slot].(activateOut := false);
      return Ok;
    }

    /** The provider finished a retirement: the slot is free, and its ticket is spent. */
    method AcknowledgeRetired(t: Ticket) returns (result: StreamingResult)
      requires Valid()
      modifies slots, coordinator`occupied, coordinator.slots
      ensures Valid() && Now() == AfterRetired(old(Now()), t)
      ensures result == if !Known(old(slots[..]), t) then StaleTicket else if !old(slots[t.slot]).retireOut then InvalidTransition else Ok
    {
      hide Joint, SlotsOk;
      var known := HasValidEntry(t);
      if !known {
        return StaleTicket;
      }
      if !slots[t.slot].retireOut {
        return InvalidTransition;
      }
      StagesTellOutstandingWork(coordinator.slots[..], slots[..], log, t.slot);
      OutstandingIsOccupied(t.slot);
      AcknowledgeKeepsJoint(coordinator.slots[..], slots[..], log, t.slot, Released(coordinator.slots[t.slot]), UNUSED);
      var freed := coordinator.Advance(t, Empty);
      slots[t.slot] := UNUSED;
      return Ok;
    }
  }
}
