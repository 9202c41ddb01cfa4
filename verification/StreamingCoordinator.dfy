/** The streaming coordinator: demand slots with generation-checked tickets and a stage machine. */
module StreamingCoordinator {
  const UINT32_MAX: nat := 0xFFFF_FFFF

  /** A raw unit kind past the last enumerator is refused. */
  const UNIT_COUNT: nat := 8

  datatype UnitKey = UnitKey(containerId: nat, unitId: nat, manifestGeneration: nat, variant: nat, kind: nat)

  /** OutOfRange stands for a raw target that is neither of the two. */
  datatype Target = ToPrepared | ToActive | OutOfRange

  datatype Demand = Demand(key: UnitKey, consumerId: nat, consumerGeneration: nat, epoch: nat, target: Target, priority: nat)

  datatype Stage = Empty | Queued | Preparing | Prepared | Active | Retiring | Broken

  datatype Ticket = Ticket(slot: nat, generation: nat)

  datatype StreamingResult =
    | Ok
    | InvalidArgument
    | NotReady
    | OutOfCapacity
    | Duplicate
    | StaleTicket
    | InvalidTransition
    | Busy

  datatype Slot = Slot(demand: Demand, generation: nat, stage: Stage, occupied: bool, cancelled: bool)

  const NO_DEMAND: Demand := Demand(UnitKey(0, 0, 0, 0, 0), 0, 0, 0, OutOfRange, 0)

  ghost predicate DemandOk(d: Demand)
  {
    && d.key.unitId != 0 && d.key.manifestGeneration != 0 && d.key.kind < UNIT_COUNT
    && d.consumerId != 0 && d.consumerGeneration != 0 && d.epoch != 0
    && !d.target.OutOfRange?
  }

  /** The same unit for the same consumer identity. */
  ghost predicate SameRequest(a: Demand, b: Demand)
  {
    a.consumerId == b.consumerId && a.consumerGeneration == b.consumerGeneration && a.key == b.key
  }

  /** The slot after its ticket has been given up. A saturated generation stays saturated. */
  ghost function Released(s: Slot): Slot
  {
    Slot(NO_DEMAND, if s.generation != UINT32_MAX then s.generation + 1 else s.generation, Empty, false, false)
  }

  /** The moves of the stage machine. */
  ghost predicate Allowed(s: Slot, next: Stage)
  {
    || (s.stage == Queued && next == Preparing)
    || (s.stage == Preparing && (next == Prepared || next == Broken))
    || (s.stage == Prepared && next == Broken)
    || (s.stage == Prepared && next == Active && s.demand.target == ToActive && !s.cancelled)
    || ((s.stage == Prepared || s.stage == Active || s.stage == Broken) && next == Retiring)
    || (s.stage == Retiring && next == Empty)
  }

  ghost function Moved(s: Slot, next: Stage): Slot
  {
    if next == Empty then Released(s) else s.(stage := next)
  }

  ghost function Cancelled(s: Slot): Slot
  {
    if s.stage == Queued then Released(s) else s.(cancelled := true)
  }

  ghost predicate SlotOk(s: Slot)
  {
    && 0 < s.generation <= UINT32_MAX
    && (if s.occupied then s.stage != Empty && s.generation < UINT32_MAX && DemandOk(s.demand)
        else s.stage == Empty && !s.cancelled)
    && (s.stage == Queued ==> !s.cancelled)
  }

  /** Slots are well formed, no two hold the same request, and no ticket handed out so far can be
      handed out again: its generation is past, or its slot still holds it. */
  ghost predicate SlotsOk(slots: seq<Slot>, issued: set<Ticket>)
  {
    && (forall s :: 0 <= s < |slots| ==> SlotOk(slots[s]))
    && (forall a, b :: 0 <= a < b < |slots| && slots[a].occupied && slots[b].occupied ==>
          !SameRequest(slots[a].demand, slots[b].demand))
    && (forall t :: t in issued ==>
          t.slot < |slots| && (t.generation < slots[t.slot].generation || (t.generation == slots[t.slot].generation && slots[t.slot].occupied)))
  }

  ghost predicate Current(slots: seq<Slot>, t: Ticket)
  {
    t.slot < |slots| && t.generation != 0 && slots[t.slot].occupied && slots[t.slot].generation == t.generation
  }

  ghost function Occupied(slots: seq<Slot>): (n: nat)
    ensures n <= |slots|
  {
    if slots == [] then 0 else Occupied(slots[..|slots| - 1]) + if slots[|slots| - 1].occupied then 1 else 0
  }

  lemma {:induction false} OccupiedChange(slots: seq<Slot>, s: nat, slot: Slot)
    requires s < |slots|
    ensures Occupied(slots[s := slot]) + (if slots[s].occupied then 1 else 0) == Occupied(slots) + (if slot.occupied then 1 else 0)
  {
    var last := |slots| - 1;
    if s < last {
      OccupiedChange(slots[..last], s, slot);
      assert slots[s := slot][..last] == slots[..last][s := slot];
    } else {
      assert slots[s := slot][..last] == slots[..last];
    }
  }

  lemma {:induction false} OccupiedNone(slots: seq<Slot>)
    requires forall s :: 0 <= s < |slots| ==> !slots[s].occupied
    ensures Occupied(slots) == 0
  {
    if slots != [] {
      OccupiedNone(slots[..|slots| - 1]);
    }
  }

  /** The first slot that can take a demand. */
  ghost predicate FirstFree(slots: seq<Slot>, s: nat)
  {
    && s < |slots| && !slots[s].occupied && slots[s].generation != UINT32_MAX
    && forall i :: 0 <= i < s ==> slots[i].occupied || slots[i].generation == UINT32_MAX
  }

  ghost predicate Full(slots: seq<Slot>)
  {
    forall i :: 0 <= i < |slots| ==> slots[i].occupied || slots[i].generation == UINT32_MAX
  }

  // ---------------------------------------------------------------- what clients ask for

  /** The calls of the coordinator's clients. Stages are advanced by the bridge alone. */
  datatype Call = Submitting(slot: nat, demand: Demand) | Refreshing(ticket: Ticket, demand: Demand) | Cancelling(ticket: Ticket)

  ghost predicate CanSubmit(slots: seq<Slot>, s: nat, d: Demand)
  {
    && DemandOk(d) && FirstFree(slots, s)
    && forall i :: 0 <= i < |slots| && slots[i].occupied ==> !SameRequest(slots[i].demand, d)
  }

  /** A refresh can neither revive a cancelled demand, nor demote an active one, nor go back in epochs. */
  ghost predicate CanRefresh(slots: seq<Slot>, t: Ticket, d: Demand)
  {
    Current(slots, t) &&
      var s := slots[t.slot];
      && DemandOk(d) && SameRequest(s.demand, d) && s.demand.epoch <= d.epoch
      && !s.cancelled && s.stage != Retiring && (s.stage == Active ==> d.target == ToActive)
  }

  /** The slots after a call; one that is refused changes nothing. */
  ghost function AfterCall(slots: seq<Slot>, call: Call): (slots': seq<Slot>)
    ensures |slots'| == |slots|
  {
    match call
    case Submitting(s, d) =>
      if CanSubmit(slots, s, d) then slots[s := Slot(d, slots[s].generation, Queued, true, false)] else slots
    case Refreshing(t, d) => if CanRefresh(slots, t, d) then slots[t.slot := slots[t.slot].(demand := d)] else slots
    case Cancelling(t) => if Current(slots, t) then slots[t.slot := Cancelled(slots[t.slot])] else slots
  }

  /** The tickets handed out after a call. */
  ghost function IssuedAfter(slots: seq<Slot>, issued: set<Ticket>, call: Call): (issued': set<Ticket>)
    ensures issued <= issued'
  {
    if call.Submitting? && CanSubmit(slots, call.slot, call.demand)
    then issued + {Ticket(call.slot, slots[call.slot].generation)} else issued
  }

  /** The slots, and every ticket handed out so far. */
  datatype Book = Book(slots: seq<Slot>, issued: set<Ticket>)

  ghost function AfterCalls(b: Book, calls: seq<Call>): (b': Book)
    ensures |b'.slots| == |b.slots|
  {
    if calls == [] then b else
      var before := AfterCalls(b, calls[..|calls| - 1]);
      Book(AfterCall(before.slots, calls[|calls| - 1]), IssuedAfter(before.slots, before.issued, calls[|calls| - 1]))
  }

  lemma CallKeepsSlotsOk(slots: seq<Slot>, issued: set<Ticket>, call: Call)
    requires SlotsOk(slots, issued)
    ensures SlotsOk(AfterCall(slots, call), IssuedAfter(slots, issued, call))
  {
  }

  class Coordinator {
    const slots: array<Slot>
    var occupied: nat
    /** Every ticket ever handed out. */
    ghost var issued: set<Ticket>

    ghost predicate Valid()
      reads this, slots
      ensures Valid() ==> SlotsOk(slots[..], issued)
    {
      SlotsOk(slots[..], issued) && occupied == Occupied(slots[..])
    }

    constructor (capacity: nat)
      requires capacity > 0
      ensures Valid() && fresh(slots) && slots.Length == capacity && issued == {} && occupied == 0
      ensures forall s :: 0 <= s < capacity ==> !slots[s].occupied
    {
      slots := new Slot[capacity](i => Slot(NO_DEMAND, 1, Empty, false, false));
      occupied, issued := 0, {};
      new;
      OccupiedNone(slots[..]);
    }

    method IsValid(t: Ticket) returns (ok: bool)
      ensures ok == Current(slots[..], t)
    {
      if t.slot >= slots.Length || t.generation == 0 {
        return false;
      }
      return slots[t.slot].occupied && slots[t.slot].generation == t.generation;
    }

    method CheckDemand(d: Demand) returns (ok: bool)
      ensures ok == DemandOk(d)
    {
      var unitValid := d.key.unitId != 0 && d.key.manifestGeneration != 0 && d.key.kind < UNIT_COUNT;
      var consumerValid := d.consumerId != 0 && d.consumerGeneration != 0 && d.epoch != 0;
      var targetValid := d.target == ToPrepared || d.target == ToActive;
      return unitValid && consumerValid && targetValid;
    }

    method CheckRequest(a: Demand, b: Demand) returns (same: bool)
      ensures same == SameRequest(a, b)
    {
      var sameUnit := a.key.containerId == b.key.containerId && a.key.unitId == b.key.unitId
                      && a.key.manifestGeneration == b.key.manifestGeneration && a.key.variant == b.key.variant && a.key.kind == b.key.kind;
      return a.consumerId == b.consumerId && a.consumerGeneration == b.consumerGeneration && sameUnit;
    }

    method FindRequest(d: Demand) returns (found: bool)
      ensures found <==> exists s :: 0 <= s < slots.Length && slots[s].occupied && SameRequest(slots[s].demand, d)
    {
      for s := 0 to slots.Length
        invariant forall i :: 0 <= i < s && slots[i].occupied ==> !SameRequest(slots[i].demand, d)
      {
        if slots[s].occupied {
          var same := CheckRequest(slots[s].demand, d);
          if same {
            return true;
          }
        }
      }
      return false;
    }

    /** Take a slot for a demand. The ticket has never been handed out before. */
    method Submit(d: Demand) returns (result: StreamingResult, ticket: Ticket)
      requires Valid()
      modifies this, slots
      ensures Valid()
      ensures result == if !DemandOk(d) then InvalidArgument
                        else if exists s :: 0 <= s < slots.Length && old(slots[s]).occupied && SameRequest(old(slots[s]).demand, d) then Duplicate
                        else if Full(old(slots[..])) then OutOfCapacity else Ok
      ensures result != Ok ==> slots[..] == old(slots[..]) && issued == old(issued)
      ensures result == Ok ==>
        && FirstFree(old(slots[..]), ticket.slot) && ticket.generation == old(slots[ticket.slot]).generation
        && slots[..] == old(slots[..])[ticket.slot := Slot(d, ticket.generation, Queued, true, false)]
        && ticket !in old(issued) && issued == old(issued) + {ticket}
      ensures result != Ok ==> forall s :: !CanSubmit(old(slots[..]), s, d)
      ensures result == Ok ==>
        && slots[..] == AfterCall(old(slots[..]), Submitting(ticket.slot, d))
        && issued == IssuedAfter(old(slots[..]), old(issued), Submitting(ticket.slot, d))
    {
      ticket := Ticket(0, 0);
      var ok := CheckDemand(d);
      if !ok {
        return InvalidArgument, ticket;
      }
      var duplicate := FindRequest(d);
      if duplicate {
        return Duplicate, ticket;
      }
      for s: nat := 0 to slots.Length
        invariant forall i :: 0 <= i < s ==> slots[i].occupied || slots[i].generation == UINT32_MAX
      {
        if !slots[s].occupied && slots[s].generation != UINT32_MAX {
          ticket := Ticket(s, slots[s].generation);
          Occupy(s, d);
          return Ok, ticket;
        }
      }
      return OutOfCapacity, ticket;
    }

    method Occupy(s: nat, d: Demand)
      requires Valid() && s < slots.Length && !slots[s].occupied && slots[s].generation != UINT32_MAX && DemandOk(d)
      requires forall i :: 0 <= i < slots.Length && slots[i].occupied ==> !SameRequest(slots[i].demand, d)
      modifies this, slots
      ensures Valid() && slots[..] == old(slots[..])[s := Slot(d, old(slots[s]).generation, Queued, true, false)]
      ensures Ticket(s, old(slots[s]).generation) !in old(issued)
      ensures issued == old(issued) + {Ticket(s, old(slots[s]).generation)}
    {
      OccupiedChange(slots[..], s, Slot(d, slots[s].generation, Queued, true, false));
      issued := issued + {Ticket(s, slots[s].generation)};
      slots[s] := Slot(d, slots[s].generation, Queued, true, false);
      occupied := occupied + 1;
    }

    /** Change one slot without touching who occupies what. */
    method Put(s: nat, slot: Slot)
      requires Valid() && s < slots.Length && slots[s].occupied && SlotOk(slot)
      requires slot.occupied && slot.generation == slots[s].generation && SameRequest(slot.demand, slots[s].demand)
      modifies slots
      ensures Valid() && slots[..] == old(slots[..])[s := slot]
    {
      OccupiedChange(slots[..], s, slot);
      slots[s] := slot;
    }

    /** Give a slot up. Saturated generations are never used again rather than wrapping. */
    method ReleaseSlot(s: nat)
      requires Valid() && s < slots.Length && slots[s].occupied
      modifies this`occupied, slots
      ensures Valid() && slots[..] == old(slots[..])[s := Released(old(slots[s]))]
    {
      OccupiedChange(slots[..], s, Released(slots[s]));
      var generation := slots[s].generation;
      slots[s] := Slot(NO_DEMAND, if generation != UINT32_MAX then generation + 1 else generation, Empty, false, false);
      occupied := occupied - 1;
    }

    /** Refresh a demand. It can neither revive a cancelled one nor demote an active one. */
    method UpdateDemand(t: Ticket, d: Demand) returns (result: StreamingResult)
      requires Valid()
      modifies this`occupied, slots
      ensures Valid()
      ensures result == if !Current(old(slots[..]), t) then StaleTicket
                        else var s := old(slots[t.slot]);
                          if !DemandOk(d) || !SameRequest(s.demand, d) || d.epoch < s.demand.epoch then InvalidArgument
                          else if s.cancelled || s.stage == Retiring || (s.stage == Active && d.target != ToActive) then Busy else Ok
      ensures slots[..] == if result == Ok then old(slots[..])[t.slot := old(slots[t.slot]).(demand := d)] else old(slots[..])
      ensures slots[..] == AfterCall(old(slots[..]), Refreshing(t, d))
    {
      var valid := IsValid(t);
      if !valid {
        return StaleTicket;
      }
      var s := slots[t.slot];
      var ok := CheckDemand(d);
      if !ok {
        return InvalidArgument;
      }
      var same := CheckRequest(s.demand, d);
      if !same || d.epoch < s.demand.epoch {
        return InvalidArgument;
      }
      if s.cancelled || s.stage == Retiring || (s.stage == Active && d.target != ToActive) {
        return Busy;
      }
      Put(t.slot, s.(demand := d));
      return Ok;
    }

    method Advance(t: Ticket, next: Stage) returns (result: StreamingResult)
      requires Valid()
      modifies this`occupied, slots
      ensures Valid()
      ensures result == if !Current(old(slots[..]), t) then StaleTicket
                        else if Allowed(old(slots[t.slot]), next) then Ok else InvalidTransition
      ensures slots[..] == if result == Ok then old(slots[..])[t.slot := Moved(old(slots[t.slot]), next)] else old(slots[..])
    {
      var valid := IsValid(t);
      if !valid {
        return StaleTicket;
      }
      var s := slots[t.slot];
      var current := s.stage;
      var targetActive := s.demand.target == ToActive && !s.cancelled;
      var releasable := current == Prepared || current == Active || current == Broken;
      if (current == Queued && next == Preparing)
        || (current == Preparing && next == Prepared)
        || (current == Preparing && next == Broken)
        || (current == Prepared && next == Broken)
        || (current == Prepared && next == Active && targetActive)
        || (releasable && next == Retiring) {
        Put(t.slot, s.(stage := next));
        return Ok;
      }
      if current == Retiring && next == Empty {
        ReleaseSlot(t.slot);
        return Ok;
      }
      return InvalidTransition;
    }

    /** Queued demand is given up at once; running work is only marked, its owner must finish it. */
    method Cancel(t: Ticket) returns (result: StreamingResult)
      requires Valid()
      modifies this`occupied, slots
      ensures Valid() && result == if Current(old(slots[..]), t) then Ok else StaleTicket
      ensures slots[..] == if result == Ok then old(slots[..])[t.slot := Cancelled(old(slots[t.slot]))] else old(slots[..])
      ensures slots[..] == AfterCall(old(slots[..]), Cancelling(t))
    {
      var valid := IsValid(t);
      if !valid {
        return StaleTicket;
      }
      if slots[t.slot].stage == Queued {
        ReleaseSlot(t.slot);
        return Ok;
      }
      Put(t.slot, slots[t.slot].(cancelled := true));
      return Ok;
    }
  }
}
