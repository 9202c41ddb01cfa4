/** Native representations of graph resources: each pins its source record, and its native side is
    released once, after every lane it waits for has caught up. */
module DerivedRegistry {
  import opened Wrappers
  import ResourceTypes

  const MAX_LANES: nat := 4
  const MEMORY_SPACES: nat := 3

  type Lanes = values: seq<nat> | |values| == 4 witness [0, 0, 0, 0]

  /** The mask is the set of lanes it names. */
  datatype CompletionSet = CompletionSet(providerId: nat, generation: nat, mask: set<nat>, laneCount: nat, values: Lanes)

  const NO_COMPLETION: CompletionSet := CompletionSet(0, 0, {}, 0, [0, 0, 0, 0])

  ghost predicate ValidSet(c: CompletionSet)
  {
    && c.providerId != 0 && c.generation != 0 && 0 < c.laneCount <= MAX_LANES && c.mask != {}
    && (forall lane :: lane in c.mask ==> lane < c.laneCount)
    && (forall lane :: 0 <= lane < MAX_LANES && lane !in c.mask ==> c.values[lane] == 0)
  }

  ghost predicate Satisfied(required: CompletionSet, observed: CompletionSet)
  {
    && ValidSet(required) && ValidSet(observed) && required.providerId == observed.providerId
    && required.generation == observed.generation && required.laneCount == observed.laneCount && required.mask <= observed.mask
    && forall lane :: 0 <= lane < required.laneCount && lane in required.mask ==> observed.values[lane] >= required.values[lane]
  }

  /** The checks as they are made, lane by lane. */
  method CheckSet(c: CompletionSet) returns (ok: bool)
    ensures ok == ValidSet(c)
  {
    if c.providerId == 0 || c.generation == 0 || c.laneCount == 0 || c.laneCount > MAX_LANES || c.mask == {} {
      return false;
    }
    if exists lane :: lane in c.mask && lane >= c.laneCount {
      return false;
    }
    for lane: nat := 0 to MAX_LANES
      invariant forall k :: 0 <= k < lane && k !in c.mask ==> c.values[k] == 0
    {
      if lane !in c.mask && c.values[lane] != 0 {
        return false;
      }
    }
    return true;
  }

  method CheckSatisfied(required: CompletionSet, observed: CompletionSet) returns (ok: bool)
    ensures ok == Satisfied(required, observed)
  {
    var first := CheckSet(required);
    var second := CheckSet(observed);
    if !first || !second || required.providerId != observed.providerId || required.generation != observed.generation
      || required.laneCount != observed.laneCount || !(required.mask <= observed.mask) {
      return false;
    }
    for lane: nat := 0 to required.laneCount
      invariant forall k :: 0 <= k < lane && k in required.mask ==> observed.values[k] >= required.values[k]
    {
      if lane in required.mask && observed.values[lane] < required.values[lane] {
        return false;
      }
    }
    return true;
  }

  datatype Provider = Provider(registered: bool, completed: CompletionSet)

  datatype SourceHandle = SourceHandle(slot: nat, generation: nat, typeId: nat, reserved: nat)

  datatype DerivedKey = DerivedKey(resource: SourceHandle, revision: nat, providerId: nat, representationId: nat, variantId: nat, reserved: nat)

  /** A raw memory space past the last one is refused. */
  datatype Registration = Registration(key: DerivedKey, token: nat, space: nat, committed: nat, resident: nat, sourceRevision: nat)

  datatype PinHandle = PinHandle(slot: nat, generation: nat)

  datatype Representation = Representation(
    registration: Registration, pin: PinHandle, retirement: CompletionSet, generation: nat, occupied: bool, retiring: bool)

  const NO_REGISTRATION: Registration := Registration(DerivedKey(SourceHandle(0, 0, 0, 0), 0, 0, 0, 0, 0), 0, 0, 0, 0, 0)

  ghost predicate SameSource(a: SourceHandle, b: SourceHandle)
  {
    a.slot == b.slot && a.generation == b.generation && a.typeId == b.typeId
  }

  ghost predicate SameKey(a: DerivedKey, b: DerivedKey)
  {
    SameSource(a.resource, b.resource) && a.revision == b.revision && a.providerId == b.providerId
    && a.representationId == b.representationId && a.variantId == b.variantId
  }

  /** The registration would count something twice. */
  ghost predicate Clashes(a: Registration, b: Registration)
  {
    SameKey(a.key, b.key) || (a.key.providerId == b.key.providerId && a.token == b.token)
  }

  /** A provider's native allocation must be counted once. */
  method CheckClash(a: Registration, b: Registration) returns (clash: bool)
    ensures clash == Clashes(a, b)
  {
    var same := a.key.resource.slot == b.key.resource.slot && a.key.resource.generation == b.key.resource.generation
                && a.key.resource.typeId == b.key.resource.typeId && a.key.revision == b.key.revision
                && a.key.providerId == b.key.providerId && a.key.representationId == b.key.representationId
                && a.key.variantId == b.key.variantId;
    return same || (a.key.providerId == b.key.providerId && a.token == b.token);
  }

  lemma DifferApart(reps: seq<Representation>, r: Registration)
    requires forall i :: 0 <= i < |reps| && reps[i].occupied ==> !Clashes(reps[i].registration, r)
    ensures forall i :: 0 <= i < |reps| && reps[i].occupied ==>
      reps[i].registration.key != r.key && (reps[i].registration.key.providerId == r.key.providerId ==> reps[i].registration.token != r.token)
  {
  }

  // ---------------------------------------------------------------- totals

  /** The totals the registry keeps. */
  datatype Measure = Tracked | CommittedIn(space: nat) | ResidentIn(space: nat) | LiveOnes | RetiringOnes

  function Weigh(r: Representation, m: Measure): (n: nat)
  {
    if !r.occupied then 0 else
      match m
      case Tracked => r.registration.committed
      case CommittedIn(space) => if r.registration.space == space then r.registration.committed else 0
      case ResidentIn(space) => if r.registration.space == space then r.registration.resident else 0
      case LiveOnes => 1
      case RetiringOnes => if r.retiring then 1 else 0
  }

  function Sum(reps: seq<Representation>, m: Measure): (n: nat)
  {
    if reps == [] then 0 else Sum(reps[..|reps| - 1], m) + Weigh(reps[|reps| - 1], m)
  }

  lemma {:induction false} SumChange(reps: seq<Representation>, i: nat, r: Representation, m: Measure)
    requires i < |reps|
    ensures Sum(reps[i := r], m) + Weigh(reps[i], m) == Sum(reps, m) + Weigh(r, m) && Weigh(reps[i], m) <= Sum(reps, m)
  {
    var last := |reps| - 1;
    if i < last {
      SumChange(reps[..last], i, r, m);
      assert reps[i := r][..last] == reps[..last][i := r];
    } else {
      assert reps[i := r][..last] == reps[..last];
    }
  }

  lemma {:induction false} SumNone(reps: seq<Representation>, m: Measure)
    requires forall i :: 0 <= i < |reps| ==> !reps[i].occupied
    ensures Sum(reps, m) == 0
  {
    if reps != [] {
      SumNone(reps[..|reps| - 1], m);
    }
  }

  /** All totals after one slot has changed. */
  lemma AllSumsChange(reps: seq<Representation>, i: nat, r: Representation)
    requires i < |reps|
    ensures forall m :: Sum(reps[i := r], m) + Weigh(reps[i], m) == Sum(reps, m) + Weigh(r, m) && Weigh(reps[i], m) <= Sum(reps, m)
  {
    forall m ensures Sum(reps[i := r], m) + Weigh(reps[i], m) == Sum(reps, m) + Weigh(r, m) && Weigh(reps[i], m) <= Sum(reps, m) {
      SumChange(reps, i, r, m);
    }
  }

  // ---------------------------------------------------------------- the graph's provider pins

  /** A pin slot names the pinned record while it is held. */
  datatype PinSlot = PinSlot(record: Option<nat>, generation: nat, providerId: nat)

  predicate Holds(slots: seq<PinSlot>, pin: PinHandle)
  {
    pin.slot < |slots| && slots[pin.slot].record.Some? && slots[pin.slot].generation == pin.generation
  }

  class PinTable {
    const slots: array<PinSlot>

    constructor (capacity: nat)
      ensures fresh(slots) && slots.Length == capacity && forall s :: 0 <= s < capacity ==> slots[s].record.None?
    {
      slots := new PinSlot[capacity](i => PinSlot(None, 0, 0));
    }

    /** Pin a record in the first free slot. */
    method Pin(record: nat, providerId: nat) returns (pin: Option<PinHandle>)
      modifies slots
      ensures pin.None? <==> forall s :: 0 <= s < slots.Length ==> old(slots[s]).record.Some?
      ensures pin.None? ==> slots[..] == old(slots[..])
      ensures pin.Some? ==>
        && pin.value.slot < slots.Length && old(slots[pin.value.slot]).record.None?
        && pin.value.generation == ResourceTypes.NextGeneration(old(slots[pin.value.slot]).generation)
        && slots[..] == old(slots[..])[pin.value.slot := PinSlot(Some(record), pin.value.generation, providerId)]
    {
      for s: nat := 0 to slots.Length
        invariant slots[..] == old(slots[..]) && forall i :: 0 <= i < s ==> slots[i].record.Some?
      {
        if slots[s].record.None? {
          slots[s] := PinSlot(Some(record), ResourceTypes.NextGeneration(slots[s].generation), providerId);
          return Some(PinHandle(s, slots[s].generation));
        }
      }
      return None;
    }

    method Release(pin: PinHandle) returns (released: bool)
      modifies slots
      ensures released == Holds(old(slots[..]), pin)
      ensures slots[..] == if released then old(slots[..])[pin.slot := PinSlot(None, pin.generation, 0)] else old(slots[..])
    {
      if pin.slot >= slots.Length || slots[pin.slot].record.None? || slots[pin.slot].generation != pin.generation {
        return false;
      }
      slots[pin.slot] := PinSlot(None, slots[pin.slot].generation, 0);
      return true;
    }
  }

  // ---------------------------------------------------------------- what the registry keeps

  /** Every representation holds a pin of its own, in its provider's name; no two count the same thing. */
  ghost predicate OwnPins(reps: seq<Representation>, pins: seq<PinSlot>)
  {
    && (forall i :: 0 <= i < |reps| && reps[i].occupied ==>
          Holds(pins, reps[i].pin) && pins[reps[i].pin.slot].providerId == reps[i].registration.key.providerId)
    && (forall i, j :: 0 <= i < j < |reps| && reps[i].occupied && reps[j].occupied ==> reps[i].pin.slot != reps[j].pin.slot)
  }

  ghost predicate Unclashing(reps: seq<Representation>)
  {
    forall i, j :: 0 <= i < j < |reps| && reps[i].occupied && reps[j].occupied ==> !Clashes(reps[i].registration, reps[j].registration)
  }

  ghost predicate RepsOk(reps: seq<Representation>)
  {
    forall i :: 0 <= i < |reps| && reps[i].occupied ==>
      && reps[i].registration.space < MEMORY_SPACES
      && (reps[i].retiring ==> ValidSet(reps[i].retirement) && reps[i].retirement.providerId == reps[i].registration.key.providerId)
  }

  /** Every registration has a serial number; the log lists those whose native side was released. */
  ghost predicate OnceReleased(reps: seq<Representation>, serials: seq<nat>, issued: nat, log: seq<nat>)
  {
    && |serials| == |reps|
    && (forall i, j :: 0 <= i < j < |log| ==> log[i] != log[j])
    && (forall n :: n in log ==> n < issued)
    && (forall i :: 0 <= i < |reps| && reps[i].occupied ==> serials[i] < issued && serials[i] !in log)
    && (forall i, j :: 0 <= i < j < |reps| && reps[i].occupied && reps[j].occupied ==> serials[i] != serials[j])
  }

  ghost predicate Sound(reps: seq<Representation>, pins: seq<PinSlot>, serials: seq<nat>, issued: nat, log: seq<nat>)
  {
    OwnPins(reps, pins) && Unclashing(reps) && RepsOk(reps) && OnceReleased(reps, serials, issued, log)
  }

  /** A representation that waits for its lanes, and whose lanes have arrived. */
  ghost predicate Due(r: Representation, completed: CompletionSet)
  {
    r.occupied && r.retiring && r.registration.key.providerId == completed.providerId && Satisfied(r.retirement, completed)
  }

  ghost function Freed(r: Representation): Representation
  {
    r.(occupied := false, retiring := false, generation := ResourceTypes.NextGeneration(r.generation))
  }

  lemma FreeingKeepsSound(reps: seq<Representation>, pins: seq<PinSlot>, serials: seq<nat>, issued: nat, log: seq<nat>, i: nat)
    requires Sound(reps, pins, serials, issued, log) && i < |reps| && reps[i].occupied
    ensures Holds(pins, reps[i].pin) && i < |serials| && reps[i].registration.space < MEMORY_SPACES
    ensures Sound(reps[i := Freed(reps[i])], pins[reps[i].pin.slot := PinSlot(None, reps[i].pin.generation, 0)], serials, issued, log + [serials[i]])
  {
  }

  lemma AddingKeepsSound(reps: seq<Representation>, pins: seq<PinSlot>, serials: seq<nat>, issued: nat, log: seq<nat>, i: nat,
                         r: Representation, slot: PinSlot)
    requires Sound(reps, pins, serials, issued, log) && i < |reps| && !reps[i].occupied && r.occupied && !r.retiring
    requires forall j :: 0 <= j < |reps| && reps[j].occupied ==> !Clashes(reps[j].registration, r.registration)
    requires r.registration.space < MEMORY_SPACES && r.pin.slot < |pins| && pins[r.pin.slot].record.None?
    requires slot.record.Some? && slot.generation == r.pin.generation && slot.providerId == r.registration.key.providerId
    ensures |serials| == |reps|
    ensures Sound(reps[i := r], pins[r.pin.slot := slot], serials[i := issued], issued + 1, log)
  {
  }

  /** The pin table is shared: a pin that somebody else takes is in a free slot, and not the registry's. */
  lemma OtherPinKeepsSound(reps: seq<Representation>, pins: seq<PinSlot>, serials: seq<nat>, issued: nat, log: seq<nat>, s: nat, slot: PinSlot)
    requires Sound(reps, pins, serials, issued, log) && s < |pins| && pins[s].record.None?
    ensures Sound(reps, pins[s := slot], serials, issued, log)
  {
  }

  /** Releasing a held pin keeps the registry sound if and only if no representation holds it. */
  lemma ReleaseKeepsSoundExactly(reps: seq<Representation>, pins: seq<PinSlot>, serials: seq<nat>, issued: nat, log: seq<nat>, pin: PinHandle)
    requires Sound(reps, pins, serials, issued, log) && Holds(pins, pin)
    ensures Sound(reps, pins[pin.slot := PinSlot(None, pin.generation, 0)], serials, issued, log)
      <==> forall i :: 0 <= i < |reps| && reps[i].occupied ==> reps[i].pin != pin
  {
    var after := pins[pin.slot := PinSlot(None, pin.generation, 0)];
    if i: nat :| i < |reps| && reps[i].occupied && reps[i].pin == pin {
      assert !Holds(after, reps[i].pin);
    } else {
      assert OwnPins(reps, after);
    }
  }

  ghost function AfterCollect(r: Representation, completed: CompletionSet, releases: nat -> bool): Representation
  {
    if Due(r, completed) && releases(r.registration.token) then Freed(r) else r
  }

  /** The first n slots have been looked at. */
  ghost predicate CollectedTo(were: seq<Representation>, n: nat, completed: CompletionSet, releases: nat -> bool, reps: seq<Representation>)
  {
    && n <= |were| == |reps|
    && forall i: nat :: i < |reps| ==> reps[i] == if i < n then AfterCollect(were[i], completed, releases) else were[i]
  }

  /** The serial numbers of the due slots among the first n whose native side was released. */
  ghost function ReleasedNow(were: seq<Representation>, serials: seq<nat>, n: nat, completed: CompletionSet, releases: nat -> bool): seq<nat>
    requires n <= |were| == |serials|
  {
    if n == 0 then [] else
      ReleasedNow(were, serials, n - 1, completed, releases)
      + (if Due(were[n - 1], completed) && releases(were[n - 1].registration.token) then [serials[n - 1]] else [])
  }

  ghost predicate SomeRefused(were: seq<Representation>, n: nat, completed: CompletionSet, releases: nat -> bool)
    requires n <= |were|
  {
    exists i :: 0 <= i < n && Due(were[i], completed) && !releases(were[i].registration.token)
  }

  lemma NothingCollected(were: seq<Representation>, serials: seq<nat>, completed: CompletionSet, releases: nat -> bool)
    requires |serials| == |were|
    ensures CollectedTo(were, 0, completed, releases, were) && ReleasedNow(were, serials, 0, completed, releases) == []
    ensures !SomeRefused(were, 0, completed, releases)
  {
  }

  lemma OneMoreCollected(were: seq<Representation>, serials: seq<nat>, i: nat, completed: CompletionSet, releases: nat -> bool,
                         reps: seq<Representation>)
    requires CollectedTo(were, i, completed, releases, reps) && i < |were| == |serials|
    ensures |reps| == |were| && reps[i] == were[i]
    ensures CollectedTo(were, i + 1, completed, releases, reps[i := AfterCollect(were[i], completed, releases)])
    ensures ReleasedNow(were, serials, i + 1, completed, releases) == ReleasedNow(were, serials, i, completed, releases)
      + if Due(were[i], completed) && releases(were[i].registration.token) then [serials[i]] else []
    ensures SomeRefused(were, i + 1, completed, releases)
      <==> SomeRefused(were, i, completed, releases) || (Due(were[i], completed) && !releases(were[i].registration.token))
  {
  }

  /** A collection frees exactly the retiring representations of the provider's present generation whose
      every named lane has reached its value and whose native side lets go; no other one changes. */
  lemma FreedExactly(were: seq<Representation>, completed: CompletionSet, releases: nat -> bool, reps: seq<Representation>, i: nat)
    requires RepsOk(were) && ValidSet(completed) && completed.mask == AllLanes(completed.laneCount)
    requires CollectedTo(were, |were|, completed, releases, reps) && i < |were|
    ensures reps[i] != were[i]
      <==> && were[i].occupied && were[i].retiring && were[i].registration.key.providerId == completed.providerId
           && were[i].retirement.generation == completed.generation && were[i].retirement.laneCount == completed.laneCount
           && (forall lane: nat :: lane < MAX_LANES && lane in were[i].retirement.mask ==>
                 completed.values[lane] >= were[i].retirement.values[lane])
           && releases(were[i].registration.token)
    ensures reps[i] != were[i] ==> !reps[i].occupied && !reps[i].retiring
  {
    var r := were[i];
    if r.occupied && r.retiring && r.retirement.laneCount == completed.laneCount {
      assert r.retirement.mask <= completed.mask;
    }
  }

  /** Nothing is registered, and all totals are zero. */
  lemma NothingIsSound(reps: seq<Representation>, pins: seq<PinSlot>, serials: seq<nat>)
    requires |serials| == |reps| && forall i :: 0 <= i < |reps| ==> !reps[i].occupied && !reps[i].retiring
    ensures Sound(reps, pins, serials, 0, []) && forall m :: Sum(reps, m) == 0
  {
    forall m ensures Sum(reps, m) == 0 {
      SumNone(reps, m);
    }
  }

  datatype DerivedResult = Success | InvalidArgument | InvalidHandle | OutOfBudget | Busy

  /** What a registration must look like on its own. */
  ghost predicate WellFormed(r: Registration)
  {
    && r.token != 0 && r.key.revision != 0 && r.key.representationId != 0 && r.key.reserved == 0 && r.key.resource.reserved == 0
    && r.space < MEMORY_SPACES && r.committed != 0 && r.resident <= r.committed && r.sourceRevision == r.key.revision
  }

  class Registry {
    const pins: PinTable
    const providers: array<Provider>
    const reps: array<Representation>
    const maxTracked: nat
    const committed: array<nat>
    const resident: array<nat>
    var tracked: nat
    var live: nat
    var pending: nat
    ghost var serials: seq<nat>
    ghost var issued: nat
    ghost var log: seq<nat>

    /** Every total is the sum over the occupied representations, within its limit. */
    ghost predicate Books()
      reads this, reps, committed, resident
    {
      && committed != resident && committed.Length == resident.Length == MEMORY_SPACES
      && tracked == Sum(reps[..], Tracked) && live == Sum(reps[..], LiveOnes) && pending == Sum(reps[..], RetiringOnes)
      && (forall s :: 0 <= s < MEMORY_SPACES ==> committed[s] == Sum(reps[..], CommittedIn(s)) && resident[s] == Sum(reps[..], ResidentIn(s)))
      && tracked <= maxTracked && (forall s :: 0 <= s < MEMORY_SPACES ==> committed[s] <= ResourceTypes.UINT64_MAX && resident[s] <= ResourceTypes.UINT64_MAX)
    }

    /** Providers have distinct identities and answer for all of their lanes. */
    ghost predicate ProvidersOk()
      reads this, providers
    {
      && (forall p :: 0 <= p < providers.Length && providers[p].registered ==>
            ValidSet(providers[p].completed) && providers[p].completed.mask == AllLanes(providers[p].completed.laneCount))
      && (forall p, q :: 0 <= p < q < providers.Length && providers[p].registered && providers[q].registered ==>
            providers[p].completed.providerId != providers[q].completed.providerId)
    }

    ghost predicate Kept()
      reads this, reps, pins.slots, committed, resident
    {
      Books() && Sound(reps[..], pins.slots[..], serials, issued, log)
    }

    ghost predicate Valid()
      reads this, reps, pins.slots, committed, resident, providers
    {
      Kept() && ProvidersOk()
    }

    constructor (pins: PinTable, maxProviders: nat, maxRepresentations: nat, maxTracked: nat)
      requires maxProviders > 0 && maxRepresentations > 0 && maxTracked > 0
      ensures this.Valid() && this.pins == pins && log == [] && tracked == 0 && this.maxTracked == maxTracked
      ensures fresh(reps) && fresh(providers) && fresh(committed) && fresh(resident)
      ensures reps.Length == maxRepresentations && providers.Length == maxProviders
    {
      hide Sum, Sound;
      this.pins, this.maxTracked := pins, maxTracked;
      providers := new Provider[maxProviders](i => Provider(false, NO_COMPLETION));
      reps := new Representation[maxRepresentations](i => Representation(NO_REGISTRATION, PinHandle(0, 0), NO_COMPLETION, 1, false, false));
      committed, resident := new nat[MEMORY_SPACES](i => 0), new nat[MEMORY_SPACES](i => 0);
      tracked, live, pending, issued, log := 0, 0, 0, 0, [];
      serials := seq(maxRepresentations, i => 0);
      new;
      NothingIsSound(reps[..], pins.slots[..], serials);
      assert Books();
      assert ProvidersOk();
    }

    method FindProvider(id: nat) returns (found: Option<nat>)
      ensures found.None? ==> forall p :: 0 <= p < providers.Length ==> !providers[p].registered || providers[p].completed.providerId != id
      ensures found.Some? ==> found.value < providers.Length && providers[found.value].registered && providers[found.value].completed.providerId == id
    {
      for p: nat := 0 to providers.Length
        invariant forall q :: 0 <= q < p ==> !providers[q].registered || providers[q].completed.providerId != id
      {
        if providers[p].registered && providers[p].completed.providerId == id {
          return Some(p);
        }
      }
      return None;
    }

    /** Free one due slot: its native side, its pin and its share of the totals. The native release has
        just succeeded; the pin is always held, so its release cannot fail either. */
    method FreeSlot(i: nat)
      requires Kept() && i < reps.Length && reps[i].occupied && reps[i].retiring
      modifies this`tracked, this`live, this`pending, this`log, reps, committed, resident, pins.slots
      ensures Kept() && reps[..] == old(reps[..])[i := Freed(old(reps[i]))] && log == old(log) + [serials[i]]
    {
      hide Sound, Sum, Freed;
      var r := reps[i];
      FreeingKeepsSound(reps[..], pins.slots[..], serials, issued, log, i);
      var released := pins.Release(r.pin);
      assert released;
      log := log + [serials[i]];
      Leave(i);
    }

    /** The totals count one representation less. */
    method Leave(i: nat)
      requires Books() && i < reps.Length && reps[i].occupied && reps[i].retiring && reps[i].registration.space < MEMORY_SPACES
      modifies this`tracked, this`live, this`pending, reps, committed, resident
      ensures Books() && reps[..] == old(reps[..])[i := Freed(old(reps[i]))]
    {
      var r := reps[i];
      AllSumsChange(reps[..], i, Freed(r));
      ghost var were := reps[..];
      var space := r.registration.space;
      committed[space] := committed[space] - r.registration.committed;
      resident[space] := resident[space] - r.registration.resident;
      tracked := tracked - r.registration.committed;
      live := live - 1;
      pending := pending - 1;
      reps[i] := r.(occupied := false, retiring := false, generation := ResourceTypes.NextGeneration(r.generation));
      assert reps[..] == were[i := Freed(r)];
    }

    /** Free every due slot of a provider, in slot order; one whose native side refuses stays. */
    method CollectProvider(p: nat, releases: nat -> bool) returns (result: DerivedResult)
      requires Valid() && p < providers.Length && providers[p].registered
      modifies this`tracked, this`live, this`pending, this`log, reps, committed, resident, pins.slots
      ensures Valid() && CollectedTo(old(reps[..]), reps.Length, providers[p].completed, releases, reps[..])
      ensures |serials| == reps.Length && log == old(log) + ReleasedNow(old(reps[..]), serials, reps.Length, providers[p].completed, releases)
      ensures result == if SomeRefused(old(reps[..]), reps.Length, providers[p].completed, releases) then Busy else Success
    {
      hide Kept, CollectedTo, ReleasedNow, SomeRefused, AfterCollect, Due;
      ghost var were := reps[..];
      var completed := providers[p].completed;
      var busy := false;
      SerialsFit();
      NothingCollected(were, serials, completed, releases);
      for i: nat := 0 to reps.Length
        invariant Kept() && CollectedTo(were, i, completed, releases, reps[..])
        invariant log == old(log) + ReleasedNow(were, serials, i, completed, releases)
        invariant busy == SomeRefused(were, i, completed, releases)
      {
        OneMoreCollected(were, serials, i, completed, releases, reps[..]);
        var refused := CollectSlot(i, completed, releases);
        busy := busy || refused;
      }
      result := if busy then Busy else Success;
    }

    lemma SerialsFit()
      requires Kept()
      ensures |serials| == reps.Length
    {
    }

    method CollectSlot(i: nat, completed: CompletionSet, releases: nat -> bool) returns (refused: bool)
      requires Kept() && i < reps.Length && |serials| == reps.Length
      modifies this`tracked, this`live, this`pending, this`log, reps, committed, resident, pins.slots
      ensures Kept() && reps[..] == old(reps[..])[i := AfterCollect(old(reps[i]), completed, releases)]
      ensures log == old(log) + if Due(old(reps[i]), completed) && releases(old(reps[i]).registration.token) then [serials[i]] else []
      ensures refused == (Due(old(reps[i]), completed) && !releases(old(reps[i]).registration.token))
    {
      hide Kept;
      assert reps[..][i := reps[i]] == reps[..];
      var r := reps[i];
      if !r.occupied || !r.retiring || r.registration.key.providerId != completed.providerId {
        return false;
      }
      var satisfied := CheckSatisfied(r.retirement, completed);
      if !satisfied {
        return false;
      }
      if !releases(r.registration.token) {
        return true;
      }
      FreeSlot(i);
      return false;
    }

    method RegisterProvider(id: nat, generation: nat, laneCount: nat) returns (result: DerivedResult)
      requires Valid()
      modifies providers
      ensures Valid()
      ensures result == if id == 0 || generation == 0 || laneCount == 0 || laneCount > MAX_LANES then InvalidArgument
                        else if exists p :: 0 <= p < providers.Length && old(providers[p]).registered && old(providers[p]).completed.providerId == id then Busy
                        else if forall p :: 0 <= p < providers.Length ==> old(providers[p]).registered then OutOfBudget else Success
      ensures result == Success ==> exists p ::
        && 0 <= p < providers.Length && !old(providers[p]).registered
        && providers[..] == old(providers[..])[p := Provider(true, CompletionSet(id, generation, AllLanes(laneCount), laneCount, [0, 0, 0, 0]))]
      ensures result != Success ==> providers[..] == old(providers[..])
    {
      if id == 0 || generation == 0 || laneCount == 0 || laneCount > MAX_LANES {
        return InvalidArgument;
      }
      var found := FindProvider(id);
      if found.Some? {
        return Busy;
      }
      for p: nat := 0 to providers.Length
        invariant forall q :: 0 <= q < p ==> providers[q].registered
      {
        if !providers[p].registered {
          hide Kept;
          assert 0 in AllLanes(laneCount);
          ghost var were := providers[..];
          providers[p] := Provider(true, CompletionSet(id, generation, AllLanes(laneCount), laneCount, [0, 0, 0, 0]));
          assert providers[..] == were[p := providers[p]];
          return Success;
        }
      }
      return OutOfBudget;
    }

    ghost predicate Provided(id: nat)
      reads providers
    {
      exists p :: 0 <= p < providers.Length && providers[p].registered && providers[p].completed.providerId == id
    }

    /** What becomes of a registration, from the first check to the last. */
    ghost function Verdict(source: Option<(SourceHandle, nat)>, r: Registration, scoped: bool): DerivedResult
      requires committed.Length == resident.Length == MEMORY_SPACES
      reads this, providers, reps, committed, resident, pins.slots
    {
      if !WellFormed(r) || !Provided(r.key.providerId) then InvalidArgument
      else if source.None? || !SameSource(source.value.0, r.key.resource) || source.value.1 != r.key.revision then InvalidHandle
      else if tracked + r.committed > maxTracked || committed[r.space] + r.committed > ResourceTypes.UINT64_MAX
        || resident[r.space] + r.resident > ResourceTypes.UINT64_MAX then OutOfBudget
      else if exists i :: 0 <= i < reps.Length && reps[i].occupied && Clashes(reps[i].registration, r) then Busy
      else if forall i :: 0 <= i < reps.Length ==> reps[i].occupied then OutOfBudget
      else if !scoped then InvalidArgument
      else if forall s :: 0 <= s < pins.slots.Length ==> pins.slots[s].record.Some? then OutOfBudget
      else Success
    }

    /** The checks before the representations are looked at. */
    method CheckOnItsOwn(source: Option<(SourceHandle, nat)>, r: Registration) returns (refusal: Option<DerivedResult>)
      requires committed.Length == resident.Length == MEMORY_SPACES && tracked <= maxTracked
      requires forall s :: 0 <= s < MEMORY_SPACES ==> committed[s] <= ResourceTypes.UINT64_MAX && resident[s] <= ResourceTypes.UINT64_MAX
      ensures WellFormed(r) ==> r.space < MEMORY_SPACES
      ensures refusal == if !WellFormed(r) || !Provided(r.key.providerId) then Some(InvalidArgument)
                         else if source.None? || !SameSource(source.value.0, r.key.resource) || source.value.1 != r.key.revision then Some(InvalidHandle)
                         else if tracked + r.committed > maxTracked || committed[r.space] + r.committed > ResourceTypes.UINT64_MAX
                           || resident[r.space] + r.resident > ResourceTypes.UINT64_MAX then Some(OutOfBudget) else None
    {
      var provider := FindProvider(r.key.providerId);
      if r.token == 0 || r.key.revision == 0 || r.key.representationId == 0 || r.key.reserved != 0 || r.key.resource.reserved != 0
        || r.space >= MEMORY_SPACES || r.committed == 0 || r.resident > r.committed || r.sourceRevision != r.key.revision || provider.None? {
        return Some(InvalidArgument);
      }
      if source.None? || source.value.0.slot != r.key.resource.slot || source.value.0.generation != r.key.resource.generation
        || source.value.0.typeId != r.key.resource.typeId || source.value.1 != r.key.revision {
        return Some(InvalidHandle);
      }
      if r.committed > maxTracked - tracked || r.committed > ResourceTypes.UINT64_MAX - committed[r.space]
        || r.resident > ResourceTypes.UINT64_MAX - resident[r.space] {
        return Some(OutOfBudget);
      }
      return None;
    }

    /** Account for a native representation of a source record, and pin the record. The source is absent
        when the view cannot be read; the record stands for the one the view shows. */
    method RegisterRepresentation(source: Option<(SourceHandle, nat)>, record: nat, scoped: bool, registration: Registration)
      returns (result: DerivedResult, slot: nat)
      requires Valid()
      modifies this`tracked, this`live, this`serials, this`issued, reps, committed, resident, pins.slots
      ensures Valid() && result == old(Verdict(source, registration, scoped))
      ensures result == Success ==>
        && slot < reps.Length && !old(reps[slot]).occupied && (forall i :: 0 <= i < slot ==> old(reps[i]).occupied)
        && reps[slot].pin.slot < pins.slots.Length && old(pins.slots[..])[reps[slot].pin.slot].record.None?
        && pins.slots[reps[slot].pin.slot].record == Some(record)
        && reps[..] == old(reps[..])[slot := Registered(registration, reps[slot].pin, old(reps[slot]).generation)]
        && |old(serials)| == reps.Length && serials == old(serials)[slot := old(issued)] && issued == old(issued) + 1
      ensures result == Success ==> forall i :: 0 <= i < reps.Length && old(reps[i]).occupied ==>
        old(reps[i]).registration.key != registration.key
        && (old(reps[i]).registration.key.providerId == registration.key.providerId ==> old(reps[i]).registration.token != registration.token)
      ensures result != Success ==>
        && reps[..] == old(reps[..]) && pins.slots[..] == old(pins.slots[..]) && tracked == old(tracked) && live == old(live)
        && serials == old(serials) && issued == old(issued)
    {
      hide Sound, Sum, Clashes, WellFormed, Provided, SameSource;
      slot := 0;
      var refusal := CheckOnItsOwn(source, registration);
      if refusal.Some? {
        return refusal.value, slot;
      }
      var clash, free := FindFree(registration);
      if clash {
        return Busy, slot;
      }
      if free.None? {
        return OutOfBudget, slot;
      }
      if !scoped {
        return InvalidArgument, slot;
      }
      slot := free.value;
      DifferApart(reps[..], registration);
      var placed := Place(slot, record, registration);
      result := if placed then Success else OutOfBudget;
    }

    method FindFree(registration: Registration) returns (clash: bool, free: Option<nat>)
      ensures clash <==> exists i :: 0 <= i < reps.Length && reps[i].occupied && Clashes(reps[i].registration, registration)
      ensures !clash && free.None? ==> forall i :: 0 <= i < reps.Length ==> reps[i].occupied
      ensures free.Some? ==> free.value < reps.Length && !reps[free.value].occupied && forall i :: 0 <= i < free.value ==> reps[i].occupied
    {
      free := None;
      for i: nat := 0 to reps.Length
        invariant forall j :: 0 <= j < i && reps[j].occupied ==> !Clashes(reps[j].registration, registration)
        invariant free.None? ==> forall j :: 0 <= j < i ==> reps[j].occupied
        invariant free.Some? ==> free.value < i && !reps[free.value].occupied && forall j :: 0 <= j < free.value ==> reps[j].occupied
      {
        if !reps[i].occupied {
          if free.None? {
            free := Some(i);
          }
        } else {
          var found := CheckClash(reps[i].registration, registration);
          if found {
            return true, free;
          }
        }
      }
      return false, free;
    }

    /** Pin the source and fill the slot; without a pin nothing changes. */
    method Place(slot: nat, record: nat, registration: Registration) returns (placed: bool)
      requires Kept() && slot < reps.Length && !reps[slot].occupied && registration.space < MEMORY_SPACES
      requires forall j :: 0 <= j < reps.Length && reps[j].occupied ==> !Clashes(reps[j].registration, registration)
      requires tracked + registration.committed <= maxTracked
      requires committed[registration.space] + registration.committed <= ResourceTypes.UINT64_MAX
      requires resident[registration.space] + registration.resident <= ResourceTypes.UINT64_MAX
      modifies this`tracked, this`live, this`serials, this`issued, reps, committed, resident, pins.slots
      ensures Kept()
      ensures placed <==> exists s :: 0 <= s < pins.slots.Length && old(pins.slots[s]).record.None?
      ensures placed ==>
        && reps[slot].pin.slot < pins.slots.Length && old(pins.slots[..])[reps[slot].pin.slot].record.None?
        && pins.slots[reps[slot].pin.slot].record == Some(record)
        && reps[..] == old(reps[..])[slot := Registered(registration, reps[slot].pin, old(reps[slot]).generation)]
        && |old(serials)| == reps.Length && serials == old(serials)[slot := old(issued)] && issued == old(issued) + 1
      ensures !placed ==>
        && reps[..] == old(reps[..]) && pins.slots[..] == old(pins.slots[..]) && tracked == old(tracked) && live == old(live)
        && serials == old(serials) && issued == old(issued)
    {
      ghost var held := pins.slots[..];
      var pin := pins.Pin(record, registration.key.providerId);
      if pin.None? {
        return false;
      }
      var r := Representation(registration, pin.value, NO_COMPLETION, reps[slot].generation, true, false);
      AddingKeepsSound(reps[..], held, serials, issued, log, slot, r, pins.slots[pin.value.slot]);
      AllSumsChange(reps[..], slot, r);
      Enter(slot, r);
      return true;
    }

    method Enter(slot: nat, r: Representation)
      requires Books() && slot < reps.Length && !reps[slot].occupied && r.occupied && !r.retiring && |serials| == reps.Length
      requires r.registration.space < MEMORY_SPACES && tracked + r.registration.committed <= maxTracked
      requires committed[r.registration.space] + r.registration.committed <= ResourceTypes.UINT64_MAX
      requires resident[r.registration.space] + r.registration.resident <= ResourceTypes.UINT64_MAX
      modifies this`tracked, this`live, this`serials, this`issued, reps, committed, resident
      ensures Books() && reps[..] == old(reps[..])[slot := r]
      ensures serials == old(serials)[slot := old(issued)] && issued == old(issued) + 1
    {
      AllSumsChange(reps[..], slot, r);
      ghost var were := reps[..];
      var space := r.registration.space;
      serials := serials[slot := issued];
      issued := issued + 1;
      tracked := tracked + r.registration.committed;
      committed[space] := committed[space] + r.registration.committed;
      resident[space] := resident[space] + r.registration.resident;
      live := live + 1;
      reps[slot] := r;
      assert reps[..] == were[slot := r];
    }

    /** Ask for a representation to go once the named lanes have reached the named values. What is due
        at once is collected at once. */
    method RetireRepresentation(slot: nat, generation: nat, required: CompletionSet, releases: nat -> bool) returns (result: DerivedResult)
      requires Valid()
      modifies this`tracked, this`live, this`pending, this`log, reps, committed, resident, pins.slots
      ensures Valid()
      ensures result == if slot >= reps.Length || !old(reps[slot]).occupied || old(reps[slot]).generation != generation then InvalidHandle
                        else if old(reps[slot]).retiring then Busy
                        else if !ValidSet(required) || required.providerId != old(reps[slot]).registration.key.providerId
                          || !(exists p :: 0 <= p < providers.Length && providers[p].registered && Speaks(providers[p], required)) then InvalidArgument
                        else Success
      ensures result != Success ==> reps[..] == old(reps[..]) && log == old(log)
      ensures result == Success ==> exists p ::
        && 0 <= p < providers.Length && providers[p].registered && Speaks(providers[p], required)
        && var were := old(reps[..])[slot := Retired(old(reps[slot]), required)];
           if Satisfied(required, providers[p].completed) then
             && CollectedTo(were, reps.Length, providers[p].completed, releases, reps[..])
             && |serials| == reps.Length && log == old(log) + ReleasedNow(were, serials, reps.Length, providers[p].completed, releases)
           else reps[..] == were && log == old(log)
    {
      hide Kept, CollectedTo;
      if slot >= reps.Length || !reps[slot].occupied || reps[slot].generation != generation {
        return InvalidHandle;
      }
      if reps[slot].retiring {
        return Busy;
      }
      var provider := FindProvider(reps[slot].registration.key.providerId);
      var sound := CheckSet(required);
      if provider.None? || !sound {
        return InvalidArgument;
      }
      var p := provider.value;
      var completed := providers[p].completed;
      if required.providerId != completed.providerId || required.generation != completed.generation
        || required.laneCount != completed.laneCount {
        return InvalidArgument;
      }
      MarkRetiring(slot, required);
      var satisfied := CheckSatisfied(required, completed);
      if satisfied {
        var collected := CollectProvider(p, releases);
      }
      return Success;
    }

    method MarkRetiring(slot: nat, required: CompletionSet)
      requires Kept() && slot < reps.Length && reps[slot].occupied && !reps[slot].retiring
      requires ValidSet(required) && required.providerId == reps[slot].registration.key.providerId
      modifies this`pending, reps
      ensures Kept() && reps[..] == old(reps[..])[slot := Retired(old(reps[slot]), required)]
    {
      AllSumsChange(reps[..], slot, Retired(reps[slot], required));
      ghost var were := reps[..];
      reps[slot] := reps[slot].(retiring := true, retirement := required);
      assert reps[..] == were[slot := Retired(were[slot], required)];
      pending := pending + 1;
    }

    /** Take note of how far a provider's lanes have got, and collect what is due. A snapshot that goes
        back on any named lane is refused as a whole. */
    method UpdateProviderCompletion(observed: CompletionSet, releases: nat -> bool) returns (result: DerivedResult, p: nat)
      requires Valid()
      modifies this`tracked, this`live, this`pending, this`log, reps, committed, resident, pins.slots, providers
      ensures Valid() && result in {Success, InvalidArgument, Busy}
      ensures result == InvalidArgument ==> providers[..] == old(providers[..]) && reps[..] == old(reps[..]) && log == old(log)
      ensures result == InvalidArgument <==> !ValidSet(observed) || forall q :: 0 <= q < providers.Length && old(providers[q]).registered ==>
        !Accepts(old(providers[q]), observed)
      ensures result != InvalidArgument ==>
        && p < providers.Length && old(providers[p]).registered && Accepts(old(providers[p]), observed)
        && providers[..] == old(providers[..])[p := providers[p]]
        && providers[p] == old(providers[p]).(completed := old(providers[p]).completed.(values := providers[p].completed.values))
        && (forall lane :: 0 <= lane < MAX_LANES ==>
              providers[p].completed.values[lane] == if lane in observed.mask then observed.values[lane] else old(providers[p]).completed.values[lane])
        && CollectedTo(old(reps[..]), reps.Length, providers[p].completed, releases, reps[..])
        && |serials| == reps.Length && log == old(log) + ReleasedNow(old(reps[..]), serials, reps.Length, providers[p].completed, releases)
        && (result == Busy <==> SomeRefused(old(reps[..]), reps.Length, providers[p].completed, releases))
    {
      p := 0;
      var sound := CheckSet(observed);
      if !sound {
        return InvalidArgument, p;
      }
      var provider := FindProvider(observed.providerId);
      if provider.None? {
        return InvalidArgument, p;
      }
      p := provider.value;
      var accepted := CheckObserved(p, observed);
      if !accepted {
        return InvalidArgument, p;
      }
      Advance(p, observed);
      result := CollectProvider(p, releases);
    }

    method CheckObserved(p: nat, observed: CompletionSet) returns (ok: bool)
      requires ProvidersOk() && p < providers.Length && providers[p].registered && ValidSet(observed)
      ensures ok == Accepts(providers[p], observed)
    {
      var completed := providers[p].completed;
      if observed.providerId != completed.providerId || observed.generation != completed.generation
        || observed.laneCount != completed.laneCount {
        return false;
      }
      for lane: nat := 0 to completed.laneCount
        invariant forall k :: 0 <= k < lane && k in observed.mask ==> observed.values[k] >= completed.values[k]
      {
        if lane in observed.mask && observed.values[lane] < completed.values[lane] {
          return false;
        }
      }
      return true;
    }

    method Advance(p: nat, observed: CompletionSet)
      requires ProvidersOk() && p < providers.Length && providers[p].registered && ValidSet(observed) && Accepts(providers[p], observed)
      modifies providers
      ensures ProvidersOk() && providers[..] == old(providers[..])[p := providers[p]]
      ensures providers[p] == old(providers[p]).(completed := old(providers[p]).completed.(values := providers[p].completed.values))
      ensures forall lane :: 0 <= lane < MAX_LANES ==>
        providers[p].completed.values[lane] == if lane in observed.mask then observed.values[lane] else old(providers[p]).completed.values[lane]
    {
      ghost var were := providers[..];
      var completed := providers[p].completed;
      for lane: nat := 0 to completed.laneCount
        invariant completed == were[p].completed.(values := completed.values)
        invariant forall k :: 0 <= k < MAX_LANES ==>
          completed.values[k] == if k < lane && k in observed.mask then observed.values[k] else were[p].completed.values[k]
      {
        if lane in observed.mask {
          completed := completed.(values := completed.values[lane := observed.values[lane]]);
        }
      }
      providers[p] := providers[p].(completed := completed);
      assert providers[..] == were[p := providers[p]];
    }
  }

  /** The set speaks of the same provider, generation and lanes. */
  ghost predicate Speaks(provider: Provider, c: CompletionSet)
  {
    && c.providerId == provider.completed.providerId && c.generation == provider.completed.generation
    && c.laneCount == provider.completed.laneCount
  }

  ghost predicate Accepts(provider: Provider, observed: CompletionSet)
  {
    Speaks(provider, observed) && forall lane :: 0 <= lane < MAX_LANES && lane in observed.mask ==>
      observed.values[lane] >= provider.completed.values[lane]
  }

  ghost function Registered(registration: Registration, pin: PinHandle, generation: nat): Representation
  {
    Representation(registration, pin, NO_COMPLETION, generation, true, false)
  }

  ghost function Retired(r: Representation, required: CompletionSet): Representation
  {
    r.(retiring := true, retirement := required)
  }

  function AllLanes(count: nat): (lanes: set<nat>)
    ensures forall lane: nat :: lane in lanes <==> lane < count
  {
    if count == 0 then {} else AllLanes(count - 1) + {count - 1}
  }
}
