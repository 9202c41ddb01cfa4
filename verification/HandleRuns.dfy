/** Handles of resources, staged chunks, pins and derived representations over runs of operations:
    what has been given back stays invalid until its slot has counted through all generations. */
module HandleRuns {
  import opened Generations
  import opened ResourceTypes
  import opened Wrappers
  import ChunkAccounts
  import ChunkStore
  import DerivedRegistry
  import ResourceGraph
  import ResourceRecords

  // ---------------------------------------------------------------- resources

  function Published(c: ResourceGraph.Contents): (places: seq<Place>)
    requires |c.generations| == |c.published|
    ensures |places| == |c.published|
  {
    seq(|c.published|, s requires 0 <= s < |c.published| =>
      Place(if c.published[s].Some? then Some(c.published[s].value.handle) else None, c.generations[s]))
  }

  /** What one operation of the writer does to the graph. */
  ghost predicate Operation(c: ResourceGraph.Contents, d: ResourceGraph.Contents)
  {
    || d == c
    || (exists capacity, p, handle :: ResourceGraph.PublishedAs(c, capacity, p, handle, d))
    || (exists key, handle :: ResourceGraph.RequestedAs(c, key, handle, d))
    || (exists slot :: ResourceGraph.WithdrawnAs(c, slot, d))
    || (exists slot, state :: ResourceGraph.SupersededAs(c, slot, state, d))
  }

  ghost predicate GraphRun(states: seq<ResourceGraph.Contents>)
  {
    && |states| > 0 && |states[0].generations| == |states[0].published|
    && (forall s :: 0 <= s < |states[0].published| ==> states[0].published[s].None? && states[0].generations[s] == 1)
    && forall n :: 0 <= n < |states| - 1 ==> Operation(states[n], states[n + 1])
  }

  lemma PublicationTurns(c: ResourceGraph.Contents, capacity: nat, p: ResourceGraph.Publication, handle: Handle, d: ResourceGraph.Contents)
    requires ResourceGraph.PublishedAs(c, capacity, p, handle, d) && |c.generations| == |c.published|
    ensures |d.generations| == |d.published| && TableTurned(Published(c), Published(d))
  {
    hide ResourceGraph.AdmissionVerdict, ResourceGraph.Placed, ResourceGraph.Consistent, ResourceRecords.Relation;
    ResourceGraph.PublicationKeepsAcyclic(c, capacity, p, handle, d);
  }

  lemma RequestTurns(c: ResourceGraph.Contents, key: Key, handle: Handle, d: ResourceGraph.Contents)
    requires ResourceGraph.RequestedAs(c, key, handle, d) && |c.generations| == |c.published|
    ensures |d.generations| == |d.published| && TableTurned(Published(c), Published(d))
  {
    hide ResourceGraph.Consistent, ResourceRecords.Relation;
  }

  lemma OperationTurns(c: ResourceGraph.Contents, d: ResourceGraph.Contents)
    requires Operation(c, d) && |c.generations| == |c.published|
    ensures |d.generations| == |d.published| && TableTurned(Published(c), Published(d))
  {
    hide ResourceGraph.PublishedAs, ResourceGraph.RequestedAs, TableTurned;
    if capacity, p, handle :| ResourceGraph.PublishedAs(c, capacity, p, handle, d) {
      PublicationTurns(c, capacity, p, handle, d);
    } else if key, handle :| ResourceGraph.RequestedAs(c, key, handle, d) {
      RequestTurns(c, key, handle, d);
    } else {
      RemovalTurns(c, d);
    }
  }

  lemma RemovalTurns(c: ResourceGraph.Contents, d: ResourceGraph.Contents)
    requires |c.generations| == |c.published|
    requires d == c || (exists slot :: ResourceGraph.WithdrawnAs(c, slot, d)) || exists slot, state :: ResourceGraph.SupersededAs(c, slot, state, d)
    ensures |d.generations| == |d.published| && TableTurned(Published(c), Published(d))
  {
    hide ResourceRecords.Indexed;
  }

  lemma {:induction false} GraphSize(states: seq<ResourceGraph.Contents>, n: nat)
    requires GraphRun(states) && n < |states|
    ensures |states[n].generations| == |states[n].published| == |states[0].published|
  {
    if n > 0 {
      GraphSize(states, n - 1);
      OperationTurns(states[n - 1], states[n - 1 + 1]);
      hide Operation;
    }
  }

  ghost function Tables(states: seq<ResourceGraph.Contents>): (tables: seq<seq<Place>>)
    requires forall n :: 0 <= n < |states| ==> |states[n].generations| == |states[n].published|
    ensures |tables| == |states| && forall n :: 0 <= n < |states| ==> tables[n] == Published(states[n])
  {
    seq(|states|, n requires 0 <= n < |states| => Published(states[n]))
  }

  lemma RunTurns(states: seq<ResourceGraph.Contents>)
    requires GraphRun(states)
    ensures forall n :: 0 <= n < |states| ==> |states[n].generations| == |states[n].published| == |states[0].published|
    ensures TableHistory(Tables(states))
  {
    hide Operation, TableTurned;
    forall n | 0 <= n < |states| ensures |states[n].generations| == |states[n].published| == |states[0].published| {
      GraphSize(states, n);
    }
    forall n | 0 <= n < |states| - 1 ensures TableTurned(Tables(states)[n], Tables(states)[n + 1]) {
      OperationTurns(states[n], states[n + 1]);
    }
  }

  /** A handle that was live and is live no more stays invalid, whatever is published, asked for, retired
      and replaced, until its slot has handed out all of its generations. */
  lemma ResourceHandleIsSpent(states: seq<ResourceGraph.Contents>, i: nat, j: nat, k: nat, h: Handle)
    requires GraphRun(states) && i <= j <= k < |states| && h.slot < |states[0].published|
    requires ResourceRecords.Live(states[i].published, h) && !ResourceRecords.Live(states[j].published, h)
    requires ResourceRecords.Live(states[k].published, h)
    ensures exists m :: i <= m < k && h.slot < |states[m].generations| && h.slot < |states[m + 1].generations|
                     && states[m].generations[h.slot] == UINT32_MAX && states[m + 1].generations[h.slot] == 1
  {
    RunTurns(states);
    hide GraphRun, TableHistory;
    var tables: seq<seq<Place>> := Tables(states);
    assert tables[i][h.slot].held == Some(h) && tables[j][h.slot].held != Some(h) && tables[k][h.slot].held == Some(h);
    var m := SpentInTable(tables, h.slot, i, j, k, h);
    assert tables[m] == Published(states[m]) && tables[m + 1] == Published(states[m + 1]);
  }

  // ---------------------------------------------------------------- staged chunks

  function StagingPlaces(staging: seq<ChunkAccounts.Staging>): (places: seq<Place>)
    ensures |places| == |staging|
  {
    seq(|staging|, s requires 0 <= s < |staging| =>
      Place(if staging[s].data.Some? then Some(Handle(s, staging[s].generation, 0)) else None, NextGeneration(staging[s].generation)))
  }

  /** What an allocation, a cancellation or a publication does to the staging slots. */
  ghost predicate StagingOperation(a: seq<ChunkAccounts.Staging>, b: seq<ChunkAccounts.Staging>)
  {
    || b == a
    || (exists s: nat, contents, alignment :: s < |a| && a[s].data.None?
          && b == a[s := ChunkAccounts.Staging(Some(contents), alignment, NextGeneration(a[s].generation))])
    || (exists s: nat :: s < |a| && a[s].data.Some? && b == a[s := ChunkAccounts.Staging(None, 0, a[s].generation)])
    || (exists inputs :: ChunkStore.HandedOver(inputs, a, b))
  }

  predicate Staged(staging: seq<ChunkAccounts.Staging>, slot: nat, generation: nat)
  {
    slot < |staging| && staging[slot].data.Some? && staging[slot].generation == generation
  }

  ghost predicate StagingRun(tables: seq<seq<ChunkAccounts.Staging>>)
  {
    && |tables| > 0 && (forall s :: 0 <= s < |tables[0]| ==> tables[0][s].data.None? && tables[0][s].generation == 0)
    && forall n :: 0 <= n < |tables| - 1 ==> StagingOperation(tables[n], tables[n + 1])
  }

  lemma StagingTurns(a: seq<ChunkAccounts.Staging>, b: seq<ChunkAccounts.Staging>)
    requires StagingOperation(a, b)
    ensures TableTurned(StagingPlaces(a), StagingPlaces(b))
  {
  }

  /** A staging handle that was cancelled or handed over is not valid again until its slot has handed
      out all of its generations. */
  lemma StagingHandleIsSpent(tables: seq<seq<ChunkAccounts.Staging>>, i: nat, j: nat, k: nat, slot: nat, generation: nat)
    requires StagingRun(tables) && i <= j <= k < |tables|
    requires Staged(tables[i], slot, generation) && !Staged(tables[j], slot, generation) && Staged(tables[k], slot, generation)
    ensures exists m :: i <= m < k && slot < |tables[m]| && slot < |tables[m + 1]|
                     && tables[m][slot].generation == UINT32_MAX - 1 && tables[m + 1][slot].generation == UINT32_MAX
  {
    var places := seq(|tables|, n requires 0 <= n < |tables| => StagingPlaces(tables[n]));
    forall n | 0 <= n < |places| - 1 ensures TableTurned(places[n], places[n + 1]) {
      StagingTurns(tables[n], tables[n + 1]);
    }
    hide StagingOperation, TableTurned;
    SameSize(places, i);
    SameSize(places, j);
    SameSize(places, k);
    var m := SpentInTable(places, slot, i, j, k, Handle(slot, generation, 0));
    assert places[m] == StagingPlaces(tables[m]) && places[m + 1] == StagingPlaces(tables[m + 1]);
  }

  // ---------------------------------------------------------------- pins

  function PinPlaces(pins: seq<DerivedRegistry.PinSlot>): (places: seq<Place>)
    ensures |places| == |pins|
  {
    seq(|pins|, s requires 0 <= s < |pins| =>
      Place(if pins[s].record.Some? then Some(Handle(s, pins[s].generation, 0)) else None, NextGeneration(pins[s].generation)))
  }

  /** What pinning a record or releasing a pin does to the pin table. */
  ghost predicate PinOperation(a: seq<DerivedRegistry.PinSlot>, b: seq<DerivedRegistry.PinSlot>)
  {
    || b == a
    || (exists s: nat, record, provider :: s < |a| && a[s].record.None?
          && b == a[s := DerivedRegistry.PinSlot(Some(record), NextGeneration(a[s].generation), provider)])
    || (exists pin :: DerivedRegistry.Holds(a, pin) && b == a[pin.slot := DerivedRegistry.PinSlot(None, pin.generation, 0)])
  }

  ghost predicate PinRun(tables: seq<seq<DerivedRegistry.PinSlot>>)
  {
    && |tables| > 0 && (forall s :: 0 <= s < |tables[0]| ==> tables[0][s].record.None? && tables[0][s].generation == 0)
    && forall n :: 0 <= n < |tables| - 1 ==> PinOperation(tables[n], tables[n + 1])
  }

  lemma PinTurns(a: seq<DerivedRegistry.PinSlot>, b: seq<DerivedRegistry.PinSlot>)
    requires PinOperation(a, b)
    ensures TableTurned(PinPlaces(a), PinPlaces(b))
  {
  }

  /** A pin that was released is not held again under its handle until its slot has handed out all of
      its generations. */
  lemma PinHandleIsSpent(tables: seq<seq<DerivedRegistry.PinSlot>>, i: nat, j: nat, k: nat, pin: DerivedRegistry.PinHandle)
    requires PinRun(tables) && i <= j <= k < |tables|
    requires DerivedRegistry.Holds(tables[i], pin) && !DerivedRegistry.Holds(tables[j], pin) && DerivedRegistry.Holds(tables[k], pin)
    ensures exists m :: i <= m < k && pin.slot < |tables[m]| && pin.slot < |tables[m + 1]|
                     && tables[m][pin.slot].generation == UINT32_MAX - 1 && tables[m + 1][pin.slot].generation == UINT32_MAX
  {
    var places := seq(|tables|, n requires 0 <= n < |tables| => PinPlaces(tables[n]));
    forall n | 0 <= n < |places| - 1 ensures TableTurned(places[n], places[n + 1]) {
      PinTurns(tables[n], tables[n + 1]);
    }
    hide PinOperation, TableTurned;
    SameSize(places, i);
    SameSize(places, j);
    SameSize(places, k);
    var m := SpentInTable(places, pin.slot, i, j, k, Handle(pin.slot, pin.generation, 0));
    assert places[m] == PinPlaces(tables[m]) && places[m + 1] == PinPlaces(tables[m + 1]);
  }

  // ---------------------------------------------------------------- derived representations

  /** A representation's slot counts on when it is freed. */
  function RepresentationPlaces(reps: seq<DerivedRegistry.Representation>): (places: seq<Place>)
    ensures |places| == |reps|
  {
    seq(|reps|, s requires 0 <= s < |reps| =>
      if reps[s].occupied then Place(Some(Handle(s, reps[s].generation, 0)), NextGeneration(reps[s].generation))
      else Place(None, reps[s].generation))
  }

  /** What registering, retiring or collecting does to the representations. */
  ghost predicate RepresentationOperation(a: seq<DerivedRegistry.Representation>, b: seq<DerivedRegistry.Representation>)
  {
    || b == a
    || (exists s: nat, registration, pin :: s < |a| && !a[s].occupied
          && b == a[s := DerivedRegistry.Registered(registration, pin, a[s].generation)])
    || (exists s: nat, required :: s < |a| && a[s].occupied && b == a[s := DerivedRegistry.Retired(a[s], required)])
    || (exists completed, releases :: DerivedRegistry.CollectedTo(a, |a|, completed, releases, b))
  }

  ghost predicate RepresentationRun(tables: seq<seq<DerivedRegistry.Representation>>)
  {
    && |tables| > 0 && (forall s :: 0 <= s < |tables[0]| ==> !tables[0][s].occupied && tables[0][s].generation == 1)
    && forall n :: 0 <= n < |tables| - 1 ==> RepresentationOperation(tables[n], tables[n + 1])
  }

  predicate Registered(reps: seq<DerivedRegistry.Representation>, slot: nat, generation: nat)
  {
    slot < |reps| && reps[slot].occupied && reps[slot].generation == generation
  }

  lemma RepresentationTurns(a: seq<DerivedRegistry.Representation>, b: seq<DerivedRegistry.Representation>)
    requires RepresentationOperation(a, b)
    ensures TableTurned(RepresentationPlaces(a), RepresentationPlaces(b))
  {
  }

  /** The handle of a representation that was freed is not valid again until its slot has handed out
      all of its generations. */
  lemma RepresentationHandleIsSpent(tables: seq<seq<DerivedRegistry.Representation>>, i: nat, j: nat, k: nat, slot: nat, generation: nat)
    requires RepresentationRun(tables) && i <= j <= k < |tables|
    requires Registered(tables[i], slot, generation) && !Registered(tables[j], slot, generation) && Registered(tables[k], slot, generation)
    ensures exists m :: i <= m < k && slot < |tables[m]| && slot < |tables[m + 1]|
                     && tables[m][slot].generation == UINT32_MAX && !tables[m][slot].occupied && tables[m + 1][slot].occupied
  {
    var places := seq(|tables|, n requires 0 <= n < |tables| => RepresentationPlaces(tables[n]));
    forall n | 0 <= n < |places| - 1 ensures TableTurned(places[n], places[n + 1]) {
      RepresentationTurns(tables[n], tables[n + 1]);
    }
    hide RepresentationOperation;
    SameSize(places, i);
    SameSize(places, j);
    SameSize(places, k);
    var m := SpentInTable(places, slot, i, j, k, Handle(slot, generation, 0));
    assert places[m] == RepresentationPlaces(tables[m]) && places[m + 1] == RepresentationPlaces(tables[m + 1]);
  }
}
