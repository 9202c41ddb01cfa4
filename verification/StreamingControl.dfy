/** The streaming control plane as a whole: one coordinator, the bridge over it, and the reconcilers
    of any number of consumers, in every interleaving of their work. */
module StreamingControl {
  import opened StreamingCoordinator
  import opened StreamingBridge
  import opened StreamingRuns
  import opened StreamingReconciler

  /** What a reconciler knows of its consumer. */
  datatype Consumer = Consumer(id: nat, generation: nat, entries: seq<Entry>, epoch: nat)

  datatype World = World(view: View, issued: set<Ticket>, consumers: seq<Consumer>)

  /** The consumer's entries track its slots, and no slot is ahead of its last epoch: with this it
      can be reconciled next. */
  ghost predicate Ready(slots: seq<Slot>, issued: set<Ticket>, c: Consumer)
  {
    && c.id != 0 && c.generation != 0
    && Tracks(slots, issued, c.entries, c.id, c.generation) && EpochsPast(slots, c.id, c.generation, c.epoch)
  }

  predicate SameConsumer(a: Consumer, b: Consumer)
  {
    a.id == b.id && a.generation == b.generation
  }

  ghost predicate Sane(w: World)
  {
    && InStep(w.view) && SlotsOk(w.view.cs, w.issued)
    && (forall r :: 0 <= r < |w.consumers| ==> Ready(w.view.cs, w.issued, w.consumers[r]))
    && (forall a, b :: 0 <= a < b < |w.consumers| ==> !SameConsumer(w.consumers[a], w.consumers[b]))
  }

  /** The call neither submits nor refreshes a demand of this consumer. */
  predicate CallOfOthers(call: Call, c: Consumer)
  {
    call.Cancelling? || call.demand.consumerId != c.id || call.demand.consumerGeneration != c.generation
  }

  predicate StepOfOthers(step: Step, c: Consumer)
  {
    step.Calling? ==> CallOfOthers(step.call, c)
  }

  // ---------------------------------------------------------------- nobody disturbs another consumer

  lemma CallIsForeign(slots: seq<Slot>, issued: set<Ticket>, call: Call, c: Consumer)
    requires SlotsOk(slots, issued) && CallOfOthers(call, c)
    ensures Foreign(slots, AfterCall(slots, call), c.id, c.generation)
  {
  }

  lemma MoveIsForeign(slots: seq<Slot>, issued: set<Ticket>, s: nat, moved: Slot, c: Consumer)
    requires SlotsOk(slots, issued) && s < |slots|
    requires
      || (slots[s].occupied && moved == Released(slots[s]))
      || (slots[s].occupied && KeepsTicket(slots[s], moved)) || moved == slots[s]
    ensures Foreign(slots, slots[s := moved], c.id, c.generation)
  {
  }

  /** Bridge turns, the provider's answers, cancellation by anybody and the demands of other
      consumers are all foreign to a consumer. */
  lemma StepIsForeign(v: View, issued: set<Ticket>, step: Step, c: Consumer)
    requires InStep(v) && SlotsOk(v.cs, issued) && StepOfOthers(step, c)
    ensures Foreign(v.cs, Next(v, step).cs, c.id, c.generation)
  {
    hide SlotsOk, Foreign;
    if step.Calling? {
      CallIsForeign(v.cs, issued, step.call, c);
    } else {
      var s := if step.Visiting? then step.slot else step.ticket.slot;
      if s < |v.cs| {
        assert SlotAgrees(s, v.cs[s], v.bs[s], v.log);
        var v' := Next(v, step);
        MoveIsForeign(v.cs, issued, s, v'.cs[s], c);
        assert v'.cs == v.cs[s := v'.cs[s]];
      } else {
        NothingIsForeign(v.cs, c);
      }
    }
  }

  lemma NothingIsForeign(slots: seq<Slot>, c: Consumer)
    ensures Foreign(slots, slots, c.id, c.generation)
  {
  }

  /** A consumer can be reconciled after any step of the others if it could before. */
  lemma StepKeepsReady(v: View, issued: set<Ticket>, step: Step, c: Consumer)
    requires InStep(v) && SlotsOk(v.cs, issued) && StepOfOthers(step, c) && Ready(v.cs, issued, c)
    ensures Ready(Next(v, step).cs, IssuedBy(v, issued, step), c)
  {
    hide SlotAgrees, SlotOk, SlotsOk, Foreign, Tracks, EpochsPast, Next;
    StepIsForeign(v, issued, step, c);
    StepKeepsSlotsOk(v, issued, step);
    OthersKeepTracks(v.cs, Next(v, step).cs, issued, IssuedBy(v, issued, step), c.entries, c.id, c.generation, c.epoch);
  }

  // ---------------------------------------------------------------- reconciliations as runs of calls

  ghost function CallSteps(calls: seq<Call>): (steps: seq<Step>)
    ensures |steps| == |calls| && forall i :: 0 <= i < |calls| ==> steps[i] == Calling(calls[i])
  {
    seq(|calls|, i requires 0 <= i < |calls| => Calling(calls[i]))
  }

  /** Calls take the coordinator where the steps take it, and the bridge's side stays as it is. */
  lemma {:induction false} CallsAreSteps(v: View, issued: set<Ticket>, calls: seq<Call>)
    requires |v.cs| == |v.bs|
    ensures Run(v, CallSteps(calls)) == v.(cs := AfterCalls(Book(v.cs, issued), calls).slots)
  {
    if calls != [] {
      CallsAreSteps(v, issued, calls[..|calls| - 1]);
      assert CallSteps(calls)[..|calls| - 1] == CallSteps(calls[..|calls| - 1]);
    }
  }

  lemma {:induction false} CallsKeepSane(v: View, issued: set<Ticket>, calls: seq<Call>)
    requires InStep(v) && SlotsOk(v.cs, issued)
    ensures var b := AfterCalls(Book(v.cs, issued), calls); InStep(v.(cs := b.slots)) && SlotsOk(b.slots, b.issued)
  {
    hide InStep, SlotsOk, AfterCall, IssuedAfter;
    if calls != [] {
      CallsKeepSane(v, issued, calls[..|calls| - 1]);
      var b := AfterCalls(Book(v.cs, issued), calls[..|calls| - 1]);
      CallKeepsStep(v.(cs := b.slots), calls[|calls| - 1]);
      CallKeepsSlotsOk(b.slots, b.issued, calls[|calls| - 1]);
    } else {
      assert v.(cs := v.cs) == v;
    }
  }

  /** What one consumer's reconciliation asks for leaves every other consumer ready. */
  lemma {:induction false} CallsKeepReady(v: View, issued: set<Ticket>, calls: seq<Call>, mine: Consumer, other: Consumer)
    requires InStep(v) && SlotsOk(v.cs, issued) && AllFor(calls, mine.id, mine.generation)
    requires !SameConsumer(mine, other) && Ready(v.cs, issued, other)
    ensures var b := AfterCalls(Book(v.cs, issued), calls); Ready(b.slots, b.issued, other)
  {
    hide InStep, SlotsOk, AfterCall, IssuedAfter, Ready;
    if calls != [] {
      var before := calls[..|calls| - 1];
      CallsKeepReady(v, issued, before, mine, other);
      CallsKeepSane(v, issued, before);
      var b := AfterCalls(Book(v.cs, issued), before);
      var call := calls[|calls| - 1];
      assert CallFor(call, mine.id, mine.generation);
      StepKeepsReady(v.(cs := b.slots), b.issued, Calling(call), other);
    }
  }

  // ---------------------------------------------------------------- whole runs

  /** A step that is no reconciler's, or a successful reconciliation of one consumer. */
  datatype Move = Taking(step: Step) | Reconciling(r: nat)

  /** What a reconciliation of consumer r may do: calls for that consumer alone, after which it is
      ready for the next, later epoch. */
  ghost predicate Reconciles(w: World, w': World, r: nat)
  {
    && r < |w.consumers| == |w'.consumers|
    && var c, c' := w.consumers[r], w'.consumers[r];
      && w'.view == w.view.(cs := w'.view.cs) && w'.consumers == w.consumers[r := c']
      && SameConsumer(c, c') && c.epoch < c'.epoch
      && Edited(Book(w.view.cs, w.issued), Book(w'.view.cs, w'.issued), c.id, c.generation)
      && Ready(w'.view.cs, w'.issued, c') && AllCurrent(w'.view.cs, c'.entries)
  }

  ghost predicate Takes(w: World, w': World, step: Step)
  {
    && |w.view.cs| == |w.view.bs|
    && (forall r :: 0 <= r < |w.consumers| ==> StepOfOthers(step, w.consumers[r]))
    && w' == World(Next(w.view, step), IssuedBy(w.view, w.issued, step), w.consumers)
  }

  ghost predicate Moves(w: World, w': World, move: Move)
  {
    match move
    case Taking(step) => Takes(w, w', step)
    case Reconciling(r) => Reconciles(w, w', r)
  }

  lemma TakingKeepsSane(w: World, w': World, step: Step)
    requires Sane(w) && Takes(w, w', step)
    ensures Sane(w')
  {
    hide InStep, SlotsOk, Ready, Next;
    StepKeepsStep(w.view, step);
    StepKeepsSlotsOk(w.view, w.issued, step);
    forall r | 0 <= r < |w.consumers| ensures Ready(w'.view.cs, w'.issued, w'.consumers[r]) {
      StepKeepsReady(w.view, w.issued, step, w.consumers[r]);
    }
  }

  lemma ReconcilingKeepsSane(w: World, w': World, r: nat)
    requires Sane(w) && Reconciles(w, w', r)
    ensures Sane(w')
  {
    hide InStep, SlotsOk, Ready;
    var c := w.consumers[r];
    var calls: seq<Call> :| AllFor(calls, c.id, c.generation) && AfterCalls(Book(w.view.cs, w.issued), calls) == Book(w'.view.cs, w'.issued);
    CallsKeepSane(w.view, w.issued, calls);
    forall q | 0 <= q < |w.consumers| && q != r ensures Ready(w'.view.cs, w'.issued, w'.consumers[q]) {
      CallsKeepReady(w.view, w.issued, calls, c, w.consumers[q]);
    }
  }

  ghost predicate Behaves(worlds: seq<World>, moves: seq<Move>)
  {
    && |worlds| == |moves| + 1
    && forall i :: 0 <= i < |moves| ==> Moves(worlds[i], worlds[i + 1], moves[i])
  }

  /** Reconciliations of any consumers, interleaved with bridge turns, the provider's answers and the
      demands of others: in every state of every run the bridge is in step, and each consumer's
      entries track its slots within its last epoch. */
  lemma {:induction false} EveryStateIsSane(worlds: seq<World>, moves: seq<Move>, i: nat)
    requires Behaves(worlds, moves) && Sane(worlds[0]) && i < |worlds|
    ensures Sane(worlds[i])
  {
    hide Sane, Takes, Reconciles;
    if i > 0 {
      EveryStateIsSane(worlds, moves, i - 1);
      assert Moves(worlds[i - 1], worlds[i], moves[i - 1]);
      match moves[i - 1]
      case Taking(step) => TakingKeepsSane(worlds[i - 1], worlds[i], step);
      case Reconciling(r) => ReconcilingKeepsSane(worlds[i - 1], worlds[i], r);
    }
  }

  lemma {:induction false} RunsJoin(v: View, first: seq<Step>, rest: seq<Step>)
    requires |v.cs| == |v.bs|
    ensures Run(v, first + rest) == Run(Run(v, first), rest)
  {
    hide Next;
    if rest == [] {
      assert first + rest == first;
    } else {
      RunsJoin(v, first, rest[..|rest| - 1]);
      assert (first + rest)[..|first + rest| - 1] == first + rest[..|rest| - 1];
    }
  }

  /** Whatever the reconcilers do, the coordinator and the bridge have been through a run of single
      steps: what is proved of those runs holds here. */
  lemma {:induction false} BehaviourIsRun(worlds: seq<World>, moves: seq<Move>, i: nat) returns (steps: seq<Step>)
    requires Behaves(worlds, moves) && Sane(worlds[0]) && i < |worlds|
    ensures |worlds[0].view.cs| == |worlds[0].view.bs| && worlds[i].view == Run(worlds[0].view, steps)
  {
    hide InStep, Ready, SlotsOk, Next;
    EveryStateIsSane(worlds, moves, i);
    BothSides(worlds[0]);
    if i == 0 {
      return [];
    }
    var before := BehaviourIsRun(worlds, moves, i - 1);
    var w, w' := worlds[i - 1], worlds[i];
    assert Moves(w, w', moves[i - 1]);
    match moves[i - 1]
    case Taking(step) =>
      steps := before + [step];
      assert steps[..|steps| - 1] == before;
    case Reconciling(r) =>
      var c := w.consumers[r];
      var calls: seq<Call> :| AllFor(calls, c.id, c.generation) && AfterCalls(Book(w.view.cs, w.issued), calls) == Book(w'.view.cs, w'.issued);
      CallsAreSteps(w.view, w.issued, calls);
      RunsJoin(worlds[0].view, before, CallSteps(calls));
      steps := before + CallSteps(calls);
  }

  lemma BothSides(w: World)
    requires Sane(w)
    ensures |w.view.cs| == |w.view.bs|
  {
  }

  // ---------------------------------------------------------------- the objects take these moves

  ghost function ConsumerOf(r: Reconciler): Consumer
    reads r, r.entries
  {
    Consumer(r.consumerId, r.consumerGeneration, r.entries[..], r.lastEpoch)
  }

  ghost function ConsumersOf(rs: seq<Reconciler>): (cs: seq<Consumer>)
    reads rs, set r | r in rs :: r.entries
    ensures |cs| == |rs| && forall i :: 0 <= i < |rs| ==> cs[i] == ConsumerOf(rs[i])
  {
    if rs == [] then [] else ConsumersOf(rs[..|rs| - 1]) + [ConsumerOf(rs[|rs| - 1])]
  }

  class ControlPlane {
    const coordinator: Coordinator
    const bridge: Bridge
    var reconcilers: seq<Reconciler>

    ghost function Now(): (w: World)
      reads this, bridge, bridge.slots, bridge.coordinator, bridge.coordinator.slots
      reads reconcilers, set r | r in reconcilers :: r.entries
      ensures |w.consumers| == |reconcilers|
      ensures forall i :: 0 <= i < |reconcilers| ==> w.consumers[i] == ConsumerOf(reconcilers[i])
    {
      World(bridge.Now(), bridge.coordinator.issued, ConsumersOf(reconcilers))
    }

    /** All are about the same coordinator, and no two reconcilers share anything else. */
    ghost predicate Assembled()
      reads this, bridge
    {
      && bridge.coordinator == coordinator && bridge.nextSlot < bridge.slots.Length == coordinator.slots.Length
      && (forall i :: 0 <= i < |reconcilers| ==> reconcilers[i].coordinator == coordinator)
      && (forall a, b :: 0 <= a < b < |reconcilers| ==> reconcilers[a] != reconcilers[b] && reconcilers[a].entries != reconcilers[b].entries)
    }

    ghost predicate Valid()
      reads this, bridge, bridge.slots, coordinator, coordinator.slots, bridge.coordinator, bridge.coordinator.slots
      reads reconcilers, set r | r in reconcilers :: r.entries
    {
      Assembled() && coordinator.Valid() && Sane(Now())
    }

    constructor (capacity: nat)
      requires capacity > 0
      ensures Valid() && reconcilers == [] && fresh(coordinator) && fresh(coordinator.slots) && fresh(bridge) && fresh(bridge.slots)
    {
      var c := new Coordinator(capacity);
      coordinator := c;
      bridge := new Bridge(c);
      reconcilers := [];
    }

    lemma PartsAreValid()
      requires Valid()
      ensures bridge.Valid() && forall i :: 0 <= i < |reconcilers| ==> reconcilers[i].Valid()
    {
      forall i | 0 <= i < |reconcilers| ensures reconcilers[i].Valid() {
        assert Ready(Now().view.cs, Now().issued, ConsumerOf(reconcilers[i]));
      }
    }

    /** Reconcile one consumer. */
    method Reconcile(r: nat, demands: seq<Demand>, epoch: nat) returns (result: StreamingResult)
      requires Valid() && r < |reconcilers|
      modifies reconcilers[r], reconcilers[r].entries, coordinator, coordinator.slots
      ensures Valid() && if result == Ok then Reconciles(old(Now()), Now(), r) else Now() == old(Now())
    {
      hide Sane, InStep, Joint, SlotsOk, Tracks, EpochsPast, AllCurrent, Edited, Settled, PrefixAdmitted;
      PartsAreValid();
      ghost var before := Now();
      var stats: Stats;
      ghost var keys: set<UnitKey>;
      result, stats, keys := reconcilers[r].Reconcile(demands, epoch);
      assert Assembled() && coordinator.Valid();
      assert forall i :: 0 <= i < |reconcilers| && i != r ==> ConsumerOf(reconcilers[i]) == before.consumers[i];
      if result == Ok {
        assert Ready(Now().view.cs, Now().issued, ConsumerOf(reconcilers[r]));
        assert Reconciles(before, Now(), r);
        ReconcilingKeepsSane(before, Now(), r);
      } else {
        assert Now() == before;
      }
    }

    /** Offer work to the provider for some slots: a run of visits. */
    method Pump(maximumSlots: nat, accepts: Event -> bool) returns (result: StreamingResult, ghost steps: seq<Step>)
      requires Valid()
      modifies bridge`log, bridge`nextSlot, bridge.slots, coordinator`occupied, coordinator.slots
      ensures Valid() && (forall i :: 0 <= i < |steps| ==> steps[i].Visiting?)
      ensures Now() == old(Now()).(view := Run(old(Now()).view, steps))
    {
      hide Sane, Joint, SlotsOk, Tracks, EpochsPast, Run, Turns, Visits;
      PartsAreValid();
      ghost var before, s := Now(), bridge.nextSlot;
      result := bridge.Pump(maximumSlots, accepts);
      ghost var visits := if maximumSlots < bridge.slots.Length then maximumSlots else bridge.slots.Length;
      steps := Visits(s, visits, |before.view.cs|, accepts);
      TurnsAreVisits(before.view, s, visits, accepts);
      VisitsVisit(s, visits, |before.view.cs|, accepts);
      VisitsKeepSane(before, steps);
    }

    /** The provider's answers are steps of the run. */
    method AcknowledgePrepared(t: Ticket, succeeded: bool) returns (result: StreamingResult)
      requires Valid()
      modifies bridge.slots, coordinator`occupied, coordinator.slots
      ensures Valid() && Takes(old(Now()), Now(), PreparedAnswer(t, succeeded))
    {
      hide Sane, InStep, Joint, SlotsOk, Ready;
      PartsAreValid();
      ghost var before := Now();
      NothingOfConsumers(before, PreparedAnswer(t, succeeded));
      result := bridge.AcknowledgePrepared(t, succeeded);
      TakingKeepsSane(before, Now(), PreparedAnswer(t, succeeded));
    }

    method AcknowledgeActivated(t: Ticket, succeeded: bool) returns (result: StreamingResult)
      requires Valid()
      modifies bridge.slots, coordinator`occupied, coordinator.slots
      ensures Valid() && Takes(old(Now()), Now(), ActivatedAnswer(t, succeeded))
    {
      hide Sane, InStep, Joint, SlotsOk, Ready;
      PartsAreValid();
      ghost var before := Now();
      NothingOfConsumers(before, ActivatedAnswer(t, succeeded));
      result := bridge.AcknowledgeActivated(t, succeeded);
      TakingKeepsSane(before, Now(), ActivatedAnswer(t, succeeded));
    }

    method AcknowledgeRetired(t: Ticket) returns (result: StreamingResult)
      requires Valid()
      modifies bridge.slots, coordinator`occupied, coordinator.slots
      ensures Valid() && Takes(old(Now()), Now(), RetiredAnswer(t))
    {
      hide Sane, InStep, Joint, SlotsOk, Ready;
      PartsAreValid();
      ghost var before := Now();
      NothingOfConsumers(before, RetiredAnswer(t));
      result := bridge.AcknowledgeRetired(t);
      TakingKeepsSane(before, Now(), RetiredAnswer(t));
    }

    /** Demand of a consumer that has no reconciler here. */
    method Submit(d: Demand) returns (result: StreamingResult, ticket: Ticket)
      requires Valid() && forall r :: 0 <= r < |reconcilers| ==> CallOfOthers(Submitting(0, d), ConsumerOf(reconcilers[r]))
      modifies coordinator, coordinator.slots
      ensures Valid() && Takes(old(Now()), Now(), Calling(Submitting(ticket.slot, d)))
    {
      hide Sane, InStep, Joint, SlotsOk, Ready;
      BothSides(Now());
      ghost var before := Now();
      result, ticket := coordinator.Submit(d);
      TakingKeepsSane(before, Now(), Calling(Submitting(ticket.slot, d)));
    }

    method UpdateDemand(t: Ticket, d: Demand) returns (result: StreamingResult)
      requires Valid() && forall r :: 0 <= r < |reconcilers| ==> CallOfOthers(Refreshing(t, d), ConsumerOf(reconcilers[r]))
      modifies coordinator`occupied, coordinator.slots
      ensures Valid() && Takes(old(Now()), Now(), Calling(Refreshing(t, d)))
    {
      hide Sane, InStep, Joint, SlotsOk, Ready;
      BothSides(Now());
      ghost var before := Now();
      result := coordinator.UpdateDemand(t, d);
      TakingKeepsSane(before, Now(), Calling(Refreshing(t, d)));
    }

    /** Anybody who has the ticket may cancel it. */
    method Cancel(t: Ticket) returns (result: StreamingResult)
      requires Valid()
      modifies coordinator`occupied, coordinator.slots
      ensures Valid() && Takes(old(Now()), Now(), Calling(Cancelling(t)))
    {
      hide Sane, InStep, Joint, SlotsOk, Ready;
      BothSides(Now());
      ghost var before := Now();
      result := coordinator.Cancel(t);
      TakingKeepsSane(before, Now(), Calling(Cancelling(t)));
    }

    method Open(capacity: nat, id: nat, generation: nat) returns (r: Reconciler)
      requires coordinator.Valid() && 0 < capacity <= coordinator.slots.Length && id != 0 && generation != 0
      requires forall s :: 0 <= s < coordinator.slots.Length ==> !Owned(coordinator.slots[s], id, generation)
      ensures fresh(r) && fresh(r.entries) && r.coordinator == coordinator && r.consumerId == id && r.consumerGeneration == generation
      ensures Ready(coordinator.slots[..], coordinator.issued, ConsumerOf(r))
    {
      r := new Reconciler(coordinator, capacity, id, generation);
    }

    /** A reconciler for a consumer that has none here, and no tickets. */
    method Add(capacity: nat, id: nat, generation: nat)
      requires Valid() && 0 < capacity <= coordinator.slots.Length && id != 0 && generation != 0
      requires forall s :: 0 <= s < coordinator.slots.Length ==> !Owned(coordinator.slots[s], id, generation)
      requires forall r :: 0 <= r < |reconcilers| ==> reconcilers[r].consumerId != id || reconcilers[r].consumerGeneration != generation
      modifies this`reconcilers
      ensures Valid() && |reconcilers| == |old(reconcilers)| + 1 && reconcilers[..|old(reconcilers)|] == old(reconcilers)
      ensures Now().view == old(Now().view) && fresh(reconcilers[|old(reconcilers)|])
    {
      hide Sane, Joint, SlotsOk, Ready, Owned;
      ghost var before := Now();
      assert forall i :: 0 <= i < |reconcilers| ==> before.consumers[i] == ConsumerOf(reconcilers[i]);
      var r := Open(capacity, id, generation);
      reconcilers := reconcilers + [r];
      assert Now() == before.(consumers := before.consumers + [ConsumerOf(r)]);
      JoiningKeepsSane(before, ConsumerOf(r));
    }
  }

  lemma JoiningKeepsSane(w: World, c: Consumer)
    requires Sane(w) && Ready(w.view.cs, w.issued, c)
    requires forall r :: 0 <= r < |w.consumers| ==> !SameConsumer(w.consumers[r], c)
    ensures Sane(w.(consumers := w.consumers + [c]))
  {
  }

  lemma NothingOfConsumers(w: World, step: Step)
    requires Sane(w) && !step.Calling?
    ensures |w.view.cs| == |w.view.bs| && forall r :: 0 <= r < |w.consumers| ==> StepOfOthers(step, w.consumers[r])
  {
  }

  lemma {:induction false} VisitsVisit(s: nat, n: nat, length: nat, accepts: Event -> bool)
    requires s < length
    ensures forall i :: 0 <= i < n ==> Visits(s, n, length, accepts)[i].Visiting?
    decreases n
  {
    if n > 0 {
      VisitsVisit(NextIn(s, length), n - 1, length, accepts);
    }
  }

  lemma {:induction false} VisitsKeepSane(w: World, steps: seq<Step>)
    requires Sane(w) && forall i :: 0 <= i < |steps| ==> steps[i].Visiting?
    ensures |w.view.cs| == |w.view.bs| && Sane(w.(view := Run(w.view, steps)))
  {
    hide Sane, Next;
    BothSides(w);
    if steps == [] {
      assert w.(view := w.view) == w;
    } else {
      var before := steps[..|steps| - 1];
      VisitsKeepSane(w, before);
      TakingKeepsSane(w.(view := Run(w.view, before)), w.(view := Run(w.view, steps)), steps[|steps| - 1]);
    }
  }
}
