/** The demand reconciler: once per epoch it brings one consumer's coordinator tickets in line with
    the set of units the consumer wants, admitting new demand by priority. */
module StreamingReconciler {
  import opened Digraph
  import opened StreamingCoordinator
  import opened Wrappers

  datatype Entry = Entry(key: UnitKey, ticket: Ticket, occupied: bool, retiring: bool)

  const CLEARED: Entry := Entry(UnitKey(0, 0, 0, 0, 0), Ticket(0, 0), false, false)

  datatype Stats = Stats(tracked: nat, submitted: nat, updated: nat, cancelled: nat, deferred: nat, retirePending: nat, epoch: nat)

  /** The slot holds a demand of this consumer. */
  predicate Owned(s: Slot, id: nat, generation: nat)
  {
    s.occupied && s.demand.consumerId == id && s.demand.consumerGeneration == generation
  }

  function TicketOf(slots: seq<Slot>, s: nat): Ticket
    requires s < |slots|
  {
    Ticket(s, slots[s].generation)
  }

  predicate Has(entries: seq<Entry>, key: UnitKey)
  {
    exists i :: 0 <= i < |entries| && entries[i].occupied && entries[i].key == key
  }

  ghost predicate KeysDistinct(entries: seq<Entry>)
  {
    forall i, j :: 0 <= i < j < |entries| && entries[i].occupied && entries[j].occupied ==> entries[i].key != entries[j].key
  }

  /** The entry carries a ticket that was handed out; while it is current, its slot holds the
      entry's unit for this consumer, and has been cancelled if the entry is retiring. */
  ghost predicate EntryOk(slots: seq<Slot>, issued: set<Ticket>, e: Entry, id: nat, generation: nat)
  {
    e.occupied ==>
      && e.ticket in issued
      && (Current(slots, e.ticket) ==>
            && Owned(slots[e.ticket.slot], id, generation) && slots[e.ticket.slot].demand.key == e.key
            && (e.retiring ==> slots[e.ticket.slot].cancelled))
  }

  /** Every slot of this consumer is tracked by an entry with its ticket and unit. */
  ghost predicate Covered(slots: seq<Slot>, entries: seq<Entry>, id: nat, generation: nat)
  {
    forall s :: 0 <= s < |slots| && Owned(slots[s], id, generation) ==> Tracked(slots, entries, s)
  }

  ghost predicate Tracked(slots: seq<Slot>, entries: seq<Entry>, s: nat)
    requires s < |slots|
  {
    exists i :: 0 <= i < |entries| && entries[i].occupied && entries[i].ticket == TicketOf(slots, s) && entries[i].key == slots[s].demand.key
  }

  ghost predicate Tracks(slots: seq<Slot>, issued: set<Ticket>, entries: seq<Entry>, id: nat, generation: nat)
  {
    && KeysDistinct(entries) && Covered(slots, entries, id, generation)
    && (forall i :: 0 <= i < |entries| ==> EntryOk(slots, issued, entries[i], id, generation))
  }

  /** The unit is tracked by an entry whose ticket has not been given up. */
  ghost predicate HasCurrent(slots: seq<Slot>, entries: seq<Entry>, key: UnitKey)
  {
    exists i :: 0 <= i < |entries| && entries[i].occupied && entries[i].key == key && Current(slots, entries[i].ticket)
  }

  ghost predicate Wanted(demands: seq<Demand>, key: UnitKey)
  {
    exists d :: 0 <= d < |demands| && demands[d].key == key
  }

  /** No entry is left over from a ticket that has been given up. */
  ghost predicate AllCurrent(slots: seq<Slot>, entries: seq<Entry>)
  {
    forall i :: 0 <= i < |entries| && entries[i].occupied ==> Current(slots, entries[i].ticket)
  }

  /** The consumer's slots hold demands of epochs up to this one. */
  ghost predicate EpochsPast(slots: seq<Slot>, id: nat, generation: nat, epoch: nat)
  {
    forall s :: 0 <= s < |slots| && Owned(slots[s], id, generation) ==> slots[s].demand.epoch <= epoch
  }

  /** An entry that is not retiring has the very demand of these that asks for its unit. */
  ghost predicate Fresh(slots: seq<Slot>, e: Entry, d: Demand)
  {
    e.occupied && !e.retiring && e.key == d.key ==> e.ticket.slot < |slots| && slots[e.ticket.slot].demand == d
  }

  ghost predicate AllFresh(demands: seq<Demand>, slots: seq<Slot>, entries: seq<Entry>)
  {
    forall d, i :: 0 <= d < |demands| && 0 <= i < |entries| ==> Fresh(slots, entries[i], demands[d])
  }

  ghost predicate UnwantedRetires(demands: seq<Demand>, entries: seq<Entry>)
  {
    forall i :: 0 <= i < |entries| && entries[i].occupied && !entries[i].retiring ==> Wanted(demands, entries[i].key)
  }

  /** What a reconciliation leaves: an entry either holds exactly the demand that is wanted now, or
      its ticket has been cancelled and only has to wind down. */
  ghost predicate Settled(demands: seq<Demand>, slots: seq<Slot>, entries: seq<Entry>)
  {
    forall i :: 0 <= i < |entries| && entries[i].occupied ==>
      && Current(slots, entries[i].ticket)
      && if entries[i].retiring then slots[entries[i].ticket.slot].cancelled
         else exists d :: 0 <= d < |demands| && demands[d].key == entries[i].key && slots[entries[i].ticket.slot].demand == demands[d]
  }

  ghost predicate Refreshed(demands: seq<Demand>, slots: seq<Slot>, entries: seq<Entry>)
  {
    AllFresh(demands, slots, entries) && UnwantedRetires(demands, entries)
  }

  /** Entries that are wanted, and the slots of their current tickets, are as before. */
  ghost predicate Spared(demands: seq<Demand>, slots: seq<Slot>, slots': seq<Slot>, entries: seq<Entry>, entries': seq<Entry>)
  {
    && |slots'| == |slots| && |entries'| == |entries|
    && forall i :: 0 <= i < |entries| && entries[i].occupied && Wanted(demands, entries[i].key) && Current(slots, entries[i].ticket) ==>
         entries'[i] == entries[i] && slots'[entries[i].ticket.slot] == slots[entries[i].ticket.slot]
  }

  lemma SparedFurther(demands: seq<Demand>, slots: seq<Slot>, slots': seq<Slot>, slots'': seq<Slot>,
                      entries: seq<Entry>, entries': seq<Entry>, entries'': seq<Entry>)
    requires Spared(demands, slots, slots', entries, entries') && Spared(demands, slots', slots'', entries', entries'')
    ensures Spared(demands, slots, slots'', entries, entries'')
  {
  }

  /** The entry's ticket can be brought up to the demand: it is wanted, under way, and not asked to do less
      than it has already done. */
  ghost predicate Refreshable(slots: seq<Slot>, e: Entry, d: Demand)
  {
    && e.occupied && !e.retiring && e.key == d.key && Current(slots, e.ticket)
    && var s := slots[e.ticket.slot]; !s.cancelled && s.stage != Retiring && (s.stage == Active ==> d.target == ToActive)
  }

  /** What can be refreshed is not given up: it is tracked by the same ticket as before. */
  ghost predicate RefreshableStay(demands: seq<Demand>, slots: seq<Slot>, entries: seq<Entry>, entries': seq<Entry>)
  {
    && |entries'| == |entries|
    && forall i, d :: 0 <= i < |entries| && 0 <= d < |demands| && Refreshable(slots, entries[i], demands[d]) ==> entries'[i] == entries[i]
  }

  /** Of the first n demands, those that could be refreshed are tracked as before; the others' entries and
      slots have not been touched. */
  ghost predicate Served(demands: seq<Demand>, n: nat, slots: seq<Slot>, slots': seq<Slot>, entries: seq<Entry>, entries': seq<Entry>)
  {
    && |slots'| == |slots| && |entries'| == |entries|
    && forall i, d :: 0 <= i < |entries| && 0 <= d < |demands| && Refreshable(slots, entries[i], demands[d]) ==>
         entries'[i] == entries[i] && (n <= d ==> slots'[entries[i].ticket.slot] == slots[entries[i].ticket.slot])
  }

  /** One demand has been dealt with: its entry stays as it is if it could be refreshed, and no other entry
      or its slot has been touched. */
  ghost predicate ServedOne(d: Demand, slots: seq<Slot>, slots': seq<Slot>, entries: seq<Entry>, entries': seq<Entry>)
  {
    && |slots'| == |slots| && |entries'| == |entries|
    && (forall i :: 0 <= i < |entries| && entries[i].occupied && entries[i].key != d.key && Current(slots, entries[i].ticket) ==>
          entries'[i] == entries[i] && slots'[entries[i].ticket.slot] == slots[entries[i].ticket.slot])
    && (forall i :: 0 <= i < |entries| && Refreshable(slots, entries[i], d) ==> entries'[i] == entries[i])
  }

  lemma ServedGrows(demands: seq<Demand>, n: nat, slots: seq<Slot>, slots': seq<Slot>, slots'': seq<Slot>,
                    entries: seq<Entry>, entries': seq<Entry>, entries'': seq<Entry>)
    requires n < |demands| && Served(demands, n, slots, slots', entries, entries') && AllCurrent(slots', entries')
    requires forall a, b :: 0 <= a < b < |demands| ==> demands[a].key != demands[b].key
    requires ServedOne(demands[n], slots', slots'', entries', entries'')
    ensures Served(demands, n + 1, slots, slots'', entries, entries'')
  {
  }

  lemma NothingServed(demands: seq<Demand>, slots: seq<Slot>, entries: seq<Entry>)
    ensures Served(demands, 0, slots, slots, entries, entries)
  {
  }

  /** Entries of other units, and the slots they name, are as before. */
  ghost predicate OthersKept(slots: seq<Slot>, slots': seq<Slot>, entries: seq<Entry>, entries': seq<Entry>, key: UnitKey)
  {
    && |slots'| == |slots| && |entries'| == |entries|
    && forall i :: 0 <= i < |entries'| && entries'[i].occupied && entries'[i].key != key ==>
         entries'[i] == entries[i] && (entries[i].ticket.slot < |slots| ==> slots'[entries[i].ticket.slot] == slots[entries[i].ticket.slot])
  }

  /** Once one more demand has been dealt with, the demands before it are still fresh. */
  lemma FreshGrows(demands: seq<Demand>, n: nat, slots: seq<Slot>, slots': seq<Slot>, entries: seq<Entry>, entries': seq<Entry>)
    requires n < |demands| && AllFresh(demands[..n], slots, entries)
    requires forall a, b :: 0 <= a < b < |demands| ==> demands[a].key != demands[b].key
    requires OthersKept(slots, slots', entries, entries', demands[n].key)
    requires forall i :: 0 <= i < |entries'| ==> Fresh(slots', entries'[i], demands[n])
    ensures AllFresh(demands[..n + 1], slots', entries')
  {
    forall d, i | 0 <= d < n + 1 && 0 <= i < |entries'| ensures Fresh(slots', entries'[i], demands[d]) {
      if d < n && entries'[i].occupied && entries'[i].key == demands[d].key {
        assert Fresh(slots, entries[i], demands[..n][d]);
      }
    }
  }

  /** Admitting a wanted demand keeps everything refreshed. */
  lemma RefreshedStays(demands: seq<Demand>, n: nat, slots: seq<Slot>, slots': seq<Slot>, entries: seq<Entry>, entries': seq<Entry>)
    requires n < |demands| && Refreshed(demands, slots, entries)
    requires forall a, b :: 0 <= a < b < |demands| ==> demands[a].key != demands[b].key
    requires OthersKept(slots, slots', entries, entries', demands[n].key)
    requires forall i :: 0 <= i < |entries'| ==> Fresh(slots', entries'[i], demands[n])
    ensures Refreshed(demands, slots', entries')
  {
    forall d, i | 0 <= d < |demands| && 0 <= i < |entries'| ensures Fresh(slots', entries'[i], demands[d]) {
      if d != n && entries'[i].occupied && entries'[i].key == demands[d].key {
        assert Fresh(slots, entries[i], demands[d]);
      }
    }
    forall i | 0 <= i < |entries'| && entries'[i].occupied && !entries'[i].retiring ensures Wanted(demands, entries'[i].key) {
      if entries'[i].key == demands[n].key {
        assert demands[n].key == entries'[i].key;
      }
    }
  }

  lemma NotTrackedIsFresh(slots: seq<Slot>, entries: seq<Entry>, d: Demand)
    requires !Has(entries, d.key)
    ensures forall i :: 0 <= i < |entries| ==> Fresh(slots, entries[i], d)
  {
  }

  lemma OnlyOneHas(slots: seq<Slot>, issued: set<Ticket>, entries: seq<Entry>, id: nat, generation: nat, i: nat, d: Demand)
    requires Tracks(slots, issued, entries, id, generation) && i < |entries| && entries[i].occupied && entries[i].key == d.key
    ensures forall j :: 0 <= j < |entries| && j != i ==> !(entries[j].occupied && entries[j].key == d.key)
  {
  }

  lemma FreshIsSettled(demands: seq<Demand>, slots: seq<Slot>, issued: set<Ticket>, entries: seq<Entry>, id: nat, generation: nat)
    requires Tracks(slots, issued, entries, id, generation) && AllCurrent(slots, entries)
    requires AllFresh(demands, slots, entries) && UnwantedRetires(demands, entries)
    ensures Settled(demands, slots, entries)
  {
    forall i | 0 <= i < |entries| && entries[i].occupied && !entries[i].retiring
      ensures exists d :: 0 <= d < |demands| && demands[d].key == entries[i].key && slots[entries[i].ticket.slot].demand == demands[d]
    {
      var d :| 0 <= d < |demands| && demands[d].key == entries[i].key;
      assert Fresh(slots, entries[i], demands[d]);
    }
    forall i | 0 <= i < |entries| && entries[i].occupied && entries[i].retiring ensures slots[entries[i].ticket.slot].cancelled {
      assert EntryOk(slots, issued, entries[i], id, generation) && Current(slots, entries[i].ticket);
    }
  }

  /** Entries and the consumer's slots correspond one to one. */
  lemma OneToOne(slots: seq<Slot>, issued: set<Ticket>, entries: seq<Entry>, id: nat, generation: nat, s: nat)
    requires Tracks(slots, issued, entries, id, generation) && AllCurrent(slots, entries) && s < |slots|
    ensures Owned(slots[s], id, generation) <==>
      exists i :: 0 <= i < |entries| && entries[i].occupied && entries[i].ticket == TicketOf(slots, s)
    ensures forall i, j :: 0 <= i < j < |entries| && entries[i].occupied && entries[j].occupied ==> entries[i].ticket != entries[j].ticket
  {
    if Owned(slots[s], id, generation) {
      assert Tracked(slots, entries, s);
    }
    if i :| 0 <= i < |entries| && entries[i].occupied && entries[i].ticket == TicketOf(slots, s) {
      assert EntryOk(slots, issued, entries[i], id, generation) && Current(slots, entries[i].ticket);
    }
    forall i, j | 0 <= i < j < |entries| && entries[i].occupied && entries[j].occupied ensures entries[i].ticket != entries[j].ticket {
      assert EntryOk(slots, issued, entries[i], id, generation) && EntryOk(slots, issued, entries[j], id, generation);
    }
  }

  // ---------------------------------------------------------------- what others may do in between

  /** Tickets are kept, cancelled or given up, and slots are taken for other consumers only. */
  ghost predicate TicketsFollow(slots: seq<Slot>, slots': seq<Slot>, id: nat, generation: nat)
  {
    && |slots'| == |slots|
    && forall s :: 0 <= s < |slots| ==>
         && slots[s].generation <= slots'[s].generation
         && (Owned(slots'[s], id, generation) || (slots'[s].occupied && slots[s].occupied && slots'[s].generation == slots[s].generation) ==>
               && slots[s].occupied && slots'[s].generation == slots[s].generation && SameRequest(slots'[s].demand, slots[s].demand)
               && (slots[s].cancelled ==> slots'[s].cancelled))
  }

  /** What everybody but this consumer does: its demands stay as they are while its tickets do. */
  ghost predicate Foreign(slots: seq<Slot>, slots': seq<Slot>, id: nat, generation: nat)
  {
    && TicketsFollow(slots, slots', id, generation)
    && forall s :: 0 <= s < |slots| && Owned(slots'[s], id, generation) ==> slots'[s].demand == slots[s].demand
  }

  lemma TracksFollow(slots: seq<Slot>, slots': seq<Slot>, issued: set<Ticket>, issued': set<Ticket>, entries: seq<Entry>, id: nat, generation: nat)
    requires Tracks(slots, issued, entries, id, generation) && SlotsOk(slots, issued) && SlotsOk(slots', issued')
    requires TicketsFollow(slots, slots', id, generation) && issued <= issued'
    ensures Tracks(slots', issued', entries, id, generation)
  {
    forall s | 0 <= s < |slots'| && Owned(slots'[s], id, generation) ensures Tracked(slots', entries, s) {
      assert Owned(slots[s], id, generation) && Tracked(slots, entries, s);
    }
    forall i | 0 <= i < |entries| ensures EntryOk(slots', issued', entries[i], id, generation) {
      assert EntryOk(slots, issued, entries[i], id, generation);
      if entries[i].occupied && Current(slots', entries[i].ticket) {
        assert Current(slots, entries[i].ticket);
      }
    }
  }

  /** The next reconciliation finds everything as it needs it, whatever others have done. */
  lemma OthersKeepTracks(slots: seq<Slot>, slots': seq<Slot>, issued: set<Ticket>, issued': set<Ticket>, entries: seq<Entry>,
                         id: nat, generation: nat, epoch: nat)
    requires Tracks(slots, issued, entries, id, generation) && SlotsOk(slots, issued) && SlotsOk(slots', issued')
    requires EpochsPast(slots, id, generation, epoch)
    requires Foreign(slots, slots', id, generation) && issued <= issued'
    ensures Tracks(slots', issued', entries, id, generation) && EpochsPast(slots', id, generation, epoch)
  {
    TracksFollow(slots, slots', issued, issued', entries, id, generation);
  }

  /** Keeping tickets and giving them up is all that tracking asks for. */
  lemma KeepingTicketsFollows(slots: seq<Slot>, slots': seq<Slot>, id: nat, generation: nat)
    requires |slots'| == |slots|
    requires forall s :: 0 <= s < |slots| ==>
      || slots'[s] == slots[s] || slots'[s] == Released(slots[s])
      || (slots[s].occupied && slots'[s].occupied && slots'[s].generation == slots[s].generation
          && SameRequest(slots'[s].demand, slots[s].demand) && (slots[s].cancelled ==> slots'[s].cancelled))
    ensures TicketsFollow(slots, slots', id, generation)
  {
  }

  // ---------------------------------------------------------------- what a reconciliation asks of the coordinator

  /** A call for this consumer. */
  predicate CallFor(call: Call, id: nat, generation: nat)
  {
    call.Cancelling? || (call.demand.consumerId == id && call.demand.consumerGeneration == generation)
  }

  ghost predicate AllFor(calls: seq<Call>, id: nat, generation: nat)
  {
    forall i :: 0 <= i < |calls| ==> CallFor(calls[i], id, generation)
  }

  /** The coordinator has come from one state to another by calls for this consumer. */
  ghost predicate Edited(b: Book, b': Book, id: nat, generation: nat)
  {
    exists calls: seq<Call> :: AllFor(calls, id, generation) && AfterCalls(b, calls) == b'
  }

  lemma NothingEdited(b: Book, id: nat, generation: nat)
    ensures Edited(b, b, id, generation)
  {
    var none: seq<Call> := [];
    assert AllFor(none, id, generation) && AfterCalls(b, none) == b;
  }

  lemma EditedOnce(b: Book, b': Book, id: nat, generation: nat, call: Call)
    requires Edited(b, b', id, generation) && CallFor(call, id, generation)
    ensures Edited(b, Book(AfterCall(b'.slots, call), IssuedAfter(b'.slots, b'.issued, call)), id, generation)
  {
    var calls: seq<Call> :| AllFor(calls, id, generation) && AfterCalls(b, calls) == b';
    var more := calls + [call];
    assert more[..|more| - 1] == calls;
    assert AllFor(more, id, generation) && AfterCalls(b, more) == Book(AfterCall(b'.slots, call), IssuedAfter(b'.slots, b'.issued, call));
  }

  // ---------------------------------------------------------------- the wanted set

  ghost predicate DemandFits(d: Demand, id: nat, generation: nat, epoch: nat)
  {
    && d.consumerId == id && d.consumerGeneration == generation && d.epoch == epoch
    && d.key.unitId != 0 && d.key.manifestGeneration != 0 && d.key.kind < UNIT_COUNT && !d.target.OutOfRange?
  }

  ghost predicate SetOk(demands: seq<Demand>, id: nat, generation: nat, epoch: nat)
  {
    && (forall d :: 0 <= d < |demands| ==> DemandFits(demands[d], id, generation, epoch))
    && (forall a, b :: 0 <= a < b < |demands| ==> demands[a].key != demands[b].key)
  }

  /** Higher priority first; equal priorities in input order. */
  ghost predicate Precedes(demands: seq<Demand>, a: nat, b: nat)
    requires a < |demands| && b < |demands|
  {
    if demands[a].priority != demands[b].priority then demands[a].priority > demands[b].priority else a < b
  }

  // ---------------------------------------------------------------- the steps of a reconciliation, on values

  lemma ClearKeepsTracks(slots: seq<Slot>, issued: set<Ticket>, entries: seq<Entry>, id: nat, generation: nat, i: nat)
    requires Tracks(slots, issued, entries, id, generation) && i < |entries| && !Current(slots, entries[i].ticket)
    requires forall s :: 0 <= s < |slots| ==> slots[s].occupied ==> slots[s].generation != 0
    ensures Tracks(slots, issued, entries[i := CLEARED], id, generation)
  {
    var entries' := entries[i := CLEARED];
    forall s | 0 <= s < |slots| && Owned(slots[s], id, generation) ensures Tracked(slots, entries', s) {
      assert Tracked(slots, entries, s);
      var j :| 0 <= j < |entries| && entries[j].occupied && entries[j].ticket == TicketOf(slots, s) && entries[j].key == slots[s].demand.key;
      assert entries'[j] == entries[j];
    }
    forall j | 0 <= j < |entries'| ensures EntryOk(slots, issued, entries'[j], id, generation) {
      assert EntryOk(slots, issued, entries[j], id, generation);
    }
  }

  /** Entries that differ in their retiring marks only. */
  ghost predicate SameTracking(a: seq<Entry>, b: seq<Entry>)
  {
    && |a| == |b|
    && forall i :: 0 <= i < |a| ==> a[i].key == b[i].key && a[i].ticket == b[i].ticket && a[i].occupied == b[i].occupied
  }

  lemma MarkKeepsTracks(slots: seq<Slot>, issued: set<Ticket>, entries: seq<Entry>, entries': seq<Entry>, id: nat, generation: nat)
    requires Tracks(slots, issued, entries, id, generation) && SameTracking(entries, entries')
    requires forall i :: 0 <= i < |entries| && entries'[i].retiring && !entries[i].retiring && Current(slots, entries[i].ticket) ==>
      slots[entries[i].ticket.slot].cancelled
    ensures Tracks(slots, issued, entries', id, generation)
  {
    forall s | 0 <= s < |slots| && Owned(slots[s], id, generation) ensures Tracked(slots, entries', s) {
      assert Tracked(slots, entries, s);
      var j :| 0 <= j < |entries| && entries[j].occupied && entries[j].ticket == TicketOf(slots, s) && entries[j].key == slots[s].demand.key;
      assert entries'[j].ticket == TicketOf(slots, s);
    }
    forall j | 0 <= j < |entries'| ensures EntryOk(slots, issued, entries'[j], id, generation) {
      assert EntryOk(slots, issued, entries[j], id, generation);
    }
  }

  lemma SubmitKeepsTracks(slots: seq<Slot>, issued: set<Ticket>, entries: seq<Entry>, id: nat, generation: nat, s: nat, d: Demand, f: nat)
    requires Tracks(slots, issued, entries, id, generation) && SlotsOk(slots, issued)
    requires s < |slots| && !slots[s].occupied && f < |entries| && !entries[f].occupied && !Has(entries, d.key)
    requires d.consumerId == id && d.consumerGeneration == generation
    ensures Tracks(slots[s := Slot(d, slots[s].generation, Queued, true, false)], issued + {TicketOf(slots, s)},
                   entries[f := Entry(d.key, TicketOf(slots, s), true, false)], id, generation)
  {
    var slots' := slots[s := Slot(d, slots[s].generation, Queued, true, false)];
    var entries' := entries[f := Entry(d.key, TicketOf(slots, s), true, false)];
    forall q | 0 <= q < |slots'| && Owned(slots'[q], id, generation) ensures Tracked(slots', entries', q) {
      if q == s {
        assert entries'[f].ticket == TicketOf(slots', q);
      } else {
        assert Tracked(slots, entries, q);
        var j :| 0 <= j < |entries| && entries[j].occupied && entries[j].ticket == TicketOf(slots, q) && entries[j].key == slots[q].demand.key;
        assert entries'[j] == entries[j];
      }
    }
    forall j | 0 <= j < |entries'| ensures EntryOk(slots', issued + {TicketOf(slots, s)}, entries'[j], id, generation) {
      assert EntryOk(slots, issued, entries[j], id, generation);
    }
  }

  /** A unit some slot holds for this consumer is tracked; so submitting an untracked one is never
      a duplicate. */
  lemma DuplicateIsTracked(slots: seq<Slot>, issued: set<Ticket>, entries: seq<Entry>, d: Demand, s: nat)
    requires Tracks(slots, issued, entries, d.consumerId, d.consumerGeneration) && s < |slots|
    requires slots[s].occupied && SameRequest(slots[s].demand, d)
    ensures Has(entries, d.key)
  {
    assert Owned(slots[s], d.consumerId, d.consumerGeneration) && Tracked(slots, entries, s);
  }

  // ---------------------------------------------------------------- admission by priority

  /** The demands up to and including one, in admission order. */
  ghost function UpTo(demands: seq<Demand>, last: Option<nat>): (seen: set<nat>)
    requires last.Some? ==> last.value < |demands|
    ensures forall c: nat :: c in seen <==> last.Some? && c < |demands| && (c == last.value || Precedes(demands, c, last.value))
  {
    if last.None? then {} else set c | c in Below(|demands|) && (c == last.value || Precedes(demands, c, last.value))
  }

  ghost predicate IsNext(demands: seq<Demand>, last: Option<nat>, next: nat)
    requires last.Some? ==> last.value < |demands|
  {
    && next < |demands| && next !in UpTo(demands, last)
    && forall c: nat :: c < |demands| && c !in UpTo(demands, last) ==> c == next || Precedes(demands, next, c)
  }

  lemma NextIsOneMore(demands: seq<Demand>, last: Option<nat>, next: nat)
    requires (last.Some? ==> last.value < |demands|) && IsNext(demands, last, next)
    ensures UpTo(demands, Some(next)) == UpTo(demands, last) + {next}
    ensures |UpTo(demands, Some(next))| == |UpTo(demands, last)| + 1
  {
    hide Precedes;
    forall c: nat ensures c in UpTo(demands, Some(next)) <==> c in UpTo(demands, last) + {next} {
      if c < |demands| {
        if c != next {
          InOneOrder(demands, c, next);
        }
        if last.Some? {
          InOneOrder(demands, last.value, next);
          OrderContinues(demands, c, last.value, next);
        }
      }
    }
  }

  lemma InOneOrder(demands: seq<Demand>, a: nat, b: nat)
    requires a < |demands| && b < |demands| && a != b
    ensures Precedes(demands, a, b) <==> !Precedes(demands, b, a)
  {
  }

  lemma OrderContinues(demands: seq<Demand>, a: nat, b: nat, c: nat)
    requires a < |demands| && b < |demands| && c < |demands|
    ensures Precedes(demands, a, b) && Precedes(demands, b, c) ==> Precedes(demands, a, c)
  {
  }

  ghost predicate NoRoom(slots: seq<Slot>, entries: seq<Entry>)
  {
    (forall i :: 0 <= i < |entries| ==> entries[i].occupied) || Full(slots)
  }

  /** The units tracked when admission began. */
  ghost function KeySet(entries: seq<Entry>): (keys: set<UnitKey>)
    ensures forall k :: k in keys <==> Has(entries, k)
  {
    set i | 0 <= i < |entries| && entries[i].occupied :: entries[i].key
  }

  /** Indices of the demands that were not tracked. */
  ghost function Untracked(demands: seq<Demand>, keys: set<UnitKey>): (u: set<nat>)
    ensures forall c: nat :: c in u <==> c < |demands| && demands[c].key !in keys
  {
    set c | c in Below(|demands|) && demands[c].key !in keys
  }

  /** Of the untracked demands considered so far, those admitted come before those that are not,
      and none is refused while there is room. */
  ghost predicate PrefixAdmitted(demands: seq<Demand>, keys: set<UnitKey>, seen: set<nat>, slots: seq<Slot>, entries: seq<Entry>)
  {
    && (forall a: nat :: a in seen && a < |demands| && a in Untracked(demands, keys) && !Has(entries, demands[a].key) ==> NoRoom(slots, entries))
    && (forall a: nat, b: nat ::
          (a in seen && b in seen && a < |demands| && b < |demands| && Precedes(demands, a, b)
           && a in Untracked(demands, keys) && b in Untracked(demands, keys) && Has(entries, demands[b].key)) ==>
            Has(entries, demands[a].key))
  }

  /** Of two demands that were not tracked, the one admitted while the other is not has the higher
      priority, or the same priority and the earlier place in the input. */
  ghost predicate AdmittedByPriority(demands: seq<Demand>, keys: set<UnitKey>, entries: seq<Entry>)
  {
    forall a: nat, b: nat ::
      a < |demands| && b < |demands| && demands[a].key !in keys && demands[b].key !in keys
      && Has(entries, demands[a].key) && !Has(entries, demands[b].key) ==>
        demands[a].priority > demands[b].priority || (demands[a].priority == demands[b].priority && a < b)
  }

  lemma PrefixIsByPriority(demands: seq<Demand>, keys: set<UnitKey>, slots: seq<Slot>, entries: seq<Entry>)
    requires PrefixAdmitted(demands, keys, Below(|demands|), slots, entries)
    ensures AdmittedByPriority(demands, keys, entries)
  {
    hide Precedes;
    forall a: nat, b: nat |
      a < |demands| && b < |demands| && demands[a].key !in keys && demands[b].key !in keys
      && Has(entries, demands[a].key) && !Has(entries, demands[b].key)
      ensures demands[a].priority > demands[b].priority || (demands[a].priority == demands[b].priority && a < b)
    {
      assert a in Untracked(demands, keys) && b in Untracked(demands, keys);
      assert !Precedes(demands, b, a);
      NotPreceding(demands, a, b);
    }
  }

  lemma NotPreceding(demands: seq<Demand>, a: nat, b: nat)
    requires a < |demands| && b < |demands| && a != b && !Precedes(demands, b, a)
    ensures demands[a].priority > demands[b].priority || (demands[a].priority == demands[b].priority && a < b)
  {
  }

  /** A demand considered next is admitted if and only if there is room for it. */
  lemma AdmissionExtends(demands: seq<Demand>, keys: set<UnitKey>, seen: set<nat>, next: nat,
                         slots: seq<Slot>, entries: seq<Entry>, slots': seq<Slot>, entries': seq<Entry>)
    requires PrefixAdmitted(demands, keys, seen, slots, entries) && next < |demands| && next !in seen
    requires forall c: nat :: c in seen && c < |demands| ==> Precedes(demands, c, next)
    requires forall k :: Has(entries', k) <==> Has(entries, k) || (k == demands[next].key && Has(entries', k))
    requires next in Untracked(demands, keys) && Has(entries', demands[next].key) ==> !NoRoom(slots, entries)
    requires next in Untracked(demands, keys) && !Has(entries', demands[next].key) ==> NoRoom(slots', entries')
    requires NoRoom(slots, entries) ==> NoRoom(slots', entries')
    requires forall c: nat :: c in seen && c < |demands| ==> demands[c].key != demands[next].key
    ensures PrefixAdmitted(demands, keys, seen + {next}, slots', entries')
  {
  }

  class Reconciler {
    const coordinator: Coordinator
    const entries: array<Entry>
    const consumerId: nat
    const consumerGeneration: nat
    var lastEpoch: nat
    /** The coordinator at the start of the last reconciliation. */
    ghost var start: Book

    ghost predicate Valid()
      reads this, entries, coordinator, coordinator.slots
      ensures Valid() ==> coordinator.Valid()
    {
      Tracking() && EpochsPast(coordinator.slots[..], consumerId, consumerGeneration, lastEpoch)
    }

    ghost function Books(): Book
      reads coordinator, coordinator.slots
    {
      Book(coordinator.slots[..], coordinator.issued)
    }

    /** Between validation and the end of a reconciliation for an epoch. */
    ghost predicate Editing(epoch: nat)
      reads this, entries, coordinator, coordinator.slots
      ensures Editing(epoch) ==> coordinator.Valid() && Tracking()
    {
      && Tracking() && EpochsPast(coordinator.slots[..], consumerId, consumerGeneration, epoch)
      && Edited(start, Books(), consumerId, consumerGeneration)
    }

    ghost predicate Tracking()
      reads this, entries, coordinator, coordinator.slots
      ensures Tracking() ==> coordinator.Valid()
    {
      && coordinator.Valid() && consumerId != 0 && consumerGeneration != 0
      && Tracks(coordinator.slots[..], coordinator.issued, entries[..], consumerId, consumerGeneration)
    }

    /** A reconciler starts for a consumer identity that has no tickets yet. */
    constructor (coordinator: Coordinator, capacity: nat, consumerId: nat, consumerGeneration: nat)
      requires coordinator.Valid() && 0 < capacity <= coordinator.slots.Length && consumerId != 0 && consumerGeneration != 0
      requires forall s :: 0 <= s < coordinator.slots.Length ==> !Owned(coordinator.slots[s], consumerId, consumerGeneration)
      ensures Valid() && lastEpoch == 0 && fresh(entries) && entries.Length == capacity && this.coordinator == coordinator
      ensures this.consumerId == consumerId && this.consumerGeneration == consumerGeneration
      ensures forall i :: 0 <= i < capacity ==> !entries[i].occupied
    {
      this.coordinator, this.consumerId, this.consumerGeneration := coordinator, consumerId, consumerGeneration;
      entries := new Entry[capacity](i => CLEARED);
      lastEpoch, start := 0, Book([], {});
    }

    method FindEntry(key: UnitKey) returns (found: Option<nat>)
      ensures found.Some? ==> found.value < entries.Length && entries[found.value].occupied && entries[found.value].key == key
      ensures found.None? <==> !Has(entries[..], key)
    {
      for i: nat := 0 to entries.Length
        invariant forall j :: 0 <= j < i ==> !(entries[j].occupied && entries[j].key == key)
      {
        if entries[i].occupied && entries[i].key == key {
          assert Has(entries[..], key) by {
            assert entries[..][i] == entries[i];
          }
          return Some(i);
        }
      }
      return None;
    }

    /** Accept exactly the sets that can be reconciled: nothing is edited before this. */
    method ValidateSet(demands: seq<Demand>, epoch: nat) returns (result: StreamingResult)
      ensures result == Ok <==>
        lastEpoch < epoch && |demands| <= entries.Length && SetOk(demands, consumerId, consumerGeneration, epoch)
      ensures result in {Ok, InvalidArgument, OutOfCapacity, Duplicate}
    {
      if epoch == 0 || epoch <= lastEpoch {
        return InvalidArgument;
      }
      if |demands| > entries.Length {
        return OutOfCapacity;
      }
      for d := 0 to |demands|
        invariant forall i :: 0 <= i < d ==> DemandFits(demands[i], consumerId, consumerGeneration, epoch)
        invariant forall a, b :: 0 <= a < b < d ==> demands[a].key != demands[b].key
      {
        var demand := demands[d];
        if demand.consumerId != consumerId || demand.consumerGeneration != consumerGeneration || demand.epoch != epoch
          || demand.key.unitId == 0 || demand.key.manifestGeneration == 0 || demand.key.kind >= UNIT_COUNT
          || (demand.target != ToPrepared && demand.target != ToActive) {
          return InvalidArgument;
        }
        for previous := 0 to d
          invariant forall a :: 0 <= a < previous ==> demands[a].key != demands[d].key
        {
          if demands[previous].key == demands[d].key {
            return Duplicate;
          }
        }
      }
      return Ok;
    }

    /** Forget entries whose tickets have been given up. */
    method PruneReleased(ghost epoch: nat)
      requires Editing(epoch)
      modifies entries
      ensures Editing(epoch) && AllCurrent(coordinator.slots[..], entries[..])
      ensures forall i :: 0 <= i < entries.Length ==>
        entries[i] == if old(entries[i]).occupied && !Current(coordinator.slots[..], old(entries[i]).ticket) then CLEARED else old(entries[i])
    {
      ghost var slots := coordinator.slots[..];
      for i: nat := 0 to entries.Length
        invariant Editing(epoch)
        invariant forall j :: 0 <= j < i ==>
          entries[j] == if old(entries[j]).occupied && !Current(slots, old(entries[j]).ticket) then CLEARED else old(entries[j])
        invariant forall j :: i <= j < entries.Length ==> entries[j] == old(entries[j])
      {
        if entries[i].occupied {
          var current := coordinator.IsValid(entries[i].ticket);
          if !current {
            ClearEntry(i, epoch);
          }
        }
      }
    }

    method ClearEntry(i: nat, ghost epoch: nat)
      requires Editing(epoch) && i < entries.Length && !Current(coordinator.slots[..], entries[i].ticket)
      modifies entries
      ensures Editing(epoch) && entries[..] == old(entries[..])[i := CLEARED]
    {
      ClearKeepsTracks(coordinator.slots[..], coordinator.issued, entries[..], consumerId, consumerGeneration, i);
      ghost var before := entries[..];
      entries[i] := CLEARED;
      assert entries[..] == before[i := CLEARED];
    }

    /** Cancel the ticket of one entry and mark the entry. */
    method CancelEntry(i: nat, ghost epoch: nat)
      requires Editing(epoch) && i < entries.Length && entries[i].occupied && Current(coordinator.slots[..], entries[i].ticket)
      modifies entries, coordinator`occupied, coordinator.slots
      ensures Editing(epoch) && entries[..] == old(entries[..])[i := old(entries[i]).(retiring := true)]
      ensures var s := old(entries[i]).ticket.slot;
        s < coordinator.slots.Length && coordinator.slots[..] == old(coordinator.slots[..])[s := Cancelled(old(coordinator.slots[s]))]
    {
      ghost var before, was := coordinator.slots[..], entries[..];
      var result := coordinator.Cancel(entries[i].ticket);
      entries[i] := entries[i].(retiring := true);
      assert entries[..] == was[i := was[i].(retiring := true)];
      EditedOnce(start, Book(before, coordinator.issued), consumerId, consumerGeneration, Cancelling(was[i].ticket));
      KeepingTicketsFollows(before, coordinator.slots[..], consumerId, consumerGeneration);
      TracksFollow(before, coordinator.slots[..], coordinator.issued, coordinator.issued, was, consumerId, consumerGeneration);
      MarkKeepsTracks(coordinator.slots[..], coordinator.issued, was, entries[..], consumerId, consumerGeneration);
    }

    /** Cancel what is tracked but no longer wanted. */
    method RetireMissing(demands: seq<Demand>, ghost epoch: nat) returns (cancelled: nat)
      requires Editing(epoch) && AllCurrent(coordinator.slots[..], entries[..])
      modifies entries, coordinator`occupied, coordinator.slots
      ensures Editing(epoch) && SameTracking(old(entries[..]), entries[..])
      ensures UnwantedRetires(demands, entries[..])
      ensures Spared(demands, old(coordinator.slots[..]), coordinator.slots[..], old(entries[..]), entries[..])
      ensures forall i :: 0 <= i < entries.Length && entries[i].occupied && Wanted(demands, entries[i].key) ==>
        Current(coordinator.slots[..], entries[i].ticket)
    {
      cancelled := 0;
      ghost var slots, was := coordinator.slots[..], entries[..];
      for i: nat := 0 to entries.Length
        invariant Editing(epoch) && SameTracking(was, entries[..])
        invariant Spared(demands, slots, coordinator.slots[..], was, entries[..])
        invariant forall j :: i <= j < entries.Length && entries[j].occupied ==> Current(coordinator.slots[..], entries[j].ticket)
        invariant forall j :: 0 <= j < i && entries[j].occupied && !entries[j].retiring ==> Wanted(demands, entries[j].key)
        invariant forall j :: 0 <= j < i && entries[j].occupied && Wanted(demands, entries[j].key) ==>
          Current(coordinator.slots[..], entries[j].ticket)
      {
        ghost var slots', before := coordinator.slots[..], entries[..];
        var retired := RetireIfMissing(i, demands, epoch);
        SparedFurther(demands, slots, slots', coordinator.slots[..], was, before, entries[..]);
        cancelled := cancelled + if retired then 1 else 0;
      }
    }

    method RetireIfMissing(i: nat, demands: seq<Demand>, ghost epoch: nat) returns (retired: bool)
      requires Editing(epoch) && i < entries.Length
      requires entries[i].occupied ==> Current(coordinator.slots[..], entries[i].ticket)
      modifies entries, coordinator`occupied, coordinator.slots
      ensures Editing(epoch) && SameTracking(old(entries[..]), entries[..])
      ensures forall j :: 0 <= j < entries.Length && j != i ==> entries[j] == old(entries[j])
      ensures forall j :: 0 <= j < entries.Length && j != i && entries[j].occupied && Current(old(coordinator.slots[..]), entries[j].ticket) ==>
        Current(coordinator.slots[..], entries[j].ticket)
      ensures Spared(demands, old(coordinator.slots[..]), coordinator.slots[..], old(entries[..]), entries[..])
      ensures entries[i].occupied && !entries[i].retiring ==> Wanted(demands, entries[i].key)
      ensures entries[i].occupied && Wanted(demands, entries[i].key) ==> Current(coordinator.slots[..], entries[i].ticket)
    {
      retired := false;
      if entries[i].occupied && !entries[i].retiring {
        var wanted := Wants(demands, entries[i].key);
        if !wanted {
          OthersStayCurrent(coordinator.slots[..], coordinator.issued, entries[..], i);
          CancelEntry(i, epoch);
          retired := true;
        }
      }
    }

    method Wants(demands: seq<Demand>, key: UnitKey) returns (wanted: bool)
      ensures wanted <==> Wanted(demands, key)
    {
      for d := 0 to |demands|
        invariant forall i :: 0 <= i < d ==> demands[i].key != key
      {
        if demands[d].key == key {
          return true;
        }
      }
      return false;
    }

    /** Cancelling one entry's ticket leaves the tickets of the other entries current. */
    lemma OthersStayCurrent(slots: seq<Slot>, issued: set<Ticket>, held: seq<Entry>, i: nat)
      requires Tracks(slots, issued, held, consumerId, consumerGeneration) && i < |held| && held[i].occupied
      requires Current(slots, held[i].ticket)
      ensures forall j :: 0 <= j < |held| && j != i && held[j].occupied && Current(slots, held[j].ticket) ==>
        && held[j].ticket.slot != held[i].ticket.slot
        && Current(slots[held[i].ticket.slot := Cancelled(slots[held[i].ticket.slot])], held[j].ticket)
    {
      forall j | 0 <= j < |held| && j != i && held[j].occupied && Current(slots, held[j].ticket)
        ensures held[j].ticket.slot != held[i].ticket.slot
      {
        assert EntryOk(slots, issued, held[i], consumerId, consumerGeneration);
        assert EntryOk(slots, issued, held[j], consumerId, consumerGeneration);
      }
    }

    /** Refresh one demand that is tracked. One that cannot be refreshed is cancelled; either way
        it stays tracked until its ticket is given up. */
    method RefreshOne(d: Demand, ghost epoch: nat) returns (updated: nat, cancelled: nat, deferred: nat)
      requires Editing(epoch) && AllCurrent(coordinator.slots[..], entries[..])
      requires DemandOk(d) && d.consumerId == consumerId && d.consumerGeneration == consumerGeneration && d.epoch == epoch
      modifies entries, coordinator`occupied, coordinator.slots
      ensures Editing(epoch) && AllCurrent(coordinator.slots[..], entries[..]) && SameTracking(old(entries[..]), entries[..])
      ensures OthersKept(old(coordinator.slots[..]), coordinator.slots[..], old(entries[..]), entries[..], d.key)
      ensures forall i :: 0 <= i < entries.Length ==> Fresh(coordinator.slots[..], entries[i], d) && (old(entries[i]).retiring ==> entries[i].retiring)
      ensures updated + deferred == if Has(entries[..], d.key) then 1 else 0
      ensures cancelled <= deferred
      ensures ServedOne(d, old(coordinator.slots[..]), coordinator.slots[..], old(entries[..]), entries[..])
    {
      updated, cancelled, deferred := 0, 0, 0;
      var found := FindEntry(d.key);
      if found.None? {
        NotTrackedIsFresh(coordinator.slots[..], entries[..], d);
        return;
      }
      var i := found.value;
      HasStays(entries[..], entries[..][i := entries[i].(retiring := true)], d.key);
      if entries[i].retiring {
        OnlyOneHas(coordinator.slots[..], coordinator.issued, entries[..], consumerId, consumerGeneration, i, d);
        return 0, 0, 1;
      }
      var result := UpdateEntry(i, d, epoch);
      if result == Ok {
        return 1, 0, 0;
      }
      CancelCurrent(i, d, epoch);
      return 0, 1, 1;
    }

    /** A demand that cannot be refreshed is cancelled; the other entries are not concerned. */
    method CancelCurrent(i: nat, d: Demand, ghost epoch: nat)
      requires Editing(epoch) && AllCurrent(coordinator.slots[..], entries[..])
      requires i < entries.Length && entries[i].occupied && entries[i].key == d.key
      requires var s := entries[i].ticket.slot; s < coordinator.slots.Length && coordinator.slots[s].stage != Queued
      modifies entries, coordinator`occupied, coordinator.slots
      ensures Editing(epoch) && AllCurrent(coordinator.slots[..], entries[..])
      ensures entries[..] == old(entries[..])[i := old(entries[i]).(retiring := true)]
      ensures OthersKept(old(coordinator.slots[..]), coordinator.slots[..], old(entries[..]), entries[..], d.key)
      ensures forall j :: 0 <= j < entries.Length ==> Fresh(coordinator.slots[..], entries[j], d)
    {
      OthersStayCurrent(coordinator.slots[..], coordinator.issued, entries[..], i);
      OnlyOneHas(coordinator.slots[..], coordinator.issued, entries[..], consumerId, consumerGeneration, i, d);
      hide Tracks;
      CancelEntry(i, epoch);
    }

    method UpdateEntry(i: nat, d: Demand, ghost epoch: nat) returns (result: StreamingResult)
      requires Editing(epoch) && AllCurrent(coordinator.slots[..], entries[..])
      requires i < entries.Length && entries[i].occupied && entries[i].key == d.key
      requires DemandOk(d) && d.consumerId == consumerId && d.consumerGeneration == consumerGeneration && d.epoch == epoch
      modifies coordinator`occupied, coordinator.slots
      ensures Editing(epoch) && AllCurrent(coordinator.slots[..], entries[..]) && result in {Ok, Busy}
      ensures OthersKept(old(coordinator.slots[..]), coordinator.slots[..], entries[..], entries[..], d.key)
      ensures result == Ok ==> forall j :: 0 <= j < entries.Length ==> Fresh(coordinator.slots[..], entries[j], d)
      ensures !entries[i].retiring ==> (result == Ok <==> Refreshable(old(coordinator.slots[..]), entries[i], d))
      ensures result == Busy ==>
        && coordinator.slots[..] == old(coordinator.slots[..])
        && var s := entries[i].ticket.slot; s < coordinator.slots.Length && coordinator.slots[s].stage != Queued
    {
      hide Edited, AfterCall, Has, Covered;
      ghost var before := coordinator.slots[..];
      assert EntryOk(before, coordinator.issued, entries[i], consumerId, consumerGeneration);
      OthersStayCurrent(before, coordinator.issued, entries[..], i);
      OnlyOneHas(before, coordinator.issued, entries[..], consumerId, consumerGeneration, i, d);
      result := coordinator.UpdateDemand(entries[i].ticket, d);
      EditedOnce(start, Book(before, coordinator.issued), consumerId, consumerGeneration, Refreshing(entries[i].ticket, d));
      KeepingTicketsFollows(before, coordinator.slots[..], consumerId, consumerGeneration);
      TracksFollow(before, coordinator.slots[..], coordinator.issued, coordinator.issued, entries[..], consumerId, consumerGeneration);
    }

    lemma HasStays(a: seq<Entry>, b: seq<Entry>, key: UnitKey)
      requires SameTracking(a, b)
      ensures Has(a, key) <==> Has(b, key)
    {
      if i :| 0 <= i < |a| && a[i].occupied && a[i].key == key {
        assert b[i].occupied && b[i].key == key;
      }
      if i :| 0 <= i < |b| && b[i].occupied && b[i].key == key {
        assert a[i].occupied && a[i].key == key;
      }
    }

    /** The first d demands are refreshed, and those of them that were tracked have been dealt with. */
    ghost predicate RefreshedTo(demands: seq<Demand>, d: nat, dealt: nat, slots: seq<Slot>, was: seq<Entry>, epoch: nat)
      reads this, entries, coordinator, coordinator.slots
    {
      && d <= |demands| && Editing(epoch) && AllCurrent(coordinator.slots[..], entries[..]) && SameTracking(was, entries[..])
      && AllFresh(demands[..d], coordinator.slots[..], entries[..]) && UnwantedRetires(demands, entries[..])
      && dealt + |Untracked(demands[..d], KeySet(was))| == d
      && Served(demands, d, slots, coordinator.slots[..], was, entries[..])
    }

    method RefreshNext(demands: seq<Demand>, d: nat, ghost dealt: nat, ghost first: seq<Slot>, ghost was: seq<Entry>, ghost epoch: nat)
      returns (updated: nat, cancelled: nat, deferred: nat)
      requires RefreshedTo(demands, d, dealt, first, was, epoch) && d < |demands|
      requires SetOk(demands, consumerId, consumerGeneration, epoch) && epoch != 0
      modifies entries, coordinator`occupied, coordinator.slots
      ensures RefreshedTo(demands, d + 1, dealt + updated + deferred, first, was, epoch)
    {
      hide Edited, Tracks, EpochsPast, AllCurrent, AllFresh, Has, Untracked, Current, Served, ServedOne;
      HasStays(was, entries[..], demands[d].key);
      ghost var before, slots := entries[..], coordinator.slots[..];
      updated, cancelled, deferred := RefreshOne(demands[d], epoch);
      FreshGrows(demands, d, slots, coordinator.slots[..], before, entries[..]);
      ServedGrows(demands, d, first, slots, coordinator.slots[..], was, before, entries[..]);
      HasStays(before, entries[..], demands[d].key);
      UntrackedGrows(demands, KeySet(was), d);
    }

    /** Refresh everything wanted that is tracked already. */
    method RefreshCurrent(demands: seq<Demand>, ghost epoch: nat) returns (updated: nat, cancelled: nat, deferred: nat)
      requires Editing(epoch) && AllCurrent(coordinator.slots[..], entries[..])
      requires SetOk(demands, consumerId, consumerGeneration, epoch) && epoch != 0 && UnwantedRetires(demands, entries[..])
      modifies entries, coordinator`occupied, coordinator.slots
      ensures Refreshed(demands, coordinator.slots[..], entries[..])
      ensures Editing(epoch) && AllCurrent(coordinator.slots[..], entries[..]) && SameTracking(old(entries[..]), entries[..])
      ensures updated + deferred + |Untracked(demands, KeySet(entries[..]))| == |demands|
      ensures Served(demands, |demands|, old(coordinator.slots[..]), coordinator.slots[..], old(entries[..]), entries[..])
    {
      hide Edited, Tracks, EpochsPast, Has, Untracked, Current, Served;
      updated, cancelled, deferred := 0, 0, 0;
      ghost var first, was := coordinator.slots[..], entries[..];
      NothingServed(demands, first, was);
      NothingUntracked(demands, KeySet(was));
      assert RefreshedTo(demands, 0, 0, first, was, epoch);
      for d: nat := 0 to |demands|
        invariant RefreshedTo(demands, d, updated + deferred, first, was, epoch)
      {
        var u, c, f := RefreshNext(demands, d, updated + deferred, first, was, epoch);
        updated, cancelled, deferred := updated + u, cancelled + c, deferred + f;
      }
      assert demands[..|demands|] == demands;
      SameKeys(was, entries[..]);
    }

    lemma NothingUntracked(demands: seq<Demand>, keys: set<UnitKey>)
      ensures |Untracked(demands[..0], keys)| == 0
    {
    }

    lemma SameKeys(a: seq<Entry>, b: seq<Entry>)
      requires SameTracking(a, b)
      ensures KeySet(a) == KeySet(b)
    {
      forall k ensures Has(a, k) <==> Has(b, k) {
        HasStays(a, b, k);
      }
    }

    /** Submit one wanted demand unless it is tracked. It is refused only when there is no free
        entry or no free slot. */
    method SubmitOne(d: Demand, ghost epoch: nat) returns (admission: Admission)
      requires Editing(epoch) && AllCurrent(coordinator.slots[..], entries[..])
      requires DemandOk(d) && d.consumerId == consumerId && d.consumerGeneration == consumerGeneration && d.epoch == epoch
      modifies entries, coordinator, coordinator.slots
      ensures Editing(epoch) && AllCurrent(coordinator.slots[..], entries[..])
      ensures admission.AlreadyTracked? <==> Has(old(entries[..]), d.key)
      ensures !admission.Admitted? ==> entries[..] == old(entries[..]) && coordinator.slots[..] == old(coordinator.slots[..])
      ensures admission.Refused? ==> NoRoom(coordinator.slots[..], entries[..])
      ensures admission.Admitted? ==> !NoRoom(old(coordinator.slots[..]), old(entries[..])) && Adds(old(entries[..]), entries[..], d.key)
      ensures admission.Admitted? ==>
        && OthersKept(old(coordinator.slots[..]), coordinator.slots[..], old(entries[..]), entries[..], d.key)
        && forall i :: 0 <= i < entries.Length ==> Fresh(coordinator.slots[..], entries[i], d)
      ensures Added(old(entries[..]), entries[..])
    {
      var found := FindEntry(d.key);
      if found.Some? {
        return AlreadyTracked;
      }
      var free := FindFree();
      if free.None? {
        return Refused;
      }
      ghost var slots, issued, was := coordinator.slots[..], coordinator.issued, entries[..];
      forall s | 0 <= s < |slots| ensures !(slots[s].occupied && SameRequest(slots[s].demand, d)) {
        if slots[s].occupied && SameRequest(slots[s].demand, d) {
          DuplicateIsTracked(slots, issued, was, d, s);
        }
      }
      var result, ticket := coordinator.Submit(d);
      if result != Ok {
        return Refused;
      }
      EditedOnce(start, Book(slots, issued), consumerId, consumerGeneration, Submitting(ticket.slot, d));
      StoreEntry(free.value, d, ticket, epoch, slots, issued);
      return Admitted;
    }

    method FindFree() returns (free: Option<nat>)
      ensures free.Some? ==> free.value < entries.Length && !entries[free.value].occupied
      ensures free.None? ==> forall i :: 0 <= i < entries.Length ==> entries[i].occupied
    {
      for i: nat := 0 to entries.Length
        invariant forall j :: 0 <= j < i ==> entries[j].occupied
      {
        if !entries[i].occupied {
          return Some(i);
        }
      }
      return None;
    }

    method StoreEntry(f: nat, d: Demand, t: Ticket, ghost epoch: nat, ghost slots: seq<Slot>, ghost issued: set<Ticket>)
      requires coordinator.Valid() && consumerId != 0 && consumerGeneration != 0
      requires Tracks(slots, issued, entries[..], consumerId, consumerGeneration) && AllCurrent(slots, entries[..]) && SlotsOk(slots, issued)
      requires d.consumerId == consumerId && d.consumerGeneration == consumerGeneration && !Has(entries[..], d.key) && d.epoch == epoch
      requires EpochsPast(slots, consumerId, consumerGeneration, epoch)
      requires f < entries.Length && !entries[f].occupied && t.slot < |slots| && !slots[t.slot].occupied && t == TicketOf(slots, t.slot)
      requires coordinator.slots[..] == slots[t.slot := Slot(d, t.generation, Queued, true, false)]
      requires coordinator.issued == issued + {t} && Edited(start, Book(coordinator.slots[..], coordinator.issued), consumerId, consumerGeneration)
      modifies entries
      ensures Editing(epoch) && AllCurrent(coordinator.slots[..], entries[..]) && Adds(old(entries[..]), entries[..], d.key)
      ensures Added(old(entries[..]), entries[..])
      ensures OthersKept(slots, coordinator.slots[..], old(entries[..]), entries[..], d.key)
      ensures forall i :: 0 <= i < entries.Length ==> Fresh(coordinator.slots[..], entries[i], d)
    {
      ghost var was := entries[..];
      SubmitKeepsTracks(slots, issued, was, consumerId, consumerGeneration, t.slot, d, f);
      entries[f] := Entry(d.key, t, true, false);
      assert entries[..] == was[f := Entry(d.key, t, true, false)];
      StoredAdds(was, f, Entry(d.key, t, true, false));
    }

    method AdmissionPrecedes(demands: seq<Demand>, a: nat, b: nat) returns (precedes: bool)
      requires a < |demands| && b < |demands|
      ensures precedes == Precedes(demands, a, b)
    {
      if demands[a].priority != demands[b].priority {
        return demands[a].priority > demands[b].priority;
      }
      return a < b;
    }

    /** The demand that comes next in admission order after the previous one. */
    method SelectNext(demands: seq<Demand>, previous: Option<nat>) returns (next: Option<nat>)
      requires previous.Some? ==> previous.value < |demands|
      ensures next.Some? ==> IsNext(demands, previous, next.value)
      ensures next.None? ==> forall c: nat :: c < |demands| ==> c in UpTo(demands, previous)
    {
      next := None;
      for candidate: nat := 0 to |demands|
        invariant next.Some? ==> next.value < candidate && next.value !in UpTo(demands, previous)
        invariant forall c: nat :: c < candidate && c !in UpTo(demands, previous) ==>
          next.Some? && (c == next.value || Precedes(demands, next.value, c))
      {
        var later := true;
        if previous.Some? {
          later := AdmissionPrecedes(demands, previous.value, candidate);
        }
        if later {
          var better := true;
          if next.Some? {
            better := AdmissionPrecedes(demands, candidate, next.value);
          }
          if better {
            next := Some(candidate);
          }
        }
      }
    }

    /** Admit what is wanted and not tracked, highest priority first, until there is no room. */
    method SubmitMissing(demands: seq<Demand>, ghost epoch: nat) returns (submitted: nat, deferred: nat)
      requires Editing(epoch) && AllCurrent(coordinator.slots[..], entries[..])
      requires SetOk(demands, consumerId, consumerGeneration, epoch) && epoch != 0
      requires Refreshed(demands, coordinator.slots[..], entries[..])
      modifies entries, coordinator, coordinator.slots
      ensures Editing(epoch) && AllCurrent(coordinator.slots[..], entries[..]) && Refreshed(demands, coordinator.slots[..], entries[..])
      ensures submitted + deferred == |Untracked(demands, KeySet(old(entries[..])))| && Added(old(entries[..]), entries[..])
      ensures PrefixAdmitted(demands, KeySet(old(entries[..])), Below(|demands|), coordinator.slots[..], entries[..])
    {
      hide Edited, Refreshed, Admitting, Tracks, AllCurrent, EpochsPast, Untracked, PrefixAdmitted, SlotsOk;
      ghost var keys := KeySet(entries[..]);
      submitted, deferred := 0, 0;
      var previous: Option<nat> := None;
      AdmittingStarts(demands, coordinator.slots[..], entries[..]);
      for visited := 0 to |demands|
        invariant Editing(epoch) && AllCurrent(coordinator.slots[..], entries[..]) && Refreshed(demands, coordinator.slots[..], entries[..])
        invariant Admitting(demands, keys, previous, visited, submitted + deferred, coordinator.slots[..], entries[..])
        invariant Added(old(entries[..]), entries[..])
      {
        var admission: Admission;
        previous, admission := SubmitNext(demands, epoch, keys, previous, visited, submitted + deferred);
        if admission.Admitted? {
          submitted := submitted + 1;
        } else if admission.Refused? {
          deferred := deferred + 1;
        }
      }
      AdmittingEnds(demands, keys, previous, submitted + deferred, coordinator.slots[..], entries[..]);
    }

    method SubmitNext(demands: seq<Demand>, ghost epoch: nat, ghost keys: set<UnitKey>, previous: Option<nat>, ghost visited: nat, ghost dealt: nat)
      returns (next: Option<nat>, admission: Admission)
      requires Editing(epoch) && AllCurrent(coordinator.slots[..], entries[..]) && visited < |demands|
      requires SetOk(demands, consumerId, consumerGeneration, epoch) && epoch != 0
      requires Refreshed(demands, coordinator.slots[..], entries[..])
      requires Admitting(demands, keys, previous, visited, dealt, coordinator.slots[..], entries[..])
      modifies entries, coordinator, coordinator.slots
      ensures Editing(epoch) && AllCurrent(coordinator.slots[..], entries[..]) && Refreshed(demands, coordinator.slots[..], entries[..])
      ensures Admitting(demands, keys, next, visited + 1, dealt + (if admission.AlreadyTracked? then 0 else 1), coordinator.slots[..], entries[..])
      ensures Added(old(entries[..]), entries[..])
    {
      hide Edited, Tracks, SlotsOk, Has, Untracked;
      next := SelectNext(demands, previous);
      NotAllVisited(demands, previous);
      ghost var slots, was := coordinator.slots[..], entries[..];
      admission := SubmitOne(demands[next.value], epoch);
      if admission.Admitted? {
        RefreshedStays(demands, next.value, slots, coordinator.slots[..], was, entries[..]);
      }
      AdmittingGoesOn(demands, keys, previous, visited, dealt, next.value, slots, was, coordinator.slots[..], entries[..], admission);
    }

    /** Bring the consumer's tickets in line with the wanted set. Every wanted demand is submitted,
        refreshed or deferred; every entry then holds exactly the demand that is wanted, or has been
        cancelled; and the untracked demands admitted are the first ones in admission order. */
    method Reconcile(demands: seq<Demand>, epoch: nat) returns (result: StreamingResult, stats: Stats, ghost keys: set<UnitKey>)
      requires Valid()
      modifies this`lastEpoch, this`start, entries, coordinator, coordinator.slots
      ensures Valid() && Edited(old(Books()), Books(), consumerId, consumerGeneration)
      ensures result == Ok <==>
        old(lastEpoch) < epoch && |demands| <= entries.Length && SetOk(demands, consumerId, consumerGeneration, epoch)
      ensures result != Ok ==>
        entries[..] == old(entries[..]) && Books() == old(Books()) && lastEpoch == old(lastEpoch)
      ensures result == Ok ==>
        && lastEpoch == epoch && stats.submitted + stats.updated + stats.deferred == |demands| && Counts(stats, epoch)
        && AllCurrent(coordinator.slots[..], entries[..])
        && (forall d :: 0 <= d < |demands| ==>
              (demands[d].key in keys <==> HasCurrent(old(coordinator.slots[..]), old(entries[..]), demands[d].key)))
        && PrefixAdmitted(demands, keys, Below(|demands|), coordinator.slots[..], entries[..])
        && AdmittedByPriority(demands, keys, entries[..])
        && Settled(demands, coordinator.slots[..], entries[..])
        && RefreshableStay(demands, old(coordinator.slots[..]), old(entries[..]), entries[..])
    {
      keys, stats := {}, Stats(0, 0, 0, 0, 0, 0, epoch);
      start := Books();
      NothingEdited(start, consumerId, consumerGeneration);
      result := ValidateSet(demands, epoch);
      if result != Ok {
        return;
      }
      stats, keys := Edit(demands, epoch);
      PrefixIsByPriority(demands, keys, coordinator.slots[..], entries[..]);
      lastEpoch := epoch;
    }

    /** What is reported of the entries. */
    ghost predicate Counts(stats: Stats, epoch: nat)
      reads entries
    {
      && stats.epoch == epoch && stats.tracked == Held(entries[..], entries.Length)
      && stats.retirePending == Leaving(entries[..], entries.Length)
    }

    method Edit(demands: seq<Demand>, epoch: nat) returns (stats: Stats, ghost keys: set<UnitKey>)
      requires Editing(epoch) && epoch != 0 && SetOk(demands, consumerId, consumerGeneration, epoch)
      modifies entries, coordinator, coordinator.slots
      ensures Settled(demands, coordinator.slots[..], entries[..])
      ensures Editing(epoch) && stats.submitted + stats.updated + stats.deferred == |demands| && Counts(stats, epoch)
      ensures AllCurrent(coordinator.slots[..], entries[..])
      ensures forall d :: 0 <= d < |demands| ==>
        (demands[d].key in keys <==> HasCurrent(old(coordinator.slots[..]), old(entries[..]), demands[d].key))
      ensures PrefixAdmitted(demands, keys, Below(|demands|), coordinator.slots[..], entries[..])
      ensures RefreshableStay(demands, old(coordinator.slots[..]), old(entries[..]), entries[..])
    {
      ghost var slots, was := coordinator.slots[..], entries[..];
      var retired := DropUnwanted(demands, epoch);
      ghost var slots', held := coordinator.slots[..], entries[..];
      var updated, cancelled, stuck := RefreshCurrent(demands, epoch);
      keys := KeySet(entries[..]);
      SameKeys(held, entries[..]);
      ghost var served, slots'' := entries[..], coordinator.slots[..];
      var submitted, refused := SubmitMissing(demands, epoch);
      RefreshableStays(demands, slots, slots', slots'', was, held, served, entries[..]);
      FreshIsSettled(demands, coordinator.slots[..], coordinator.issued, entries[..], consumerId, consumerGeneration);
      var tracked, retiring := CountEntries();
      stats := Stats(tracked, submitted, updated, retired + cancelled, stuck + refused, retiring, epoch);
    }

    /** What is wanted stays tracked exactly where its ticket was current. */
    method DropUnwanted(demands: seq<Demand>, ghost epoch: nat) returns (retired: nat)
      requires Editing(epoch)
      modifies entries, coordinator`occupied, coordinator.slots
      ensures Editing(epoch) && AllCurrent(coordinator.slots[..], entries[..]) && UnwantedRetires(demands, entries[..])
      ensures forall d :: 0 <= d < |demands| ==>
        (Has(entries[..], demands[d].key) <==> HasCurrent(old(coordinator.slots[..]), old(entries[..]), demands[d].key))
      ensures Spared(demands, old(coordinator.slots[..]), coordinator.slots[..], old(entries[..]), entries[..])
    {
      hide Edited, EpochsPast, EntryOk, Covered, KeysDistinct;
      ghost var slots, was := coordinator.slots[..], entries[..];
      PruneReleased(epoch);
      ghost var pruned := entries[..];
      retired := RetireMissing(demands, epoch);
      ghost var marked := entries[..];
      PruneReleased(epoch);
      forall d | 0 <= d < |demands|
        ensures Has(entries[..], demands[d].key) <==> HasCurrent(slots, was, demands[d].key)
      {
        WantedStays(slots, was, pruned, marked, entries[..], demands, demands[d].key);
      }
    }

    lemma WantedStays(slots: seq<Slot>, was: seq<Entry>, pruned: seq<Entry>, marked: seq<Entry>, kept: seq<Entry>,
                      demands: seq<Demand>, key: UnitKey)
      requires |was| == |pruned| == |kept| && SameTracking(pruned, marked) && Wanted(demands, key)
      requires forall i :: 0 <= i < |was| ==>
        pruned[i] == if was[i].occupied && !Current(slots, was[i].ticket) then CLEARED else was[i]
      requires forall i :: 0 <= i < |kept| ==> kept[i] == marked[i] || (kept[i] == CLEARED && marked[i].occupied)
      requires forall i :: 0 <= i < |kept| && marked[i].occupied && Wanted(demands, marked[i].key) ==> kept[i] == marked[i]
      ensures Has(kept, key) <==> HasCurrent(slots, was, key)
    {
      if i :| 0 <= i < |kept| && kept[i].occupied && kept[i].key == key {
        assert was[i].occupied && was[i].key == key && Current(slots, was[i].ticket);
      }
      if i :| 0 <= i < |was| && was[i].occupied && was[i].key == key && Current(slots, was[i].ticket) {
        assert kept[i].occupied && kept[i].key == key;
      }
    }

    lemma RefreshableStays(demands: seq<Demand>, slots: seq<Slot>, slots': seq<Slot>, slots'': seq<Slot>,
                           was: seq<Entry>, held: seq<Entry>, served: seq<Entry>, kept: seq<Entry>)
      requires Spared(demands, slots, slots', was, held) && Served(demands, |demands|, slots', slots'', held, served) && Added(served, kept)
      ensures RefreshableStay(demands, slots, was, kept)
    {
      forall i, d | 0 <= i < |was| && 0 <= d < |demands| && Refreshable(slots, was[i], demands[d]) ensures kept[i] == was[i] {
        assert Refreshable(slots', held[i], demands[d]);
      }
    }

    method CountEntries() returns (tracked: nat, retiring: nat)
      ensures tracked == Held(entries[..], entries.Length) && retiring == Leaving(entries[..], entries.Length)
    {
      tracked, retiring := 0, 0;
      for i: nat := 0 to entries.Length
        invariant tracked == Held(entries[..], i) && retiring == Leaving(entries[..], i)
      {
        tracked := tracked + if entries[i].occupied then 1 else 0;
        retiring := retiring + if entries[i].retiring then 1 else 0;
      }
    }
  }

  /** How many of the first n entries track a ticket. */
  ghost function Held(entries: seq<Entry>, n: nat): nat
    requires n <= |entries|
  {
    if n == 0 then 0 else Held(entries, n - 1) + if entries[n - 1].occupied then 1 else 0
  }

  /** How many of the first n only wait for their ticket to be given up. */
  ghost function Leaving(entries: seq<Entry>, n: nat): nat
    requires n <= |entries|
  {
    if n == 0 then 0 else Leaving(entries, n - 1) + if entries[n - 1].retiring then 1 else 0
  }

  datatype Admission = AlreadyTracked | Admitted | Refused

  /** One more unit is tracked. */
  /** Nothing that is tracked has been touched. */
  ghost predicate Added(entries: seq<Entry>, entries': seq<Entry>)
  {
    |entries'| == |entries| && forall i :: 0 <= i < |entries| && entries[i].occupied ==> entries'[i] == entries[i]
  }

  ghost predicate Adds(entries: seq<Entry>, entries': seq<Entry>, key: UnitKey)
  {
    forall k :: Has(entries', k) <==> Has(entries, k) || k == key
  }

  lemma StoredAdds(entries: seq<Entry>, f: nat, e: Entry)
    requires f < |entries| && !entries[f].occupied && e.occupied
    ensures Adds(entries, entries[f := e], e.key)
  {
    var entries' := entries[f := e];
    forall k ensures Has(entries', k) <==> Has(entries, k) || k == e.key {
      if i :| 0 <= i < |entries| && entries[i].occupied && entries[i].key == k {
        assert entries'[i].occupied && entries'[i].key == k;
      }
      if k == e.key {
        assert entries'[f].key == k;
      }
    }
  }

  /** What is tracked: the units of the start, and of demands already visited. */
  ghost predicate KeysGrow(demands: seq<Demand>, keys: set<UnitKey>, seen: set<nat>, entries: seq<Entry>)
  {
    && (forall k :: k in keys ==> Has(entries, k))
    && (forall c: nat :: c < |demands| && c !in seen && Has(entries, demands[c].key) ==> demands[c].key in keys)
  }

  /** Admission so far: which demands have been visited, what is tracked now, and how many of the
      untracked ones have been dealt with. */
  ghost predicate Admitting(demands: seq<Demand>, keys: set<UnitKey>, previous: Option<nat>, visited: nat, dealt: nat,
                            slots: seq<Slot>, entries: seq<Entry>)
  {
    && (previous.Some? ==> previous.value < |demands|) && |UpTo(demands, previous)| == visited
    && KeysGrow(demands, keys, UpTo(demands, previous), entries)
    && dealt == |UpTo(demands, previous) * Untracked(demands, keys)|
    && PrefixAdmitted(demands, keys, UpTo(demands, previous), slots, entries)
  }

  lemma AdmittingStarts(demands: seq<Demand>, slots: seq<Slot>, entries: seq<Entry>)
    ensures Admitting(demands, KeySet(entries), None, 0, 0, slots, entries)
  {
  }

  lemma StepTracks(demands: seq<Demand>, keys: set<UnitKey>, previous: Option<nat>, next: nat,
                   entries: seq<Entry>, entries': seq<Entry>, admission: Admission)
    requires (previous.Some? ==> previous.value < |demands|) && IsNext(demands, previous, next)
    requires forall a, b :: 0 <= a < b < |demands| ==> demands[a].key != demands[b].key
    requires KeysGrow(demands, keys, UpTo(demands, previous), entries)
    requires admission.AlreadyTracked? <==> Has(entries, demands[next].key)
    requires if admission.Admitted? then Adds(entries, entries', demands[next].key) else entries' == entries
    ensures KeysGrow(demands, keys, UpTo(demands, Some(next)), entries')
    ensures next in Untracked(demands, keys) <==> !admission.AlreadyTracked?
  {
    NextIsOneMore(demands, previous, next);
    hide Has, Precedes;
  }

  lemma StepCounts(demands: seq<Demand>, keys: set<UnitKey>, previous: Option<nat>, next: nat)
    requires (previous.Some? ==> previous.value < |demands|) && IsNext(demands, previous, next)
    ensures |UpTo(demands, Some(next)) * Untracked(demands, keys)|
         == |UpTo(demands, previous) * Untracked(demands, keys)| + if next in Untracked(demands, keys) then 1 else 0
  {
    NextIsOneMore(demands, previous, next);
    var u := Untracked(demands, keys);
    if next in u {
      assert UpTo(demands, Some(next)) * u == UpTo(demands, previous) * u + {next};
    } else {
      assert UpTo(demands, Some(next)) * u == UpTo(demands, previous) * u;
    }
  }

  lemma AdmittingGoesOn(demands: seq<Demand>, keys: set<UnitKey>, previous: Option<nat>, visited: nat, dealt: nat, next: nat,
                        slots: seq<Slot>, entries: seq<Entry>, slots': seq<Slot>, entries': seq<Entry>, admission: Admission)
    requires Admitting(demands, keys, previous, visited, dealt, slots, entries) && IsNext(demands, previous, next)
    requires forall a, b :: 0 <= a < b < |demands| ==> demands[a].key != demands[b].key
    requires admission.AlreadyTracked? <==> Has(entries, demands[next].key)
    requires if admission.Admitted? then Adds(entries, entries', demands[next].key) && !NoRoom(slots, entries)
             else entries' == entries && slots' == slots
    requires admission.Refused? ==> NoRoom(slots, entries)
    ensures Admitting(demands, keys, Some(next), visited + 1, dealt + (if admission.AlreadyTracked? then 0 else 1), slots', entries')
  {
    hide PrefixAdmitted, NoRoom;
    NextIsOneMore(demands, previous, next);
    StepTracks(demands, keys, previous, next, entries, entries', admission);
    StepCounts(demands, keys, previous, next);
    AdmissionExtends(demands, keys, UpTo(demands, previous), next, slots, entries, slots', entries');
  }

  lemma AdmittingEnds(demands: seq<Demand>, keys: set<UnitKey>, previous: Option<nat>, dealt: nat, slots: seq<Slot>, entries: seq<Entry>)
    requires Admitting(demands, keys, previous, |demands|, dealt, slots, entries)
    ensures dealt == |Untracked(demands, keys)| && PrefixAdmitted(demands, keys, Below(|demands|), slots, entries)
  {
    AllVisited(demands, previous);
    assert Below(|demands|) * Untracked(demands, keys) == Untracked(demands, keys);
  }

  lemma NotAllVisited(demands: seq<Demand>, previous: Option<nat>)
    requires (previous.Some? ==> previous.value < |demands|) && |UpTo(demands, previous)| < |demands|
    ensures exists c: nat :: c < |demands| && c !in UpTo(demands, previous)
  {
    if Below(|demands|) <= UpTo(demands, previous) {
      SubsetSize<nat>(Below(|demands|), UpTo(demands, previous));
    } else {
      var c: nat :| c in Below(|demands|) && c !in UpTo(demands, previous);
    }
  }

  lemma AllVisited(demands: seq<Demand>, previous: Option<nat>)
    requires (previous.Some? ==> previous.value < |demands|) && |UpTo(demands, previous)| == |demands|
    ensures UpTo(demands, previous) == Below(|demands|)
  {
    if c: nat :| c < |demands| && c !in UpTo(demands, previous) {
      SmallerSet<nat>(UpTo(demands, previous), Below(|demands|), c);
    }
  }

  lemma UntrackedGrows(demands: seq<Demand>, keys: set<UnitKey>, d: nat)
    requires d < |demands|
    ensures |Untracked(demands[..d + 1], keys)| == |Untracked(demands[..d], keys)| + if demands[d].key in keys then 0 else 1
  {
    var before, after := Untracked(demands[..d], keys), Untracked(demands[..d + 1], keys);
    assert after == if demands[d].key in keys then before else before + {d};
  }
}
