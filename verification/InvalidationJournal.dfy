/** The bounded journal of invalidation events: a ring of the newest events, read by cursor. */
module InvalidationJournal {
  import opened ResourceTypes
  import opened RingArithmetic

  datatype Event = Event(changed: Key, dependent: Handle, sequence: nat, changeSequence: nat)

  /** The ring holds, at their position modulo its size, the newest events of the history. */
  ghost predicate RingHolds(ring: seq<Event>, history: seq<Event>)
  {
    && |ring| > 0
    && forall i :: 0 <= i < |history| && |history| - |ring| <= i ==> ring[i % |ring|] == history[i]
  }

  lemma RingAppends(ring: seq<Event>, history: seq<Event>, e: Event)
    requires RingHolds(ring, history)
    ensures RingHolds(ring[|history| % |ring| := e], history + [e])
  {
    var longer := history + [e];
    forall i | 0 <= i < |longer| && |longer| - |ring| <= i
      ensures ring[|history| % |ring| := e][i % |ring|] == longer[i]
    {
      if i < |history| && i % |ring| == |history| % |ring| {
        SameCellApart(i, |history|, |ring|);
      }
    }
  }

  class Journal {
    const ring: array<Event>
    var total: nat
    ghost var history: seq<Event>

    ghost predicate Valid()
      reads this, ring
    {
      RingHolds(ring[..], history) && total == |history|
    }

    constructor (capacity: nat)
      requires capacity > 0
      ensures Valid() && history == [] && fresh(ring)
    {
      ring := new Event[capacity];
      total := 0;
      history := [];
    }

    method Append(changed: Key, dependent: Handle, changeSequence: nat)
      requires Valid()
      modifies this, ring
      ensures Valid()
      ensures history == old(history) + [Event(changed, dependent, old(total) + 1, changeSequence)]
    {
      total := total + 1;
      ghost var e := Event(changed, dependent, total, changeSequence);
      RingAppends(ring[..], history, e);
      ring[(total - 1) % ring.Length] := Event(changed, dependent, total, changeSequence);
      history := history + [e];
    }

    /** Events after a cursor, oldest first; the next cursor is where the copy stopped, or the
        newest one when events the caller has not seen are already overwritten. */
    method Poll(after: nat, capacity: nat) returns (result: Result, events: seq<Event>, next: nat)
      requires Valid()
      ensures result == InvalidArgument <==> |history| < after
      ensures result == JournalOverflow <==> after + ring.Length < |history|
      ensures result == OutOfBudget <==> capacity == 0 && after < |history| <= after + ring.Length
      ensures result in {Success, InvalidArgument, JournalOverflow, OutOfBudget}
      ensures result == Success || result == OutOfBudget ==>
        && after <= next <= |history| && events == history[after..next]
        && |events| == (if |history| - after < capacity then |history| - after else capacity)
      ensures result == JournalOverflow ==> events == [] && next == |history|
    {
      events, next := [], after;
      if after > total {
        return InvalidArgument, events, next;
      }
      var pending := total - after;
      if pending > ring.Length {
        return JournalOverflow, events, total;
      }
      var toCopy := if pending < capacity then pending else capacity;
      for i := 0 to toCopy
        invariant events == history[after..after + i]
      {
        var sequence := after + i + 1;
        events := events + [ring[(sequence - 1) % ring.Length]];
      }
      next := after + toCopy;
      result := if toCopy == 0 && pending != 0 then OutOfBudget else Success;
    }
  }
}
