/** Everything the writer does to published resources, over the graph and the chunk store together:
    which record a slot publishes, which ones are retired and wait, and what is freed. */
module ResourcePublication {
  import opened ChunkDrafts
  import opened ChunkStore
  import opened ChunkVerdicts
  import opened Digraph
  import opened PayloadOwnership
  import opened ResourceGraph
  import opened ResourceRecords
  import opened ResourceTypes
  import opened Wrappers
  import ChunkAccounts
  import ChunkAdoption
  import EpochProtocol

  /** Everything but the graph itself. */
  datatype Holdings = Holdings(shared: seq<ChunkAccounts.Block>, records: seq<ChunkAccounts.Record>, staging: seq<ChunkAccounts.Staging>,
                               committed: nat, payload: nat, unique: nat,
                               payloads: seq<Option<ChunkAccounts.Record>>, retired: seq<Retiree>, epoch: nat)

  class Publisher {
    const writer: Writer
    const store: ChunkStore
    /** The chunk record of what each slot publishes. */
    const payloads: array<Option<ChunkAccounts.Record>>
    var retired: seq<Retiree>
    /** Advances whenever a slot publishes something else. */
    var epoch: nat

    /** The store's records are those the slots publish and those that wait to be freed. */
    ghost predicate Tied()
      reads this, payloads, writer.published, store`records
    {
      && SameSlots(writer.published[..], payloads[..])
      && Owned(store.records, payloads[..], retired) && LatestLeads(retired, epoch)
    }

    ghost predicate Valid()
      reads this, payloads, store, store.staging, writer, writer.published, writer.visited, writer.invalidation, writer.nextGeneration
      reads writer.pool, writer.pool.cells, writer.pool.buckets, writer.pool.heads, writer.journal, writer.journal.ring
      ensures Valid() ==> writer.Valid() && store.Valid()
    {
      writer.Valid() && store.Valid() && Tied()
    }

    ghost function Graph(): (c: Contents)
      requires Valid()
      reads this, payloads, store, store.staging, writer, writer.published, writer.visited, writer.invalidation, writer.nextGeneration
      reads writer.pool, writer.pool.cells, writer.pool.buckets, writer.pool.heads, writer.journal, writer.journal.ring
      ensures Consistent(c) && c == writer.Contents()
    {
      writer.Contents()
    }

    /** What `Valid` comes to, for proofs that unfold nothing. */
    lemma ValidIs()
      ensures Valid() <==> (writer.Valid() && store.Valid() && SameSlots(writer.published[..], payloads[..])
                            && Owned(store.records, payloads[..], retired) && LatestLeads(retired, epoch))
    {
      hide Writer.Valid, ChunkStore.Valid, SameSlots, Owned, LatestLeads;
    }

    /** And what the two sides show. */
    lemma KeptIs()
      ensures Kept() == Holdings(store.shared, store.records, store.staging[..], store.committed, store.payload, store.unique,
                                 payloads[..], retired, epoch)
    {
    }

    lemma GraphShows()
      requires writer.Valid()
      ensures writer.Contents().published == writer.published[..] && writer.Contents().index == writer.keyIndex
    {
      hide Writer.Valid;
    }

    /** A graph that publishes nothing yet. */
    constructor (writer: Writer, store: ChunkStore)
      requires writer.Valid() && store.Valid() && store.records == []
      requires forall s :: 0 <= s < writer.published.Length ==> writer.published[s].None?
      ensures Valid() && this.writer == writer && this.store == store && fresh(payloads) && retired == []
    {
      hide *;
      this.writer, this.store := writer, store;
      payloads := new Option<ChunkAccounts.Record>[writer.published.Length](i => None);
      retired, epoch := [], 1;
      new;
      NothingIsOwned(payloads[..]);
      EmptySlotsMatch(writer.published[..], payloads[..]);
      ValidIs();
    }

    ghost function Kept(): Holdings
      reads this, payloads, store, store.staging
    {
      Holdings(store.shared, store.records, store.staging[..], store.committed, store.payload, store.unique, payloads[..], retired, epoch)
    }

    /** Whatever has been collected, the chunks of a published record are there. */
    lemma PublishedIsBacked(s: nat)
      requires Valid() && s < payloads.Length && payloads[s].Some?
      ensures ChunkAdoption.EntriesBacked(store.shared, payloads[s].value.entries)
    {
      hide ChunkAdoption.EntriesBacked, Shown, Waiting;
      PublishedIsRecorded(store.records, payloads[..], retired, s);
      var r :| 0 <= r < |store.records| && store.records[r] == payloads[s].value;
    }

    /** What the slot published waits to be freed from now on. */
    method Store(slot: nat, record: Option<ChunkAccounts.Record>)
      requires slot < payloads.Length
      modifies payloads, this`retired, this`epoch
      ensures payloads[..] == old(payloads[..])[slot := record]
      ensures retired == Retired(old(payloads[slot]), old(retired), old(epoch)) && epoch == old(epoch) + 1
      ensures Kept() == Exchanged(old(Kept()), slot, record)
    {
      if payloads[slot].Some? {
        retired := [Retiree(payloads[slot].value, epoch)] + retired;
      }
      payloads[slot] := record;
      epoch := epoch + 1;
    }

    /** The chunk side of what happens when a slot's published pointer changes. */
    method Exchange(slot: nat, record: Option<ChunkAccounts.Record>, ghost was: seq<Option<Record>>, ghost records: seq<ChunkAccounts.Record>)
      requires writer.Valid() && store.Valid()
      requires SameSlots(was, payloads[..]) && Owned(records, payloads[..], retired) && LatestLeads(retired, epoch) && slot < |was|
      requires |writer.published[..]| == |was| && writer.published[..] == was[slot := writer.published[slot]]
      requires writer.published[slot].Some? <==> record.Some?
      requires store.records == if record.Some? then records + [record.value] else records
      modifies payloads, this`retired, this`epoch
      ensures Valid() && writer.Contents() == old(writer.Contents())
      ensures slot < payloads.Length && Kept() == Exchanged(old(Kept()), slot, record)
    {
      hide *;
      ExchangingKeepsTied(was, writer.published[..], records, store.records, payloads[..], retired, epoch, slot, record);
      Store(slot, record);
      ValidIs();
    }

    /** Publish a resource with its payload. The chunks are refused before the writer has changed
        anything, so a publication either happens on both sides or on none. */
    method Publish(p: Publication, inputs: seq<Input>, inserted: bool, grants: (nat, nat) -> bool) returns (result: Result, handle: Handle)
      requires Valid()
      modifies writer`traversalStamp, writer`changeSequence, writer`keyIndex, writer.published, writer.visited, writer.queue
      modifies writer.invalidation, writer.nextGeneration, writer.pool, writer.pool.cells, writer.pool.buckets, writer.pool.heads
      modifies writer.journal, writer.journal.ring, store, store.staging, payloads, this`retired, this`epoch
      ensures Valid()
      ensures Decides(old(Graph()), writer.pool.cells.Length, p,
                      old(store.Verdict(inputs, |p.deps|, p.key in writer.keyIndex || inserted, grants)), result)
      ensures result != Success ==> Graph() == old(Graph()) && Kept() == old(Kept())
      ensures result == Success ==> PublishedAs(old(Graph()), writer.pool.cells.Length, p, handle, Graph())
      ensures result == Success ==> Stored(old(Kept()), Kept(), inputs, store.RecordSize(|inputs|, |p.deps|))
      ensures result == Success ==> Replaced(old(Kept()), Kept(), handle.slot)
    {
      hide *;
      handle := Handle(0, 0, 0);
      ValidIs();
      ghost var before, chunks := Graph(), store.Verdict(inputs, |p.deps|, p.key in writer.keyIndex || inserted, grants);
      var slot: nat;
      result, slot := writer.Admit(p);
      ValidIs();
      DecidesBy(before, writer.pool.cells.Length, p, result, slot, chunks);
      if result == Success {
        result, handle := PublishAdmitted(p, slot, inputs, inserted, grants);
      }
    }

    method PublishAdmitted(p: Publication, slot: nat, inputs: seq<Input>, inserted: bool, grants: (nat, nat) -> bool)
      returns (result: Result, handle: Handle)
      requires Valid() && AdmissionVerdict(Graph(), writer.pool.cells.Length, p, Success, slot)
      modifies writer`traversalStamp, writer`changeSequence, writer`keyIndex, writer.published, writer.visited, writer.queue
      modifies writer.invalidation, writer.nextGeneration, writer.pool, writer.pool.cells, writer.pool.buckets, writer.pool.heads
      modifies writer.journal, writer.journal.ring, store, store.staging, payloads, this`retired, this`epoch
      ensures Valid()
      ensures result == old(store.Verdict(inputs, |p.deps|, p.key in writer.keyIndex || inserted, grants))
      ensures result != Success ==> Graph() == old(Graph()) && Kept() == old(Kept())
      ensures result == Success ==> PublishedAs(old(Graph()), writer.pool.cells.Length, p, handle, Graph())
      ensures result == Success ==> Stored(old(Kept()), Kept(), inputs, store.RecordSize(|inputs|, |p.deps|))
      ensures result == Success ==> Replaced(old(Kept()), Kept(), handle.slot)
    {
      hide *;
      handle := Handle(0, 0, 0);
      ValidIs();
      KeptIs();
      ghost var was := Kept();
      var record: ChunkAccounts.Record;
      result, record := store.Publish(inputs, |p.deps|, p.key in writer.keyIndex || inserted, grants);
      KeptIs();
      if result == Success {
        ghost var stored := Kept();
        handle := CommitWith(p, slot, record, was.records);
        StoredBy(was, stored, Kept(), inputs, handle.slot, record);
        ReplacedBy(was, stored, Kept(), handle.slot, record);
      } else {
        ValidIs();
      }
    }

    /** The writer's side of a publication. */
    method CommitSlot(p: Publication, slot: nat) returns (handle: Handle)
      requires writer.Valid() && store.Valid() && AdmissionVerdict(writer.Contents(), writer.pool.cells.Length, p, Success, slot)
      modifies writer`traversalStamp, writer`changeSequence, writer`keyIndex, writer.published, writer.visited, writer.queue
      modifies writer.invalidation, writer.nextGeneration, writer.pool, writer.pool.cells, writer.pool.buckets, writer.pool.heads
      modifies writer.journal, writer.journal.ring
      ensures writer.Valid() && store.Valid() && PublishedAs(old(writer.Contents()), writer.pool.cells.Length, p, handle, writer.Contents())
      ensures Kept() == old(Kept())
    {
      hide *;
      handle := writer.CommitPublication(p, slot);
    }

    /** The part of a publication that follows when its chunks are in the store. */
    method CommitWith(p: Publication, slot: nat, record: ChunkAccounts.Record, ghost records: seq<ChunkAccounts.Record>)
      returns (handle: Handle)
      requires writer.Valid() && store.Valid() && AdmissionVerdict(writer.Contents(), writer.pool.cells.Length, p, Success, slot)
      requires SameSlots(writer.published[..], payloads[..]) && Owned(records, payloads[..], retired) && LatestLeads(retired, epoch)
      requires store.records == records + [record]
      modifies writer`traversalStamp, writer`changeSequence, writer`keyIndex, writer.published, writer.visited, writer.queue
      modifies writer.invalidation, writer.nextGeneration, writer.pool, writer.pool.cells, writer.pool.buckets, writer.pool.heads
      modifies writer.journal, writer.journal.ring, payloads, this`retired, this`epoch
      ensures Valid() && PublishedAs(old(writer.Contents()), writer.pool.cells.Length, p, handle, Graph())
      ensures handle.slot < payloads.Length && Kept() == Exchanged(old(Kept()), handle.slot, Some(record))
    {
      hide *;
      GraphShows();
      ghost var before := writer.Contents();
      handle := CommitSlot(p, slot);
      GraphShows();
      PublishedSlots(before, writer.pool.cells.Length, p, handle, writer.Contents());
      Exchange(handle.slot, Some(record), before.published, records);
    }

    method FindRevision(key: Key) returns (revision: nat)
      requires writer.Valid()
      ensures revision == Revision(writer.Contents(), key)
    {
      hide Acyclic;
      return if key in writer.keyIndex then writer.published[writer.keyIndex[key]].value.revision else 0;
    }

    /** Publish only over the revision the caller has seen. There is one writer, so nothing comes
        between the comparison and the commit. */
    method PublishExpected(p: Publication, inputs: seq<Input>, expected: nat, inserted: bool, grants: (nat, nat) -> bool)
      returns (result: Result, handle: Handle)
      requires Valid()
      modifies writer`traversalStamp, writer`changeSequence, writer`keyIndex, writer.published, writer.visited, writer.queue
      modifies writer.invalidation, writer.nextGeneration, writer.pool, writer.pool.cells, writer.pool.buckets, writer.pool.heads
      modifies writer.journal, writer.journal.ring, store, store.staging, payloads, this`retired, this`epoch
      ensures Valid()
      ensures p.key.typeId == 0 ==> result == InvalidArgument
      ensures p.key.typeId != 0 && Revision(old(Graph()), p.key) != expected ==> result == StaleRevision
      ensures result != Success ==> Graph() == old(Graph()) && Kept() == old(Kept())
      ensures result == Success ==>
        && Revision(old(Graph()), p.key) == expected && Revision(Graph(), p.key) == expected + 1
        && PublishedAs(old(Graph()), writer.pool.cells.Length, p, handle, Graph())
        && Stored(old(Kept()), Kept(), inputs, store.RecordSize(|inputs|, |p.deps|)) && Replaced(old(Kept()), Kept(), handle.slot)
      ensures p.key.typeId != 0 && Revision(old(Graph()), p.key) == expected ==>
        Decides(old(Graph()), writer.pool.cells.Length, p,
                old(store.Verdict(inputs, |p.deps|, p.key in writer.keyIndex || inserted, grants)), result)
    {
      hide *;
      handle := Handle(0, 0, 0);
      if p.key.typeId == 0 {
        return InvalidArgument, handle;
      }
      var revision := FindRevision(p.key);
      if revision != expected {
        return StaleRevision, handle;
      }
      ghost var before := Graph();
      result, handle := Publish(p, inputs, inserted, grants);
      if result == Success {
        RevisionCountsOn(before, writer.pool.cells.Length, p, handle, Graph());
      }
    }

    /** Both sides. */
    ghost function Now(): (w: Whole)
      requires Valid()
      reads this, payloads, store, store.staging, writer, writer.published, writer.visited, writer.invalidation, writer.nextGeneration
      reads writer.pool, writer.pool.cells, writer.pool.buckets, writer.pool.heads, writer.journal, writer.journal.ring
      ensures SameSlots(w.graph.published, w.kept.payloads) && Consistent(w.graph) && w == Whole(Graph(), Kept())
    {
      Whole(writer.Contents(), Kept())
    }

    /** The writer's side of a slot's new revision. */
    method SupersedeSlot(slot: nat, state: ResourceState)
      requires writer.Valid() && store.Valid() && slot < writer.published.Length && writer.published[slot].Some?
      modifies writer`traversalStamp, writer`changeSequence, writer.published, writer.visited, writer.queue, writer.invalidation
      modifies writer.journal, writer.journal.ring
      ensures writer.Valid() && store.Valid() && SupersededAs(old(writer.Contents()), slot, state, writer.Contents())
      ensures Kept() == old(Kept())
    {
      hide *;
      writer.Supersede(slot, state);
    }

    /** The slot publishes a record with the next revision, whose chunks are in the store. */
    method SupersedeWith(slot: nat, state: ResourceState, record: ChunkAccounts.Record, ghost records: seq<ChunkAccounts.Record>)
      requires writer.Valid() && store.Valid() && slot < writer.published.Length && writer.published[slot].Some?
      requires SameSlots(writer.published[..], payloads[..]) && Owned(records, payloads[..], retired) && LatestLeads(retired, epoch)
      requires store.records == records + [record]
      modifies writer`traversalStamp, writer`changeSequence, writer.published, writer.visited, writer.queue, writer.invalidation
      modifies writer.journal, writer.journal.ring, payloads, this`retired, this`epoch
      ensures Valid() && SupersededAs(old(writer.Contents()), slot, state, writer.Contents())
      ensures Kept() == Exchanged(old(Kept()), slot, Some(record))
    {
      hide *;
      GraphShows();
      ghost var before := writer.Contents();
      SupersedeSlot(slot, state);
      GraphShows();
      SupersedingSlots(before, slot, state, writer.Contents());
      Exchange(slot, Some(record), before.published, records);
    }

    /** A slot's record is replaced by one that shares the chunks it keeps. */
    method ReplaceRecord(slot: nat, exclude: Option<nat>, state: ResourceState, grants: (nat, nat) -> bool) returns (result: Result)
      requires Valid() && slot < payloads.Length && payloads[slot].Some?
      modifies writer`traversalStamp, writer`changeSequence, writer.published, writer.visited, writer.queue, writer.invalidation
      modifies writer.journal, writer.journal.ring, store`shared, store`committed, store`peak, store`records, payloads, this`retired, this`epoch
      ensures Valid() && result == if Replaceable(old(Now()), store, slot, exclude, grants) then Success else OutOfBudget
      ensures if result == Success then RecordReplaced(old(Now()), Now(), slot, exclude, state) else Now() == old(Now())
    {
      hide *;
      ValidIs();
      KeptIs();
      GraphShows();
      ReplaceableIs(slot, exclude, grants);
      ghost var was := Now();
      var record: ChunkAccounts.Record;
      result, record := PrepareReplacement(slot, exclude, grants);
      if result == Success {
        ghost var prepared := Kept();
        SupersedeWith(slot, state, record, was.kept.records);
        ReplacedAsAWhole(was, prepared, Now(), slot, exclude, state, record);
      } else {
        KeptIs();
        GraphShows();
        ValidIs();
      }
    }

    /** The allocator's answer decides. */
    lemma ReplaceableIs(slot: nat, exclude: Option<nat>, grants: (nat, nat) -> bool)
      requires Valid() && slot < payloads.Length && payloads[slot].Some?
      ensures slot < writer.published.Length && writer.published[slot].Some?
      ensures Replaceable(Now(), store, slot, exclude, grants)
          <==> Granted(store.limit, store.committed,
                       store.RecordSize(|Without(payloads[slot].value.entries, exclude)|, |writer.published[slot].value.deps|), grants)
    {
      hide Writer.Valid, ChunkStore.Valid, Owned, LatestLeads, Consistent, Granted;
    }

    /** The replacement's record, before anybody sees it. */
    method PrepareReplacement(slot: nat, exclude: Option<nat>, grants: (nat, nat) -> bool) returns (result: Result, record: ChunkAccounts.Record)
      requires Valid() && slot < payloads.Length && payloads[slot].Some?
      modifies store`shared, store`committed, store`peak, store`records
      ensures writer.Valid() && store.Valid()
      ensures result == if Replaceable(old(Now()), store, slot, exclude, grants) then Success else OutOfBudget
      ensures writer.Contents() == old(writer.Contents())
      ensures result == Success ==>
        && record.entries == Without(payloads[slot].value.entries, exclude) && store.records == old(store.records) + [record]
        && Kept() == old(Kept()).(records := store.records, shared := store.shared, committed := store.committed)
        && ChunkAccounts.Among(old(store.shared), store.shared) && ChunkAccounts.Among(store.shared, old(store.shared))
      ensures result != Success ==> Kept() == old(Kept())
    {
      hide *;
      ValidIs();
      KeptIs();
      ReplaceableIs(slot, exclude, grants);
      PublishedIsRecorded(store.records, payloads[..], retired, slot);
      ghost var r: nat :| r < |store.records| && store.records[r] == payloads[slot].value;
      var current, dependencies := payloads[slot].value, |writer.published[slot].value.deps|;
      result, record := store.BuildReplacement(current, r, dependencies, exclude, grants);
      KeptIs();
    }

    /** The resource the handle names is still published. */
    method CheckHandle(h: Handle) returns (live: bool)
      requires Valid()
      ensures live == Live(writer.published[..], h)
      ensures live ==> h.slot < writer.published.Length && writer.published[h.slot].Some?
      ensures live ==> h.slot < payloads.Length && payloads[h.slot].Some?
    {
      hide Writer.Valid, ChunkStore.Valid, Owned, LatestLeads;
      return h.slot < writer.published.Length && writer.published[h.slot].Some? && writer.published[h.slot].value.handle == h;
    }

    /** A request that was not fulfilled is marked as failed, its chunks kept; a resident resource is
        left alone. */
    method MarkFailed(h: Handle, cause: Result, grants: (nat, nat) -> bool) returns (result: Result)
      requires Valid()
      modifies writer`traversalStamp, writer`changeSequence, writer.published, writer.visited, writer.queue, writer.invalidation
      modifies writer.journal, writer.journal.ring, store`shared, store`committed, store`peak, store`records, payloads, this`retired, this`epoch
      ensures Valid()
      ensures result == if !Live(old(writer.published[..]), h) then InvalidHandle
                        else if cause == Success || old(writer.published[h.slot]).value.state == Resident then InvalidArgument
                        else if !Replaceable(old(Now()), store, h.slot, None, grants) then OutOfBudget else Success
      ensures if result == Success then RecordReplaced(old(Now()), Now(), h.slot, None, Failed) else Now() == old(Now())
    {
      hide *;
      var live := CheckHandle(h);
      if !live {
        return InvalidHandle;
      }
      if cause == Success || writer.published[h.slot].value.state == Resident {
        return InvalidArgument;
      }
      result := ReplaceRecord(h.slot, None, Failed, grants);
    }

    /** Take one chunk out of a resource, the first with the identity. A resource that loses its last
        one is as if it had only been asked for. */
    method EvictChunk(h: Handle, chunkId: nat, grants: (nat, nat) -> bool) returns (result: Result)
      requires Valid()
      modifies writer`traversalStamp, writer`changeSequence, writer.published, writer.visited, writer.queue, writer.invalidation
      modifies writer.journal, writer.journal.ring, store`shared, store`committed, store`peak, store`records, payloads, this`retired, this`epoch
      ensures Valid()
      ensures !Live(old(writer.published[..]), h) ==> result == InvalidHandle
      ensures Live(old(writer.published[..]), h) ==> h.slot < payloads.Length && old(payloads[h.slot]).Some?
      ensures Live(old(writer.published[..]), h) ==>
        var entries := old(payloads[h.slot]).value.entries;
        var at := FirstIndex(entries, chunkId);
        && (result == if at == |entries| then MissingChunk
                      else if !Replaceable(old(Now()), store, h.slot, Some(at), grants) then OutOfBudget else Success)
        && (result == Success ==>
              RecordReplaced(old(Now()), Now(), h.slot, Some(at), if |entries| == 1 then Requested else Resident))
      ensures result != Success ==> Now() == old(Now())
    {
      hide *;
      var live := CheckHandle(h);
      if !live {
        return InvalidHandle;
      }
      var entries := payloads[h.slot].value.entries;
      var at := LocateChunk(entries, chunkId);
      if at == |entries| {
        return MissingChunk;
      }
      result := ReplaceRecord(h.slot, Some(at), if |entries| == 1 then Requested else Resident, grants);
    }

    // ------------------------------------------------------------ requests and retirement

    /** The writer's side of a new request. */
    method RequestSlot(key: Key, slot: nat) returns (handle: Handle)
      requires writer.Valid() && store.Valid() && slot < writer.published.Length && writer.published[slot].None? && key !in writer.keyIndex
      requires forall s :: 0 <= s < slot ==> writer.published[s].Some?
      modifies writer`traversalStamp, writer`changeSequence, writer`keyIndex, writer.published, writer.visited, writer.queue
      modifies writer.invalidation, writer.nextGeneration, writer.pool, writer.pool.cells, writer.pool.buckets, writer.pool.heads
      modifies writer.journal, writer.journal.ring
      ensures writer.Valid() && store.Valid() && RequestedAs(old(writer.Contents()), key, handle, writer.Contents())
      ensures Kept() == old(Kept())
    {
      hide *;
      handle := writer.RequestInSlot(key, slot);
    }

    method RequestWith(key: Key, slot: nat, record: ChunkAccounts.Record, ghost records: seq<ChunkAccounts.Record>) returns (handle: Handle)
      requires writer.Valid() && store.Valid() && slot < writer.published.Length && writer.published[slot].None? && key !in writer.keyIndex
      requires forall s :: 0 <= s < slot ==> writer.published[s].Some?
      requires SameSlots(writer.published[..], payloads[..]) && Owned(records, payloads[..], retired) && LatestLeads(retired, epoch)
      requires store.records == records + [record]
      modifies writer`traversalStamp, writer`changeSequence, writer`keyIndex, writer.published, writer.visited, writer.queue
      modifies writer.invalidation, writer.nextGeneration, writer.pool, writer.pool.cells, writer.pool.buckets, writer.pool.heads
      modifies writer.journal, writer.journal.ring, payloads, this`retired, this`epoch
      ensures Valid() && RequestedAs(old(writer.Contents()), key, handle, writer.Contents())
      ensures handle.slot < payloads.Length && Kept() == Exchanged(old(Kept()), handle.slot, Some(record))
    {
      hide *;
      GraphShows();
      ghost var before := writer.Contents();
      handle := RequestSlot(key, slot);
      GraphShows();
      RequestedSlots(before, key, handle, writer.Contents());
      Exchange(handle.slot, Some(record), before.published, records);
    }

    method FindResident(key: Key) returns (resident: bool, handle: Handle)
      requires writer.Valid()
      ensures resident <==> key in writer.keyIndex
      ensures resident ==>
        && writer.keyIndex[key] < writer.published.Length && writer.published[writer.keyIndex[key]].Some?
        && handle == writer.published[writer.keyIndex[key]].value.handle
    {
      hide Acyclic;
      resident, handle := false, Handle(0, 0, 0);
      if key in writer.keyIndex {
        return true, writer.published[writer.keyIndex[key]].value.handle;
      }
    }

    method RequestNew(key: Key, slot: nat, inserted: bool, grants: (nat, nat) -> bool) returns (result: Result, handle: Handle)
      requires Valid() && slot < writer.published.Length && writer.published[slot].None? && key !in writer.keyIndex
      requires forall s :: 0 <= s < slot ==> writer.published[s].Some?
      modifies writer`traversalStamp, writer`changeSequence, writer`keyIndex, writer.published, writer.visited, writer.queue
      modifies writer.invalidation, writer.nextGeneration, writer.pool, writer.pool.cells, writer.pool.buckets, writer.pool.heads
      modifies writer.journal, writer.journal.ring, store, store.staging, payloads, this`retired, this`epoch
      ensures Valid() && result == old(store.Verdict([], 0, inserted, grants))
      ensures result != Success ==> Now() == old(Now())
      ensures result == Success ==> RequestedAs(old(Graph()), key, handle, Graph())
      ensures result == Success ==> Stored(old(Kept()), Kept(), [], store.RecordSize(0, 0)) && Replaced(old(Kept()), Kept(), handle.slot)
    {
      hide *;
      handle := Handle(0, 0, 0);
      ValidIs();
      KeptIs();
      ghost var was := Kept();
      var record: ChunkAccounts.Record;
      result, record := store.Publish([], 0, inserted, grants);
      KeptIs();
      if result == Success {
        ghost var stored := Kept();
        handle := RequestWith(key, slot, record, was.records);
        StoredBy(was, stored, Kept(), [], handle.slot, record);
        ReplacedBy(was, stored, Kept(), handle.slot, record);
      } else {
        ValidIs();
      }
    }

    /** A key asked for before it is published gets a record without chunks; a resident one answers
        with its handle. */
    method Request(key: Key, inserted: bool, grants: (nat, nat) -> bool) returns (result: Result, handle: Handle)
      requires Valid()
      modifies writer`traversalStamp, writer`changeSequence, writer`keyIndex, writer.published, writer.visited, writer.queue
      modifies writer.invalidation, writer.nextGeneration, writer.pool, writer.pool.cells, writer.pool.buckets, writer.pool.heads
      modifies writer.journal, writer.journal.ring, store, store.staging, payloads, this`retired, this`epoch
      ensures Valid()
      ensures result == if key.typeId == 0 then InvalidArgument
                        else if key in old(writer.keyIndex) then Success
                        else if forall s :: 0 <= s < writer.published.Length ==> old(writer.published[s]).Some? then OutOfBudget
                        else old(store.Verdict([], 0, inserted, grants))
      ensures result != Success || key in old(writer.keyIndex) ==> Now() == old(Now())
      ensures result == Success && key !in old(writer.keyIndex) ==>
        && RequestedAs(old(Graph()), key, handle, Graph())
        && Stored(old(Kept()), Kept(), [], store.RecordSize(0, 0)) && Replaced(old(Kept()), Kept(), handle.slot)
      ensures result == Success && key in old(writer.keyIndex) ==> handle == old(writer.published[writer.keyIndex[key]]).value.handle
    {
      hide *;
      handle := Handle(0, 0, 0);
      if key.typeId == 0 {
        return InvalidArgument, handle;
      }
      var resident: bool;
      resident, handle := FindResident(key);
      if resident {
        return Success, handle;
      }
      var slot := writer.FindEmptySlot();
      if slot.None? {
        return OutOfBudget, handle;
      }
      result, handle := RequestNew(key, slot.value, inserted, grants);
    }

    /** The writer's side of a retirement. */
    method RetireSlot(h: Handle) returns (result: Result)
      requires writer.Valid() && store.Valid()
      modifies writer`traversalStamp, writer`changeSequence, writer`keyIndex, writer.published, writer.visited, writer.queue
      modifies writer.invalidation, writer.pool, writer.pool.cells, writer.pool.buckets, writer.pool.heads
      modifies writer.journal, writer.journal.ring
      ensures writer.Valid() && store.Valid() && Kept() == old(Kept())
      ensures result == if Live(old(writer.published[..]), h) then Success else InvalidHandle
      ensures if result == Success then WithdrawnAs(old(writer.Contents()), h.slot, writer.Contents())
              else writer.Contents() == old(writer.Contents())
    {
      hide *;
      result := writer.Retire(h);
    }

    /** Withdraw a resource. Its record stays with the store until no reader and no pin needs it. */
    method Retire(h: Handle) returns (result: Result)
      requires Valid()
      modifies writer`traversalStamp, writer`changeSequence, writer`keyIndex, writer.published, writer.visited, writer.queue
      modifies writer.invalidation, writer.pool, writer.pool.cells, writer.pool.buckets, writer.pool.heads
      modifies writer.journal, writer.journal.ring, payloads, this`retired, this`epoch
      ensures Valid() && result == if Live(old(writer.published[..]), h) then Success else InvalidHandle
      ensures result == Success ==> WithdrawnAs(old(Graph()), h.slot, Graph())
      ensures result == Success ==> h.slot < payloads.Length && Kept() == Exchanged(old(Kept()), h.slot, None)
      ensures result != Success ==> Now() == old(Now())
    {
      hide *;
      ValidIs();
      KeptIs();
      GraphShows();
      ghost var before, records := writer.Contents(), store.records;
      result := RetireSlot(h);
      KeptIs();
      GraphShows();
      if result == Success {
        WithdrawnSlots(before, h.slot, writer.Contents());
        Exchange(h.slot, None, before.published, records);
      } else {
        ValidIs();
      }
    }

    // ------------------------------------------------------------ collection

    /** Free one record of the list. */
    method Free(k: nat)
      requires Valid() && k < |retired|
      modifies store`shared, store`payload, store`unique, store`committed, store`records, this`retired
      ensures Valid() && retired == old(retired)[..k] + old(retired)[k + 1..]
      ensures ChunkAccounts.Among(store.shared, old(store.shared))
    {
      hide *;
      ghost var records := store.records;
      ValidIs();
      WaitingIsRecorded(records, payloads[..], retired, k);
      ghost var r: nat :| r < |records| && records[r] == retired[k].record;
      FreeingKeepsOwned(records, payloads[..], retired, k, r);
      FreeingKeepsOrder(retired, k, epoch);
      store.Destroy(retired[k].record, r);
      retired := retired[..k] + retired[k + 1..];
      ValidIs();
    }

    /** Visit one record of the list. */
    method Visit(k: nat, ghost visits: nat, oldest: Option<nat>, pinned: set<nat>, ghost aim: seq<Retiree>) returns (next: nat, freed: bool)
      requires Valid() && k < |retired| && ComesTo(retired, k, visits + 1, oldest, pinned, aim)
      modifies store`shared, store`payload, store`unique, store`committed, store`records, this`retired
      ensures Valid() && next <= |retired| == |old(retired)| - (if freed then 1 else 0)
      ensures ComesTo(retired, next, visits, oldest, pinned, aim)
      ensures ChunkAccounts.Among(store.shared, old(store.shared))
    {
      hide Valid, Survivors, Protected, ChunkAccounts.Among;
      VisitOne(retired, k, visits + 1, oldest, pinned);
      next, freed := k, !Protected(retired[k], oldest, pinned);
      if freed {
        Free(k);
      } else {
        next := k + 1;
        ChunkAdoption.AmongItself(store.shared);
      }
    }

    /** Visit the list from its head and free what neither the oldest announced epoch nor a pin protects. */
    method Sweep(maximum: nat, oldest: Option<nat>, pinned: set<nat>) returns (collected: nat)
      requires Valid()
      modifies store`shared, store`payload, store`unique, store`committed, store`records, this`retired
      ensures Valid() && retired == Survivors(old(retired), maximum, oldest, pinned)
      ensures collected == |old(retired)| - |retired| && ChunkAccounts.Among(store.shared, old(store.shared))
    {
      hide *;
      collected := 0;
      ChunkAdoption.AmongItself(store.shared);
      ghost var before := store.shared;
      var k: nat, visited: nat := 0, 0;
      ghost var aim := Survivors(retired, maximum, oldest, pinned);
      FirstComesTo(retired, maximum, oldest, pinned);
      while k < |retired| && visited < maximum
        invariant Valid() && ChunkAccounts.Among(store.shared, before)
        invariant k <= |retired| && visited <= maximum && collected == |old(retired)| - |retired|
        invariant ComesTo(retired, k, maximum - visited, oldest, pinned, aim)
        decreases maximum - visited
      {
        ghost var shared := store.shared;
        visited := visited + 1;
        var freed: bool;
        k, freed := Visit(k, maximum - visited, oldest, pinned, aim);
        ChunkAccounts.AmongTransitive(store.shared, shared, before);
        if freed {
          collected := collected + 1;
        }
      }
      LastComesTo(retired, k, maximum - visited, oldest, pinned, aim);
    }

    /** Free retired records, up to a number of visits. While a reader is entering its scope nothing is
        freed. Otherwise exactly those of the visited records go that are not pinned and were retired
        before every epoch a reader announces; the rest stays, in order. */
    method CollectRetired(maximum: nat, readers: seq<EpochProtocol.Word>, pinned: set<nat>) returns (collected: nat)
      requires Valid()
      modifies store`shared, store`payload, store`unique, store`committed, store`records, this`retired
      ensures Valid() && collected == |old(retired)| - |retired| && ChunkAccounts.Among(store.shared, old(store.shared))
      ensures maximum == 0 || EpochProtocol.Entering in readers ==> retired == old(retired)
      ensures EpochProtocol.Entering !in readers ==> Collected(old(retired), maximum, readers, pinned, retired)
      ensures forall k :: 0 <= k < |retired| ==> retired[k].record in store.records
    {
      hide *;
      ghost var waiting := retired;
      ValidIs();
      collected := 0;
      var entering, oldest := ScanReaders(readers);
      if maximum != 0 && !entering {
        collected := Sweep(maximum, oldest, pinned);
      } else {
        ChunkAdoption.AmongItself(store.shared);
      }
      WaitingIsInStore();
      if !entering {
        SurvivingOnes(waiting, epoch, maximum, oldest, readers, pinned);
      }
    }

    lemma WaitingIsInStore()
      requires Valid()
      ensures forall k :: 0 <= k < |retired| ==> retired[k].record in store.records
    {
      hide Writer.Valid, ChunkStore.Valid, SameSlots, Owned;
      forall k | 0 <= k < |retired| ensures retired[k].record in store.records {
        WaitingIsRecorded(store.records, payloads[..], retired, k);
      }
    }
  }

  /** The oldest epoch that a reader has announced, unless one is about to announce its own. */
  method ScanReaders(readers: seq<EpochProtocol.Word>) returns (entering: bool, oldest: Option<nat>)
    ensures entering <==> EpochProtocol.Entering in readers
    ensures !entering ==> (oldest.Some? ==> EpochProtocol.At(oldest.value) in readers)
    ensures !entering ==> forall i :: 0 <= i < |readers| && readers[i].At? ==> oldest.Some? && oldest.value <= readers[i].epoch
  {
    oldest := None;
    for i := 0 to |readers|
      invariant EpochProtocol.Entering !in readers[..i]
      invariant oldest.Some? ==> EpochProtocol.At(oldest.value) in readers[..i]
      invariant forall j :: 0 <= j < i && readers[j].At? ==> oldest.Some? && oldest.value <= readers[j].epoch
    {
      if readers[i].Entering? {
        return true, None;
      }
      if readers[i].At? && (oldest.None? || readers[i].epoch < oldest.value) {
        oldest := Some(readers[i].epoch);
      }
    }
    return false, oldest;
  }

  /** Of the records that waited those still wait that were not visited, or are pinned, or were retired
      in or after an epoch that a reader announces. */
  ghost predicate Collected(waited: seq<Retiree>, maximum: nat, readers: seq<EpochProtocol.Word>, pinned: set<nat>, waiting: seq<Retiree>)
  {
    && (forall k :: 0 <= k < |waited| ==>
          (waited[k] in waiting <==>
             || maximum <= k || waited[k].epoch in pinned
             || exists i :: 0 <= i < |readers| && readers[i].At? && readers[i].epoch <= waited[k].epoch))
    && forall k :: 0 <= k < |waiting| ==> waiting[k] in waited
  }

  /** In whatever state of the concurrent machine the reader words are read: a retired record that an
      active scope holds, or that is pinned, still waits after the collection. */
  lemma HeldStillWaits(s0: EpochProtocol.State, run: seq<EpochProtocol.Action>, r: nat, waited: seq<Retiree>, k: nat, maximum: nat,
                       pinned: set<nat>, waiting: seq<Retiree>)
    requires EpochProtocol.Initial(s0) && EpochProtocol.Legal(s0, run) && k < |waited|
    requires Collected(waited, maximum, EpochProtocol.After(s0, run).readers, pinned, waiting)
    requires var s := EpochProtocol.After(s0, run);
      && r in s.retiredAt && waited[k].epoch == s.retiredAt[r] && (Some(r) in s.pinSlots ==> s.retiredAt[r] in pinned)
      && (Some(r) in s.pinSlots || exists t :: 0 <= t < |s.scopes| && s.scopes[t].Active? && r in s.scopes[t].held)
    ensures waited[k] in waiting
  {
    var s := EpochProtocol.After(s0, run);
    EpochProtocol.InitialInv(s0);
    EpochProtocol.RunKeepsInv(s0, run);
    hide EpochProtocol.Inv, EpochProtocol.Initial, EpochProtocol.Legal, EpochProtocol.After;
    if t: nat :| t < |s.scopes| && s.scopes[t].Active? && r in s.scopes[t].held {
      EpochProtocol.HeldIsAnnounced(s, t, r);
    }
  }

  lemma SurvivingOnes(waited: seq<Retiree>, epoch: nat, maximum: nat, oldest: Option<nat>, readers: seq<EpochProtocol.Word>, pinned: set<nat>)
    requires LatestLeads(waited, epoch)
    requires oldest.Some? ==> EpochProtocol.At(oldest.value) in readers
    requires forall i :: 0 <= i < |readers| && readers[i].At? ==> oldest.Some? && oldest.value <= readers[i].epoch
    ensures Collected(waited, maximum, readers, pinned, Survivors(waited, maximum, oldest, pinned))
    ensures maximum == 0 ==> Survivors(waited, maximum, oldest, pinned) == waited
  {
    hide Survivors;
    var waiting := Survivors(waited, maximum, oldest, pinned);
    forall k | 0 <= k < |waited|
      ensures waited[k] in waiting <==>
        || maximum <= k || waited[k].epoch in pinned
        || exists i :: 0 <= i < |readers| && readers[i].At? && readers[i].epoch <= waited[k].epoch
    {
      SurvivesExactly(waited, maximum, oldest, pinned, k);
      if oldest.Some? && oldest.value <= waited[k].epoch {
        var i :| 0 <= i < |readers| && readers[i] == EpochProtocol.At(oldest.value);
      }
    }
    forall k | 0 <= k < |waiting| ensures waiting[k] in waited {
      SurvivorsAreOld(waited, maximum, oldest, pinned, waiting[k]);
    }
    if maximum == 0 {
      NothingVisited(waited, oldest, pinned);
    }
  }

  /** What the list comes to when the first records have been visited and so many visits are left. */
  ghost predicate ComesTo(retired: seq<Retiree>, k: nat, visits: nat, oldest: Option<nat>, pinned: set<nat>, aim: seq<Retiree>)
  {
    k <= |retired| && retired[..k] + Survivors(retired[k..], visits, oldest, pinned) == aim
  }

  lemma FirstComesTo(retired: seq<Retiree>, visits: nat, oldest: Option<nat>, pinned: set<nat>)
    ensures ComesTo(retired, 0, visits, oldest, pinned, Survivors(retired, visits, oldest, pinned))
  {
    assert retired[0..] == retired;
  }

  lemma LastComesTo(retired: seq<Retiree>, k: nat, visits: nat, oldest: Option<nat>, pinned: set<nat>, aim: seq<Retiree>)
    requires ComesTo(retired, k, visits, oldest, pinned, aim) && (k == |retired| || visits == 0)
    ensures retired == aim
  {
    VisitsEnd(retired, k, visits, oldest, pinned);
  }

  lemma RequestedSlots(c: Contents, key: Key, handle: Handle, d: Contents)
    requires RequestedAs(c, key, handle, d)
    ensures handle.slot < |c.published| && exists record :: d.published == c.published[handle.slot := Some(record)]
  {
  }

  lemma WithdrawnSlots(c: Contents, slot: nat, d: Contents)
    requires WithdrawnAs(c, slot, d)
    ensures slot < |c.published| && d.published == c.published[slot := None]
  {
  }

  datatype Whole = Whole(graph: Contents, kept: Holdings)

  /** The allocator grants the record that would replace a slot's, with one chunk less or the same. */
  ghost predicate Replaceable(w: Whole, store: ChunkStore, slot: nat, exclude: Option<nat>, grants: (nat, nat) -> bool)
  {
    && slot < |w.graph.published| && w.graph.published[slot].Some? && slot < |w.kept.payloads| && w.kept.payloads[slot].Some?
    && Granted(store.limit, w.kept.committed,
               store.RecordSize(|Without(w.kept.payloads[slot].value.entries, exclude)|, |w.graph.published[slot].value.deps|), grants)
  }

  /** A slot has a new record: the next revision under the same handle, with the chunks of the old one
      that were kept; its dependents have been told, and the old record waits to be freed. */
  ghost predicate RecordReplaced(was: Whole, now: Whole, slot: nat, exclude: Option<nat>, state: ResourceState)
  {
    && SupersededAs(was.graph, slot, state, now.graph) && Replaced(was.kept, now.kept, slot)
    && KeepsChunks(was.kept, now.kept, slot, exclude)
  }

  /** A slot publishes this record instead of what it published. */
  ghost function Exchanged(k: Holdings, slot: nat, record: Option<ChunkAccounts.Record>): Holdings
    requires slot < |k.payloads|
  {
    k.(payloads := k.payloads[slot := record], retired := Retired(k.payloads[slot], k.retired, k.epoch), epoch := k.epoch + 1)
  }

  lemma ReplacedAsAWhole(was: Whole, prepared: Holdings, now: Whole, slot: nat, exclude: Option<nat>, state: ResourceState,
                         record: ChunkAccounts.Record)
    requires SupersededAs(was.graph, slot, state, now.graph) && slot < |was.kept.payloads| && was.kept.payloads[slot].Some?
    requires prepared == was.kept.(records := was.kept.records + [record], shared := prepared.shared, committed := prepared.committed)
    requires ChunkAccounts.Among(was.kept.shared, prepared.shared) && ChunkAccounts.Among(prepared.shared, was.kept.shared)
    requires now.kept == Exchanged(prepared, slot, Some(record))
    requires record.entries == Without(was.kept.payloads[slot].value.entries, exclude)
    ensures RecordReplaced(was, now, slot, exclude, state)
  {
  }

  /** The first check that fails decides: those of the admission, then what the chunks come to. */
  ghost predicate Decides(c: Contents, capacity: nat, p: Publication, chunks: Result, result: Result)
    requires Consistent(c)
  {
    exists verdict, slot ::
      AdmissionVerdict(c, capacity, p, verdict, slot) && result == if verdict != Success then verdict else chunks
  }

  lemma DecidesBy(c: Contents, capacity: nat, p: Publication, verdict: Result, slot: nat, chunks: Result)
    requires Consistent(c) && AdmissionVerdict(c, capacity, p, verdict, slot)
    ensures Decides(c, capacity, p, chunks, if verdict != Success then verdict else chunks)
  {
  }

  /** One record more, whose chunks answer the inputs; what was shared still is. */
  ghost predicate Stored(was: Holdings, now: Holdings, inputs: seq<Input>, size: nat)
  {
    && |now.records| == |was.records| + 1 && now.records[..|was.records|] == was.records
    && now.records[|was.records|].size == size
    && Published(inputs, was.staging, now.shared, now.records[|was.records|])
    && ChunkAccounts.Among(was.shared, now.shared) && HandedOver(inputs, was.staging, now.staging)
  }

  lemma StoredBy(was: Holdings, stored: Holdings, now: Holdings, inputs: seq<Input>, slot: nat, record: ChunkAccounts.Record)
    requires stored.records == was.records + [record] && Published(inputs, was.staging, stored.shared, record)
    requires ChunkAccounts.Among(was.shared, stored.shared) && HandedOver(inputs, was.staging, stored.staging)
    requires slot < |stored.payloads| && now == Exchanged(stored, slot, Some(record))
    ensures Stored(was, now, inputs, record.size)
  {
  }

  lemma EmptySlotsMatch(published: seq<Option<Record>>, payloads: seq<Option<ChunkAccounts.Record>>)
    requires |published| == |payloads| && forall s :: 0 <= s < |published| ==> published[s].None? && payloads[s].None?
    ensures SameSlots(published, payloads)
  {
  }

  lemma ReplacedBy(was: Holdings, stored: Holdings, now: Holdings, slot: nat, record: ChunkAccounts.Record)
    requires stored.records == was.records + [record] && slot < |was.payloads|
    requires stored.payloads == was.payloads && stored.retired == was.retired && stored.epoch == was.epoch
    requires now == Exchanged(stored, slot, Some(record))
    ensures Replaced(was, now, slot)
  {
  }

  lemma ExchangingKeepsTied(was: seq<Option<Record>>, now: seq<Option<Record>>, records: seq<ChunkAccounts.Record>,
                            records': seq<ChunkAccounts.Record>, payloads: seq<Option<ChunkAccounts.Record>>, retired: seq<Retiree>,
                            epoch: nat, slot: nat, record: Option<ChunkAccounts.Record>)
    requires SameSlots(was, payloads) && Owned(records, payloads, retired) && LatestLeads(retired, epoch) && slot < |was|
    requires |now| == |was| && now == was[slot := now[slot]] && (now[slot].Some? <==> record.Some?)
    requires records' == if record.Some? then records + [record.value] else records
    ensures slot < |payloads| && SameSlots(now, payloads[slot := record])
    ensures Owned(records', payloads[slot := record], Retired(payloads[slot], retired, epoch))
    ensures LatestLeads(Retired(payloads[slot], retired, epoch), epoch + 1)
  {
    hide Owned, LatestLeads, Retired;
    if record.Some? {
      ReplacingKeepsOwned(records, payloads, retired, slot, record.value, epoch);
    } else {
      WithdrawingKeepsOwned(records, payloads, retired, slot, epoch);
    }
    RetiringKeepsOrder(payloads[slot], retired, epoch);
  }

  lemma PublishedSlots(c: Contents, capacity: nat, p: Publication, handle: Handle, d: Contents)
    requires PublishedAs(c, capacity, p, handle, d)
    ensures handle.slot < |c.published| && exists record :: d.published == c.published[handle.slot := Some(record)]
  {
    PublicationKeepsAcyclic(c, capacity, p, handle, d);
  }

  /** One record more, published by this slot; what the slot published before is retired. */
  ghost predicate Replaced(was: Holdings, now: Holdings, slot: nat)
  {
    && slot < |was.payloads| && |now.records| == |was.records| + 1 && now.records[..|was.records|] == was.records
    && now.payloads == was.payloads[slot := Some(now.records[|was.records|])]
    && now.retired == Retired(was.payloads[slot], was.retired, was.epoch) && now.epoch == was.epoch + 1
  }

  /** The new record shares the old one's chunks, all or all but one. */
  ghost predicate KeepsChunks(was: Holdings, now: Holdings, slot: nat, exclude: Option<nat>)
  {
    && slot < |was.payloads| && was.payloads[slot].Some? && slot < |now.payloads| && now.payloads[slot].Some?
    && now.payloads[slot].value.entries == Without(was.payloads[slot].value.entries, exclude)
    && ChunkAccounts.Among(was.shared, now.shared) && ChunkAccounts.Among(now.shared, was.shared)
    && now.staging == was.staging && now.payload == was.payload && now.unique == was.unique
  }

  lemma SupersedingSlots(c: Contents, slot: nat, state: ResourceState, d: Contents)
    requires SupersededAs(c, slot, state, d)
    ensures exists record :: d.published == c.published[slot := Some(record)]
  {
  }

  /** Where the first entry with the identity is. */
  ghost function FirstIndex(entries: seq<ChunkAccounts.Entry>, chunkId: nat): (e: nat)
    ensures e <= |entries|
    ensures e < |entries| ==> FirstOf(entries, chunkId, e)
  {
    if entries == [] || entries[0].chunkId == chunkId then 0 else 1 + FirstIndex(entries[1..], chunkId)
  }

  lemma {:induction false} FirstIndexIs(entries: seq<ChunkAccounts.Entry>, chunkId: nat)
    ensures FirstIndex(entries, chunkId) == |entries| <==> forall e :: 0 <= e < |entries| ==> entries[e].chunkId != chunkId
    ensures forall e :: FirstOf(entries, chunkId, e) ==> FirstIndex(entries, chunkId) == e
  {
    var first := FirstIndex(entries, chunkId);
    if first < |entries| {
      assert FirstOf(entries, chunkId, first);
    } else if entries != [] {
      FirstIndexIs(entries[1..], chunkId);
      assert forall e :: 0 < e < |entries| ==> entries[e] == entries[1..][e - 1];
    }
  }

  method LocateChunk(entries: seq<ChunkAccounts.Entry>, chunkId: nat) returns (at: nat)
    ensures at == FirstIndex(entries, chunkId)
  {
    var found := FindChunk(entries, chunkId);
    FirstIndexIs(entries, chunkId);
    return if found.Some? then found.value else |entries|;
  }

  /** A slot publishes a chunk record exactly if it publishes a resource. */
  ghost predicate SameSlots(published: seq<Option<Record>>, payloads: seq<Option<ChunkAccounts.Record>>)
  {
    |payloads| == |published| && forall s :: 0 <= s < |published| ==> (payloads[s].Some? <==> published[s].Some?)
  }

  /** A resource whose record is superseded keeps its handle, its key and its dependencies. */
  lemma SupersedingKeepsRelation(c: Contents, slot: nat, state: ResourceState, d: Contents)
    requires Consistent(c) && SupersededAs(c, slot, state, d)
    ensures Indexed(d.published, d.index) && Relation(d.published, d.index) == Relation(c.published, c.index)
    ensures var prior := c.published[slot].value;
      && d.published == c.published[slot := Some(Superseded(prior, state))] && d.index == c.index
      && Superseded(prior, state).handle == prior.handle && Superseded(prior, state).state == state
      && (prior.revision < UINT64_MAX ==> Superseded(prior, state).revision == prior.revision + 1)
  {
    hide Acyclic, Relation;
    SupersededIsConsistent(c, slot, Superseded(c.published[slot].value, state));
  }

  /** The revision under a key; none for a key that is not resident. */
  ghost function Revision(c: Contents, key: Key): nat
    requires Consistent(c)
  {
    if key in c.index then c.published[c.index[key]].value.revision else 0
  }

  lemma RevisionCountsOn(c: Contents, capacity: nat, p: Publication, handle: Handle, d: Contents)
    requires PublishedAs(c, capacity, p, handle, d) && Consistent(d)
    ensures Revision(d, p.key) == Revision(c, p.key) + 1
  {
    hide AdmissionVerdict, Announced, Relation, Acyclic, Consistent;
    PublicationKeepsAcyclic(c, capacity, p, handle, d);
    TakesItsSlot(c, capacity, p, handle);
    assert d.published[handle.slot] == Some(NewRecord(c, p, handle.slot));
  }

  lemma TakesItsSlot(c: Contents, capacity: nat, p: Publication, handle: Handle)
    requires Consistent(c) && AdmissionVerdict(c, capacity, p, Success, handle.slot)
    ensures SlotFor(c, p.key, handle.slot)
  {
  }
}
