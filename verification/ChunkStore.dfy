/** The graph's shared payload chunks: deduplicated, reference counted, and changed only by
    publications that succeed as a whole. */
module ChunkStore {
  import opened Wrappers
  import opened ResourceTypes
  import opened ChunkAccounts
  import opened ChunkDrafts
  import opened ChunkAdoption
  import opened ChunkVerdicts

  /** Bytes of a record, of each of its chunk entries and dependencies, and of a block's header. */
  datatype Sizes = Sizes(record: nat, entry: nat, dependency: nat, header: nat)

  /** The allocator's limits: never past the counter's width, nor past a configured maximum. */
  ghost predicate Within(limit: nat, committed: nat, peak: nat)
  {
    committed <= UINT64_MAX && (limit != 0 ==> committed <= limit) && committed <= peak
  }

  predicate IsPowerOfTwo(n: nat)
  {
    n == 1 || (n > 1 && n % 2 == 0 && IsPowerOfTwo(n / 2))
  }

  ghost function TwoTo(k: nat): (n: nat)
    ensures n > 0
  {
    if k == 0 then 1 else 2 * TwoTo(k - 1)
  }

  lemma {:induction false} PowersOfTwo(n: nat)
    ensures IsPowerOfTwo(n) <==> exists k :: n == TwoTo(k)
  {
    assert TwoTo(0) == 1;
    if n > 1 && n % 2 == 0 {
      PowersOfTwo(n / 2);
      if k: nat :| n / 2 == TwoTo(k) {
        assert n == TwoTo(k + 1);
      }
    }
    if k: nat :| n > 1 && n == TwoTo(k) {
      assert n / 2 == TwoTo(k - 1);
    }
  }

  /** What a publication does when it succeeds: the record answers the inputs one by one, and its
      blocks hold the bytes that were staged. */
  ghost predicate Published(inputs: seq<Input>, staging: seq<Staging>, shared: seq<Block>, record: Record)
  {
    |record.entries| == |inputs| && forall i :: 0 <= i < |inputs| ==> EntryAnswers(inputs[i], staging, shared, record.entries[i])
  }

  ghost predicate EntryAnswers(input: Input, staging: seq<Staging>, shared: seq<Block>, e: Entry)
  {
    exists b :: 0 <= b < |shared|
      && shared[b].address == e.block && shared[b].key == e.key == input.key && |shared[b].data| == e.bytes && e.chunkId == input.chunkId
      && (input.Staged? ==>
            && input.slot < |staging| && staging[input.slot].generation == input.generation
            && staging[input.slot].data == Some(shared[b].data) && shared[b].alignment >= staging[input.slot].alignment)
  }

  /** Exactly the slots that were handed over are free again. */
  ghost predicate HandedOver(inputs: seq<Input>, was: seq<Staging>, staging: seq<Staging>)
  {
    && |staging| == |was|
    && forall s :: 0 <= s < |was| ==>
         staging[s] == if exists j :: 0 <= j < |inputs| && inputs[j].Staged? && inputs[j].slot == s
                       then Staging(None, 0, was[s].generation) else was[s]
  }

  lemma DraftIsPublished(draft: seq<Part>, inputs: seq<Input>, was: seq<Staging>, staging: seq<Staging>, shared: seq<Block>, size: nat)
    requires |draft| == |inputs| && AllAnswer(draft, inputs, |inputs|, was)
    requires AllStanding(draft, |draft|, shared) && SettledTo(was, draft, |draft|, staging)
    ensures Published(inputs, was, shared, Record(Entries(draft), size)) && HandedOver(inputs, was, staging)
  {
    forall i | 0 <= i < |inputs| ensures EntryAnswers(inputs[i], was, shared, EntryOf(draft[i])) {
      assert Answers(draft[i], inputs[i], was) && Stands(shared, draft[i].block);
      var b :| 0 <= b < |shared| && SameBlock(draft[i].block, shared[b]);
      assert shared[b].address == draft[i].block.address;
    }
    forall s | 0 <= s < |was|
      ensures staging[s] == if exists j :: 0 <= j < |inputs| && inputs[j].Staged? && inputs[j].slot == s
                            then Staging(None, 0, was[s].generation) else was[s]
    {
      assert forall j :: 0 <= j < |draft| ==> Answers(draft[j], inputs[j], was);
      if j: nat :| j < |inputs| && inputs[j].Staged? && inputs[j].slot == s {
        assert draft[j].staging == Some(s);
      }
    }
  }

  class ChunkStore {
    const sizes: Sizes
    const limit: nat
    /** Committed when the graph was built. */
    const fixed: nat
    const staging: array<Staging>
    var shared: seq<Block>
    var committed: nat
    var peak: nat
    var payload: nat
    var unique: nat
    var nextAddress: nat
    /** The records that are published, or retired and not yet freed. */
    ghost var records: seq<Record>

    /** What all live blocks come to. */
    ghost function Due(): (bytes: nat)
      reads this, staging
    {
      fixed + RecordBytes(records) + Headers(sizes.header, |shared|) + Payload(shared) + StagedBytes(staging[..])
    }

    /** Everything but the committed total. */
    ghost predicate Steady()
      reads this, staging
    {
      && sizes.record > 0 && sizes.header > 0
      && Counted(shared, Names(records)) && AllBacked(shared, records) && Placed(shared, nextAddress) && Deduplicated(shared)
      && payload == Payload(shared) && unique == |shared|
      && Within(limit, committed, peak)
    }

    ghost predicate Valid()
      reads this, staging
    {
      Steady() && committed == Due()
    }

    constructor (sizes: Sizes, limit: nat, fixed: nat, stagingSlots: nat)
      requires sizes.record > 0 && sizes.header > 0 && fixed <= UINT64_MAX && (limit != 0 ==> fixed <= limit)
      ensures Valid() && shared == [] && records == [] && committed == fixed && fresh(staging) && staging.Length == stagingSlots
      ensures this.sizes == sizes && this.limit == limit && this.fixed == fixed
    {
      this.sizes, this.limit, this.fixed := sizes, limit, fixed;
      staging := new Staging[stagingSlots](i => Staging(None, 0, 0));
      shared, records := [], [];
      committed, peak, payload, unique, nextAddress := fixed, fixed, 0, 0, 1;
      new;
      NothingStaged(staging[..]);
    }

    method Allocate(size: nat, grants: (nat, nat) -> bool) returns (ok: bool)
      requires Within(limit, committed, peak)
      modifies this`committed, this`peak
      ensures ok == Granted(limit, old(committed), size, grants)
      ensures committed == old(committed) + (if ok then size else 0) && Within(limit, committed, peak)
    {
      if size == 0 || size > UINT64_MAX - committed || (limit != 0 && size > limit - committed) || !grants(size, committed) {
        return false;
      }
      committed := committed + size;
      if committed > peak {
        peak := committed;
      }
      return true;
    }

    /** Hand out a staging slot. The contents stand for the bytes its owner will have written. */
    method AllocateStaging(contents: seq<Byte>, alignment: nat, grants: (nat, nat) -> bool)
      returns (result: Result, slot: nat)
      requires Valid()
      modifies this`committed, this`peak, staging
      ensures Valid()
      ensures result == if contents == [] || !IsPowerOfTwo(alignment) then InvalidArgument
                        else if (forall s :: 0 <= s < staging.Length ==> old(staging[s]).data.Some?)
                          || !Granted(limit, old(committed), |contents|, grants) then OutOfBudget
                        else Success
      ensures result == Success ==>
        && slot < staging.Length && old(staging[slot]).data.None?
        && (forall s :: 0 <= s < slot ==> old(staging[s]).data.Some?)
        && staging[..] == old(staging[..])[slot := Staging(Some(contents), alignment, NextGeneration(old(staging[slot]).generation))]
      ensures result != Success ==> staging[..] == old(staging[..]) && committed == old(committed)
    {
      slot := 0;
      if contents == [] || !IsPowerOfTwo(alignment) {
        return InvalidArgument, slot;
      }
      while slot < staging.Length && staging[slot].data.Some?
        invariant slot <= staging.Length && forall s :: 0 <= s < slot ==> staging[s].data.Some?
      {
        slot := slot + 1;
      }
      if slot == staging.Length {
        return OutOfBudget, slot;
      }
      var ok := Allocate(|contents|, grants);
      if !ok {
        return OutOfBudget, slot;
      }
      var taken := Staging(Some(contents), alignment, NextGeneration(staging[slot].generation));
      StagedChange(staging[..], slot, taken);
      staging[slot] := taken;
      return Success, slot;
    }

    method CancelStaging(slot: nat, generation: nat) returns (result: Result)
      requires Valid()
      modifies this`committed, staging
      ensures Valid()
      ensures result == if slot < staging.Length && old(staging[slot]).data.Some? && old(staging[slot]).generation == generation
                        then Success else InvalidHandle
      ensures result == Success ==>
        && staging[..] == old(staging[..])[slot := Staging(None, 0, generation)]
        && committed == old(committed) - |old(staging[slot]).data.value|
      ensures result != Success ==> staging[..] == old(staging[..]) && committed == old(committed)
    {
      if slot >= staging.Length || staging[slot].data.None? || staging[slot].generation != generation {
        return InvalidHandle;
      }
      StagedChange(staging[..], slot, Staging(None, 0, generation));
      ReleaseStagingSlot(slot);
      return Success;
    }

    method ReleaseStagingSlot(s: nat)
      requires s < staging.Length
      requires staging[s].data.Some? ==> |staging[s].data.value| <= committed
      modifies this`committed, staging
      ensures staging[..] == old(staging[..])[s := Staging(None, 0, old(staging[s]).generation)]
      ensures committed - StagedBytes(staging[..]) == old(committed) - StagedBytes(old(staging[..]))
      ensures committed == old(committed) - if old(staging[s]).data.Some? then |old(staging[s]).data.value| else 0
    {
      StagedChange(staging[..], s, Staging(None, 0, staging[s].generation));
      if staging[s].data.Some? {
        committed := committed - |staging[s].data.value|;
      }
      staging[s] := Staging(None, 0, staging[s].generation);
    }

    // ------------------------------------------------------------ publication

    /** What a draft in progress adds to the committed bytes. */
    ghost predicate Drafting(draft: seq<Part>, size: nat)
      reads this, staging
    {
      && Steady() && DraftOk(draft, shared, staging[..], nextAddress)
      && committed == Due() + size + Headers(sizes.header, Created(draft))
    }

    /** The part for a chunk that names shared content. */
    method PrepareReuse(draft: seq<Part>, size: nat, chunkId: nat, key: ContentKey) returns (part: Option<Part>)
      requires Drafting(draft, size)
      ensures part.None? <==> NoMatch(shared + Blocks(draft), key, None) || Ambiguous(shared + Blocks(draft), key, None)
      ensures part.Some? ==>
        && Answers(part.value, Reuse(chunkId, key), staging[..]) && part.value.block.address < nextAddress
        && PartOk(draft + [part.value], |draft|, shared, staging[..])
    {
      var found := FindMatching(shared, Blocks(draft), key, None);
      if found.None? {
        return None;
      }
      part := Some(Part(chunkId, found.value, false, None));
      FoundMakesPart(draft, shared, staging[..], nextAddress, part.value);
    }

    /** The part for a staged chunk: it shares a block with the same bytes, or gets a new one. */
    method PrepareStaged(draft: seq<Part>, size: nat, chunkId: nat, key: ContentKey, slot: nat, grants: (nat, nat) -> bool)
      returns (part: Option<Part>)
      requires Drafting(draft, size) && slot < staging.Length && staging[slot].data.Some?
      modifies this`committed, this`peak, this`nextAddress
      ensures Steady() && nextAddress >= old(nextAddress)
      ensures committed == old(committed) + if part.Some? && part.value.created then sizes.header else 0
      ensures part.Some? ==>
        && Answers(part.value, Staged(chunkId, key, slot, staging[slot].generation), staging[..])
        && PartOk(draft + [part.value], |draft|, shared, staging[..])
        && (if part.value.created then old(nextAddress) <= part.value.block.address < nextAddress
            else part.value.block.address < old(nextAddress) == nextAddress)
      ensures var none := NoMatch(shared + Blocks(draft), key, Some(staging[slot]));
        && (part.None? <==> none && !Granted(limit, old(committed), sizes.header, grants))
        && (part.Some? ==> (part.value.created <==> none))
    {
      hide Counted, AllBacked, Deduplicated;
      var found := FindMatching(shared, Blocks(draft), key, Some(staging[slot]));
      if found.Some? {
        part := Some(Part(chunkId, found.value, false, Some(slot)));
        FoundMakesPart(draft, shared, staging[..], nextAddress, part.value);
        return;
      }
      StagedIsUnambiguous(shared + Blocks(draft), key, staging[slot]);
      var ok := Allocate(sizes.header, grants);
      if !ok {
        return None;
      }
      part := Some(Part(chunkId, Block(nextAddress, key, staging[slot].data.value, staging[slot].alignment, 0), true, Some(slot)));
      nextAddress := nextAddress + 1;
    }

    /** The part for a chunk, or why there is none. */
    method PartFor(draft: seq<Part>, size: nat, input: Input, grants: (nat, nat) -> bool) returns (result: Result, part: Option<Part>)
      requires Drafting(draft, size)
      modifies this`committed, this`peak, this`nextAddress
      ensures Steady() && nextAddress >= old(nextAddress)
      ensures committed == old(committed) + if part.Some? && part.value.created then sizes.header else 0
      ensures var refusal := Refusal(draft, input, shared, staging[..]);
        result == if refusal.Some? then refusal.value
                  else if NeedsBlock(draft, input, shared, staging[..]) && !Granted(limit, old(committed), sizes.header, grants) then OutOfBudget
                  else Success
      ensures result == Success <==> part.Some?
      ensures part.Some? ==>
        && Answers(part.value, input, staging[..]) && Unlike(draft, part.value)
        && PartOk(draft + [part.value], |draft|, shared, staging[..])
        && (part.value.created ==> part.value.block.address >= old(nextAddress)) && part.value.block.address < nextAddress
    {
      hide Counted, Deduplicated, OwnAddresses, Placed, AllBacked, NoMatch, Ambiguous;
      part := None;
      var taken := HasChunk(draft, input.chunkId);
      if taken {
        return InvalidArgument, None;
      }
      if input.Reuse? {
        part := PrepareReuse(draft, size, input.chunkId, input.key);
        return if part.None? then MissingChunk else Success, part;
      }
      if input.slot >= staging.Length || staging[input.slot].data.None? || staging[input.slot].generation != input.generation {
        return InvalidHandle, None;
      }
      taken := UsesSlot(draft, input.slot);
      if taken {
        return InvalidArgument, None;
      }
      part := PrepareStaged(draft, size, input.chunkId, input.key, input.slot, grants);
      return if part.None? then OutOfBudget else Success, part;
    }

    /** Find or create the block for one chunk. A chunk refused for its size stays in the draft. */
    method PrepareChunk(draft: seq<Part>, size: nat, input: Input, grants: (nat, nat) -> bool)
      returns (result: Result, draft': seq<Part>)
      requires Drafting(draft, size)
      modifies this`committed, this`peak, this`nextAddress
      ensures Drafting(draft', size)
      ensures Prepared(draft, draft', input, result, shared, staging[..], limit, old(committed), sizes.header, grants)
    {
      hide Granted, NeedsBlock, Deduplicated, Placed, Counted, AllBacked, DraftOk, PartOk, Apart, Unlike, Answers, Refusal, Prepared, LogicalBytes;
      var part: Option<Part>;
      result, part := PartFor(draft, size, input, grants);
      PartIsPrepared(draft, input, result, part, shared, staging[..], limit, old(committed), sizes.header, grants);
      if part.None? {
        DraftStays(draft, shared, staging[..], old(nextAddress), nextAddress);
        return result, draft;
      }
      DraftGrows(draft, shared, staging[..], old(nextAddress), nextAddress, part.value);
      draft' := draft + [part.value];
      if LogicalBytes(draft') > UINT64_MAX {
        return InvalidArgument, draft';
      }
    }

    /** The totals, while a record's own bytes and some created headers are not yet accounted for. */
    ghost predicate Ledger(size: nat, remaining: nat)
      reads this, staging
    {
      && payload == Payload(shared) && unique == |shared| && Within(limit, committed, peak)
      && committed == Due() + size + Headers(sizes.header, remaining)
    }

    /** Where a block is. */
    method Locate(address: nat) returns (i: nat)
      requires Present(shared, address)
      ensures i < |shared| && shared[i].address == address
    {
      i := 0;
      while shared[i].address != address
        invariant i < |shared| && forall j :: 0 <= j < i ==> shared[j].address != address
        decreases |shared| - i
      {
        i := i + 1;
      }
    }

    /** Put a created block in front of the list. Its bytes leave the staging slot without being freed. */
    method ShareCreated(part: Part, ghost size: nat, ghost remaining: nat)
      requires Ledger(size, remaining + 1) && part.staging.Some? && part.staging.value < staging.Length
      requires staging[part.staging.value].data == Some(part.block.data)
      modifies this`shared, this`payload, this`unique, staging
      ensures Ledger(size, remaining)
      ensures shared == [part.block.(references := 1)] + old(shared) && staging[..] == Settled(old(staging[..]), part)
    {
      var s := part.staging.value;
      StagedChange(staging[..], s, Staging(None, 0, staging[s].generation));
      ghost var were := shared;
      shared := [part.block.(references := 1)] + shared;
      assert shared[1..] == were;
      payload := payload + |part.block.data|;
      unique := unique + 1;
      staging[s] := Staging(None, 0, staging[s].generation);
    }

    /** Add a reference to a block that is already shared; staged bytes are then redundant and freed. */
    method ShareExisting(part: Part, ghost size: nat, ghost remaining: nat) returns (b: nat)
      requires Ledger(size, remaining) && Present(shared, part.block.address)
      requires part.staging.Some? ==> part.staging.value < staging.Length
      modifies this`shared, this`committed, staging
      ensures Ledger(size, remaining)
      ensures b < |old(shared)| && old(shared)[b].address == part.block.address && shared == Retained(old(shared), b)
      ensures staging[..] == Settled(old(staging[..]), part)
    {
      b := Locate(part.block.address);
      PayloadSame(shared, Retained(shared, b));
      shared := shared[b := shared[b].(references := shared[b].references + 1)];
      if part.staging.Some? {
        StagedChange(staging[..], part.staging.value, Staging(None, 0, 0));
        ReleaseStagingSlot(part.staging.value);
      }
    }

    ghost predicate Adopting(draft: seq<Part>, size: nat, i: nat, before: seq<Block>)
      reads this, staging
    {
      && AdoptedTo(draft, i, before, shared, staging[..], records, nextAddress)
      && Created(draft[..i]) <= Created(draft) && Ledger(size, Created(draft) - Created(draft[..i]))
    }

    method AdoptCreatedPart(draft: seq<Part>, ghost size: nat, i: nat, ghost before: seq<Block>)
      requires Adopting(draft, size, i, before) && i < |draft| && draft[i].created
      modifies this`shared, this`payload, this`unique, staging
      ensures Adopting(draft, size, i + 1, before) && staging[..] == Settled(old(staging[..]), draft[i])
    {
      hide AdoptedTo, Ledger;
      TurnComes(draft, i, before, shared, staging[..], records, nextAddress);
      AdoptCreated(draft, i, before, shared, staging[..], records, nextAddress);
      CreatedGrows(draft, i);
      CreatedGrows(draft, i + 1);
      ShareCreated(draft[i], size, Created(draft) - Created(draft[..i + 1]));
    }

    method AdoptSharedPart(draft: seq<Part>, ghost size: nat, i: nat, ghost before: seq<Block>)
      requires Adopting(draft, size, i, before) && i < |draft| && !draft[i].created
      modifies this`shared, this`committed, staging
      ensures Adopting(draft, size, i + 1, before) && staging[..] == Settled(old(staging[..]), draft[i])
    {
      hide AdoptedTo, Ledger;
      TurnComes(draft, i, before, shared, staging[..], records, nextAddress);
      CreatedGrows(draft, i);
      ghost var were, was := shared, staging[..];
      var b := ShareExisting(draft[i], size, Created(draft) - Created(draft[..i]));
      AdoptShared(draft, i, before, were, was, records, nextAddress, b);
    }

    /** Hand every part of a finished draft over. */
    method AdoptParts(draft: seq<Part>, ghost size: nat, ghost before: seq<Block>)
      requires Adopting(draft, size, 0, before)
      modifies this`shared, this`payload, this`unique, this`committed, staging
      ensures Adopting(draft, size, |draft|, before) && SettledTo(old(staging[..]), draft, |draft|, staging[..])
    {
      hide AdoptedTo, Ledger;
      ghost var was := staging[..];
      assert SettledTo(was, draft, 0, staging[..]);
      hide SettledTo;
      for i := 0 to |draft|
        invariant Adopting(draft, size, i, before) && SettledTo(was, draft, i, staging[..])
      {
        ghost var now := staging[..];
        TurnComes(draft, i, before, shared, now, records, nextAddress);
        if draft[i].created {
          AdoptCreatedPart(draft, size, i, before);
        } else {
          AdoptSharedPart(draft, size, i, before);
        }
        SettlesOn(was, draft, i, now);
      }
    }

    /** The record of a finished draft is published. */
    method Adopt(draft: seq<Part>, ghost size: nat)
      requires Drafting(draft, size)
      modifies this`shared, this`payload, this`unique, this`committed, this`records, staging
      ensures Valid() && records == old(records) + [Record(Entries(draft), size)]
      ensures Among(old(shared), shared) && EntriesBacked(shared, Entries(draft))
      ensures AllStanding(draft, |draft|, shared) && SettledTo(old(staging[..]), draft, |draft|, staging[..])
    {
      ghost var before := shared;
      hide AdoptedTo, Ledger, SettledTo, DraftOk, Counted, AllBacked, Among, EntriesBacked, AllStanding, Placed, Deduplicated;
      StartAdoption(draft, size);
      AdoptParts(draft, size, before);
      FinishAdoption(draft, size, before);
      ghost var record := Record(Entries(draft), size);
      RecordPublished(record, size);
      records := records + [record];
    }

    lemma RecordPublished(record: Record, size: nat)
      requires Ledger(size, 0) && RecordBytes(records + [record]) == RecordBytes(records) + size
      ensures committed == Due() - RecordBytes(records) + RecordBytes(records + [record])
      ensures payload == Payload(shared) && unique == |shared| && Within(limit, committed, peak)
    {
    }

    lemma StartAdoption(draft: seq<Part>, size: nat)
      requires Drafting(draft, size)
      ensures Adopting(draft, size, 0, shared)
    {
      hide AdoptedTo, Counted, AllBacked, Deduplicated, DraftOk, Placed;
      AdoptionStarts(draft, shared, staging[..], records, nextAddress);
      assert draft[..0] == [];
    }

    lemma FinishAdoption(draft: seq<Part>, size: nat, before: seq<Block>)
      requires Adopting(draft, size, |draft|, before)
      ensures var records' := records + [Record(Entries(draft), size)];
        && Counted(shared, Names(records')) && AllBacked(shared, records') && RecordBytes(records') == RecordBytes(records) + size
      ensures Placed(shared, nextAddress) && Deduplicated(shared) && Among(before, shared) && EntriesBacked(shared, Entries(draft))
      ensures AllStanding(draft, |draft|, shared) && Ledger(size, 0)
    {
      AdoptionEnds(draft, before, shared, staging[..], records, nextAddress, size);
      assert draft[..|draft|] == draft;
    }

    /** The first n chunks are prepared, and none of them was stopped. */
    ghost predicate PreparedTo(draft: seq<Part>, inputs: seq<Input>, size: nat, base: nat, grants: (nat, nat) -> bool)
      reads this, staging
    {
      && |draft| <= |inputs| && AllAnswer(draft, inputs, |draft|, staging[..])
      && FirstFault(inputs, |draft|, shared, staging[..], limit, base, sizes.header, grants).None?
      && LogicalBytes(draft) == Logical(inputs, |draft|, shared, staging[..])
      && base == Due() + size
    }

    /** One more chunk is prepared, or the publication's verdict is known. */
    method PrepareNext(draft: seq<Part>, inputs: seq<Input>, size: nat, ghost base: nat, grants: (nat, nat) -> bool)
      returns (result: Result, draft': seq<Part>)
      requires Drafting(draft, size) && |draft| < |inputs| && PreparedTo(draft, inputs, size, base, grants)
      modifies this`committed, this`peak, this`nextAddress
      ensures Drafting(draft', size)
      ensures result == Success ==> |draft'| == |draft| + 1 && PreparedTo(draft', inputs, size, base, grants)
      ensures result != Success ==>
        FirstFault(inputs, |inputs|, shared, staging[..], limit, base, sizes.header, grants) == Some(result)
    {
      hide Steady, DraftOk, Prepared, AllAnswer, Fault, Logical, LogicalBytes;
      ghost var were, now := nextAddress, staging[..];
      result, draft' := PrepareChunk(draft, size, inputs[|draft|], grants);
      PreparedIsFault(draft, draft', inputs, result, shared, now, were, nextAddress, limit, base, sizes.header, grants);
      if result != Success {
        FaultStays(inputs, |draft| + 1, |inputs|, shared, now, limit, base, sizes.header, grants);
      }
    }

    /** Prepare chunk after chunk until one is stopped. */
    method PrepareAll(inputs: seq<Input>, size: nat, grants: (nat, nat) -> bool) returns (result: Result, draft: seq<Part>)
      requires Steady() && committed == Due() + size
      modifies this`committed, this`peak, this`nextAddress
      ensures Drafting(draft, size)
      ensures var fault := FirstFault(inputs, |inputs|, shared, staging[..], limit, old(committed), sizes.header, grants);
        result == if fault.Some? then fault.value else Success
      ensures result == Success ==> |draft| == |inputs| && AllAnswer(draft, inputs, |inputs|, staging[..])
    {
      hide Steady, AllAnswer, FirstFault;
      result, draft := Success, [];
      NothingPrepared(inputs, size, grants);
      for i := 0 to |inputs|
        invariant result == Success && |draft| == i && Drafting(draft, size) && PreparedTo(draft, inputs, size, old(committed), grants)
      {
        result, draft := PrepareNext(draft, inputs, size, old(committed), grants);
        if result != Success {
          return;
        }
      }
    }

    lemma NothingPrepared(inputs: seq<Input>, size: nat, grants: (nat, nat) -> bool)
      requires Steady() && committed == Due() + size
      ensures Drafting([], size) && PreparedTo([], inputs, size, committed, grants)
    {
    }

    /** Give back what a refused draft had allocated. */
    method Abandon(draft: seq<Part>, size: nat)
      requires Drafting(draft, size)
      modifies this`committed
      ensures Valid() && committed == old(committed) - size - Headers(sizes.header, Created(draft))
    {
      hide DraftOk, Counted, AllBacked, Placed, Deduplicated, RecordBytes, Payload, StagedBytes;
      ghost var due := Due();
      assert draft[..|draft|] == draft;
      for i := 0 to |draft|
        invariant Created(draft[..i]) <= Created(draft) && committed <= old(committed)
        invariant committed == due + size + Headers(sizes.header, Created(draft) - Created(draft[..i]))
      {
        CreatedGrows(draft, i);
        CreatedGrows(draft, i + 1);
        if draft[i].created {
          committed := committed - sizes.header;
        }
      }
      committed := committed - size;
    }

    ghost function RecordSize(chunks: nat, dependencies: nat): nat
    {
      sizes.record + chunks * sizes.entry + dependencies * sizes.dependency
    }

    /** Room for a record with so many chunks and dependencies. */
    method AllocateRecord(chunks: nat, dependencies: nat, grants: (nat, nat) -> bool) returns (ok: bool, size: nat)
      requires Within(limit, committed, peak)
      modifies this`committed, this`peak
      ensures size == RecordSize(chunks, dependencies) && ok == Granted(limit, old(committed), size, grants)
      ensures committed == old(committed) + (if ok then size else 0) && Within(limit, committed, peak)
    {
      hide Granted;
      size := sizes.record + chunks * sizes.entry + dependencies * sizes.dependency;
      ok := Allocate(size, grants);
    }

    /** How publishing these chunks ends: the record is allocated first, then the chunks are prepared
        in order on what that left committed, and the key is inserted last. */
    ghost function Verdict(inputs: seq<Input>, dependencies: nat, inserted: bool, grants: (nat, nat) -> bool): Result
      reads this, staging
    {
      var size := RecordSize(|inputs|, dependencies);
      if !Granted(limit, committed, size, grants) then OutOfBudget
      else
        var fault := FirstFault(inputs, |inputs|, shared, staging[..], limit, committed + size, sizes.header, grants);
        if fault.Some? then fault.value else if !inserted then OutOfBudget else Success
    }

    /** Publishing succeeds exactly if the record's own allocation is granted, no chunk has a fault,
        and the key goes into the index. */
    lemma SucceedsExactly(inputs: seq<Input>, dependencies: nat, inserted: bool, grants: (nat, nat) -> bool)
      ensures var size := RecordSize(|inputs|, dependencies);
        Verdict(inputs, dependencies, inserted, grants) == Success <==>
          && inserted && Granted(limit, committed, size, grants)
          && FaultFree(inputs, |inputs|, shared, staging[..], limit, committed + size, sizes.header, grants)
    {
      hide Granted, Fault, FirstFault;
      FirstFaultIsFirst(inputs, |inputs|, shared, staging[..], limit, committed + RecordSize(|inputs|, dependencies), sizes.header, grants);
    }

    /** Publish a record's chunks. Whatever goes wrong on the way, nothing is left of the attempt. */
    method Publish(inputs: seq<Input>, dependencies: nat, inserted: bool, grants: (nat, nat) -> bool)
      returns (result: Result, record: Record)
      requires Valid()
      modifies this, staging
      ensures Valid()
      ensures result == old(Verdict(inputs, dependencies, inserted, grants))
      ensures result != Success ==>
        && shared == old(shared) && records == old(records) && staging[..] == old(staging[..])
        && committed == old(committed) && payload == old(payload) && unique == old(unique)
      ensures result == Success ==>
        && records == old(records) + [record] && record.size == RecordSize(|inputs|, dependencies)
        && Published(inputs, old(staging[..]), shared, record)
        && Among(old(shared), shared) && HandedOver(inputs, old(staging[..]), staging[..])
    {
      hide FirstFault, Granted, Counted, AllBacked, DraftOk, Deduplicated, Placed;
      record := Record([], 0);
      var ok, size := AllocateRecord(|inputs|, dependencies, grants);
      if !ok {
        return OutOfBudget, record;
      }
      var draft: seq<Part>;
      result, draft := PrepareAll(inputs, size, grants);
      if result == Success && !inserted {
        result := OutOfBudget;
      }
      if result != Success {
        Abandon(draft, size);
        return;
      }
      ghost var was := staging[..];
      Adopt(draft, size);
      record := Record(Entries(draft), size);
      DraftIsPublished(draft, inputs, was, staging[..], shared, size);
    }

    // ------------------------------------------------------------ replacement and destruction

    /** Drop one reference; the last one takes the block with it. */
    method DropAt(b: nat)
      requires Ledger(0, 0) && b < |shared| && shared[b].references > 0
      modifies this`shared, this`payload, this`unique, this`committed
      ensures Ledger(0, 0) && shared == Dropped(old(shared), b)
    {
      if shared[b].references > 1 {
        PayloadSame(shared, Dropped(shared, b));
        shared := shared[b := shared[b].(references := shared[b].references - 1)];
      } else {
        PayloadWithout(shared, b);
        var size := |shared[b].data|;
        shared := shared[..b] + shared[b + 1..];
        payload := payload - size;
        unique := unique - 1;
        committed := committed - size - sizes.header;
      }
    }

    /** The first i entries of a record have given up their references. */
    ghost predicate Freeing(entries: seq<Entry>, i: nat, others: seq<Record>, before: seq<Block>)
      reads this, staging
    {
      i <= |entries| && Ledger(0, 0) && InOrder(shared, NamesFrom(entries, i, others), nextAddress) && Among(shared, before)
    }

    method DropEntry(entries: seq<Entry>, i: nat, ghost others: seq<Record>, ghost before: seq<Block>)
      requires i < |entries| && Freeing(entries, i, others, before)
      modifies this`shared, this`payload, this`unique, this`committed
      ensures Freeing(entries, i + 1, others, before)
    {
      hide Ledger, Among, Deduplicated, Placed, OneMore, NamesFrom, Dropped;
      OneFewerNamed(entries, i, others);
      ghost var were := shared;
      var b := Locate(entries[i].block);
      DropKeepsOrder(shared, NamesFrom(entries, i, others), NamesFrom(entries, i + 1, others), nextAddress, b);
      AmongTransitive(Dropped(shared, b), shared, before);
      DropAt(b);
    }

    method DropEntries(entries: seq<Entry>, ghost others: seq<Record>, ghost before: seq<Block>)
      requires Freeing(entries, 0, others, before)
      modifies this`shared, this`payload, this`unique, this`committed
      ensures Freeing(entries, |entries|, others, before)
    {
      hide Freeing;
      for i := 0 to |entries|
        invariant Freeing(entries, i, others, before)
      {
        DropEntry(entries, i, others, before);
      }
    }

    /** Free a record that is out of everybody's reach. */
    method Destroy(record: Record, ghost r: nat)
      requires Valid() && r < |records| && records[r] == record
      modifies this`shared, this`payload, this`unique, this`committed, this`records
      ensures Valid() && records == Others(old(records), r) && Among(shared, old(shared))
    {
      hide Counted, Among, Deduplicated, Placed, InOrder, AllBacked, OwnAddresses;
      ghost var before, others := shared, Others(records, r);
      FreeingBegins(r);
      DropEntries(record.entries, others, before);
      FreeingEnds(record.entries, records, r, before);
      committed := committed - record.size;
      records := others;
    }

    lemma FreeingBegins(r: nat)
      requires Valid() && r < |records|
      ensures Freeing(records[r].entries, 0, Others(records, r), shared) && OwnAddresses(shared)
    {
      FreeingStarts(shared, records, r);
      AmongItself(shared);
    }

    lemma FreeingEnds(entries: seq<Entry>, all: seq<Record>, r: nat, before: seq<Block>)
      requires r < |all| && all == records && all[r].entries == entries && Freeing(entries, |entries|, Others(all, r), before)
      requires OwnAddresses(before) && AllBacked(before, all)
      ensures Counted(shared, Names(Others(all, r))) && AllBacked(shared, Others(all, r)) && Placed(shared, nextAddress) && Deduplicated(shared)
      ensures RecordBytes(all) == all[r].size + RecordBytes(Others(all, r)) && Among(shared, before) && Ledger(0, 0)
    {
      assert NamesFrom(entries, |entries|, Others(all, r)) == Names(Others(all, r));
      RecordWithout(all, r, 0);
      OthersAreBacked(before, shared, all, r);
    }

    /** The first i entries of a replacement have their references. */
    ghost predicate Retaining(entries: seq<Entry>, i: nat, size: nat, before: seq<Block>)
      reads this, staging
    {
      && i <= |entries| && Ledger(size, 0) && InOrder(shared, NamesTo(records, entries, i), nextAddress)
      && Among(before, shared) && Among(shared, before)
    }

    method RetainEntry(entries: seq<Entry>, i: nat, ghost size: nat, ghost before: seq<Block>)
      requires i < |entries| && Retaining(entries, i, size, before) && EntriesBacked(before, entries)
      modifies this`shared
      ensures Retaining(entries, i + 1, size, before)
    {
      hide Among, Deduplicated, Placed, OneMore, NamesTo, Retained, InOrder, EntriesBacked, Present;
      OneMoreNamed(records, entries, i);
      BackedAmong(before, shared, entries);
      BackedIsPresent(shared, entries, i);
      var b := Locate(entries[i].block);
      RetainKeepsOrder(shared, NamesTo(records, entries, i), NamesTo(records, entries, i + 1), nextAddress, b);
      AmongTransitive(before, shared, Retained(shared, b));
      AmongTransitive(Retained(shared, b), shared, before);
      RetainAt(b, size);
    }

    method RetainAt(b: nat, ghost size: nat)
      requires Ledger(size, 0) && b < |shared|
      modifies this`shared
      ensures Ledger(size, 0) && shared == Retained(old(shared), b)
    {
      PayloadSame(shared, Retained(shared, b));
      shared := shared[b := shared[b].(references := shared[b].references + 1)];
    }

    method RetainEntries(entries: seq<Entry>, ghost size: nat, ghost before: seq<Block>)
      requires Retaining(entries, 0, size, before) && EntriesBacked(before, entries)
      modifies this`shared
      ensures Retaining(entries, |entries|, size, before)
    {
      hide Retaining, EntriesBacked;
      for i := 0 to |entries|
        invariant Retaining(entries, i, size, before)
      {
        RetainEntry(entries, i, size, before);
      }
    }

    /** A record's chunks but the excluded one. */
    method KeepEntries(entries: seq<Entry>, exclude: Option<nat>) returns (kept: seq<Entry>)
      ensures kept == Without(entries, exclude)
    {
      kept := [];
      for i: nat := 0 to |entries|
        invariant kept == if exclude.Some? && exclude.value < i then entries[..exclude.value] + entries[exclude.value + 1..i] else entries[..i]
      {
        if exclude != Some(i) {
          kept := kept + [entries[i]];
        }
      }
    }

    /** Build the record that replaces another: it shares all the blocks it keeps. */
    method BuildReplacement(current: Record, ghost r: nat, dependencies: nat, exclude: Option<nat>, grants: (nat, nat) -> bool)
      returns (result: Result, record: Record)
      requires Valid() && r < |records| && records[r] == current
      modifies this`shared, this`committed, this`peak, this`records
      ensures Valid() && result in {Success, OutOfBudget}
      ensures var size := RecordSize(|Without(current.entries, exclude)|, dependencies);
        && (result == Success <==> Granted(limit, old(committed), size, grants))
        && (result == Success ==> record == Record(Without(current.entries, exclude), size) && records == old(records) + [record])
      ensures Among(old(shared), shared) && Among(shared, old(shared)) && unique == old(unique)
      ensures result != Success ==> shared == old(shared) && records == old(records) && committed == old(committed)
    {
      hide Counted, Among, Deduplicated, Placed, InOrder, AllBacked, EntriesBacked;
      var kept := KeepEntries(current.entries, exclude);
      AmongItself(shared);
      record := current;
      var ok, size := AllocateRecord(|kept|, dependencies, grants);
      if !ok {
        return OutOfBudget, record;
      }
      ghost var before := shared;
      RetainingStarts(r, exclude, size);
      RetainEntries(kept, size, before);
      record := Record(kept, size);
      RetainingEnds(record, before);
      records := records + [record];
      return Success, record;
    }

    lemma RetainingStarts(r: nat, exclude: Option<nat>, size: nat)
      requires Steady() && committed == Due() + size && r < |records|
      ensures Retaining(Without(records[r].entries, exclude), 0, size, shared)
      ensures EntriesBacked(shared, Without(records[r].entries, exclude)) && AllBacked(shared, records)
    {
      hide Counted, Deduplicated, Placed, EntriesBacked, Among, Without;
      AmongItself(shared);
      KeptAreBacked(shared, records[r].entries, exclude);
      assert NamesTo(records, Without(records[r].entries, exclude), 0) == Names(records);
    }

    lemma RetainingEnds(record: Record, before: seq<Block>)
      requires Retaining(record.entries, |record.entries|, record.size, before)
      requires EntriesBacked(before, record.entries) && AllBacked(before, records)
      ensures Counted(shared, Names(records + [record])) && AllBacked(shared, records + [record])
      ensures Placed(shared, nextAddress) && Deduplicated(shared)
      ensures RecordBytes(records + [record]) == RecordBytes(records) + record.size
    {
      BackedAmong(before, shared, record.entries);
      AllBackedAmong(before, shared, records);
      RecordShares(shared, records, record, nextAddress);
    }

    /** Take one chunk out of a resource, by replacing its record. The old record keeps its references
        until it is destroyed. */
    method EvictChunk(current: Record, ghost r: nat, chunkId: nat, dependencies: nat, grants: (nat, nat) -> bool)
      returns (result: Result, state: ResourceState, record: Record, ghost at: nat)
      requires Valid() && r < |records| && records[r] == current
      modifies this`shared, this`committed, this`peak, this`records
      ensures Valid() && result in {Success, MissingChunk, OutOfBudget}
      ensures result == MissingChunk <==> forall e :: 0 <= e < |current.entries| ==> current.entries[e].chunkId != chunkId
      ensures result == OutOfBudget ==> !Granted(limit, old(committed), RecordSize(|current.entries| - 1, dependencies), grants)
      ensures result == Success ==> Granted(limit, old(committed), RecordSize(|current.entries| - 1, dependencies), grants)
      ensures result == Success ==>
        && FirstOf(current.entries, chunkId, at)
        && record == Record(current.entries[..at] + current.entries[at + 1..], RecordSize(|current.entries| - 1, dependencies))
        && records == old(records) + [record]
        && (state == Requested <==> |current.entries| == 1)
      ensures Among(old(shared), shared) && Among(shared, old(shared))
      ensures result != Success ==> shared == old(shared) && records == old(records) && committed == old(committed)
    {
      hide Steady, Among;
      var found := FindChunk(current.entries, chunkId);
      if found.None? {
        AmongItself(shared);
        return MissingChunk, Resident, current, 0;
      }
      at := found.value;
      state := if |current.entries| == 1 then Requested else Resident;
      result, record := BuildReplacement(current, r, dependencies, found, grants);
    }
  }

  /** A record's chunks but one, if any is excluded. */
  ghost function Without(entries: seq<Entry>, exclude: Option<nat>): (kept: seq<Entry>)
  {
    if exclude.Some? && exclude.value < |entries| then entries[..exclude.value] + entries[exclude.value + 1..] else entries
  }

  lemma KeptAreBacked(shared: seq<Block>, entries: seq<Entry>, exclude: Option<nat>)
    requires EntriesBacked(shared, entries)
    ensures EntriesBacked(shared, Without(entries, exclude))
  {
    var kept := Without(entries, exclude);
    forall e | 0 <= e < |kept| ensures Backs(shared, kept[e]) {
      assert kept[e] == entries[if exclude.None? || e < exclude.value || exclude.value >= |entries| then e else e + 1];
    }
  }

  ghost predicate FirstOf(entries: seq<Entry>, chunkId: nat, e: nat)
  {
    e < |entries| && entries[e].chunkId == chunkId && forall i :: 0 <= i < e ==> entries[i].chunkId != chunkId
  }

  method FindChunk(entries: seq<Entry>, chunkId: nat) returns (found: Option<nat>)
    ensures found.None? <==> forall e :: 0 <= e < |entries| ==> entries[e].chunkId != chunkId
    ensures found.Some? ==> FirstOf(entries, chunkId, found.value)
  {
    for i: nat := 0 to |entries|
      invariant forall e :: 0 <= e < i ==> entries[e].chunkId != chunkId
    {
      if entries[i].chunkId == chunkId {
        return Some(i);
      }
    }
    return None;
  }

  lemma {:induction false} NothingStaged(staging: seq<Staging>)
    requires forall s :: 0 <= s < |staging| ==> staging[s].data.None?
    ensures StagedBytes(staging) == 0
  {
    if staging != [] {
      NothingStaged(staging[1..]);
    }
  }
}
