/** Handing a prepared record's blocks over to the shared list, one chunk at a time. */
module ChunkAdoption {
  import opened Wrappers
  import opened ChunkAccounts
  import opened ChunkDrafts

  /** A block in the list holds what the entry says. */
  ghost predicate Backs(shared: seq<Block>, e: Entry)
  {
    exists i :: 0 <= i < |shared| && shared[i].address == e.block && shared[i].key == e.key && |shared[i].data| == e.bytes
  }

  ghost predicate EntriesBacked(shared: seq<Block>, entries: seq<Entry>)
  {
    forall e :: 0 <= e < |entries| ==> Backs(shared, entries[e])
  }

  ghost predicate AllBacked(shared: seq<Block>, records: seq<Record>)
  {
    forall r :: 0 <= r < |records| ==> EntriesBacked(shared, records[r].entries)
  }

  lemma BackedAmong(shared: seq<Block>, shared': seq<Block>, entries: seq<Entry>)
    requires EntriesBacked(shared, entries) && Among(shared, shared')
    ensures EntriesBacked(shared', entries)
  {
    forall e | 0 <= e < |entries| ensures Backs(shared', entries[e]) {
      assert Backs(shared, entries[e]);
      var i :| 0 <= i < |shared| && shared[i].address == entries[e].block && shared[i].key == entries[e].key
        && |shared[i].data| == entries[e].bytes;
      assert Stands(shared', shared[i]);
      var j :| 0 <= j < |shared'| && SameBlock(shared[i], shared'[j]);
      assert shared'[j].address == entries[e].block;
    }
  }

  lemma AllBackedAmong(shared: seq<Block>, shared': seq<Block>, records: seq<Record>)
    requires AllBacked(shared, records) && Among(shared, shared')
    ensures AllBacked(shared', records)
  {
    forall r | 0 <= r < |records| ensures EntriesBacked(shared', records[r].entries) {
      BackedAmong(shared, shared', records[r].entries);
    }
  }

  /** Entries whose blocks are still there keep what they hold, when the list has only shrunk. */
  lemma BackedStill(shared: seq<Block>, shared': seq<Block>, entries: seq<Entry>)
    requires OwnAddresses(shared) && EntriesBacked(shared, entries) && Among(shared', shared)
    requires forall e :: 0 <= e < |entries| ==> Present(shared', entries[e].block)
    ensures EntriesBacked(shared', entries)
  {
    forall e | 0 <= e < |entries| ensures Backs(shared', entries[e]) {
      assert Backs(shared, entries[e]) && Present(shared', entries[e].block);
      var i :| 0 <= i < |shared'| && shared'[i].address == entries[e].block;
      assert Stands(shared, shared'[i]);
      var j :| 0 <= j < |shared| && SameBlock(shared'[i], shared[j]);
      var k :| 0 <= k < |shared| && shared[k].address == entries[e].block && shared[k].key == entries[e].key
        && |shared[k].data| == entries[e].bytes;
      assert j == k;
      assert shared'[i].key == entries[e].key;
    }
  }

  ghost predicate Placed(shared: seq<Block>, next: nat)
  {
    forall i :: 0 <= i < |shared| ==> shared[i].address < next
  }

  /** A part whose turn is still to come, after i parts have been adopted. */
  ghost predicate Waiting(draft: seq<Part>, j: nat, i: nat, shared: seq<Block>, staging: seq<Staging>)
    requires i <= j < |draft|
  {
    var p := draft[j];
    && (p.staging.Some? ==> p.staging.value < |staging| && staging[p.staging.value].data.Some?)
    && (p.created ==>
          && p.staging.Some? && !Present(shared, p.block.address)
          && staging[p.staging.value].data == Some(p.block.data)
          && NoneHolds(shared, p.block) && forall k :: i <= k < j ==> !CanHold(draft[k].block, p.block))
    && (!p.created ==> Stands(shared, p.block) || exists k :: i <= k < j && draft[k].created && draft[k].block == p.block)
  }

  ghost predicate AllWaiting(draft: seq<Part>, i: nat, shared: seq<Block>, staging: seq<Staging>)
  {
    forall j :: i <= j < |draft| ==> Waiting(draft, j, i, shared, staging)
  }

  ghost predicate AllStanding(draft: seq<Part>, i: nat, shared: seq<Block>)
    requires i <= |draft|
  {
    forall j :: 0 <= j < i ==> Stands(shared, draft[j].block)
  }

  /** The names of all records, and of the first entries of one more. */
  function NamesTo(records: seq<Record>, entries: seq<Entry>, i: nat): seq<nat>
    requires i <= |entries|
  {
    Names(records) + Addresses(entries[..i])
  }

  lemma OneMoreNamed(records: seq<Record>, entries: seq<Entry>, i: nat)
    requires i < |entries|
    ensures OneMore(NamesTo(records, entries, i), NamesTo(records, entries, i + 1), entries[i].block)
  {
    var a := entries[i].block;
    assert Addresses(entries[..i + 1]) == Addresses(entries[..i]) + [a];
    forall b: nat ensures Uses(NamesTo(records, entries, i + 1), b) == Uses(NamesTo(records, entries, i), b) + if a == b then 1 else 0 {
      UsesConcat(Names(records), Addresses(entries[..i]), b);
      UsesConcat(Names(records), Addresses(entries[..i + 1]), b);
      UsesConcat(Addresses(entries[..i]), [a], b);
    }
  }

  /** The first i parts are adopted. */
  ghost predicate AdoptedTo(draft: seq<Part>, i: nat, before: seq<Block>, shared: seq<Block>, staging: seq<Staging>,
                            records: seq<Record>, next: nat)
  {
    && i <= |draft| && Apart(draft) && (forall j :: 0 <= j < |draft| ==> draft[j].block.address < next)
    && Counted(shared, NamesTo(records, Entries(draft), i)) && AllBacked(shared, records) && Placed(shared, next)
    && Among(before, shared) && AllStanding(draft, i, shared) && AllWaiting(draft, i, shared, staging) && Deduplicated(shared)
  }

  lemma AdoptionStarts(draft: seq<Part>, shared: seq<Block>, staging: seq<Staging>, records: seq<Record>, next: nat)
    requires DraftOk(draft, shared, staging, next)
    requires Counted(shared, Names(records)) && AllBacked(shared, records) && Placed(shared, next) && Deduplicated(shared)
    ensures AdoptedTo(draft, 0, shared, shared, staging, records, next)
  {
    assert NamesTo(records, Entries(draft), 0) == Names(records);
    AmongItself(shared);
    forall j | 0 <= j < |draft| ensures Waiting(draft, j, 0, shared, staging) {
      assert PartOk(draft, j, shared, staging);
      if draft[j].created {
        var all := shared + Blocks(draft[..j]);
        assert forall k :: 0 <= k < |shared| ==> shared[k] == all[k];
        assert forall k :: 0 <= k < j ==> draft[k].block == all[|shared| + k];
      }
    }
  }

  /** The staging slots after a part has given up its own. */
  function Settled(staging: seq<Staging>, part: Part): (staging': seq<Staging>)
    ensures |staging'| == |staging|
  {
    if part.staging.None? || part.staging.value >= |staging| then staging
    else staging[part.staging.value := Staging(None, 0, staging[part.staging.value].generation)]
  }

  lemma StillAbsent(part: Part, shared: seq<Block>, shared': seq<Block>, b: Block)
    requires JoinedBy(part, shared, shared') && NoneHolds(shared, b) && !Present(shared, b.address)
    requires part.created ==> !CanHold(part.block, b) && part.block.address != b.address
    ensures NoneHolds(shared', b) && !Present(shared', b.address)
  {
    forall i | 0 <= i < |shared'| ensures !CanHold(shared'[i], b) && shared'[i].address != b.address {
      if Stands(shared, shared'[i]) {
        var k :| 0 <= k < |shared| && SameBlock(shared'[i], shared[k]);
      }
    }
  }

  lemma OtherWaits(draft: seq<Part>, i: nat, j: nat, shared: seq<Block>, shared': seq<Block>, staging: seq<Staging>)
    requires i < j < |draft| && Apart(draft) && Waiting(draft, j, i, shared, staging) && JoinedBy(draft[i], shared, shared')
    ensures Waiting(draft, j, i + 1, shared', Settled(staging, draft[i]))
  {
    hide Present, Stands, NoneHolds, CanHold, SameBlock;
    if draft[j].created {
      StillAbsent(draft[i], shared, shared', draft[j].block);
    } else if Stands(shared, draft[j].block) {
      StandsAmong(shared, shared', draft[j].block);
    }
  }

  lemma OthersWait(draft: seq<Part>, i: nat, shared: seq<Block>, shared': seq<Block>, staging: seq<Staging>)
    requires i < |draft| && Apart(draft) && AllWaiting(draft, i, shared, staging)
    requires JoinedBy(draft[i], shared, shared')
    ensures AllWaiting(draft, i + 1, shared', Settled(staging, draft[i]))
  {
    var n := i + 1;
    forall j | n <= j < |draft| ensures Waiting(draft, j, n, shared', Settled(staging, draft[i])) {
      OtherWaits(draft, i, j, shared, shared', staging);
    }
  }

  lemma StandsAmong(shared: seq<Block>, shared': seq<Block>, b: Block)
    requires Stands(shared, b) && Among(shared, shared')
    ensures Stands(shared', b)
  {
    var k :| 0 <= k < |shared| && SameBlock(b, shared[k]);
    assert Stands(shared', shared[k]);
    var m :| 0 <= m < |shared'| && SameBlock(shared[k], shared'[m]);
    assert SameBlock(b, shared'[m]);
  }

  lemma StandingStays(draft: seq<Part>, i: nat, shared: seq<Block>, shared': seq<Block>)
    requires i < |draft| && AllStanding(draft, i, shared) && Among(shared, shared') && Stands(shared', draft[i].block)
    ensures AllStanding(draft, i + 1, shared')
  {
    forall j | 0 <= j < i ensures Stands(shared', draft[j].block) {
      StandsAmong(shared, shared', draft[j].block);
    }
  }

  /** What the two ways of adopting a part have in common. */
  lemma JoinedOn(draft: seq<Part>, i: nat, before: seq<Block>, shared: seq<Block>, shared': seq<Block>, staging: seq<Staging>,
                 records: seq<Record>)
    requires i < |draft| && Apart(draft) && AllBacked(shared, records)
    requires Among(before, shared) && AllStanding(draft, i, shared) && AllWaiting(draft, i, shared, staging)
    requires JoinedBy(draft[i], shared, shared')
    ensures draft[i].staging.Some? ==> draft[i].staging.value < |staging|
    ensures AllBacked(shared', records) && Among(before, shared') && AllStanding(draft, i + 1, shared')
    ensures AllWaiting(draft, i + 1, shared', Settled(staging, draft[i]))
  {
    assert Waiting(draft, i, i, shared, staging);
    AllBackedAmong(shared, shared', records);
    AmongTransitive(before, shared, shared');
    StandingStays(draft, i, shared, shared');
    OthersWait(draft, i, shared, shared', staging);
  }

  /** The list after a change holds all it held, the part's block, and nothing else. */
  ghost predicate JoinedBy(part: Part, shared: seq<Block>, shared': seq<Block>)
  {
    && Among(shared, shared') && Stands(shared', part.block)
    && forall b :: 0 <= b < |shared'| ==> Stands(shared, shared'[b]) || (part.created && SameBlock(shared'[b], part.block))
  }

  lemma CreatedJoins(part: Part, shared: seq<Block>)
    requires part.created
    ensures JoinedBy(part, shared, [part.block.(references := 1)] + shared)
  {
    var shared' := [part.block.(references := 1)] + shared;
    forall k | 0 <= k < |shared| ensures Stands(shared', shared[k]) {
      assert SameBlock(shared[k], shared'[k + 1]);
    }
    assert SameBlock(part.block, shared'[0]);
    forall b | 0 < b < |shared'| ensures Stands(shared, shared'[b]) {
      assert SameBlock(shared'[b], shared[b - 1]);
    }
  }

  lemma SharedJoins(part: Part, shared: seq<Block>, b: nat)
    requires b < |shared| && SameBlock(part.block, shared[b])
    ensures JoinedBy(part, shared, Retained(shared, b))
  {
    RetainKeepsBlocks(shared, b);
    assert SameBlock(part.block, Retained(shared, b)[b]);
  }

  /** A created block joins the list with its first reference. */
  lemma AdoptCreated(draft: seq<Part>, i: nat, before: seq<Block>, shared: seq<Block>, staging: seq<Staging>, records: seq<Record>, next: nat)
    requires AdoptedTo(draft, i, before, shared, staging, records, next) && i < |draft| && draft[i].created
    ensures draft[i].staging.Some? && draft[i].staging.value < |staging|
    ensures staging[draft[i].staging.value].data == Some(draft[i].block.data)
    ensures var shared' := [draft[i].block.(references := 1)] + shared;
      && AdoptedTo(draft, i + 1, before, shared', Settled(staging, draft[i]), records, next)
      && Payload(shared') == Payload(shared) + |draft[i].block.data|
  {
    assert Waiting(draft, i, i, shared, staging);
    var block := draft[i].block.(references := 1);
    OneMoreNamed(records, Entries(draft), i);
    NewIsDeduplicated(shared, block);
    hide Deduplicated, Apart, AllBacked, AllStanding, AllWaiting, NamesTo, OneMore, Counted;
    NewKeepsCount(shared, NamesTo(records, Entries(draft), i), NamesTo(records, Entries(draft), i + 1), block);
    CreatedJoins(draft[i], shared);
    hide JoinedBy, Among;
    JoinedOn(draft, i, before, shared, [block] + shared, staging, records);
  }

  /** A part that shares a block adds a reference to it. */
  lemma AdoptShared(draft: seq<Part>, i: nat, before: seq<Block>, shared: seq<Block>, staging: seq<Staging>, records: seq<Record>, next: nat,
                    b: nat)
    requires AdoptedTo(draft, i, before, shared, staging, records, next) && i < |draft| && !draft[i].created
    requires b < |shared| && shared[b].address == draft[i].block.address
    ensures draft[i].staging.Some? ==> draft[i].staging.value < |staging| && staging[draft[i].staging.value].data.Some?
    ensures AdoptedTo(draft, i + 1, before, Retained(shared, b), Settled(staging, draft[i]), records, next)
    ensures Payload(Retained(shared, b)) == Payload(shared)
  {
    hide Deduplicated, Apart, AllBacked, AllStanding, AllWaiting, NamesTo, OneMore, Counted, Placed;
    OneMoreNamed(records, Entries(draft), i);
    SharedStands(draft, i, shared, staging, records, b);
    ChangesKeepDeduplicated(shared, b);
    PlacedStill(shared, b, next);
    RetainKeepsCount(shared, NamesTo(records, Entries(draft), i), NamesTo(records, Entries(draft), i + 1), b);
    SharedJoins(draft[i], shared, b);
    hide JoinedBy, Among;
    JoinedOn(draft, i, before, shared, Retained(shared, b), staging, records);
  }

  lemma SharedStands(draft: seq<Part>, i: nat, shared: seq<Block>, staging: seq<Staging>, records: seq<Record>, b: nat)
    requires i < |draft| && !draft[i].created && AllWaiting(draft, i, shared, staging) && Counted(shared, NamesTo(records, Entries(draft), i))
    requires b < |shared| && shared[b].address == draft[i].block.address
    ensures SameBlock(draft[i].block, shared[b]) && shared[b].references > 0
    ensures draft[i].staging.Some? ==> draft[i].staging.value < |staging| && staging[draft[i].staging.value].data.Some?
  {
    assert Waiting(draft, i, i, shared, staging);
    var k :| 0 <= k < |shared| && SameBlock(draft[i].block, shared[k]);
  }

  lemma PlacedStill(shared: seq<Block>, b: nat, next: nat)
    requires Placed(shared, next) && b < |shared|
    ensures Placed(Retained(shared, b), next)
  {
  }

  /** A part whose turn it is holds its staging slot, and finds its block in the list unless it
      creates one. */
  lemma TurnComes(draft: seq<Part>, i: nat, before: seq<Block>, shared: seq<Block>, staging: seq<Staging>, records: seq<Record>, next: nat)
    requires AdoptedTo(draft, i, before, shared, staging, records, next) && i < |draft|
    ensures draft[i].staging.Some? ==> draft[i].staging.value < |staging| && staging[draft[i].staging.value].data.Some?
    ensures draft[i].created ==> draft[i].staging.Some? && staging[draft[i].staging.value].data == Some(draft[i].block.data)
    ensures !draft[i].created ==> Present(shared, draft[i].block.address)
  {
    assert Waiting(draft, i, i, shared, staging);
    if !draft[i].created {
      var k :| 0 <= k < |shared| && SameBlock(draft[i].block, shared[k]);
      assert shared[k].address == draft[i].block.address;
    }
  }

  /** The staging slots after the first i parts have given up theirs. */
  ghost predicate SettledTo(was: seq<Staging>, draft: seq<Part>, i: nat, staging: seq<Staging>)
    requires i <= |draft|
  {
    && |staging| == |was|
    && forall s :: 0 <= s < |was| ==>
         staging[s] == if exists j :: 0 <= j < i && draft[j].staging == Some(s) then Staging(None, 0, was[s].generation) else was[s]
  }

  lemma SettlesOn(was: seq<Staging>, draft: seq<Part>, i: nat, staging: seq<Staging>)
    requires i < |draft| && SettledTo(was, draft, i, staging)
    requires draft[i].staging.Some? ==> draft[i].staging.value < |staging|
    ensures SettledTo(was, draft, i + 1, Settled(staging, draft[i]))
  {
    var n, staging' := i + 1, Settled(staging, draft[i]);
    forall s | 0 <= s < |was|
      ensures staging'[s] == if exists j :: 0 <= j < n && draft[j].staging == Some(s) then Staging(None, 0, was[s].generation) else was[s]
    {
      if draft[i].staging != Some(s) && exists j :: 0 <= j < n && draft[j].staging == Some(s) {
        var j :| 0 <= j < n && draft[j].staging == Some(s);
        assert j < i;
      }
    }
  }

  /** All parts adopted: the record's entries are backed, and its addresses are counted. */
  lemma AdoptionEnds(draft: seq<Part>, before: seq<Block>, shared: seq<Block>, staging: seq<Staging>, records: seq<Record>, next: nat, size: nat)
    requires AdoptedTo(draft, |draft|, before, shared, staging, records, next)
    ensures Counted(shared, Names(records + [Record(Entries(draft), size)]))
    ensures AllBacked(shared, records + [Record(Entries(draft), size)]) && EntriesBacked(shared, Entries(draft))
    ensures RecordBytes(records + [Record(Entries(draft), size)]) == RecordBytes(records) + size
  {
    var record := Record(Entries(draft), size);
    RecordAdded(records, record);
    assert Entries(draft)[..|draft|] == Entries(draft);
    assert Names(records + [record]) == NamesTo(records, Entries(draft), |draft|);
    hide Counted;
    forall e | 0 <= e < |record.entries| ensures Backs(shared, record.entries[e]) {
      assert Stands(shared, draft[e].block);
      var k :| 0 <= k < |shared| && SameBlock(draft[e].block, shared[k]);
      assert shared[k].address == record.entries[e].block;
    }
    forall r | 0 <= r <= |records| ensures EntriesBacked(shared, (records + [record])[r].entries) {
    }
  }

  // ---------------------------------------------------------------- freeing a record

  lemma {:induction false} EntryIsNamed(records: seq<Record>, r: nat, e: nat)
    requires r < |records| && e < |records[r].entries|
    ensures records[r].entries[e].block in Names(records)
  {
    if r == 0 {
      assert Addresses(records[0].entries)[e] == records[0].entries[e].block;
    } else {
      EntryIsNamed(records[1..], r - 1, e);
    }
  }

  lemma CountedAs(shared: seq<Block>, names: seq<nat>, names': seq<nat>)
    requires Counted(shared, names) && forall a: nat :: Uses(names, a) == Uses(names', a)
    ensures Counted(shared, names')
  {
    forall a | a in names' ensures Present(shared, a) {
      assert Uses(names', a) > 0;
    }
  }

  /** Everything a list of blocks is held to, and what becomes of it when one reference goes. */
  ghost predicate InOrder(shared: seq<Block>, names: seq<nat>, next: nat)
  {
    Counted(shared, names) && Placed(shared, next) && Deduplicated(shared)
  }

  lemma DropKeepsOrder(shared: seq<Block>, names: seq<nat>, fewer: seq<nat>, next: nat, b: nat)
    requires InOrder(shared, names, next) && b < |shared| && OneMore(fewer, names, shared[b].address)
    ensures shared[b].references > 0 && InOrder(Dropped(shared, b), fewer, next) && Among(Dropped(shared, b), shared)
  {
    DropKeepsCount(shared, names, fewer, b);
    DropKeepsBlocks(shared, b);
    ChangesKeepDeduplicated(shared, b);
  }

  lemma RetainKeepsOrder(shared: seq<Block>, names: seq<nat>, more: seq<nat>, next: nat, b: nat)
    requires InOrder(shared, names, next) && b < |shared| && OneMore(names, more, shared[b].address)
    ensures InOrder(Retained(shared, b), more, next)
    ensures Among(shared, Retained(shared, b)) && Among(Retained(shared, b), shared)
  {
    RetainKeepsCount(shared, names, more, b);
    RetainKeepsBlocks(shared, b);
    ChangesKeepDeduplicated(shared, b);
    PlacedStill(shared, b, next);
  }

  lemma AmongItself(shared: seq<Block>)
    ensures Among(shared, shared)
  {
    forall i | 0 <= i < |shared| ensures Stands(shared, shared[i]) {
      assert SameBlock(shared[i], shared[i]);
    }
  }

  lemma BackedIsPresent(shared: seq<Block>, entries: seq<Entry>, i: nat)
    requires EntriesBacked(shared, entries) && i < |entries|
    ensures Present(shared, entries[i].block)
  {
    assert Backs(shared, entries[i]);
  }

  /** One more record shares blocks that are all there. */
  lemma RecordShares(shared: seq<Block>, records: seq<Record>, record: Record, next: nat)
    requires InOrder(shared, NamesTo(records, record.entries, |record.entries|), next)
    requires AllBacked(shared, records) && EntriesBacked(shared, record.entries)
    ensures InOrder(shared, Names(records + [record]), next) && AllBacked(shared, records + [record])
    ensures RecordBytes(records + [record]) == RecordBytes(records) + record.size
  {
    RecordAdded(records, record);
    assert record.entries[..|record.entries|] == record.entries;
    assert Names(records + [record]) == NamesTo(records, record.entries, |record.entries|);
    forall r | 0 <= r <= |records| ensures EntriesBacked(shared, (records + [record])[r].entries) {
    }
  }

  /** The names still to be dropped for a record, in front of those of all others. */
  function NamesFrom(entries: seq<Entry>, i: nat, others: seq<Record>): seq<nat>
    requires i <= |entries|
  {
    Addresses(entries[i..]) + Names(others)
  }

  function Others(records: seq<Record>, r: nat): seq<Record>
    requires r < |records|
  {
    records[..r] + records[r + 1..]
  }

  lemma FreeingStarts(shared: seq<Block>, records: seq<Record>, r: nat)
    requires Counted(shared, Names(records)) && r < |records|
    ensures Counted(shared, NamesFrom(records[r].entries, 0, Others(records, r)))
  {
    var names' := NamesFrom(records[r].entries, 0, Others(records, r));
    assert records[r].entries[0..] == records[r].entries;
    forall a: nat ensures Uses(Names(records), a) == Uses(names', a) {
      RecordWithout(records, r, a);
      UsesConcat(Addresses(records[r].entries), Names(Others(records, r)), a);
    }
    CountedAs(shared, Names(records), names');
  }

  lemma OneFewerNamed(entries: seq<Entry>, i: nat, others: seq<Record>)
    requires i < |entries|
    ensures OneMore(NamesFrom(entries, i + 1, others), NamesFrom(entries, i, others), entries[i].block)
    ensures entries[i].block in NamesFrom(entries, i, others)
  {
    var some, fewer := Addresses(entries[i..]), Addresses(entries[i + 1..]);
    assert some == [entries[i].block] + fewer;
    assert some + Names(others) == [entries[i].block] + (fewer + Names(others));
  }

  /** What other records name is still there, as it was. */
  lemma OthersAreBacked(before: seq<Block>, shared: seq<Block>, records: seq<Record>, r: nat)
    requires OwnAddresses(before) && AllBacked(before, records) && Among(shared, before) && r < |records|
    requires Counted(shared, Names(Others(records, r)))
    ensures AllBacked(shared, Others(records, r))
  {
    var others := Others(records, r);
    forall o | 0 <= o < |others| ensures EntriesBacked(shared, others[o].entries) {
      assert others[o] == records[if o < r then o else o + 1];
      forall e | 0 <= e < |others[o].entries| ensures Present(shared, others[o].entries[e].block) {
        EntryIsNamed(others, o, e);
      }
      BackedStill(before, shared, others[o].entries);
    }
  }
}
