/** Shared payload chunks as values: content identity, reference counts and byte totals. */
module ChunkAccounts {
  import opened Wrappers

  newtype Byte = x: int | 0 <= x < 256

  datatype ContentKey = ContentKey(hashLo: nat, hashHi: nat, formatId: nat, encodingId: nat)

  /** A shared block. Records name it by its address. */
  datatype Block = Block(address: nat, key: ContentKey, data: seq<Byte>, alignment: nat, references: nat)

  /** A chunk of a record: its identity within the record, and the block that holds it. */
  datatype Entry = Entry(chunkId: nat, key: ContentKey, bytes: nat, block: nat)

  /** The chunks of a record that has not been freed, and the size of the record itself. */
  datatype Record = Record(entries: seq<Entry>, size: nat)

  datatype Staging = Staging(data: Option<seq<Byte>>, alignment: nat, generation: nat)

  // ---------------------------------------------------------------- totals

  function Payload(shared: seq<Block>): (total: nat)
  {
    if shared == [] then 0 else |shared[0].data| + Payload(shared[1..])
  }

  function StagedBytes(staging: seq<Staging>): (total: nat)
  {
    if staging == [] then 0
    else (if staging[0].data.Some? then |staging[0].data.value| else 0) + StagedBytes(staging[1..])
  }

  function RecordBytes(records: seq<Record>): (total: nat)
  {
    if records == [] then 0 else records[0].size + RecordBytes(records[1..])
  }

  /** The headers of so many blocks. */
  function Headers(size: nat, n: nat): (total: nat)
  {
    if n == 0 then 0 else size + Headers(size, n - 1)
  }

  function Addresses(entries: seq<Entry>): (names: seq<nat>)
    ensures |names| == |entries| && forall i :: 0 <= i < |entries| ==> names[i] == entries[i].block
  {
    seq(|entries|, i requires 0 <= i < |entries| => entries[i].block)
  }

  /** Every chunk entry of every record, as the address it names. */
  function Names(records: seq<Record>): (names: seq<nat>)
  {
    if records == [] then [] else Addresses(records[0].entries) + Names(records[1..])
  }

  function Uses(names: seq<nat>, a: nat): (n: nat)
    ensures n > 0 <==> a in names
  {
    if names == [] then 0 else (if names[0] == a then 1 else 0) + Uses(names[1..], a)
  }

  lemma {:induction false} UsesConcat(some: seq<nat>, more: seq<nat>, a: nat)
    ensures Uses(some + more, a) == Uses(some, a) + Uses(more, a)
  {
    if some == [] {
      assert some + more == more;
    } else {
      UsesConcat(some[1..], more, a);
      assert (some + more)[1..] == some[1..] + more;
    }
  }

  lemma RestWithout<T>(s: seq<T>, i: nat)
    requires 0 < i < |s|
    ensures (s[..i] + s[i + 1..])[0] == s[0] && (s[..i] + s[i + 1..])[1..] == s[1..][..i - 1] + s[1..][i..]
  {
  }

  lemma {:induction false} PayloadWithout(shared: seq<Block>, i: nat)
    requires i < |shared|
    ensures Payload(shared) == |shared[i].data| + Payload(shared[..i] + shared[i + 1..])
  {
    if i > 0 {
      PayloadWithout(shared[1..], i - 1);
      RestWithout(shared, i);
    } else {
      assert shared[..0] + shared[1..] == shared[1..];
    }
  }

  lemma {:induction false} PayloadSame(shared: seq<Block>, other: seq<Block>)
    requires |shared| == |other| && forall i :: 0 <= i < |shared| ==> shared[i].data == other[i].data
    ensures Payload(shared) == Payload(other)
  {
    if shared != [] {
      PayloadSame(shared[1..], other[1..]);
    }
  }

  lemma {:induction false} StagedChange(staging: seq<Staging>, s: nat, slot: Staging)
    requires s < |staging|
    ensures StagedBytes(staging[s := slot]) + (if staging[s].data.Some? then |staging[s].data.value| else 0)
         == StagedBytes(staging) + (if slot.data.Some? then |slot.data.value| else 0)
  {
    if s > 0 {
      StagedChange(staging[1..], s - 1, slot);
      assert staging[s := slot][1..] == staging[1..][s - 1 := slot];
    } else {
      assert staging[s := slot][1..] == staging[1..];
    }
  }

  lemma {:induction false} RecordAdded(records: seq<Record>, record: Record)
    ensures RecordBytes(records + [record]) == RecordBytes(records) + record.size
    ensures Names(records + [record]) == Names(records) + Addresses(record.entries)
  {
    if records != [] {
      RecordAdded(records[1..], record);
      assert (records + [record])[1..] == records[1..] + [record];
    } else {
      assert ([record])[1..] == [];
    }
  }

  lemma {:induction false} RecordWithout(records: seq<Record>, r: nat, a: nat)
    requires r < |records|
    ensures RecordBytes(records) == records[r].size + RecordBytes(records[..r] + records[r + 1..])
    ensures Uses(Names(records), a) == Uses(Addresses(records[r].entries), a) + Uses(Names(records[..r] + records[r + 1..]), a)
  {
    var rest := records[..r] + records[r + 1..];
    UsesConcat(Addresses(records[0].entries), Names(records[1..]), a);
    if r > 0 {
      RecordWithout(records[1..], r - 1, a);
      assert rest[0] == records[0] && rest[1..] == records[1..][..r - 1] + records[1..][r..];
      UsesConcat(Addresses(rest[0].entries), Names(rest[1..]), a);
    } else {
      assert rest == records[1..];
    }
  }

  // ---------------------------------------------------------------- the books are right

  ghost predicate OwnAddresses(shared: seq<Block>)
  {
    forall i, j :: 0 <= i < j < |shared| ==> shared[i].address != shared[j].address
  }

  ghost predicate Counts(shared: seq<Block>, names: seq<nat>)
  {
    forall i :: 0 <= i < |shared| ==> shared[i].references == Uses(names, shared[i].address) && shared[i].references > 0
  }

  ghost predicate Present(shared: seq<Block>, a: nat)
  {
    exists i :: 0 <= i < |shared| && shared[i].address == a
  }

  /** Every block has its own address and counts exactly the entries that name it; there is one for
      every name, and none without. */
  ghost predicate Counted(shared: seq<Block>, names: seq<nat>)
  {
    OwnAddresses(shared) && Counts(shared, names) && forall a :: a in names ==> Present(shared, a)
  }

  ghost function Retained(shared: seq<Block>, i: nat): (shared': seq<Block>)
    requires i < |shared|
  {
    shared[i := shared[i].(references := shared[i].references + 1)]
  }

  /** A block loses a reference, and goes away with the last one. */
  function Dropped(shared: seq<Block>, i: nat): (shared': seq<Block>)
    requires i < |shared| && shared[i].references > 0
  {
    if shared[i].references > 1 then shared[i := shared[i].(references := shared[i].references - 1)]
    else shared[..i] + shared[i + 1..]
  }

  /** The second list names an address once more than the first, and everything else as often. */
  ghost predicate OneMore(names: seq<nat>, more: seq<nat>, a: nat)
  {
    forall b: nat :: Uses(more, b) == Uses(names, b) + if a == b then 1 else 0
  }

  lemma OneMoreAt(names: seq<nat>, more: seq<nat>, a: nat, b: nat)
    requires OneMore(names, more, a)
    ensures Uses(more, b) == Uses(names, b) + if a == b then 1 else 0
  {
  }

  lemma SameAddressesPresent(shared: seq<Block>, other: seq<Block>, a: nat)
    requires |shared| == |other| && Present(shared, a)
    requires forall j :: 0 <= j < |shared| ==> shared[j].address == other[j].address
    ensures Present(other, a)
  {
    var j :| 0 <= j < |shared| && shared[j].address == a;
    assert other[j].address == a;
  }

  lemma RetainKeepsCount(shared: seq<Block>, names: seq<nat>, more: seq<nat>, i: nat)
    requires Counted(shared, names) && i < |shared| && OneMore(names, more, shared[i].address)
    ensures Counted(Retained(shared, i), more)
    ensures Payload(Retained(shared, i)) == Payload(shared)
  {
    hide OneMore, Uses, Payload, Present;
    PayloadSame(shared, Retained(shared, i));
    var shared' := Retained(shared, i);
    forall j | 0 <= j < |shared'| ensures shared'[j].references == Uses(more, shared'[j].address) > 0 {
      OneMoreAt(names, more, shared[i].address, shared[j].address);
      assert i != j ==> shared[i].address != shared[j].address;
    }
    forall a | a in more ensures Present(shared', a) {
      OneMoreAt(names, more, shared[i].address, a);
      if a == shared[i].address {
        IsPresent(shared', i);
      } else {
        SameAddressesPresent(shared, shared', a);
      }
    }
  }

  lemma IsPresent(shared: seq<Block>, i: nat)
    requires i < |shared|
    ensures Present(shared, shared[i].address)
  {
  }

  lemma NewKeepsCount(shared: seq<Block>, names: seq<nat>, more: seq<nat>, block: Block)
    requires Counted(shared, names) && block.references == 1 && !Present(shared, block.address)
    requires OneMore(names, more, block.address)
    ensures Counted([block] + shared, more)
    ensures Payload([block] + shared) == Payload(shared) + |block.data|
  {
    hide OneMore, Uses, Present;
    var shared' := [block] + shared;
    assert shared'[1..] == shared;
    forall j | 0 <= j < |shared| ensures shared[j].address != block.address {
      IsPresent(shared, j);
    }
    forall j | 0 <= j < |shared'| ensures shared'[j].references == Uses(more, shared'[j].address) > 0 {
      assert j > 0 ==> shared'[j] == shared[j - 1];
      OneMoreAt(names, more, block.address, shared'[j].address);
      assert block.address !in names;
    }
    forall a | a in more ensures Present(shared', a) {
      OneMoreAt(names, more, block.address, a);
      if a == block.address {
        IsPresent(shared', 0);
      } else {
        StillPresent(block, shared, a);
      }
    }
  }

  lemma StillPresent(block: Block, shared: seq<Block>, a: nat)
    requires Present(shared, a)
    ensures Present([block] + shared, a)
  {
    var j :| 0 <= j < |shared| && shared[j].address == a;
    assert ([block] + shared)[j + 1].address == a;
  }

  lemma DecrementKeepsCount(shared: seq<Block>, names: seq<nat>, fewer: seq<nat>, i: nat)
    requires Counted(shared, names) && i < |shared| && OneMore(fewer, names, shared[i].address) && shared[i].references > 1
    ensures Counted(shared[i := shared[i].(references := shared[i].references - 1)], fewer)
    ensures Payload(shared[i := shared[i].(references := shared[i].references - 1)]) == Payload(shared)
  {
    hide OneMore, Uses, Payload, Present;
    var shared' := shared[i := shared[i].(references := shared[i].references - 1)];
    PayloadSame(shared, shared');
    forall j | 0 <= j < |shared'| ensures shared'[j].references == Uses(fewer, shared'[j].address) > 0 {
      OneMoreAt(fewer, names, shared[i].address, shared[j].address);
      assert i != j ==> shared[i].address != shared[j].address;
    }
    forall a | a in fewer ensures Present(shared', a) {
      OneMoreAt(fewer, names, shared[i].address, a);
      SameAddressesPresent(shared, shared', a);
    }
  }

  /** Any other block stays where one is taken out. */
  lemma OthersPresent(shared: seq<Block>, i: nat, a: nat)
    requires i < |shared| && Present(shared, a) && a != shared[i].address
    ensures Present(shared[..i] + shared[i + 1..], a)
  {
    var j :| 0 <= j < |shared| && shared[j].address == a;
    assert (shared[..i] + shared[i + 1..])[if j < i then j else j - 1] == shared[j];
  }

  lemma RemoveKeepsCount(shared: seq<Block>, names: seq<nat>, fewer: seq<nat>, i: nat)
    requires Counted(shared, names) && i < |shared| && OneMore(fewer, names, shared[i].address) && shared[i].references == 1
    ensures Counted(shared[..i] + shared[i + 1..], fewer)
  {
    hide OneMore, Uses, Present;
    var shared' := shared[..i] + shared[i + 1..];
    assert forall j :: 0 <= j < |shared'| ==> shared'[j] == shared[if j < i then j else j + 1];
    forall j | 0 <= j < |shared'| ensures shared'[j].references == Uses(fewer, shared'[j].address) > 0 {
      var k := if j < i then j else j + 1;
      assert shared[k].address != shared[i].address;
      OneMoreAt(fewer, names, shared[i].address, shared[k].address);
    }
    forall a | a in fewer ensures Present(shared', a) {
      OneMoreAt(fewer, names, shared[i].address, a);
      OthersPresent(shared, i, a);
    }
  }

  lemma DropKeepsCount(shared: seq<Block>, names: seq<nat>, fewer: seq<nat>, i: nat)
    requires Counted(shared, names) && i < |shared| && OneMore(fewer, names, shared[i].address)
    ensures Counted(Dropped(shared, i), fewer)
    ensures Payload(Dropped(shared, i)) == Payload(shared) - if shared[i].references > 1 then 0 else |shared[i].data|
  {
    if shared[i].references > 1 {
      DecrementKeepsCount(shared, names, fewer, i);
    } else {
      RemoveKeepsCount(shared, names, fewer, i);
      PayloadWithout(shared, i);
    }
  }

  /** Apart from its count, the block is the same. */
  predicate SameBlock(a: Block, b: Block)
  {
    a.address == b.address && a.key == b.key && a.data == b.data && a.alignment == b.alignment
  }

  ghost predicate Stands(shared: seq<Block>, b: Block)
  {
    exists j :: 0 <= j < |shared| && SameBlock(b, shared[j])
  }

  /** Every block of the one list is, apart from its count, in the other. */
  ghost predicate Among(some: seq<Block>, shared: seq<Block>)
  {
    forall i :: 0 <= i < |some| ==> Stands(shared, some[i])
  }

  lemma AmongTransitive(a: seq<Block>, b: seq<Block>, c: seq<Block>)
    requires Among(a, b) && Among(b, c)
    ensures Among(a, c)
  {
    forall i | 0 <= i < |a| ensures Stands(c, a[i]) {
      assert Stands(b, a[i]);
      var j :| 0 <= j < |b| && SameBlock(a[i], b[j]);
      assert Stands(c, b[j]);
      var k :| 0 <= k < |c| && SameBlock(b[j], c[k]);
      assert SameBlock(a[i], c[k]);
    }
  }

  lemma DropKeepsBlocks(shared: seq<Block>, i: nat)
    requires i < |shared| && shared[i].references > 0
    ensures Among(Dropped(shared, i), shared)
  {
    var shared' := Dropped(shared, i);
    forall j | 0 <= j < |shared'| ensures Stands(shared, shared'[j]) {
      assert SameBlock(shared'[j], shared[if shared[i].references > 1 || j < i then j else j + 1]);
    }
  }

  lemma RetainKeepsBlocks(shared: seq<Block>, i: nat)
    requires i < |shared|
    ensures Among(shared, Retained(shared, i)) && Among(Retained(shared, i), shared)
  {
    var shared' := Retained(shared, i);
    assert forall j :: 0 <= j < |shared| ==> SameBlock(shared[j], shared'[j]) && SameBlock(shared'[j], shared[j]);
  }

  /** The first block could be shared by a chunk with the second one's content. */
  predicate CanHold(holder: Block, b: Block)
  {
    holder.key == b.key && holder.data == b.data && holder.alignment >= b.alignment
  }

  ghost predicate NoneHolds(shared: seq<Block>, b: Block)
  {
    forall i :: 0 <= i < |shared| ==> !CanHold(shared[i], b)
  }

  /** The newest block comes first: none was created that an older one could have held. */
  ghost predicate Deduplicated(shared: seq<Block>)
  {
    forall i, j :: 0 <= i < j < |shared| ==> !CanHold(shared[j], shared[i])
  }

  lemma ChangesKeepDeduplicated(shared: seq<Block>, i: nat)
    requires Deduplicated(shared) && i < |shared|
    ensures Deduplicated(Retained(shared, i))
    ensures shared[i].references > 0 ==> Deduplicated(Dropped(shared, i))
  {
  }

  lemma NewIsDeduplicated(shared: seq<Block>, b: Block)
    requires Deduplicated(shared) && NoneHolds(shared, b)
    ensures Deduplicated([b] + shared)
  {
  }
}
