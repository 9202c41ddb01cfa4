/** A record whose chunks are being prepared for publication, and the search for a block that already
    holds a chunk's content. */
module ChunkDrafts {
  import opened Wrappers
  import opened ResourceTypes
  import opened ChunkAccounts

  /** What a publication says of a chunk: name content that is already shared, or hand over staging. */
  datatype Input = Reuse(chunkId: nat, key: ContentKey) | Staged(chunkId: nat, key: ContentKey, slot: nat, generation: nat)

  /** A prepared chunk. A created block is not shared yet, and its bytes are still in staging. */
  datatype Part = Part(chunkId: nat, block: Block, created: bool, staging: Option<nat>)

  function EntryOf(part: Part): Entry
  {
    Entry(part.chunkId, part.block.key, |part.block.data|, part.block.address)
  }

  function Entries(draft: seq<Part>): (entries: seq<Entry>)
    ensures |entries| == |draft| && forall i :: 0 <= i < |draft| ==> entries[i] == EntryOf(draft[i])
  {
    seq(|draft|, i requires 0 <= i < |draft| => EntryOf(draft[i]))
  }

  function Blocks(draft: seq<Part>): (blocks: seq<Block>)
    ensures |blocks| == |draft| && forall i :: 0 <= i < |draft| ==> blocks[i] == draft[i].block
  {
    seq(|draft|, i requires 0 <= i < |draft| => draft[i].block)
  }

  function Created(draft: seq<Part>): (n: nat)
    ensures n <= |draft|
  {
    if draft == [] then 0 else Created(draft[..|draft| - 1]) + if draft[|draft| - 1].created then 1 else 0
  }

  lemma {:induction false} CreatedGrows(draft: seq<Part>, i: nat)
    requires i <= |draft|
    ensures Created(draft[..i]) <= Created(draft)
    ensures i < |draft| ==> Created(draft[..i + 1]) == Created(draft[..i]) + if draft[i].created then 1 else 0
    decreases |draft| - i
  {
    if i < |draft| {
      CreatedGrows(draft, i + 1);
      assert draft[..i + 1][..i] == draft[..i];
    } else {
      assert draft[..i] == draft;
    }
  }

  function LogicalBytes(draft: seq<Part>): (n: nat)
  {
    if draft == [] then 0 else LogicalBytes(draft[..|draft| - 1]) + |draft[|draft| - 1].block.data|
  }

  // ---------------------------------------------------------------- matching content

  /** The block can stand for the content: by key alone, or with staged bytes by those as well. */
  ghost predicate Matches(b: Block, key: ContentKey, staged: Option<Staging>)
    requires staged.Some? ==> staged.value.data.Some?
  {
    b.key == key && (staged.Some? ==> b.data == staged.value.data.value && b.alignment >= staged.value.alignment)
  }

  /** Two blocks answer to the key and hold different bytes: the key alone cannot tell which is meant. */
  ghost predicate Ambiguous(blocks: seq<Block>, key: ContentKey, staged: Option<Staging>)
    requires staged.Some? ==> staged.value.data.Some?
  {
    exists i, j :: 0 <= i < j < |blocks| && Matches(blocks[i], key, staged) && Matches(blocks[j], key, staged)
      && blocks[i].data != blocks[j].data
  }

  ghost predicate NoMatch(blocks: seq<Block>, key: ContentKey, staged: Option<Staging>)
    requires staged.Some? ==> staged.value.data.Some?
  {
    forall i :: 0 <= i < |blocks| ==> !Matches(blocks[i], key, staged)
  }

  /** The search has seen the first n candidates without a collision, and remembers the last match. */
  ghost predicate SearchedTo(blocks: seq<Block>, key: ContentKey, staged: Option<Staging>, n: nat, found: Option<Block>)
    requires (staged.Some? ==> staged.value.data.Some?) && n <= |blocks|
  {
    match found
    case None => NoMatch(blocks[..n], key, staged)
    case Some(b) =>
      && (exists i :: 0 <= i < n && blocks[i] == b) && Matches(b, key, staged)
      && forall i :: 0 <= i < n && Matches(blocks[i], key, staged) ==> blocks[i].data == b.data
  }

  /** Look through the shared blocks and then the blocks of the pending record. */
  method FindMatching(shared: seq<Block>, pending: seq<Block>, key: ContentKey, staged: Option<Staging>) returns (found: Option<Block>)
    requires staged.Some? ==> staged.value.data.Some?
    ensures found.None? <==> NoMatch(shared + pending, key, staged) || Ambiguous(shared + pending, key, staged)
    ensures found.Some? ==> found.value in shared + pending && Matches(found.value, key, staged)
  {
    ghost var all := shared + pending;
    found := None;
    for n := 0 to |shared|
      invariant SearchedTo(all, key, staged, n, found)
    {
      var collides: bool;
      collides, found := Consider(all, n, key, staged, found, shared[n]);
      if collides {
        return None;
      }
    }
    for n := 0 to |pending|
      invariant SearchedTo(all, key, staged, |shared| + n, found)
    {
      var collides: bool;
      collides, found := Consider(all, |shared| + n, key, staged, found, pending[n]);
      if collides {
        return None;
      }
    }
    assert all[..|all|] == all;
  }

  method Consider(ghost all: seq<Block>, ghost n: nat, key: ContentKey, staged: Option<Staging>, found: Option<Block>, b: Block)
    returns (collides: bool, found': Option<Block>)
    requires (staged.Some? ==> staged.value.data.Some?) && n < |all| && all[n] == b && SearchedTo(all, key, staged, n, found)
    ensures if collides then Ambiguous(all, key, staged) else SearchedTo(all, key, staged, n + 1, found')
  {
    collides, found' := false, found;
    if b.key == key && (staged.None? || (b.data == staged.value.data.value && b.alignment >= staged.value.alignment)) {
      if found.Some? && found.value.data != b.data {
        ghost var i :| 0 <= i < n && all[i] == found.value;
        return true, None;
      }
      found' := Some(b);
    }
  }

  /** Staged bytes settle what the key leaves open. */
  lemma StagedIsUnambiguous(blocks: seq<Block>, key: ContentKey, staged: Staging)
    requires staged.data.Some?
    ensures !Ambiguous(blocks, key, Some(staged))
  {
  }

  // ---------------------------------------------------------------- drafts

  ghost predicate PartOk(draft: seq<Part>, i: nat, shared: seq<Block>, staging: seq<Staging>)
    requires i < |draft|
  {
    var p := draft[i];
    && (p.staging.Some? ==> p.staging.value < |staging| && staging[p.staging.value].data.Some?)
    && (p.created ==>
          && p.staging.Some? && !Present(shared, p.block.address)
          && staging[p.staging.value].data == Some(p.block.data) && staging[p.staging.value].alignment == p.block.alignment
          && NoneHolds(shared + Blocks(draft[..i]), p.block))
    && (!p.created ==> Stands(shared, p.block) || exists k :: 0 <= k < i && draft[k].created && draft[k].block == p.block)
  }

  /** No two chunks have the same identity or staging slot, and no two created blocks an address. */
  ghost predicate Apart(draft: seq<Part>)
  {
    forall i, j :: 0 <= i < j < |draft| ==>
      && draft[i].chunkId != draft[j].chunkId
      && (draft[i].staging.Some? ==> draft[i].staging != draft[j].staging)
      && (draft[i].created && draft[j].created ==> draft[i].block.address != draft[j].block.address)
  }

  ghost predicate DraftOk(draft: seq<Part>, shared: seq<Block>, staging: seq<Staging>, nextAddress: nat)
  {
    && Apart(draft)
    && (forall i :: 0 <= i < |draft| ==> PartOk(draft, i, shared, staging) && draft[i].block.address < nextAddress)
  }

  /** What a prepared chunk has to do with what was asked for. */
  ghost predicate Answers(part: Part, input: Input, staging: seq<Staging>)
  {
    && part.chunkId == input.chunkId && part.block.key == input.key
    && match input
       case Reuse(_, _) => part.staging == None && !part.created
       case Staged(_, _, slot, generation) =>
         && slot < |staging| && part.staging == Some(slot) && staging[slot].generation == generation
         && staging[slot].data == Some(part.block.data) && part.block.alignment >= staging[slot].alignment
  }

  /** Why a chunk is refused before anything is allocated for it. */
  ghost function Refusal(draft: seq<Part>, input: Input, shared: seq<Block>, staging: seq<Staging>): (refusal: Option<Result>)
    ensures refusal.Some? ==> refusal.value != Success
  {
    if exists i :: 0 <= i < |draft| && draft[i].chunkId == input.chunkId then Some(InvalidArgument)
    else match input
      case Reuse(_, key) =>
        if NoMatch(shared + Blocks(draft), key, None) || Ambiguous(shared + Blocks(draft), key, None) then Some(MissingChunk) else None
      case Staged(_, _, slot, generation) =>
        if slot >= |staging| || staging[slot].data.None? || staging[slot].generation != generation then Some(InvalidHandle)
        else if exists i :: 0 <= i < |draft| && draft[i].staging == Some(slot) then Some(InvalidArgument)
        else None
  }

  method HasChunk(draft: seq<Part>, chunkId: nat) returns (found: bool)
    ensures found <==> exists i :: 0 <= i < |draft| && draft[i].chunkId == chunkId
  {
    for i := 0 to |draft|
      invariant forall j :: 0 <= j < i ==> draft[j].chunkId != chunkId
    {
      if draft[i].chunkId == chunkId {
        return true;
      }
    }
    return false;
  }

  method UsesSlot(draft: seq<Part>, slot: nat) returns (found: bool)
    ensures found <==> exists i :: 0 <= i < |draft| && draft[i].staging == Some(slot)
  {
    for i := 0 to |draft|
      invariant forall j :: 0 <= j < i ==> draft[j].staging != Some(slot)
    {
      if draft[i].staging == Some(slot) {
        return true;
      }
    }
    return false;
  }

  /** The part has an identity and a staging slot of its own. */
  ghost predicate Unlike(draft: seq<Part>, part: Part)
  {
    forall i :: 0 <= i < |draft| ==>
      draft[i].chunkId != part.chunkId && (draft[i].staging.Some? ==> draft[i].staging != part.staging)
  }

  /** A matching block makes a part that shares it. */
  lemma FoundMakesPart(draft: seq<Part>, shared: seq<Block>, staging: seq<Staging>, next: nat, part: Part)
    requires DraftOk(draft, shared, staging, next) && (forall i :: 0 <= i < |shared| ==> shared[i].address < next)
    requires part.block in shared + Blocks(draft) && !part.created
    requires part.staging.Some? ==> part.staging.value < |staging| && staging[part.staging.value].data.Some?
    ensures PartOk(draft + [part], |draft|, shared, staging) && part.block.address < next
  {
    var j :| 0 <= j < |shared + Blocks(draft)| && (shared + Blocks(draft))[j] == part.block;
    if j < |shared| {
      assert SameBlock(part.block, shared[j]);
    } else {
      var k := j - |shared|;
      assert PartOk(draft, k, shared, staging) && draft[k].block == part.block;
      if draft[k].created {
        assert (draft + [part])[k].created;
      } else if !Stands(shared, part.block) {
        var m :| 0 <= m < k && draft[m].created && draft[m].block == part.block;
        assert (draft + [part])[m] == draft[m];
      }
    }
  }

  lemma PartStays(draft: seq<Part>, i: nat, shared: seq<Block>, staging: seq<Staging>, part: Part)
    requires i < |draft| && PartOk(draft, i, shared, staging)
    ensures PartOk(draft + [part], i, shared, staging)
  {
    var draft' := draft + [part];
    assert draft'[..i] == draft[..i] && draft'[i] == draft[i];
    if !draft[i].created && !Stands(shared, draft[i].block) {
      var k :| 0 <= k < i && draft[k].created && draft[k].block == draft[i].block;
      assert draft'[k] == draft[k];
    }
  }

  lemma DraftStays(draft: seq<Part>, shared: seq<Block>, staging: seq<Staging>, next: nat, next': nat)
    requires DraftOk(draft, shared, staging, next) && next <= next'
    ensures DraftOk(draft, shared, staging, next')
  {
  }

  lemma DraftGrows(draft: seq<Part>, shared: seq<Block>, staging: seq<Staging>, next: nat, next': nat, part: Part)
    requires DraftOk(draft, shared, staging, next) && next <= next'
    requires PartOk(draft + [part], |draft|, shared, staging) && part.block.address < next'
    requires part.created ==> part.block.address >= next
    requires Unlike(draft, part)
    ensures DraftOk(draft + [part], shared, staging, next')
    ensures Created(draft + [part]) == Created(draft) + if part.created then 1 else 0
    ensures LogicalBytes(draft + [part]) == LogicalBytes(draft) + |part.block.data|
  {
    hide PartOk;
    var draft' := draft + [part];
    assert draft'[..|draft|] == draft;
    forall i | 0 <= i < |draft| ensures PartOk(draft', i, shared, staging) {
      PartStays(draft, i, shared, staging, part);
    }
  }
}
