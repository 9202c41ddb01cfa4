/** What becomes of a publication's chunks, told from the inputs and the state before it: which
    chunks need a block of their own, at which committed total its header is asked for, and which
    check fails first. */
module ChunkVerdicts {
  import opened Wrappers
  import opened ResourceTypes
  import opened ChunkAccounts
  import opened ChunkDrafts

  /** The allocator's limits: never past the counter's width, nor past a configured maximum. */
  ghost predicate Admits(limit: nat, committed: nat, size: nat)
  {
    size != 0 && committed + size <= UINT64_MAX && (limit == 0 || committed + size <= limit)
  }

  /** The allocation is admitted at this total, and the allocator grants it. */
  ghost predicate Granted(limit: nat, committed: nat, size: nat, grants: (nat, nat) -> bool)
  {
    Admits(limit, committed, size) && grants(size, committed)
  }

  ghost predicate AllAnswer(draft: seq<Part>, inputs: seq<Input>, n: nat, staging: seq<Staging>)
  {
    n <= |draft| && n <= |inputs| && forall i :: 0 <= i < n ==> Answers(draft[i], inputs[i], staging)
  }

  // ---------------------------------------------------------------- the blocks a publication needs

  predicate Stages(input: Input, staging: seq<Staging>)
  {
    input.Staged? && input.slot < |staging| && staging[input.slot].data.Some?
  }

  /** Staged content as a block that is not anywhere yet. */
  function ContentOf(input: Input, staging: seq<Staging>): Block
    requires Stages(input, staging)
  {
    Block(0, input.key, staging[input.slot].data.value, staging[input.slot].alignment, 0)
  }

  /** The shared blocks, and one for each of the first n chunks that no earlier block can hold. */
  ghost function Pool(inputs: seq<Input>, n: nat, shared: seq<Block>, staging: seq<Staging>): (pool: seq<Block>)
    requires n <= |inputs|
    ensures |pool| >= |shared|
    decreases n, 0
  {
    if n == 0 then shared
    else if Needs(inputs, n - 1, shared, staging) then Pool(inputs, n - 1, shared, staging) + [ContentOf(inputs[n - 1], staging)]
    else Pool(inputs, n - 1, shared, staging)
  }

  ghost predicate Needs(inputs: seq<Input>, i: nat, shared: seq<Block>, staging: seq<Staging>)
    requires i < |inputs|
    decreases i, 1
  {
    Stages(inputs[i], staging) && NoneHolds(Pool(inputs, i, shared, staging), ContentOf(inputs[i], staging))
  }

  /** How many of the first n chunks need a block of their own. */
  ghost function Made(inputs: seq<Input>, n: nat, shared: seq<Block>, staging: seq<Staging>): nat
    requires n <= |inputs|
  {
    |Pool(inputs, n, shared, staging)| - |shared|
  }

  /** The length of the first block with the key. */
  function MatchLength(blocks: seq<Block>, key: ContentKey): nat
  {
    if blocks == [] then 0 else if blocks[0].key == key then |blocks[0].data| else MatchLength(blocks[1..], key)
  }

  ghost function Logical(inputs: seq<Input>, n: nat, shared: seq<Block>, staging: seq<Staging>): nat
    requires n <= |inputs|
  {
    if n == 0 then 0 else
      Logical(inputs, n - 1, shared, staging)
      + (if Stages(inputs[n - 1], staging) then |staging[inputs[n - 1].slot].data.value|
         else MatchLength(Pool(inputs, n - 1, shared, staging), inputs[n - 1].key))
  }

  // ---------------------------------------------------------------- what fails, and where first

  /** What is wrong with a chunk's input, given those before it. */
  ghost function InputFault(inputs: seq<Input>, i: nat, shared: seq<Block>, staging: seq<Staging>): (fault: Option<Result>)
    requires i < |inputs|
    ensures fault.Some? ==> fault.value != Success
  {
    if exists j :: 0 <= j < i && inputs[j].chunkId == inputs[i].chunkId then Some(InvalidArgument)
    else match inputs[i]
      case Reuse(_, key) =>
        var pool := Pool(inputs, i, shared, staging);
        if NoMatch(pool, key, None) || Ambiguous(pool, key, None) then Some(MissingChunk) else None
      case Staged(_, _, slot, generation) =>
        if slot >= |staging| || staging[slot].data.None? || staging[slot].generation != generation then Some(InvalidHandle)
        else if exists j :: 0 <= j < i && inputs[j].Staged? && inputs[j].slot == slot then Some(InvalidArgument)
        else None
  }

  /** What stops a chunk: its input, the header of the block it needs, asked for when base and the
      headers before it are committed, or the logical size. */
  ghost function Fault(inputs: seq<Input>, i: nat, shared: seq<Block>, staging: seq<Staging>,
                       limit: nat, base: nat, header: nat, grants: (nat, nat) -> bool): (fault: Option<Result>)
    requires i < |inputs|
    ensures fault.Some? ==> fault.value != Success
  {
    var wrong := InputFault(inputs, i, shared, staging);
    if wrong.Some? then wrong
    else if Needs(inputs, i, shared, staging)
      && !Granted(limit, base + Headers(header, Made(inputs, i, shared, staging)), header, grants) then Some(OutOfBudget)
    else if Logical(inputs, i + 1, shared, staging) > UINT64_MAX then Some(InvalidArgument)
    else None
  }

  /** What stops the first of the first n chunks that is stopped. */
  ghost function FirstFault(inputs: seq<Input>, n: nat, shared: seq<Block>, staging: seq<Staging>,
                            limit: nat, base: nat, header: nat, grants: (nat, nat) -> bool): (fault: Option<Result>)
    requires n <= |inputs|
    ensures fault.Some? ==> fault.value != Success
  {
    if n == 0 then None else
      var before := FirstFault(inputs, n - 1, shared, staging, limit, base, header, grants);
      if before.Some? then before else Fault(inputs, n - 1, shared, staging, limit, base, header, grants)
  }

  ghost predicate FaultFree(inputs: seq<Input>, n: nat, shared: seq<Block>, staging: seq<Staging>,
                            limit: nat, base: nat, header: nat, grants: (nat, nat) -> bool)
    requires n <= |inputs|
  {
    forall i :: 0 <= i < n ==> Fault(inputs, i, shared, staging, limit, base, header, grants).None?
  }

  /** Nothing fails exactly if no chunk has a fault; otherwise the first chunk with one decides. */
  lemma {:induction false} FirstFaultIsFirst(inputs: seq<Input>, n: nat, shared: seq<Block>, staging: seq<Staging>,
                                             limit: nat, base: nat, header: nat, grants: (nat, nat) -> bool)
    requires n <= |inputs|
    ensures var first := FirstFault(inputs, n, shared, staging, limit, base, header, grants);
      if first.None? then FaultFree(inputs, n, shared, staging, limit, base, header, grants)
      else exists i :: 0 <= i < n && Fault(inputs, i, shared, staging, limit, base, header, grants) == first
             && FaultFree(inputs, i, shared, staging, limit, base, header, grants)
  {
    hide Fault;
    if n > 0 {
      FirstFaultIsFirst(inputs, n - 1, shared, staging, limit, base, header, grants);
    }
  }

  lemma {:induction false} FaultStays(inputs: seq<Input>, n: nat, m: nat, shared: seq<Block>, staging: seq<Staging>,
                                      limit: nat, base: nat, header: nat, grants: (nat, nat) -> bool)
    requires n <= m <= |inputs| && FirstFault(inputs, n, shared, staging, limit, base, header, grants).Some?
    ensures FirstFault(inputs, m, shared, staging, limit, base, header, grants)
         == FirstFault(inputs, n, shared, staging, limit, base, header, grants)
    decreases m
  {
    hide Fault;
    if n < m {
      FaultStays(inputs, n, m - 1, shared, staging, limit, base, header, grants);
    }
  }

  // ---------------------------------------------------------------- drafts and pools

  predicate SameContent(a: Block, b: Block)
  {
    a.key == b.key && a.data == b.data && a.alignment == b.alignment
  }

  ghost predicate HasContent(blocks: seq<Block>, b: Block)
  {
    exists i :: 0 <= i < |blocks| && SameContent(b, blocks[i])
  }

  ghost predicate Includes(some: seq<Block>, blocks: seq<Block>)
  {
    forall i :: 0 <= i < |some| ==> HasContent(blocks, some[i])
  }

  ghost predicate SameContents(a: seq<Block>, b: seq<Block>)
  {
    Includes(a, b) && Includes(b, a)
  }

  /** The same contents match the same keys, and with the same bytes. */
  lemma MatchesAlike(a: seq<Block>, b: seq<Block>, key: ContentKey, staged: Option<Staging>)
    requires (staged.Some? ==> staged.value.data.Some?) && SameContents(a, b)
    ensures NoMatch(a, key, staged) <==> NoMatch(b, key, staged)
    ensures Ambiguous(a, key, staged) <==> Ambiguous(b, key, staged)
  {
    MatchesFollow(a, b, key, staged);
    MatchesFollow(b, a, key, staged);
  }

  lemma MatchesFollow(a: seq<Block>, b: seq<Block>, key: ContentKey, staged: Option<Staging>)
    requires (staged.Some? ==> staged.value.data.Some?) && Includes(a, b)
    ensures NoMatch(b, key, staged) ==> NoMatch(a, key, staged)
    ensures Ambiguous(a, key, staged) ==> Ambiguous(b, key, staged)
  {
    forall i | 0 <= i < |a| && Matches(a[i], key, staged)
      ensures exists k :: 0 <= k < |b| && Matches(b[k], key, staged) && b[k].data == a[i].data
    {
      assert HasContent(b, a[i]);
    }
    if Ambiguous(a, key, staged) {
      var i, j :| 0 <= i < j < |a| && Matches(a[i], key, staged) && Matches(a[j], key, staged) && a[i].data != a[j].data;
      var k :| 0 <= k < |b| && Matches(b[k], key, staged) && b[k].data == a[i].data;
      var m :| 0 <= m < |b| && Matches(b[m], key, staged) && b[m].data == a[j].data;
      assert k < m || m < k;
    }
  }

  lemma HoldsAlike(a: seq<Block>, b: seq<Block>, x: Block, y: Block)
    requires Includes(a, b) && SameContent(x, y) && NoneHolds(b, y)
    ensures NoneHolds(a, x)
  {
    forall i | 0 <= i < |a| ensures !CanHold(a[i], x) {
      assert HasContent(b, a[i]);
    }
  }

  lemma {:induction false} MatchLengthIs(blocks: seq<Block>, key: ContentKey, b: Block)
    requires !Ambiguous(blocks, key, None) && HasContent(blocks, b) && b.key == key
    ensures MatchLength(blocks, key) == |b.data|
  {
    var i :| 0 <= i < |blocks| && SameContent(b, blocks[i]);
    if blocks[0].key == key {
      if i > 0 {
        assert Matches(blocks[0], key, None) && Matches(blocks[i], key, None);
      }
    } else {
      assert blocks[1..][i - 1] == blocks[i];
      MatchLengthIs(blocks[1..], key, b);
    }
  }

  /** The first n parts of a draft stand for the first n inputs. */
  ghost predicate Mirrors(draft: seq<Part>, inputs: seq<Input>, n: nat, shared: seq<Block>, staging: seq<Staging>)
    requires n <= |draft| && n <= |inputs|
  {
    && SameContents(shared + Blocks(draft[..n]), Pool(inputs, n, shared, staging))
    && Created(draft[..n]) == Made(inputs, n, shared, staging)
  }

  lemma IncludesItself(blocks: seq<Block>)
    ensures Includes(blocks, blocks)
  {
    assert forall i :: 0 <= i < |blocks| ==> SameContent(blocks[i], blocks[i]);
  }

  lemma IncludesMore(some: seq<Block>, blocks: seq<Block>, more: seq<Block>, b: Block)
    requires Includes(some, blocks) && HasContent(more, b) && |more| >= |blocks| && more[..|blocks|] == blocks
    ensures Includes(some + [b], more)
  {
    var longer := some + [b];
    forall i | 0 <= i < |longer| ensures HasContent(more, longer[i]) {
      if i < |some| {
        assert HasContent(blocks, some[i]);
        var j :| 0 <= j < |blocks| && SameContent(some[i], blocks[j]);
        assert more[j] == blocks[j];
      }
    }
  }

  /** A part that creates nothing has content that was there. */
  lemma SharedContent(draft: seq<Part>, n: nat, shared: seq<Block>, staging: seq<Staging>)
    requires n < |draft| && PartOk(draft, n, shared, staging) && !draft[n].created
    ensures HasContent(shared + Blocks(draft[..n]), draft[n].block)
  {
    var all := shared + Blocks(draft[..n]);
    if Stands(shared, draft[n].block) {
      var j :| 0 <= j < |shared| && SameBlock(draft[n].block, shared[j]);
      assert all[j] == shared[j];
    } else {
      var k :| 0 <= k < n && draft[k].created && draft[k].block == draft[n].block;
      assert all[|shared| + k] == draft[k].block;
    }
  }

  /** A part creates a block exactly if its chunk needs one. */
  lemma CreatesIfNeeded(draft: seq<Part>, inputs: seq<Input>, n: nat, shared: seq<Block>, staging: seq<Staging>)
    requires n < |draft| && n < |inputs| && Mirrors(draft, inputs, n, shared, staging)
    requires PartOk(draft, n, shared, staging) && Answers(draft[n], inputs[n], staging)
    ensures draft[n].created <==> Needs(inputs, n, shared, staging)
    ensures draft[n].created ==> SameContent(draft[n].block, ContentOf(inputs[n], staging))
    ensures !draft[n].created ==> HasContent(Pool(inputs, n, shared, staging), draft[n].block)
  {
    var all, pool := shared + Blocks(draft[..n]), Pool(inputs, n, shared, staging);
    if draft[n].created {
      HoldsAlike(pool, all, ContentOf(inputs[n], staging), draft[n].block);
    } else {
      SharedContent(draft, n, shared, staging);
      var i :| 0 <= i < |all| && SameContent(draft[n].block, all[i]);
      assert HasContent(pool, all[i]);
      var j :| 0 <= j < |pool| && SameContent(all[i], pool[j]);
      assert SameContent(draft[n].block, pool[j]);
      if Stages(inputs[n], staging) {
        assert CanHold(pool[j], ContentOf(inputs[n], staging));
      }
    }
  }

  lemma BothTake(all: seq<Block>, pool: seq<Block>, x: Block, y: Block)
    requires SameContents(all, pool) && SameContent(x, y)
    ensures SameContents(all + [x], pool + [y])
  {
    assert SameContent(x, (pool + [y])[|pool|]) && SameContent(y, (all + [x])[|all|]);
    IncludesMore(all, pool, pool + [y], x);
    IncludesMore(pool, all, all + [x], y);
  }

  lemma OneRepeats(all: seq<Block>, pool: seq<Block>, x: Block)
    requires SameContents(all, pool) && HasContent(pool, x)
    ensures SameContents(all + [x], pool)
  {
    IncludesMore(all, pool, pool, x);
    forall i | 0 <= i < |pool| ensures HasContent(all + [x], pool[i]) {
      assert HasContent(all, pool[i]);
      var j :| 0 <= j < |all| && SameContent(pool[i], all[j]);
      assert (all + [x])[j] == all[j];
    }
  }

  lemma MirrorGrows(draft: seq<Part>, inputs: seq<Input>, n: nat, shared: seq<Block>, staging: seq<Staging>)
    requires n < |draft| && n < |inputs| && Mirrors(draft, inputs, n, shared, staging)
    requires PartOk(draft, n, shared, staging) && Answers(draft[n], inputs[n], staging)
    ensures Mirrors(draft, inputs, n + 1, shared, staging)
  {
    hide PartOk, Answers, NoneHolds, SameContents, HasContent, SameContent;
    CreatesIfNeeded(draft, inputs, n, shared, staging);
    CreatedGrows(draft, n);
    var all, pool := shared + Blocks(draft[..n]), Pool(inputs, n, shared, staging);
    assert shared + Blocks(draft[..n + 1]) == all + [draft[n].block];
    if draft[n].created {
      BothTake(all, pool, draft[n].block, ContentOf(inputs[n], staging));
    } else {
      OneRepeats(all, pool, draft[n].block);
    }
  }

  lemma MirrorStarts(draft: seq<Part>, inputs: seq<Input>, shared: seq<Block>, staging: seq<Staging>)
    ensures Mirrors(draft, inputs, 0, shared, staging)
  {
    assert shared + Blocks(draft[..0]) == shared;
    IncludesItself(shared);
  }

  lemma {:induction false} DraftMirrors(draft: seq<Part>, inputs: seq<Input>, n: nat, shared: seq<Block>, staging: seq<Staging>, next: nat)
    requires DraftOk(draft, shared, staging, next) && AllAnswer(draft, inputs, n, staging)
    ensures Mirrors(draft, inputs, n, shared, staging)
  {
    hide PartOk, Answers, Mirrors;
    if n == 0 {
      MirrorStarts(draft, inputs, shared, staging);
    } else {
      DraftMirrors(draft, inputs, n - 1, shared, staging, next);
      MirrorGrows(draft, inputs, n - 1, shared, staging);
    }
  }

  /** A draft of all chunks before one finds matches where the pool has them. */
  lemma DraftMatches(draft: seq<Part>, inputs: seq<Input>, shared: seq<Block>, staging: seq<Staging>, next: nat)
    requires DraftOk(draft, shared, staging, next) && AllAnswer(draft, inputs, |draft|, staging) && |draft| < |inputs|
    ensures var pool, input, all := Pool(inputs, |draft|, shared, staging), inputs[|draft|], shared + Blocks(draft);
      && Created(draft) == Made(inputs, |draft|, shared, staging)
      && (NoMatch(all, input.key, None) <==> NoMatch(pool, input.key, None))
      && (Ambiguous(all, input.key, None) <==> Ambiguous(pool, input.key, None))
      && (Stages(input, staging) ==>
            (NoMatch(all, input.key, Some(staging[input.slot])) <==> Needs(inputs, |draft|, shared, staging)))
  {
    hide PartOk, Answers, NoMatch, Ambiguous, NoneHolds, Includes;
    var n := |draft|;
    DraftMirrors(draft, inputs, n, shared, staging, next);
    assert draft[..n] == draft;
    var pool := Pool(inputs, n, shared, staging);
    MatchesAlike(shared + Blocks(draft), pool, inputs[n].key, None);
    if Stages(inputs[n], staging) {
      MatchesAlike(shared + Blocks(draft), pool, inputs[n].key, Some(staging[inputs[n].slot]));
      NoMatchIsNoneHolds(pool, inputs[n], staging);
    }
  }

  /** The refusal of the next chunk is what its input says. */
  lemma RefusalIsInputFault(draft: seq<Part>, inputs: seq<Input>, shared: seq<Block>, staging: seq<Staging>, next: nat)
    requires DraftOk(draft, shared, staging, next) && AllAnswer(draft, inputs, |draft|, staging) && |draft| < |inputs|
    ensures Refusal(draft, inputs[|draft|], shared, staging) == InputFault(inputs, |draft|, shared, staging)
  {
    hide PartOk, Answers, NoMatch, Ambiguous, NoneHolds, Apart, Pool, Needs, AllAnswer;
    DraftMatches(draft, inputs, shared, staging, next);
    IdentitiesOf(draft, inputs, |draft|, staging);
    var n := |draft|;
    assert (exists i :: 0 <= i < n && draft[i].chunkId == inputs[n].chunkId) <==> (exists j :: 0 <= j < n && inputs[j].chunkId == inputs[n].chunkId);
    if inputs[n].Staged? {
      assert (exists i :: 0 <= i < n && draft[i].staging == Some(inputs[n].slot))
        <==> (exists j :: 0 <= j < n && inputs[j].Staged? && inputs[j].slot == inputs[n].slot);
    }
  }

  lemma NoMatchIsNoneHolds(pool: seq<Block>, input: Input, staging: seq<Staging>)
    requires Stages(input, staging)
    ensures NoMatch(pool, input.key, Some(staging[input.slot])) <==> NoneHolds(pool, ContentOf(input, staging))
  {
    assert forall i :: 0 <= i < |pool| ==>
      (Matches(pool[i], input.key, Some(staging[input.slot])) <==> CanHold(pool[i], ContentOf(input, staging)));
  }

  lemma IdentitiesOf(draft: seq<Part>, inputs: seq<Input>, n: nat, staging: seq<Staging>)
    requires AllAnswer(draft, inputs, n, staging)
    ensures forall j :: 0 <= j < n ==>
      && draft[j].chunkId == inputs[j].chunkId
      && forall slot :: draft[j].staging == Some(slot) <==> inputs[j].Staged? && inputs[j].slot == slot
  {
    assert forall j :: 0 <= j < n ==> Answers(draft[j], inputs[j], staging);
  }

  lemma MirrorOfLonger(draft: seq<Part>, longer: seq<Part>, inputs: seq<Input>, n: nat, shared: seq<Block>, staging: seq<Staging>)
    requires n <= |draft| && n <= |longer| && n <= |inputs| && longer[..n] == draft[..n] && Mirrors(draft, inputs, n, shared, staging)
    ensures Mirrors(longer, inputs, n, shared, staging)
  {
  }

  /** One more part adds what its input says to the logical size. */
  lemma LogicalGrows(draft: seq<Part>, part: Part, inputs: seq<Input>, shared: seq<Block>, staging: seq<Staging>, next: nat)
    requires DraftOk(draft, shared, staging, next) && AllAnswer(draft, inputs, |draft|, staging) && |draft| < |inputs|
    requires PartOk(draft + [part], |draft|, shared, staging) && Answers(part, inputs[|draft|], staging)
    requires InputFault(inputs, |draft|, shared, staging).None?
    requires LogicalBytes(draft) == Logical(inputs, |draft|, shared, staging)
    ensures LogicalBytes(draft + [part]) == Logical(inputs, |draft| + 1, shared, staging)
  {
    hide PartOk, Apart, NoMatch, Mirrors, NoneHolds;
    var n, draft' := |draft|, draft + [part];
    assert draft'[..n] == draft && draft'[..|draft'| - 1] == draft;
    if inputs[n].Reuse? {
      DraftMirrors(draft, inputs, n, shared, staging, next);
      MirrorOfLonger(draft, draft', inputs, n, shared, staging);
      CreatesIfNeeded(draft', inputs, n, shared, staging);
      MatchLengthIs(Pool(inputs, n, shared, staging), inputs[n].key, part.block);
    }
  }

  // ---------------------------------------------------------------- preparing a chunk

  /** The chunk's staged bytes are in no block yet. */
  ghost predicate NeedsBlock(draft: seq<Part>, input: Input, shared: seq<Block>, staging: seq<Staging>)
  {
    Stages(input, staging) && NoMatch(shared + Blocks(draft), input.key, Some(staging[input.slot]))
  }

  /** How preparing one more chunk ends, with this much committed: what is refused leaves the draft as
      it was, but a chunk refused for its size stays in it. */
  ghost predicate Prepared(draft: seq<Part>, draft': seq<Part>, input: Input, result: Result, shared: seq<Block>,
                           staging: seq<Staging>, limit: nat, committed: nat, header: nat, grants: (nat, nat) -> bool)
  {
    var refusal := Refusal(draft, input, shared, staging);
    if refusal.Some? then result == refusal.value && draft' == draft
    else if NeedsBlock(draft, input, shared, staging) && !Granted(limit, committed, header, grants) then
      result == OutOfBudget && draft' == draft
    else
      && |draft'| == |draft| + 1 && draft'[..|draft|] == draft && Answers(draft'[|draft|], input, staging)
      && result == if LogicalBytes(draft') > UINT64_MAX then InvalidArgument else Success
  }

  /** What is made of a chunk's part, once it is there or refused. */
  lemma PartIsPrepared(draft: seq<Part>, input: Input, result: Result, part: Option<Part>, shared: seq<Block>,
                       staging: seq<Staging>, limit: nat, committed: nat, header: nat, grants: (nat, nat) -> bool)
    requires var refusal := Refusal(draft, input, shared, staging);
      result == if refusal.Some? then refusal.value
                else if NeedsBlock(draft, input, shared, staging) && !Granted(limit, committed, header, grants) then OutOfBudget
                else Success
    requires result == Success <==> part.Some?
    requires part.Some? ==> Answers(part.value, input, staging)
    ensures part.None? ==> Prepared(draft, draft, input, result, shared, staging, limit, committed, header, grants)
    ensures part.Some? ==>
      Prepared(draft, draft + [part.value], input, if LogicalBytes(draft + [part.value]) > UINT64_MAX then InvalidArgument else Success,
               shared, staging, limit, committed, header, grants)
  {
    hide Refusal, NeedsBlock, Granted, Answers, LogicalBytes;
  }

  /** Preparing the next chunk ends as the inputs say. */
  lemma PreparedIsFault(draft: seq<Part>, draft': seq<Part>, inputs: seq<Input>, result: Result, shared: seq<Block>,
                        staging: seq<Staging>, next: nat, next': nat, limit: nat, base: nat, header: nat, grants: (nat, nat) -> bool)
    requires |draft| < |inputs| && DraftOk(draft, shared, staging, next) && AllAnswer(draft, inputs, |draft|, staging)
    requires DraftOk(draft', shared, staging, next') && LogicalBytes(draft) == Logical(inputs, |draft|, shared, staging)
    requires Prepared(draft, draft', inputs[|draft|], result, shared, staging, limit, base + Headers(header, Created(draft)), header, grants)
    ensures Fault(inputs, |draft|, shared, staging, limit, base, header, grants) == if result == Success then None else Some(result)
    ensures result == Success ==> LogicalBytes(draft') == Logical(inputs, |draft| + 1, shared, staging)
    ensures result == Success ==> |draft'| == |draft| + 1 && AllAnswer(draft', inputs, |draft| + 1, staging)
  {
    hide PartOk, Apart, Answers, NoMatch, Ambiguous, Pool, InputFault, Refusal, Granted, Logical, LogicalBytes, Stages, Made;
    RefusalIsInputFault(draft, inputs, shared, staging, next);
    DraftMatches(draft, inputs, shared, staging, next);
    if |draft'| > |draft| {
      assert draft' == draft + [draft'[|draft|]];
      LogicalGrows(draft, draft'[|draft|], inputs, shared, staging, next);
    }
  }
}
