/** The writer's reverse dependency index: a fixed pool of edge cells threaded through
    doubly linked bucket chains (by target), one chain per source slot, and a free list. */
module ReverseEdges {
  import opened ResourceTypes
  import opened Wrappers

  datatype EdgeCell = EdgeCell(
    target: Key,
    source: nat,
    nextBucket: Option<nat>,
    prevBucket: Option<nat>,
    nextSource: Option<nat>,
    nextFree: Option<nat>)

  function At(chain: seq<nat>, i: int): Option<nat>
  {
    if 0 <= i < |chain| then Some(chain[i]) else None
  }

  ghost predicate Distinct(chain: seq<nat>)
  {
    forall i, j :: 0 <= i < j < |chain| ==> chain[i] != chain[j]
  }

  /** The bucket links of the cells spell out the chain, in both directions. */
  ghost predicate BucketChain(cells: seq<EdgeCell>, head: Option<nat>, chain: seq<nat>)
  {
    && head == At(chain, 0)
    && (forall i :: 0 <= i < |chain| ==>
          && chain[i] < |cells|
          && cells[chain[i]].nextBucket == At(chain, i + 1) && cells[chain[i]].prevBucket == At(chain, i - 1))
  }

  ghost predicate SourceChain(cells: seq<EdgeCell>, head: Option<nat>, chain: seq<nat>)
  {
    && head == At(chain, 0)
    && (forall i :: 0 <= i < |chain| ==> chain[i] < |cells| && cells[chain[i]].nextSource == At(chain, i + 1))
  }

  ghost predicate FreeChain(cells: seq<EdgeCell>, head: Option<nat>, chain: seq<nat>)
  {
    && head == At(chain, 0)
    && (forall i :: 0 <= i < |chain| ==> chain[i] < |cells| && cells[chain[i]].nextFree == At(chain, i + 1))
  }

  // ---------------------------------------------------------------- unlinking from a doubly linked chain

  /** The cells after taking cell e out of its bucket chain. */
  function Unlinked(cells: seq<EdgeCell>, e: nat): (cells': seq<EdgeCell>)
    requires e < |cells|
    requires cells[e].prevBucket.Some? ==> cells[e].prevBucket.value < |cells|
    requires cells[e].nextBucket.Some? ==> cells[e].nextBucket.value < |cells|
    ensures |cells'| == |cells|
  {
    var a := if cells[e].prevBucket.Some? then
               cells[cells[e].prevBucket.value := cells[cells[e].prevBucket.value].(nextBucket := cells[e].nextBucket)]
             else cells;
    if cells[e].nextBucket.Some? then
      a[cells[e].nextBucket.value := a[cells[e].nextBucket.value].(prevBucket := cells[e].prevBucket)]
    else a
  }

  lemma LinksAfterUnlink(cells: seq<EdgeCell>, head: Option<nat>, chain: seq<nat>, i: nat, k: nat)
    requires BucketChain(cells, head, chain) && Distinct(chain) && i < |chain| && k < |chain| && k != i
    requires cells[chain[i]].prevBucket.Some? ==> cells[chain[i]].prevBucket.value < |cells|
    requires cells[chain[i]].nextBucket.Some? ==> cells[chain[i]].nextBucket.value < |cells|
    ensures var c := Unlinked(cells, chain[i])[chain[k]];
      && c.nextBucket == At(chain, if k + 1 == i then i + 1 else k + 1)
      && c.prevBucket == At(chain, if k == i + 1 then i - 1 else k - 1)
  {
    assert chain[k] != chain[i];
    if i > 0 {
      assert cells[chain[i]].prevBucket == Some(chain[i - 1]);
    }
    if i + 1 < |chain| {
      assert cells[chain[i]].nextBucket == Some(chain[i + 1]);
    }
  }

  function Without(chain: seq<nat>, i: nat): (shorter: seq<nat>)
    requires i < |chain|
    ensures |shorter| == |chain| - 1
    ensures forall j :: 0 <= j < |shorter| ==> shorter[j] == chain[if j < i then j else j + 1]
  {
    chain[..i] + chain[i + 1..]
  }

  lemma AtWithout(chain: seq<nat>, i: nat, j: int)
    requires i < |chain|
    ensures At(Without(chain, i), j) == At(chain, if j < i then j else j + 1)
  {
  }

  lemma NeighboursInRange(cells: seq<EdgeCell>, head: Option<nat>, chain: seq<nat>, i: nat)
    requires BucketChain(cells, head, chain) && i < |chain|
    ensures chain[i] < |cells|
    ensures var e := cells[chain[i]];
      && (e.prevBucket.Some? ==> e.prevBucket.value < |cells|)
      && (e.nextBucket.Some? ==> e.nextBucket.value < |cells|)
  {
    assert i > 0 ==> chain[i - 1] < |cells|;
    assert i + 1 < |chain| ==> chain[i + 1] < |cells|;
  }

  lemma LinkOfShorterChain(cells: seq<EdgeCell>, head: Option<nat>, chain: seq<nat>, i: nat, j: nat)
    requires BucketChain(cells, head, chain) && Distinct(chain) && i < |chain| && j < |chain| - 1
    requires cells[chain[i]].prevBucket.Some? ==> cells[chain[i]].prevBucket.value < |cells|
    requires cells[chain[i]].nextBucket.Some? ==> cells[chain[i]].nextBucket.value < |cells|
    ensures var shorter := Without(chain, i);
      && shorter[j] < |cells|
      && Unlinked(cells, chain[i])[shorter[j]].nextBucket == At(shorter, j + 1)
      && Unlinked(cells, chain[i])[shorter[j]].prevBucket == At(shorter, j - 1)
  {
    hide Unlinked, Distinct, At;
    LinksAfterUnlink(cells, head, chain, i, if j < i then j else j + 1);
    AtWithout(chain, i, j + 1);
    AtWithout(chain, i, j - 1);
  }

  lemma UnlinkShortensChain(cells: seq<EdgeCell>, head: Option<nat>, chain: seq<nat>, i: nat)
    requires BucketChain(cells, head, chain) && Distinct(chain) && i < |chain|
    ensures var e := chain[i];
      && (cells[e].prevBucket.Some? ==> cells[e].prevBucket.value < |cells|)
      && (cells[e].nextBucket.Some? ==> cells[e].nextBucket.value < |cells|)
      && BucketChain(Unlinked(cells, e), if cells[e].prevBucket.Some? then head else cells[e].nextBucket,
                     Without(chain, i))
  {
    hide Unlinked, Distinct;
    NeighboursInRange(cells, head, chain, i);
    AtWithout(chain, i, 0);
    hide At;
    var shorter := Without(chain, i);
    forall j | 0 <= j < |shorter|
      ensures shorter[j] < |cells|
      ensures Unlinked(cells, chain[i])[shorter[j]].nextBucket == At(shorter, j + 1)
      ensures Unlinked(cells, chain[i])[shorter[j]].prevBucket == At(shorter, j - 1)
    {
      LinkOfShorterChain(cells, head, chain, i, j);
    }
  }

  /** Unlinking touches nothing but the bucket links of the two neighbours. */
  lemma UnlinkKeepsRest(cells: seq<EdgeCell>, e: nat, d: nat)
    requires e < |cells| && d < |cells|
    requires cells[e].prevBucket.Some? ==> cells[e].prevBucket.value < |cells|
    requires cells[e].nextBucket.Some? ==> cells[e].nextBucket.value < |cells|
    ensures var c, c' := cells[d], Unlinked(cells, e)[d];
      && c'.target == c.target && c'.source == c.source && c'.nextSource == c.nextSource && c'.nextFree == c.nextFree
      && (Some(d) != cells[e].prevBucket ==> c'.nextBucket == c.nextBucket)
      && (Some(d) != cells[e].nextBucket ==> c'.prevBucket == c.prevBucket)
  {
  }

  // ---------------------------------------------------------------- pushing onto the chains

  /** The cells after cell e has been given to an edge and pushed onto its two chains. */
  function Pushed(cells: seq<EdgeCell>, e: nat, source: nat, target: Key, bucketHead: Option<nat>, sourceHead: Option<nat>): (cells': seq<EdgeCell>)
    requires e < |cells| && (bucketHead.Some? ==> bucketHead.value < |cells| && bucketHead.value != e)
    ensures |cells'| == |cells|
    ensures cells'[e] == EdgeCell(target, source, bucketHead, None, sourceHead, cells[e].nextFree)
    ensures forall d :: 0 <= d < |cells| && d != e ==>
      cells'[d] == cells[d].(prevBucket := if bucketHead == Some(d) then Some(e) else cells[d].prevBucket)
  {
    var a := cells[e := EdgeCell(target, source, bucketHead, None, sourceHead, cells[e].nextFree)];
    if bucketHead.Some? then a[bucketHead.value := a[bucketHead.value].(prevBucket := Some(e))] else a
  }

  lemma PushExtendsBucket(cells: seq<EdgeCell>, chain: seq<nat>, e: nat, source: nat, target: Key, bucketHead: Option<nat>, sourceHead: Option<nat>)
    requires BucketChain(cells, bucketHead, chain) && Distinct(chain) && e < |cells| && e !in chain
    ensures bucketHead.Some? ==> bucketHead.value < |cells| && bucketHead.value != e
    ensures BucketChain(Pushed(cells, e, source, target, bucketHead, sourceHead), Some(e), [e] + chain)
    ensures Distinct([e] + chain)
  {
    assert bucketHead.Some? ==> bucketHead.value == chain[0];
    var cells' := Pushed(cells, e, source, target, bucketHead, sourceHead);
    var longer := [e] + chain;
    forall i | 0 <= i < |longer|
      ensures longer[i] < |cells'|
      ensures cells'[longer[i]].nextBucket == At(longer, i + 1) && cells'[longer[i]].prevBucket == At(longer, i - 1)
    {
      assert i > 0 ==> longer[i] == chain[i - 1] && chain[i - 1] != e;
      assert i > 1 ==> chain[i - 1] != chain[0];
    }
  }

  lemma PushExtendsSource(cells: seq<EdgeCell>, cells': seq<EdgeCell>, head: Option<nat>, chain: seq<nat>, e: nat)
    requires SourceChain(cells, head, chain) && Distinct(chain) && e < |cells| == |cells'| && e !in chain
    requires cells'[e].nextSource == head
    requires forall d :: 0 <= d < |cells| && d != e ==> cells'[d].nextSource == cells[d].nextSource
    ensures SourceChain(cells', Some(e), [e] + chain) && Distinct([e] + chain)
  {
    var longer := [e] + chain;
    forall i | 0 <= i < |longer|
      ensures longer[i] < |cells'| && cells'[longer[i]].nextSource == At(longer, i + 1)
    {
      assert i > 0 ==> longer[i] == chain[i - 1] && chain[i - 1] != e;
    }
  }

  lemma PushExtendsFree(cells: seq<EdgeCell>, cells': seq<EdgeCell>, head: Option<nat>, chain: seq<nat>, e: nat)
    requires FreeChain(cells, head, chain) && Distinct(chain) && e < |cells| == |cells'| && e !in chain
    requires cells'[e].nextFree == head
    requires forall d :: 0 <= d < |cells| && d != e ==> cells'[d].nextFree == cells[d].nextFree
    ensures FreeChain(cells', Some(e), [e] + chain) && Distinct([e] + chain)
  {
    var longer := [e] + chain;
    forall i | 0 <= i < |longer|
      ensures longer[i] < |cells'| && cells'[longer[i]].nextFree == At(longer, i + 1)
    {
      assert i > 0 ==> longer[i] == chain[i - 1] && chain[i - 1] != e;
    }
  }

  lemma BucketFrame(cells: seq<EdgeCell>, cells': seq<EdgeCell>, head: Option<nat>, chain: seq<nat>)
    requires BucketChain(cells, head, chain) && |cells'| == |cells|
    requires forall i :: 0 <= i < |chain| ==>
      cells'[chain[i]].nextBucket == cells[chain[i]].nextBucket && cells'[chain[i]].prevBucket == cells[chain[i]].prevBucket
    ensures BucketChain(cells', head, chain)
  {
  }

  lemma SourceFrame(cells: seq<EdgeCell>, cells': seq<EdgeCell>, head: Option<nat>, chain: seq<nat>)
    requires SourceChain(cells, head, chain) && |cells'| == |cells|
    requires forall i :: 0 <= i < |chain| ==> cells'[chain[i]].nextSource == cells[chain[i]].nextSource
    ensures SourceChain(cells', head, chain)
  {
  }

  lemma SourceTail(cells: seq<EdgeCell>, cells': seq<EdgeCell>, head: Option<nat>, chain: seq<nat>)
    requires SourceChain(cells, head, chain) && Distinct(chain) && |cells'| == |cells| && |chain| > 0
    requires forall d :: 0 <= d < |cells| ==> cells'[d].nextSource == cells[d].nextSource
    ensures chain[0] < |cells|
    ensures SourceChain(cells', cells[chain[0]].nextSource, chain[1..]) && Distinct(chain[1..])
  {
    assert forall i :: 0 <= i < |chain[1..]| ==> chain[1..][i] == chain[i + 1];
  }

  // ---------------------------------------------------------------- the pool as one structure

  /** The links as arrays of the writer (cells, bucket heads, source heads, free head) and the
      chains they spell out. */
  datatype Links = Links(
    cells: seq<EdgeCell>,
    buckets: seq<Option<nat>>,
    heads: seq<Option<nat>>,
    freeHead: Option<nat>,
    free: seq<nat>,
    chains: seq<seq<nat>>,
    lists: seq<seq<nat>>)

  function Bucket(hash: Key -> nat, k: Key, count: nat): (b: nat)
    requires count > 0
    ensures b < count
  {
    hash(k) % count
  }

  ghost predicate ChainsOk(p: Links, hash: Key -> nat)
  {
    && |p.chains| == |p.buckets| > 0 && |p.lists| == |p.heads|
    && FreeChain(p.cells, p.freeHead, p.free) && Distinct(p.free)
    && (forall b :: 0 <= b < |p.chains| ==> BucketChain(p.cells, p.buckets[b], p.chains[b]) && Distinct(p.chains[b]))
    && (forall s :: 0 <= s < |p.lists| ==> SourceChain(p.cells, p.heads[s], p.lists[s]) && Distinct(p.lists[s]))
  }

  ghost predicate BucketMembers(p: Links, hash: Key -> nat)
    requires |p.chains| > 0
  {
    forall b: nat, e: nat {:trigger e in p.chains[b]} :: b < |p.chains| && e in p.chains[b] ==>
      e < |p.cells| && e !in p.free && Bucket(hash, p.cells[e].target, |p.chains|) == b
  }

  ghost predicate SourceMembers(p: Links)
  {
    forall s: nat, e: nat {:trigger e in p.lists[s]} :: s < |p.lists| && e in p.lists[s] ==>
      e < |p.cells| && e !in p.free && p.cells[e].source == s
  }

  ghost predicate UsedCells(p: Links, hash: Key -> nat)
    requires |p.chains| > 0
  {
    forall e: nat :: e < |p.cells| && e !in p.free ==>
      && e in p.chains[Bucket(hash, p.cells[e].target, |p.chains|)]
      && p.cells[e].source < |p.lists| && e in p.lists[p.cells[e].source]
  }

  /** Every cell is either free, or in exactly its own bucket chain and its own source chain. */
  ghost predicate Partitioned(p: Links, hash: Key -> nat)
    requires |p.chains| > 0
  {
    BucketMembers(p, hash) && SourceMembers(p) && UsedCells(p, hash)
  }

  ghost predicate PoolOk(p: Links, hash: Key -> nat)
    ensures PoolOk(p, hash) ==> SourceMembers(p) && |p.chains| == |p.buckets| > 0 && |p.lists| == |p.heads|
  {
    ChainsOk(p, hash) && Partitioned(p, hash)
  }

  /** A free cell is in no chain; any other is in one bucket chain and one source chain. */
  lemma EveryCellHasOnePlace(p: Links, hash: Key -> nat, e: nat)
    requires PoolOk(p, hash) && e < |p.cells|
    ensures e in p.free ==>
      && (forall b :: 0 <= b < |p.chains| ==> e !in p.chains[b])
      && (forall s :: 0 <= s < |p.lists| ==> e !in p.lists[s])
    ensures e !in p.free ==>
      && (forall b :: 0 <= b < |p.chains| ==> (e in p.chains[b] <==> b == Bucket(hash, p.cells[e].target, |p.chains|)))
      && (forall s :: 0 <= s < |p.lists| ==> (e in p.lists[s] <==> s == p.cells[e].source))
  {
    hide ChainsOk;
  }

  /** The pool after one more edge from source to target has been taken from the free list. */
  function Added(p: Links, hash: Key -> nat, source: nat, target: Key): Links
    requires |p.chains| == |p.buckets| > 0 && |p.lists| == |p.heads| && source < |p.heads| && |p.free| > 0
    requires p.free[0] < |p.cells|
    requires var b := Bucket(hash, target, |p.buckets|);
      p.buckets[b].Some? ==> p.buckets[b].value < |p.cells| && p.buckets[b].value != p.free[0]
  {
    var e, b := p.free[0], Bucket(hash, target, |p.buckets|);
    Links(
      Pushed(p.cells, e, source, target, p.buckets[b], p.heads[source]),
      p.buckets[b := Some(e)],
      p.heads[source := Some(e)],
      p.cells[e].nextFree,
      p.free[1..],
      p.chains[b := [e] + p.chains[b]],
      p.lists[source := [e] + p.lists[source]])
  }

  /** What the next free cell is not: part of a chain. */
  lemma FreeCellIsUnused(p: Links, hash: Key -> nat)
    requires PoolOk(p, hash) && |p.free| > 0
    ensures p.free[0] < |p.cells|
    ensures forall b :: 0 <= b < |p.chains| ==> p.free[0] !in p.chains[b]
    ensures forall s :: 0 <= s < |p.lists| ==> p.free[0] !in p.lists[s]
    ensures forall b :: 0 <= b < |p.buckets| && p.buckets[b].Some? ==>
      p.buckets[b].value < |p.cells| && p.buckets[b].value in p.chains[b] && p.buckets[b].value != p.free[0]
  {
    assert p.free[0] in p.free;
    forall b | 0 <= b < |p.buckets| && p.buckets[b].Some? ensures p.buckets[b].value in p.chains[b] {
      assert p.buckets[b] == At(p.chains[b], 0);
    }
  }

  lemma AddKeepsBuckets(p: Links, hash: Key -> nat, source: nat, target: Key, b: nat)
    requires PoolOk(p, hash) && source < |p.heads| && |p.free| > 0 && b < |p.chains|
    ensures p.free[0] < |p.cells|
    ensures var c := Bucket(hash, target, |p.buckets|);
      p.buckets[c].Some? ==> p.buckets[c].value < |p.cells| && p.buckets[c].value != p.free[0]
    ensures var q := Added(p, hash, source, target);
      BucketChain(q.cells, q.buckets[b], q.chains[b]) && Distinct(q.chains[b])
  {
    FreeCellIsUnused(p, hash);
    var e, bucket := p.free[0], Bucket(hash, target, |p.buckets|);
    var q := Added(p, hash, source, target);
    if b == bucket {
      PushExtendsBucket(p.cells, p.chains[bucket], e, source, target, p.buckets[bucket], p.heads[source]);
    } else {
      forall i | 0 <= i < |p.chains[b]|
        ensures p.chains[b][i] != e && p.buckets[bucket] != Some(p.chains[b][i])
      {
        assert p.chains[b][i] in p.chains[b];
      }
      BucketFrame(p.cells, q.cells, p.buckets[b], p.chains[b]);
    }
  }

  lemma AddKeepsSources(p: Links, hash: Key -> nat, source: nat, target: Key, s: nat)
    requires PoolOk(p, hash) && source < |p.heads| && |p.free| > 0 && s < |p.lists|
    ensures p.free[0] < |p.cells|
    ensures var c := Bucket(hash, target, |p.buckets|);
      p.buckets[c].Some? ==> p.buckets[c].value < |p.cells| && p.buckets[c].value != p.free[0]
    ensures var q := Added(p, hash, source, target);
      SourceChain(q.cells, q.heads[s], q.lists[s]) && Distinct(q.lists[s])
  {
    FreeCellIsUnused(p, hash);
    var q := Added(p, hash, source, target);
    hide BucketChain, FreeChain, Partitioned;
    if s == source {
      PushExtendsSource(p.cells, q.cells, p.heads[s], p.lists[s], p.free[0]);
    } else {
      forall i | 0 <= i < |p.lists[s]| ensures p.lists[s][i] != p.free[0] {
        assert p.lists[s][i] in p.lists[s];
      }
      SourceFrame(p.cells, q.cells, p.heads[s], p.lists[s]);
    }
  }

  lemma AddKeepsPool(p: Links, hash: Key -> nat, source: nat, target: Key)
    requires PoolOk(p, hash) && source < |p.heads| && |p.free| > 0
    ensures p.free[0] < |p.cells|
    ensures var c := Bucket(hash, target, |p.buckets|);
      p.buckets[c].Some? ==> p.buckets[c].value < |p.cells| && p.buckets[c].value != p.free[0]
    ensures PoolOk(Added(p, hash, source, target), hash)
  {
    FreeCellIsUnused(p, hash);
    var q := Added(p, hash, source, target);
    forall b | 0 <= b < |q.chains| ensures BucketChain(q.cells, q.buckets[b], q.chains[b]) && Distinct(q.chains[b]) {
      AddKeepsBuckets(p, hash, source, target, b);
    }
    forall s | 0 <= s < |q.lists| ensures SourceChain(q.cells, q.heads[s], q.lists[s]) && Distinct(q.lists[s]) {
      AddKeepsSources(p, hash, source, target, s);
    }
    assert forall i :: 0 <= i < |q.free| ==> q.free[i] == p.free[i + 1];
    AddKeepsPartition(p, hash, source, target);
  }

  /** After an addition, cell e = free[0] carries the new edge and the others keep theirs. */
  ghost predicate EdgeAdded(p: Links, q: Links, hash: Key -> nat, source: nat, target: Key)
    requires |p.free| > 0 && |p.chains| > 0
  {
    var e, b := p.free[0], Bucket(hash, target, |p.chains|);
    && e < |p.cells| == |q.cells| && source < |p.lists|
    && q.free == p.free[1..] && q.chains == p.chains[b := [e] + p.chains[b]] && q.lists == p.lists[source := [e] + p.lists[source]]
    && q.cells[e].target == target && q.cells[e].source == source
    && (forall d :: 0 <= d < |p.cells| && d != e ==>
          q.cells[d].target == p.cells[d].target && q.cells[d].source == p.cells[d].source)
    && (forall d: nat :: d in q.free <==> d in p.free && d != e)
    && (forall c :: 0 <= c < |p.chains| ==> e !in p.chains[c])
    && (forall s :: 0 <= s < |p.lists| ==> e !in p.lists[s])
  }

  lemma AddedPartition(p: Links, q: Links, hash: Key -> nat, source: nat, target: Key)
    requires |p.free| > 0 && |p.chains| > 0 && Partitioned(p, hash) && EdgeAdded(p, q, hash, source, target)
    ensures BucketMembers(q, hash) && SourceMembers(q)
  {
    forall s: nat, d: nat | s < |q.lists| && d in q.lists[s]
      ensures d < |q.cells| && d !in q.free && q.cells[d].source == s
    {
      if d != p.free[0] {
        assert d in p.lists[s];
      }
    }
  }

  lemma AddedUsed(p: Links, q: Links, hash: Key -> nat, source: nat, target: Key)
    requires |p.free| > 0 && |p.chains| > 0 && Partitioned(p, hash) && EdgeAdded(p, q, hash, source, target)
    ensures UsedCells(q, hash)
  {
    var e := p.free[0];
    forall d: nat | d < |q.cells| && d !in q.free
      ensures d in q.chains[Bucket(hash, q.cells[d].target, |q.chains|)]
      ensures q.cells[d].source < |q.lists| && d in q.lists[q.cells[d].source]
    {
      if d == e {
        assert q.chains[Bucket(hash, target, |q.chains|)][0] == e && q.lists[source][0] == e;
      }
    }
  }

  lemma TailMembers(chain: seq<nat>)
    requires Distinct(chain) && |chain| > 0
    ensures forall d: nat :: d in chain[1..] <==> d in chain && d != chain[0]
  {
    assert chain == [chain[0]] + chain[1..];
  }

  lemma AddIsEdgeAdded(p: Links, hash: Key -> nat, source: nat, target: Key)
    requires PoolOk(p, hash) && source < |p.heads| && |p.free| > 0
    requires p.free[0] < |p.cells|
    requires var c := Bucket(hash, target, |p.buckets|);
      p.buckets[c].Some? ==> p.buckets[c].value < |p.cells| && p.buckets[c].value != p.free[0]
    ensures EdgeAdded(p, Added(p, hash, source, target), hash, source, target)
  {
    FreeCellIsUnused(p, hash);
    TailMembers(p.free);
    hide PoolOk, ChainsOk, Partitioned, Distinct;
  }

  lemma AddKeepsPartition(p: Links, hash: Key -> nat, source: nat, target: Key)
    requires PoolOk(p, hash) && source < |p.heads| && |p.free| > 0
    requires p.free[0] < |p.cells|
    requires var c := Bucket(hash, target, |p.buckets|);
      p.buckets[c].Some? ==> p.buckets[c].value < |p.cells| && p.buckets[c].value != p.free[0]
    ensures EdgeAdded(p, Added(p, hash, source, target), hash, source, target)
    ensures Partitioned(Added(p, hash, source, target), hash)
  {
    AddIsEdgeAdded(p, hash, source, target);
    hide EdgeAdded, ChainsOk, BucketMembers, SourceMembers, UsedCells, Pushed;
    AddedPartition(p, Added(p, hash, source, target), hash, source, target);
    AddedUsed(p, Added(p, hash, source, target), hash, source, target);
  }

  // ---------------------------------------------------------------- taking an edge out

  /** The pool after the first edge of the source chain has gone back to the free list, as
      one turn of the removal loop leaves it. */
  function Removed(p: Links, hash: Key -> nat, source: nat): (q: Links)
    requires |p.chains| == |p.buckets| > 0 && |p.lists| == |p.heads| && source < |p.heads| && |p.lists[source]| > 0
    requires var e := p.lists[source][0];
      && e < |p.cells|
      && (p.cells[e].prevBucket.Some? ==> p.cells[e].prevBucket.value < |p.cells|)
      && (p.cells[e].nextBucket.Some? ==> p.cells[e].nextBucket.value < |p.cells|)
      && e in p.chains[Bucket(hash, p.cells[e].target, |p.buckets|)]
  {
    var e := p.lists[source][0];
    var b := Bucket(hash, p.cells[e].target, |p.buckets|);
    var unlinked := Unlinked(p.cells, e);
    Links(
      unlinked[e := unlinked[e].(nextFree := p.freeHead)],
      if p.cells[e].prevBucket.Some? then p.buckets else p.buckets[b := p.cells[e].nextBucket],
      p.heads[source := p.cells[e].nextSource],
      Some(e),
      [e] + p.free,
      p.chains[b := Without(p.chains[b], IndexOf(p.chains[b], e))],
      p.lists[source := p.lists[source][1..]])
  }

  function IndexOf(chain: seq<nat>, e: nat): (i: nat)
    requires e in chain
    ensures i < |chain| && chain[i] == e
  {
    if chain[0] == e then 0 else 1 + IndexOf(chain[1..], e)
  }

  lemma WithoutMembers(chain: seq<nat>, i: nat)
    requires Distinct(chain) && i < |chain|
    ensures Distinct(Without(chain, i))
    ensures forall d :: d in Without(chain, i) <==> d in chain && d != chain[i]
  {
    var shorter := Without(chain, i);
    forall d | d in chain && d != chain[i] ensures d in shorter {
      var j :| 0 <= j < |chain| && chain[j] == d;
      assert shorter[if j < i then j else j - 1] == d;
    }
  }

  lemma LinksStayInChain(cells: seq<EdgeCell>, head: Option<nat>, chain: seq<nat>, e: nat)
    requires BucketChain(cells, head, chain) && e in chain
    ensures e < |cells|
    ensures cells[e].prevBucket.Some? ==> cells[e].prevBucket.value < |cells| && cells[e].prevBucket.value in chain
    ensures cells[e].nextBucket.Some? ==> cells[e].nextBucket.value < |cells| && cells[e].nextBucket.value in chain
  {
    var i: int := IndexOf(chain, e);
    assert cells[chain[i]].prevBucket == At(chain, i - 1);
    assert cells[chain[i]].nextBucket == At(chain, i + 1);
  }

  /** The head of a source chain can be unlinked: it is used and in its bucket chain. */
  ghost predicate Removable(p: Links, hash: Key -> nat, source: nat)
  {
    && |p.chains| == |p.buckets| > 0 && |p.lists| == |p.heads| && source < |p.heads| && |p.lists[source]| > 0
    && var e := p.lists[source][0];
    && e < |p.cells| && e !in p.free && p.cells[e].source == source
    && (p.cells[e].prevBucket.Some? ==> p.cells[e].prevBucket.value < |p.cells|)
    && (p.cells[e].nextBucket.Some? ==> p.cells[e].nextBucket.value < |p.cells|)
    && e in p.chains[Bucket(hash, p.cells[e].target, |p.buckets|)]
  }

  lemma SourceHeadIsRemovable(p: Links, hash: Key -> nat, source: nat)
    requires PoolOk(p, hash) && source < |p.heads| && |p.lists[source]| > 0
    ensures Removable(p, hash, source)
  {
    var e := p.lists[source][0];
    assert e in p.lists[source];
    var b := Bucket(hash, p.cells[e].target, |p.buckets|);
    assert e in p.chains[b];
    hide SourceChain, FreeChain;
    LinksStayInChain(p.cells, p.buckets[b], p.chains[b], e);
  }

  lemma RemoveKeepsOwnBucket(p: Links, hash: Key -> nat, source: nat)
    requires ChainsOk(p, hash) && Removable(p, hash, source)
    ensures var q := Removed(p, hash, source); var b := Bucket(hash, p.cells[p.lists[source][0]].target, |p.buckets|);
      BucketChain(q.cells, q.buckets[b], q.chains[b]) && Distinct(q.chains[b])
  {
    hide SourceChain, FreeChain;
    var e := p.lists[source][0];
    var b := Bucket(hash, p.cells[e].target, |p.buckets|);
    var q := Removed(p, hash, source);
    var i := IndexOf(p.chains[b], e);
    UnlinkShortensChain(p.cells, p.buckets[b], p.chains[b], i);
    WithoutMembers(p.chains[b], i);
    hide BucketChain, Distinct;
    assert q.buckets[b] == if p.cells[e].prevBucket.Some? then p.buckets[b] else p.cells[e].nextBucket;
    BucketFrame(Unlinked(p.cells, e), q.cells, q.buckets[b], q.chains[b]);
  }

  lemma RemoveKeepsOtherBucket(p: Links, hash: Key -> nat, source: nat, b: nat)
    requires PoolOk(p, hash) && Removable(p, hash, source) && b < |p.chains|
    requires b != Bucket(hash, p.cells[p.lists[source][0]].target, |p.buckets|)
    ensures var q := Removed(p, hash, source); BucketChain(q.cells, q.buckets[b], q.chains[b]) && Distinct(q.chains[b])
  {
    hide SourceChain, FreeChain;
    var e := p.lists[source][0];
    var bucket := Bucket(hash, p.cells[e].target, |p.buckets|);
    var q := Removed(p, hash, source);
    LinksStayInChain(p.cells, p.buckets[bucket], p.chains[bucket], e);
    forall i | 0 <= i < |p.chains[b]|
      ensures q.cells[p.chains[b][i]].nextBucket == p.cells[p.chains[b][i]].nextBucket
      ensures q.cells[p.chains[b][i]].prevBucket == p.cells[p.chains[b][i]].prevBucket
    {
      assert p.chains[b][i] in p.chains[b];
      UnlinkKeepsRest(p.cells, e, p.chains[b][i]);
    }
    BucketFrame(p.cells, q.cells, p.buckets[b], p.chains[b]);
  }

  lemma RemoveKeepsSources(p: Links, hash: Key -> nat, source: nat, s: nat)
    requires PoolOk(p, hash) && Removable(p, hash, source) && s < |p.lists|
    ensures var q := Removed(p, hash, source); SourceChain(q.cells, q.heads[s], q.lists[s]) && Distinct(q.lists[s])
  {
    hide BucketChain, FreeChain;
    var e := p.lists[source][0];
    var q := Removed(p, hash, source);
    forall d | 0 <= d < |p.cells| ensures q.cells[d].nextSource == p.cells[d].nextSource {
      UnlinkKeepsRest(p.cells, e, d);
    }
    hide Unlinked, Partitioned;
    assert SourceChain(p.cells, p.heads[s], p.lists[s]) && Distinct(p.lists[s]);
    hide SourceChain, Distinct, PoolOk, ChainsOk;
    if s == source {
      SourceTail(p.cells, q.cells, p.heads[s], p.lists[s]);
    } else {
      SourceFrame(p.cells, q.cells, p.heads[s], p.lists[s]);
    }
  }

  lemma RemoveKeepsFree(p: Links, hash: Key -> nat, source: nat)
    requires PoolOk(p, hash) && Removable(p, hash, source)
    ensures var q := Removed(p, hash, source); FreeChain(q.cells, q.freeHead, q.free) && Distinct(q.free)
  {
    hide BucketChain, SourceChain;
    var e := p.lists[source][0];
    var q := Removed(p, hash, source);
    forall d | 0 <= d < |p.cells| && d != e ensures q.cells[d].nextFree == p.cells[d].nextFree {
      UnlinkKeepsRest(p.cells, e, d);
    }
    hide FreeChain, Unlinked;
    PushExtendsFree(p.cells, q.cells, p.freeHead, p.free, e);
  }

  /** After a removal, cell e is free and the other cells keep their edges and chains. */
  ghost predicate EdgeRemoved(p: Links, q: Links, hash: Key -> nat, source: nat, e: nat)
    requires |p.chains| > 0
  {
    && e < |p.cells| == |q.cells| && e !in p.free && source < |p.lists| == |q.lists| && |q.chains| == |p.chains|
    && p.cells[e].source == source
    && (forall d :: 0 <= d < |p.cells| ==> q.cells[d].target == p.cells[d].target && q.cells[d].source == p.cells[d].source)
    && (forall d: nat :: d in q.free <==> d in p.free || d == e)
    && (forall b: nat, d: nat :: b < |p.chains| ==> (d in q.chains[b] <==> d in p.chains[b] && d != e))
    && (forall s: nat, d: nat :: s < |p.lists| ==> (d in q.lists[s] <==> d in p.lists[s] && d != e))
  }

  lemma RemovedPartition(p: Links, q: Links, hash: Key -> nat, source: nat, e: nat)
    requires |p.chains| > 0 && Partitioned(p, hash) && EdgeRemoved(p, q, hash, source, e)
    ensures |q.chains| > 0 && Partitioned(q, hash)
  {
    assert BucketMembers(q, hash) by {
      forall b: nat, d: nat | b < |q.chains| && d in q.chains[b]
        ensures d < |q.cells| && d !in q.free && Bucket(hash, q.cells[d].target, |q.chains|) == b
      {
        assert d in p.chains[b];
      }
    }
    assert SourceMembers(q) by {
      forall s: nat, d: nat | s < |q.lists| && d in q.lists[s]
        ensures d < |q.cells| && d !in q.free && q.cells[d].source == s
      {
        assert d in p.lists[s];
      }
    }
    assert UsedCells(q, hash);
  }

  lemma RemoveKeepsPartition(p: Links, hash: Key -> nat, source: nat)
    requires PoolOk(p, hash) && Removable(p, hash, source)
    ensures EdgeRemoved(p, Removed(p, hash, source), hash, source, p.lists[source][0])
    ensures Partitioned(Removed(p, hash, source), hash)
  {
    hide BucketChain, SourceChain, FreeChain;
    var e := p.lists[source][0];
    var bucket := Bucket(hash, p.cells[e].target, |p.buckets|);
    var q := Removed(p, hash, source);
    forall d | 0 <= d < |p.cells| ensures q.cells[d].target == p.cells[d].target && q.cells[d].source == p.cells[d].source {
      UnlinkKeepsRest(p.cells, e, d);
    }
    WithoutMembers(p.chains[bucket], IndexOf(p.chains[bucket], e));
    forall s: nat, d: nat | s < |p.lists| ensures d in q.lists[s] <==> d in p.lists[s] && d != e {
      if s == source {
        assert p.lists[s] == [e] + q.lists[s];
      }
    }
    assert forall b: nat, d: nat :: b < |p.chains| ==> (d in q.chains[b] <==> d in p.chains[b] && d != e);
    RemovedPartition(p, q, hash, source, e);
  }

  lemma RemoveKeepsPool(p: Links, hash: Key -> nat, source: nat)
    requires PoolOk(p, hash) && source < |p.heads| && |p.lists[source]| > 0
    ensures Removable(p, hash, source) && PoolOk(Removed(p, hash, source), hash)
  {
    SourceHeadIsRemovable(p, hash, source);
    var q := Removed(p, hash, source);
    forall b | 0 <= b < |q.chains| ensures BucketChain(q.cells, q.buckets[b], q.chains[b]) && Distinct(q.chains[b]) {
      if b == Bucket(hash, p.cells[p.lists[source][0]].target, |p.buckets|) {
        RemoveKeepsOwnBucket(p, hash, source);
      } else {
        RemoveKeepsOtherBucket(p, hash, source, b);
      }
    }
    forall s | 0 <= s < |q.lists| ensures SourceChain(q.cells, q.heads[s], q.lists[s]) && Distinct(q.lists[s]) {
      RemoveKeepsSources(p, hash, source, s);
    }
    RemoveKeepsFree(p, hash, source);
    RemoveKeepsPartition(p, hash, source);
  }

  // ---------------------------------------------------------------- what the pool represents

  ghost function EdgeTargets(cells: seq<EdgeCell>, list: seq<nat>): (targets: seq<Key>)
    requires forall i :: 0 <= i < |list| ==> list[i] < |cells|
    ensures |targets| == |list| && forall i :: 0 <= i < |list| ==> targets[i] == cells[list[i]].target
  {
    seq(|list|, i requires 0 <= i < |list| => cells[list[i]].target)
  }

  /** For every source slot, the targets of its edges, latest first. */
  ghost function TargetLists(p: Links): (view: seq<seq<Key>>)
    requires SourceMembers(p)
    ensures |view| == |p.lists|
    ensures forall s :: 0 <= s < |p.lists| ==>
      (forall i :: 0 <= i < |p.lists[s]| ==> p.lists[s][i] < |p.cells|) && view[s] == EdgeTargets(p.cells, p.lists[s])
  {
    assert forall s, i :: 0 <= s < |p.lists| && 0 <= i < |p.lists[s]| ==> p.lists[s][i] in p.lists[s];
    seq(|p.lists|, s requires 0 <= s < |p.lists| => EdgeTargets(p.cells, p.lists[s]))
  }

  function TotalLength<T>(lists: seq<seq<T>>): (n: nat)
  {
    if lists == [] then 0 else |lists[0]| + TotalLength(lists[1..])
  }

  lemma {:induction false} TotalLengthUpdate<T>(lists: seq<seq<T>>, s: nat, list: seq<T>)
    requires s < |lists|
    ensures TotalLength(lists[s := list]) == TotalLength(lists) - |lists[s]| + |list|
  {
    if s > 0 {
      TotalLengthUpdate(lists[1..], s - 1, list);
      assert lists[s := list][1..] == lists[1..][s - 1 := list];
    } else {
      assert lists[s := list][1..] == lists[1..];
    }
  }

  lemma AddedTargets(p: Links, hash: Key -> nat, source: nat, target: Key)
    requires PoolOk(p, hash) && source < |p.heads| && |p.free| > 0
    ensures p.free[0] < |p.cells|
    ensures var c := Bucket(hash, target, |p.buckets|);
      p.buckets[c].Some? ==> p.buckets[c].value < |p.cells| && p.buckets[c].value != p.free[0]
    ensures PoolOk(Added(p, hash, source, target), hash)
    ensures TargetLists(Added(p, hash, source, target)) == TargetLists(p)[source := [target] + TargetLists(p)[source]]
  {
    FreeCellIsUnused(p, hash);
    AddKeepsPool(p, hash, source, target);
    AddKeepsPartition(p, hash, source, target);
    hide ChainsOk, BucketMembers, UsedCells, Added, Pushed;
    EdgeAddedTargets(p, Added(p, hash, source, target), hash, source, target);
  }

  lemma EdgeAddedTargets(p: Links, q: Links, hash: Key -> nat, source: nat, target: Key)
    requires |p.free| > 0 && |p.chains| > 0 && EdgeAdded(p, q, hash, source, target) && SourceMembers(p) && SourceMembers(q)
    ensures TargetLists(q) == TargetLists(p)[source := [target] + TargetLists(p)[source]]
  {
    var view, view' := TargetLists(p), TargetLists(q);
    forall s | 0 <= s < |view| ensures view'[s] == if s == source then [target] + view[s] else view[s] {
      forall i | 0 <= i < |p.lists[s]| ensures q.cells[p.lists[s][i]].target == p.cells[p.lists[s][i]].target {
        assert p.lists[s][i] in p.lists[s];
      }
    }
  }

  lemma RemovedTargets(p: Links, hash: Key -> nat, source: nat)
    requires PoolOk(p, hash) && source < |p.heads| && |p.lists[source]| > 0
    ensures Removable(p, hash, source) && PoolOk(Removed(p, hash, source), hash)
    ensures TargetLists(Removed(p, hash, source)) == TargetLists(p)[source := TargetLists(p)[source][1..]]
  {
    RemoveKeepsPool(p, hash, source);
    RemoveKeepsPartition(p, hash, source);
    var q := Removed(p, hash, source);
    assert q.lists == p.lists[source := p.lists[source][1..]];
    hide ChainsOk, BucketMembers, UsedCells, Removed, Unlinked;
    EdgeRemovedTargets(p, q, hash, source, p.lists[source][0]);
  }

  lemma EdgeRemovedTargets(p: Links, q: Links, hash: Key -> nat, source: nat, e: nat)
    requires |p.chains| > 0 && SourceMembers(p) && SourceMembers(q) && EdgeRemoved(p, q, hash, source, e)
    requires |p.lists[source]| > 0 && q.lists == p.lists[source := p.lists[source][1..]]
    ensures TargetLists(q) == TargetLists(p)[source := TargetLists(p)[source][1..]]
  {
    var view, view' := TargetLists(p), TargetLists(q);
    forall s | 0 <= s < |view| ensures view'[s] == if s == source then view[s][1..] else view[s] {
      forall i | 0 <= i < |p.lists[s]| ensures q.cells[p.lists[s][i]].target == p.cells[p.lists[s][i]].target {
        assert p.lists[s][i] in p.lists[s];
      }
    }
  }

  /** The bucket of a key lists an edge for exactly the source slots that depend on it. */
  lemma BucketListsDependents(p: Links, hash: Key -> nat, k: Key, s: nat)
    requires PoolOk(p, hash) && s < |p.lists|
    ensures k in TargetLists(p)[s] <==>
      exists e: nat :: e in p.chains[Bucket(hash, k, |p.chains|)] && e < |p.cells| && p.cells[e].target == k && p.cells[e].source == s
  {
    assert |p.chains| > 0;
    hide ChainsOk;
    var view := TargetLists(p);
    if k in view[s] {
      var i :| 0 <= i < |view[s]| && view[s][i] == k;
      assert p.lists[s][i] in p.lists[s];
    }
    if e: nat :| e in p.chains[Bucket(hash, k, |p.chains|)] && e < |p.cells| && p.cells[e].target == k && p.cells[e].source == s {
      assert e in p.lists[s];
      var i :| 0 <= i < |p.lists[s]| && p.lists[s][i] == e;
      assert view[s][i] == k;
    }
  }

  lemma HeadOfSource(p: Links, hash: Key -> nat, source: nat)
    requires PoolOk(p, hash) && source < |p.heads|
    ensures p.heads[source] == At(p.lists[source], 0)
  {
  }

  function Reversed<T>(s: seq<T>): (r: seq<T>)
    ensures |r| == |s|
    ensures forall i :: 0 <= i < |s| ==> r[i] == s[|s| - 1 - i]
  {
    if s == [] then [] else [s[|s| - 1]] + Reversed(s[..|s| - 1])
  }

  lemma LatestFirst(edges: seq<Dependency>, i: nat, rest: seq<Key>)
    requires i < |edges|
    ensures Reversed(Targets(edges[..i + 1])) + rest == [edges[i].target] + (Reversed(Targets(edges[..i])) + rest)
  {
    var now := Targets(edges[..i + 1]);
    assert now[..i] == Targets(edges[..i]) && now[i] == edges[i].target;
  }

  function UnusedEdge(i: nat, edges: nat): (e: EdgeCell)
    ensures e.nextFree == if i + 1 < edges then Some(i + 1) else None
  {
    var next: nat := i + 1;
    EdgeCell(Key(0, 0, 0), 0, None, None, None, if next < edges then Some(next) else None)
  }

  function Copies<T>(x: T, n: nat): (s: seq<T>)
    ensures |s| == n && forall i :: 0 <= i < n ==> s[i] == x
  {
    if n == 0 then [] else Copies(x, n - 1) + [x]
  }

  /** Every cell on the free list, in order, and every chain empty. */
  ghost predicate IsUnused(p: Links, resources: nat, edges: nat)
  {
    && |p.cells| == |p.free| == edges > 0
    && (forall i :: 0 <= i < edges ==> p.cells[i] == UnusedEdge(i, edges) && p.free[i] == i)
    && p.buckets == Copies(None, resources * 2 + 1) && p.chains == Copies([], resources * 2 + 1)
    && p.heads == Copies(None, resources) && p.lists == Copies([], resources)
    && p.freeHead == Some(0)
  }

  lemma UnusedChainsOk(p: Links, hash: Key -> nat, resources: nat, edges: nat)
    requires IsUnused(p, resources, edges)
    ensures ChainsOk(p, hash) && TargetLists(p) == Copies([], resources) && TotalLength(p.lists) == 0
  {
    NothingUsed(p.lists);
  }

  lemma UnusedIsOk(p: Links, hash: Key -> nat, resources: nat, edges: nat)
    requires IsUnused(p, resources, edges)
    ensures PoolOk(p, hash) && TargetLists(p) == Copies([], resources) && TotalLength(p.lists) == 0
  {
    UnusedChainsOk(p, hash, resources, edges);
    hide TotalLength, ChainsOk, TargetLists;
    forall e: nat | e < |p.cells| ensures e in p.free {
      assert p.free[e] == e;
    }
  }

  method ClearHeads(heads: array<Option<nat>>)
    modifies heads
    ensures heads[..] == Copies(None, heads.Length)
  {
    for b := 0 to heads.Length
      invariant forall i :: 0 <= i < b ==> heads[i] == None
    {
      heads[b] := None;
    }
  }

  method ThreadFreeList(cells: array<EdgeCell>)
    modifies cells
    ensures forall i :: 0 <= i < cells.Length ==> cells[i] == UnusedEdge(i, cells.Length)
  {
    for e := 0 to cells.Length
      invariant forall i :: 0 <= i < e ==> cells[i] == UnusedEdge(i, cells.Length)
    {
      cells[e] := UnusedEdge(e, cells.Length);
    }
  }

  lemma {:induction false} TotalLengthSame<A, B>(a: seq<seq<A>>, b: seq<seq<B>>)
    requires |a| == |b| && forall i :: 0 <= i < |a| ==> |a[i]| == |b[i]|
    ensures TotalLength(a) == TotalLength(b)
  {
    if a != [] {
      TotalLengthSame(a[1..], b[1..]);
    }
  }

  /** Edge cells and their heads, as the writer updates them in place. */
  class Pool {
    const hash: Key -> nat
    const cells: array<EdgeCell>
    const buckets: array<Option<nat>>
    const heads: array<Option<nat>>
    var freeHead: Option<nat>
    var active: nat
    ghost var free: seq<nat>
    ghost var chains: seq<seq<nat>>
    ghost var lists: seq<seq<nat>>

    ghost function State(): Links
      reads this, cells, buckets, heads
    {
      Links(cells[..], buckets[..], heads[..], freeHead, free, chains, lists)
    }

    ghost predicate Valid()
      reads this, cells, buckets, heads
      ensures Valid() ==> |lists| == heads.Length
    {
      && buckets != heads
      && PoolOk(State(), hash)
      && |free| + active == cells.Length
      && active == TotalLength(lists)
    }

    ghost function View(): (view: seq<seq<Key>>)
      requires Valid()
      reads this, cells, buckets, heads
      ensures |view| == heads.Length && forall s :: 0 <= s < |view| ==> |view[s]| == |lists[s]|
    {
      TargetLists(State())
    }

    lemma ActiveEdges()
      requires Valid()
      ensures active == TotalLength(View()) <= cells.Length
    {
      TotalLengthSame(lists, View());
    }

    constructor (hash: Key -> nat, resources: nat, edges: nat)
      requires resources > 0 && edges > 0
      ensures Valid() && this.hash == hash && fresh(cells) && fresh(buckets) && fresh(heads)
      ensures cells.Length == edges && active == 0 && View() == Copies([], resources)
    {
      hide PoolOk, TotalLength, TargetLists;
      this.hash := hash;
      cells := new EdgeCell[edges];
      buckets := new Option<nat>[resources * 2 + 1];
      heads := new Option<nat>[resources];
      freeHead := Some(0);
      active := 0;
      new;
      ClearHeads(buckets);
      ClearHeads(heads);
      ThreadFreeList(cells);
      free := seq(edges, i requires 0 <= i < edges => i);
      chains, lists := Copies([], buckets.Length), Copies([], heads.Length);
      UnusedIsOk(State(), hash, resources, edges);
    }

    /** Whether the pool can hold newEdges for the source in place of the ones it has. */
    method CanReplace(source: nat, newEdges: nat) returns (ok: bool)
      requires Valid() && source < heads.Length
      ensures ok == (active - |View()[source]| + newEdges <= cells.Length)
    {
      var oldEdges := 0;
      var edge := heads[source];
      while edge.Some?
        invariant oldEdges <= |lists[source]| && edge == At(lists[source], oldEdges)
        decreases |lists[source]| - oldEdges
      {
        edge := cells[edge.value].nextSource;
        oldEdges := oldEdges + 1;
      }
      ok := newEdges <= cells.Length - (active - oldEdges);
    }

    method Remove(source: nat)
      requires Valid() && source < heads.Length
      modifies this, cells, buckets, heads
      ensures Valid() && View() == old(View())[source := []]
      ensures active == old(active) - |old(View())[source]|
    {
      hide PoolOk, ChainsOk, Partitioned, TargetLists, Removed, TotalLength;
      var edge := heads[source];
      heads[source] := None;
      ghost var views := old(View());
      assert heads[..][source := edge] == old(heads[..]);
      while edge.Some?
        invariant buckets != heads && |heads[..]| == |views| == |old(lists)|
        invariant heads[..] == heads[..][source := None]
        invariant PoolOk(State().(heads := heads[..][source := edge]), hash)
        invariant TargetLists(State().(heads := heads[..][source := edge])) == views
        invariant views == old(View())[source := views[source]]
        invariant |free| + active == cells.Length && active == TotalLength(lists)
        invariant active == old(active) - |old(View())[source]| + |lists[source]|
        decreases |lists[source]|
      {
        ghost var before := State().(heads := heads[..][source := edge]);
        HeadOfSource(before, hash, source);
        RemovedTargets(before, hash, source);
        TotalLengthUpdate(lists, source, lists[source][1..]);
        views := views[source := views[source][1..]];
        edge := UnlinkOne(edge.value, source, before);
      }
      HeadOfSource(State().(heads := heads[..][source := edge]), hash, source);
    }

    /** The neighbours of an edge in its bucket chain, or the bucket itself, pass it over. */
    method TakeFromBucket(edge: nat, b: nat)
      requires edge < cells.Length && b < buckets.Length
      requires cells[edge].prevBucket.Some? ==> cells[edge].prevBucket.value < cells.Length
      requires cells[edge].nextBucket.Some? ==> cells[edge].nextBucket.value < cells.Length
      modifies cells, buckets
      ensures cells[..] == Unlinked(old(cells[..]), edge)
      ensures buckets[..] == if old(cells[edge]).prevBucket.Some? then old(buckets[..])
                             else old(buckets[..])[b := old(cells[edge]).nextBucket]
    {
      if cells[edge].prevBucket.None? {
        buckets[b] := cells[edge].nextBucket;
      } else {
        var prev := cells[edge].prevBucket.value;
        cells[prev] := cells[prev].(nextBucket := cells[edge].nextBucket);
      }
      if cells[edge].nextBucket.Some? {
        var next := cells[edge].nextBucket.value;
        cells[next] := cells[next].(prevBucket := cells[edge].prevBucket);
      }
    }

    /** One turn of the removal loop. */
    method UnlinkOne(edge: nat, ghost source: nat, ghost before: Links) returns (following: Option<nat>)
      requires source < |lists| && source < heads.Length && before == State().(heads := heads[..][source := Some(edge)])
      requires Removable(before, hash, source) && lists[source][0] == edge && buckets != heads && active > 0
      modifies this, cells, buckets
      ensures State().(heads := heads[..][source := following]) == Removed(before, hash, source)
      ensures active == old(active) - 1 && free == [edge] + old(free)
      ensures buckets != heads && lists == old(lists)[source := old(lists)[source][1..]]
    {
      hide PoolOk, TotalLength, IndexOf;
      following := cells[edge].nextSource;
      var b := Bucket(hash, cells[edge].target, buckets.Length);
      ghost var i := IndexOf(chains[b], edge);
      TakeFromBucket(edge, b);
      cells[edge] := cells[edge].(nextFree := freeHead);
      freeHead := Some(edge);
      active := active - 1;
      free := [edge] + free;
      chains := chains[b := Without(chains[b], i)];
      lists := lists[source := lists[source][1..]];
    }

    /** Index the dependencies of a source slot; the free list never runs out when admitted. */
    method Add(source: nat, edges: seq<Dependency>)
      requires Valid() && source < heads.Length && active + |edges| <= cells.Length
      modifies this, cells, buckets, heads
      ensures Valid() && active == old(active) + |edges|
      ensures View() == old(View())[source := Reversed(Targets(edges)) + old(View())[source]]
    {
      hide PoolOk, TargetLists, TotalLength, Reversed, Targets;
      assert Reversed(Targets(edges[..0])) + old(View())[source] == old(View())[source];
      ghost var view := old(View());
      for i := 0 to |edges|
        invariant Valid() && active == old(active) + i
        invariant View() == old(View())[source := Reversed(Targets(edges[..i])) + old(View())[source]]
      {
        AddOne(source, edges[i].target);
        LatestFirst(edges, i, old(View())[source]);
      }
      assert edges[..|edges|] == edges;
    }

    /** One turn of the insertion loop. */
    method AddOne(source: nat, target: Key)
      requires Valid() && source < heads.Length && active < cells.Length
      modifies this, cells, buckets, heads
      ensures Valid() && active == old(active) + 1
      ensures View() == old(View())[source := [target] + old(View())[source]]
    {
      ghost var before := State();
      AddedTargets(before, hash, source, target);
      TotalLengthUpdate(lists, source, [free[0]] + lists[source]);
      LinkOne(source, target, before);
    }

    method LinkOne(source: nat, target: Key, ghost before: Links)
      requires before == State() && buckets != heads && 0 < buckets.Length == |chains|
      requires source < heads.Length == |lists| && |free| > 0
      requires free[0] < cells.Length && freeHead == Some(free[0])
      requires var head := buckets[Bucket(hash, target, buckets.Length)];
        head.Some? ==> head.value < cells.Length && head.value != free[0]
      modifies this, cells, buckets, heads
      ensures State() == Added(before, hash, source, target) && active == old(active) + 1
    {
      var edge := freeHead.value;
      freeHead := cells[edge].nextFree;
      var b := Bucket(hash, target, buckets.Length);
      cells[edge] := EdgeCell(target, source, buckets[b], None, heads[source], cells[edge].nextFree);
      if buckets[b].Some? {
        var next := buckets[b].value;
        cells[next] := cells[next].(prevBucket := Some(edge));
      }
      buckets[b] := Some(edge);
      heads[source] := Some(edge);
      active := active + 1;
      free := free[1..];
      chains := chains[b := [edge] + chains[b]];
      lists := lists[source := [edge] + lists[source]];
    }
  }

  lemma {:induction false} NothingUsed<T>(lists: seq<seq<T>>)
    requires forall i :: 0 <= i < |lists| ==> lists[i] == []
    ensures TotalLength(lists) == 0
  {
    if lists != [] {
      NothingUsed(lists[1..]);
    }
  }
}
