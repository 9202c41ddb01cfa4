/** Marking the dependents of a changed key: a breadth-first walk backwards over the reverse
    edges, with visited stamps and a bounded queue. */
module DependentMarking {
  import opened DependencySearch
  import opened Digraph
  import opened InvalidationJournal
  import opened ResourceRecords
  import opened ResourceTypes
  import opened ReverseEdges
  import opened Wrappers

  /** The reverse-edge pool lists, for every slot, the dependencies of its published record. */
  ghost predicate EdgesIndexed(published: seq<Option<Record>>, view: seq<seq<Key>>)
  {
    && |view| == |published|
    && forall s :: 0 <= s < |published| ==>
         view[s] == if published[s].Some? then Reversed(Targets(published[s].value.deps)) else []
  }

  lemma ReversedMembers<T>(s: seq<T>, x: T)
    ensures x in Reversed(s) <==> x in s
  {
    if x in s {
      var i :| 0 <= i < |s| && s[i] == x;
      assert Reversed(s)[|s| - 1 - i] == x;
    }
  }

  /** A record can be replaced or withdrawn together with the edges of its slot. */
  lemma EdgesFollowSlot(published: seq<Option<Record>>, view: seq<seq<Key>>, slot: nat, record: Option<Record>)
    requires EdgesIndexed(published, view) && slot < |published|
    ensures var list := if record.Some? then Reversed(Targets(record.value.deps)) else [];
      EdgesIndexed(published[slot := record], view[slot := list])
  {
  }

  /** The stamped slots are the queued ones, and all of them depend on the changed key. */
  ghost predicate Marking(published: seq<Option<Record>>, index: map<Key, nat>, visited: seq<nat>, stamp: nat,
                          queue: seq<nat>, tail: nat, changed: Key)
    requires Indexed(published, index)
  {
    && Frontier(published, visited, stamp, queue, tail)
    && forall i :: 0 <= i < tail ==> DependsOn(published, index, queue[i], changed)
  }

  /** Every slot with an edge to k is stamped. */
  ghost predicate Scanned(published: seq<Option<Record>>, visited: seq<nat>, stamp: nat, k: Key)
  {
    forall s :: 0 <= s < |published| && published[s].Some? && k in Targets(published[s].value.deps) ==>
      s < |visited| && visited[s] == stamp
  }

  lemma MarkOne(published: seq<Option<Record>>, index: map<Key, nat>, visited: seq<nat>, stamp: nat,
                queue: seq<nat>, tail: nat, changed: Key, k: Key, s: nat)
    requires Indexed(published, index) && Acyclic(Relation(published, index))
    requires Marking(published, index, visited, stamp, queue, tail, changed)
    requires Reach(Relation(published, index), k, changed)
    requires s < |published| && published[s].Some? && k in Targets(published[s].value.deps)
    requires s < |visited| && visited[s] != stamp
    ensures tail < |queue|
    ensures Marking(published, index, visited[s := stamp], stamp, queue[tail := s], tail + 1, changed)
  {
    var g := Relation(published, index);
    assert Edge(g, published[s].value.key, k);
    ReachPrepend(g, published[s].value.key, k, changed);
    FrontierHasRoom(published, visited, stamp, queue, tail, s);
    FrontierGrows(published, visited, stamp, queue, tail, s);
  }

  lemma MarkingComplete(published: seq<Option<Record>>, index: map<Key, nat>, visited: seq<nat>, stamp: nat,
                        queue: seq<nat>, tail: nat, changed: Key, s: nat)
    requires Indexed(published, index) && Marking(published, index, visited, stamp, queue, tail, changed)
    requires Scanned(published, visited, stamp, changed)
    requires forall i :: 0 <= i < tail ==> Scanned(published, visited, stamp, published[queue[i]].value.key)
    requires s < |visited|
    ensures visited[s] == stamp <==> DependsOn(published, index, s, changed)
    ensures visited[s] == stamp <==> s in queue[..tail]
  {
    var g := Relation(published, index);
    var marked := iset k: Key | k == changed || (k in index && visited[index[k]] == stamp);
    forall a, b | b in marked && Edge(g, a, b) ensures a in marked {
      if b != changed {
        assert index[b] in queue[..tail];
        var i :| 0 <= i < tail && queue[i] == index[b];
        assert Scanned(published, visited, stamp, published[queue[i]].value.key);
      }
    }
    if DependsOn(published, index, s, changed) {
      ClosedUnderPredecessors(g, marked, published[s].value.key, changed);
    }
  }

  /** Slots of the first n edges of a bucket chain that lead to k are stamped. */
  ghost predicate ScannedEdges(cells: seq<EdgeCell>, chain: seq<nat>, n: nat, k: Key, visited: seq<nat>, stamp: nat)
  {
    forall i :: 0 <= i < n && i < |chain| && chain[i] < |cells| && cells[chain[i]].target == k ==>
      cells[chain[i]].source < |visited| && visited[cells[chain[i]].source] == stamp
  }

  lemma ChainScanned(p: Links, hash: Key -> nat, published: seq<Option<Record>>, k: Key, visited: seq<nat>, stamp: nat)
    requires PoolOk(p, hash) && EdgesIndexed(published, TargetLists(p))
    requires var chain := p.chains[Bucket(hash, k, |p.chains|)]; ScannedEdges(p.cells, chain, |chain|, k, visited, stamp)
    ensures Scanned(published, visited, stamp, k)
  {
    hide PoolOk;
    var chain := p.chains[Bucket(hash, k, |p.chains|)];
    forall s | 0 <= s < |published| && published[s].Some? && k in Targets(published[s].value.deps)
      ensures s < |visited| && visited[s] == stamp
    {
      ReversedMembers(Targets(published[s].value.deps), k);
      BucketListsDependents(p, hash, k, s);
      var e: nat :| e in chain && e < |p.cells| && p.cells[e].target == k && p.cells[e].source == s;
      var i :| 0 <= i < |chain| && chain[i] == e;
    }
  }

  /** An edge to k in its bucket belongs to a live slot that depends on k. */
  lemma EdgeSourceDepends(p: Links, hash: Key -> nat, published: seq<Option<Record>>, k: Key, j: nat)
    requires PoolOk(p, hash) && EdgesIndexed(published, TargetLists(p))
    requires var chain := p.chains[Bucket(hash, k, |p.chains|)];
      j < |chain| && (chain[j] < |p.cells| ==> p.cells[chain[j]].target == k)
    ensures var e := p.chains[Bucket(hash, k, |p.chains|)][j];
      && e < |p.cells| && p.cells[e].source < |published|
      && published[p.cells[e].source].Some? && k in Targets(published[p.cells[e].source].value.deps)
  {
    var e := p.chains[Bucket(hash, k, |p.chains|)][j];
    assert e in p.chains[Bucket(hash, k, |p.chains|)];
    assert BucketMembers(p, hash) && UsedCells(p, hash);
    var s := p.cells[e].source;
    hide PoolOk, BucketMembers, UsedCells;
    BucketListsDependents(p, hash, k, s);
    assert k in TargetLists(p)[s];
    ReversedMembers(Targets(published[s].value.deps), k);
  }

  lemma ChainLinks(p: Links, hash: Key -> nat, b: nat, j: nat)
    requires PoolOk(p, hash) && b < |p.chains|
    ensures p.buckets[b] == At(p.chains[b], 0)
    ensures j < |p.chains[b]| ==> p.chains[b][j] < |p.cells| && p.cells[p.chains[b][j]].nextBucket == At(p.chains[b], j + 1)
  {
  }

  /** One journal entry per marked slot, numbered consecutively. */
  ghost function Events(published: seq<Option<Record>>, changed: Key, marked: seq<nat>, first: nat, changeSequence: nat): (events: seq<Event>)
    requires forall i :: 0 <= i < |marked| ==> marked[i] < |published| && published[marked[i]].Some?
    ensures |events| == |marked|
    ensures forall i :: 0 <= i < |marked| ==>
      events[i] == Event(changed, published[marked[i]].value.handle, first + i + 1, changeSequence)
  {
    seq(|marked|, i requires 0 <= i < |marked| =>
      Event(changed, published[marked[i]].value.handle, first + i + 1, changeSequence))
  }

  /** The writer's arrays during an invalidation pass. */
  datatype Pass = Pass(
    published: seq<Option<Record>>,
    index: map<Key, nat>,
    visited: seq<nat>,
    stamp: nat,
    queue: seq<nat>,
    tail: nat,
    invalidation: seq<nat>,
    history: seq<Event>,
    change: nat)

  /** The pass has stamped and queued the slots queue[..tail]: each carries the new change
      sequence and has one journal event, and no other slot is touched. */
  ghost predicate Marked(p: Pass, changed: Key, before: seq<nat>, past: seq<Event>)
    ensures Marked(p, changed, before, past) ==> Indexed(p.published, p.index) && p.tail <= |p.queue|
  {
    && Indexed(p.published, p.index)
    && Marking(p.published, p.index, p.visited, p.stamp, p.queue, p.tail, changed)
    && |before| == |p.invalidation| == |p.visited|
    && (forall s :: 0 <= s < |p.visited| ==>
          p.invalidation[s] == if p.visited[s] == p.stamp then p.change else before[s])
    && p.history == past + Events(p.published, changed, p.queue[..p.tail], |past|, p.change)
  }

  lemma MarkStep(p: Pass, changed: Key, before: seq<nat>, past: seq<Event>, k: Key, s: nat)
    requires Marked(p, changed, before, past) && Acyclic(Relation(p.published, p.index))
    requires Reach(Relation(p.published, p.index), k, changed)
    requires s < |p.published| && p.published[s].Some? && k in Targets(p.published[s].value.deps)
    requires s < |p.visited| && p.visited[s] != p.stamp
    ensures p.tail < |p.queue| && s < |p.invalidation|
    ensures Marked(
      p.(visited := p.visited[s := p.stamp], queue := p.queue[p.tail := s], tail := p.tail + 1,
         invalidation := p.invalidation[s := p.change],
         history := p.history + [Event(changed, p.published[s].value.handle, |p.history| + 1, p.change)]),
      changed, before, past)
  {
    MarkOne(p.published, p.index, p.visited, p.stamp, p.queue, p.tail, changed, k, s);
    hide Marking, Acyclic, Indexed, Relation;
    assert p.queue[p.tail := s][..p.tail + 1] == p.queue[..p.tail] + [s];
  }

  lemma NothingMarked(p: Pass, changed: Key)
    requires Indexed(p.published, p.index) && |p.visited| == |p.published| == |p.queue| == |p.invalidation| && p.tail == 0
    requires forall s :: 0 <= s < |p.visited| ==> p.visited[s] != p.stamp
    ensures Marked(p, changed, p.invalidation, p.history)
  {
  }

  /** What a finished pass has done, stated without its scratch state: exactly the dependents of
      the changed key carry the change sequence, and each got one journal event. */
  ghost predicate Invalidated(published: seq<Option<Record>>, index: map<Key, nat>, changed: Key, marked: seq<nat>, change: nat,
                              before: seq<nat>, after: seq<nat>, past: seq<Event>, history: seq<Event>)
    requires Indexed(published, index)
  {
    && |before| == |after| == |published|
    && (forall s :: 0 <= s < |published| ==> (s in marked <==> DependsOn(published, index, s, changed)))
    && (forall i, j :: 0 <= i < j < |marked| ==> marked[i] != marked[j])
    && (forall i :: 0 <= i < |marked| ==> marked[i] < |published| && published[marked[i]].Some?)
    && (forall s :: 0 <= s < |published| ==>
          after[s] == if DependsOn(published, index, s, changed) then change else before[s])
    && history == past + Events(published, changed, marked, |past|, change)
  }

  lemma PassComplete(p: Pass, changed: Key, before: seq<nat>, past: seq<Event>)
    requires Marked(p, changed, before, past)
    requires Scanned(p.published, p.visited, p.stamp, changed)
    requires forall i :: 0 <= i < p.tail ==> Scanned(p.published, p.visited, p.stamp, p.published[p.queue[i]].value.key)
    ensures Invalidated(p.published, p.index, changed, p.queue[..p.tail], p.change, before, p.invalidation, past, p.history)
  {
    forall s: nat | s < |p.visited|
      ensures p.visited[s] == p.stamp <==> DependsOn(p.published, p.index, s, changed)
      ensures p.visited[s] == p.stamp <==> s in p.queue[..p.tail]
    {
      MarkingComplete(p.published, p.index, p.visited, p.stamp, p.queue, p.tail, changed, s);
    }
  }

  /** A later point of the same pass. */
  ghost predicate Grown(p: Pass, q: Pass)
  {
    && q.published == p.published && q.index == p.index && q.stamp == p.stamp && q.change == p.change
    && p.tail <= q.tail && |q.queue| == |p.queue| && |q.visited| == |p.visited| == |p.published|
    && (forall i :: 0 <= i < p.tail && i < |p.queue| ==> q.queue[i] == p.queue[i])
    && (forall s :: 0 <= s < |p.visited| && p.visited[s] == p.stamp ==> q.visited[s] == p.stamp)
  }

  lemma GrownFurther(p: Pass, q: Pass, r: Pass)
    requires Grown(p, q) && Grown(q, r)
    ensures Grown(p, r)
  {
  }

  lemma ScannedEdgesStay(p: Pass, q: Pass, cells: seq<EdgeCell>, chain: seq<nat>, n: nat, k: Key)
    requires Grown(p, q) && ScannedEdges(cells, chain, n, k, p.visited, p.stamp)
    ensures ScannedEdges(cells, chain, n, k, q.visited, q.stamp)
  {
  }

  lemma ScannedEdgesGrow(cells: seq<EdgeCell>, chain: seq<nat>, n: nat, k: Key, visited: seq<nat>, stamp: nat)
    requires ScannedEdges(cells, chain, n, k, visited, stamp) && n < |chain| && chain[n] < |cells|
    requires cells[chain[n]].target == k ==> cells[chain[n]].source < |visited| && visited[cells[chain[n]].source] == stamp
    ensures ScannedEdges(cells, chain, n + 1, k, visited, stamp)
  {
  }

  /** The pass has dealt with the changed key and the first queued slots, except that the
      edges to the current key are still to be scanned. */
  ghost predicate Progress(p: Pass, head: nat, changed: Key, current: Key)
    ensures Progress(p, head, changed, current) ==>
      && Indexed(p.published, p.index) && Reach(Relation(p.published, p.index), current, changed)
      && head <= p.tail <= |p.queue|
  {
    && Indexed(p.published, p.index) && Reach(Relation(p.published, p.index), current, changed)
    && head <= p.tail <= |p.queue|
    && (forall i :: 0 <= i < p.tail ==> p.queue[i] < |p.published| && p.published[p.queue[i]].Some?)
    && (if head == 0 then current == changed
        else Scanned(p.published, p.visited, p.stamp, changed) && current == p.published[p.queue[head - 1]].value.key)
    && (forall i :: 0 <= i < head - 1 ==> Scanned(p.published, p.visited, p.stamp, p.published[p.queue[i]].value.key))
  }

  lemma PassStarts(p: Pass, changed: Key)
    requires Indexed(p.published, p.index) && |p.visited| == |p.published| == |p.queue| == |p.invalidation| && p.tail == 0
    requires forall s :: 0 <= s < |p.visited| ==> p.visited[s] != p.stamp
    ensures Marked(p, changed, p.invalidation, p.history) && Progress(p, 0, changed, changed)
  {
    NothingMarked(p, changed);
    ReachSelf(Relation(p.published, p.index), changed);
  }

  lemma ProgressStays(p: Pass, q: Pass, head: nat, changed: Key, current: Key, before: seq<nat>, past: seq<Event>)
    requires Progress(p, head, changed, current) && Grown(p, q) && Marked(q, changed, before, past)
    ensures Progress(q, head, changed, current)
  {
    hide DependsOn, Reach;
  }

  lemma ProgressAdvances(p: Pass, head: nat, changed: Key, current: Key, before: seq<nat>, past: seq<Event>)
    requires Progress(p, head, changed, current) && Marked(p, changed, before, past) && head < p.tail
    requires Scanned(p.published, p.visited, p.stamp, current)
    ensures p.queue[head] < |p.published| && p.published[p.queue[head]].Some?
    ensures Progress(p, head + 1, changed, p.published[p.queue[head]].value.key)
  {
    assert DependsOn(p.published, p.index, p.queue[head], changed);
    hide Reach, Scanned;
  }

  lemma PassDone(p: Pass, changed: Key, current: Key, before: seq<nat>, past: seq<Event>)
    requires Marked(p, changed, before, past) && Progress(p, p.tail, changed, current)
    requires Scanned(p.published, p.visited, p.stamp, current)
    ensures Invalidated(p.published, p.index, changed, p.queue[..p.tail], p.change, before, p.invalidation, past, p.history)
  {
    PassComplete(p, changed, before, past);
  }
}
