/** The single writer of the resource graph: admission of publications, the dependency
    relation, the reverse-edge pool and the invalidation pass, updated in place. */
module ResourceGraph {
  import opened DependencySearch
  import opened DependentMarking
  import opened Digraph
  import opened InvalidationJournal
  import opened ResourceRecords
  import opened ResourceTypes
  import opened ReverseEdges
  import opened Wrappers

  lemma NothingPublished(published: seq<Option<Record>>)
    requires forall s :: 0 <= s < |published| ==> published[s] == None
    ensures Indexed(published, map[]) && Acyclic(Relation(published, map[]))
    ensures EdgesIndexed(published, Copies([], |published|))
  {
  }

  datatype Contents = Holding(
    published: seq<Option<Record>>,
    index: map<Key, nat>,
    edges: seq<seq<Key>>,
    invalidation: seq<nat>,
    generations: seq<nat>,
    history: seq<Event>,
    change: nat)

  /** What holds between operations: the relation is acyclic, the pool carries exactly its
      edges, and every record is in the slot its handle names. */
  ghost predicate Consistent(c: Contents)
    ensures Consistent(c) ==> Indexed(c.published, c.index)
    ensures Consistent(c) ==> |c.invalidation| == |c.generations| == |c.published| == |c.edges|
  {
    && |c.invalidation| == |c.generations| == |c.published|
    && Indexed(c.published, c.index)
    && Acyclic(Relation(c.published, c.index))
    && EdgesIndexed(c.published, c.edges)
    && (forall s :: 0 <= s < |c.published| && c.published[s].Some? ==>
          && c.published[s].value.handle.slot == s && c.published[s].value.handle.typeId == c.published[s].value.key.typeId
          && c.published[s].value.revision <= UINT64_MAX)
  }

  ghost function NextSequence(n: nat): (r: nat)
    ensures r != 0
  {
    if n == UINT64_MAX then 1 else n + 1
  }

  /** A record takes a slot: published, indexed, and with its edges in the pool. */
  ghost function Placed(c: Contents, slot: nat, record: Record): Contents
    requires slot < |c.published| == |c.edges|
  {
    c.(published := c.published[slot := Some(record)], index := c.index[record.key := slot],
       edges := c.edges[slot := Reversed(Targets(record.deps))])
  }

  /** A record leaves its slot, with its key and edges. */
  ghost function Withdrawn(c: Contents, slot: nat, key: Key): Contents
    requires slot < |c.published| == |c.edges|
  {
    c.(published := c.published[slot := None], index := c.index - {key}, edges := c.edges[slot := []])
  }

  /** An invalidation pass for the changed key leads from c to d: exactly its dependents got the
      new change sequence, and one journal event each. */
  ghost predicate Announced(c: Contents, changed: Key, d: Contents)
  {
    && Indexed(c.published, c.index)
    && d.published == c.published && d.index == c.index && d.edges == c.edges && d.generations == c.generations
    && d.change == NextSequence(c.change)
    && exists marked ::
         Invalidated(c.published, c.index, changed, marked, d.change, c.invalidation, d.invalidation, c.history, d.history)
  }

  lemma PlacedIsConsistent(c: Contents, slot: nat, record: Record)
    requires Consistent(c) && slot < |c.published|
    requires if c.published[slot].Some? then c.published[slot].value.key == record.key else record.key !in c.index
    requires record.handle.slot == slot && record.handle.typeId == record.key.typeId && record.revision <= UINT64_MAX
    requires forall t :: t in Targets(record.deps) ==> !Reach(Relation(c.published, c.index), t, record.key)
    ensures Consistent(Placed(c, slot, record))
    ensures Relation(Placed(c, slot, record).published, Placed(c, slot, record).index)
         == Relation(c.published, c.index)[record.key := Targets(record.deps)]
  {
    hide Acyclic, Reach, EdgesIndexed, Indexed;
    RelationAfterPublish(c.published, c.index, slot, record);
    ReplaceKeepsAcyclic(Relation(c.published, c.index), record.key, Targets(record.deps));
    EdgesFollowSlot(c.published, c.edges, slot, Some(record));
  }

  lemma WithdrawnIsConsistent(c: Contents, slot: nat)
    requires Consistent(c) && slot < |c.published| && c.published[slot].Some?
    ensures Consistent(Withdrawn(c, slot, c.published[slot].value.key).(invalidation := c.invalidation[slot := 0]))
  {
    hide Acyclic, Reach, EdgesIndexed;
    var g := Relation(c.published, c.index);
    RelationAfterRetire(c.published, c.index, slot);
    FewerEdges(g - {c.published[slot].value.key}, g);
    EdgesFollowSlot(c.published, c.edges, slot, None);
  }

  /** What a publication writes into a slot before the pass: a key that was not resident gets the
      slot's next generation, and the slot's own invalidation sequence is cleared. */
  ghost function Installed(c: Contents, slot: nat, record: Record): Contents
    requires Consistent(c) && slot < |c.published|
  {
    Placed(c, slot, record).(
      invalidation := c.invalidation[slot := 0],
      generations := if c.published[slot].Some? then c.generations else c.generations[slot := NextGeneration(record.handle.generation)])
  }

  /** The record may be put into the slot: it keeps or claims the slot, and closes no cycle. */
  ghost predicate Installable(c: Contents, slot: nat, record: Record)
  {
    && Consistent(c) && slot < |c.published|
    && (if c.published[slot].Some? then c.published[slot].value.key == record.key else record.key !in c.index)
    && record.handle.slot == slot && record.handle.typeId == record.key.typeId && record.revision <= UINT64_MAX
    && (forall t :: t in Targets(record.deps) ==> !Reach(Relation(c.published, c.index), t, record.key))
  }

  lemma InstalledIsConsistent(c: Contents, slot: nat, record: Record)
    requires Installable(c, slot, record)
    ensures Consistent(Installed(c, slot, record))
    ensures Relation(Installed(c, slot, record).published, Installed(c, slot, record).index)
         == Relation(c.published, c.index)[record.key := Targets(record.deps)]
  {
    PlacedIsConsistent(c, slot, record);
  }

  datatype Publication = Publication(key: Key, kind: nat, schemaVersion: nat, deps: seq<Dependency>)

  /** What is wrong with one dependency of a publication of the key, if anything. */
  ghost function EdgeVerdict(g: Graph<Key>, key: Key, d: Dependency): Result
  {
    if d.target.typeId == 0 || d.kind.OutOfRange? then InvalidArgument
    else if d.kind.Required? && d.target !in g then DependencyMissing
    else if Reach(g, d.target, key) then DependencyCycle
    else Success
  }

  /** The verdict on a list of dependencies is that of the first faulty one. */
  ghost predicate ListVerdict(g: Graph<Key>, key: Key, deps: seq<Dependency>, verdict: Result)
  {
    if verdict == Success then forall i :: 0 <= i < |deps| ==> EdgeVerdict(g, key, deps[i]) == Success
    else exists i :: 0 <= i < |deps| && EdgeVerdict(g, key, deps[i]) == verdict
           && forall j :: 0 <= j < i ==> EdgeVerdict(g, key, deps[j]) == Success
  }

  /** Admission is exact: it passes well-formed edges to known required targets if and only if
      the relation with them stays acyclic. */
  lemma AdmissionIsExact(g: Graph<Key>, key: Key, deps: seq<Dependency>, verdict: Result)
    requires Acyclic(g) && ListVerdict(g, key, deps, verdict)
    ensures verdict == Success ==> Acyclic(g[key := Targets(deps)])
    ensures verdict == DependencyCycle ==> !Acyclic(g[key := Targets(deps)])
    ensures verdict in {Success, InvalidArgument, DependencyMissing, DependencyCycle}
  {
    if verdict == Success {
      forall t | t in Targets(deps) ensures !Reach(g, t, key) {
        var i :| 0 <= i < |deps| && deps[i].target == t;
        assert EdgeVerdict(g, key, deps[i]) == Success;
      }
      ReplaceKeepsAcyclic(g, key, Targets(deps));
    } else if verdict == DependencyCycle {
      var i :| 0 <= i < |deps| && EdgeVerdict(g, key, deps[i]) == verdict;
      assert Targets(deps)[i] == deps[i].target;
      ReachableTargetClosesCycle(g, key, Targets(deps), deps[i].target);
    }
  }

  /** The record a publication makes for a slot: a resident key keeps its handle and counts its
      revision on; a new key takes the slot's next generation and starts at revision one. */
  ghost function NewRecord(c: Contents, p: Publication, slot: nat): (r: Record)
    requires slot < |c.published| == |c.generations|
    ensures r.key == p.key && r.deps == p.deps
  {
    if c.published[slot].Some? then
      Record(p.key, c.published[slot].value.handle, p.kind, Resident, c.published[slot].value.revision + 1, p.deps)
    else
      Record(p.key, Handle(slot, c.generations[slot], p.key.typeId), p.kind, Resident, 1, p.deps)
  }

  /** A resident key keeps its slot; a new one gets the first empty slot. */
  ghost predicate SlotFor(c: Contents, key: Key, slot: nat)
  {
    && slot < |c.published|
    && (if key in c.index then slot == c.index[key]
        else c.published[slot].None? && forall s :: 0 <= s < slot ==> c.published[s].Some?)
  }

  /** What keeps a publication out of the slot it would take, if anything. */
  ghost function SlotVerdict(c: Contents, capacity: nat, p: Publication, slot: nat): Result
    requires slot < |c.published| == |c.edges|
  {
    if TotalLength(c.edges) - |c.edges[slot]| + |p.deps| > capacity then OutOfBudget
    else if c.published[slot].None? then Success
    else if c.published[slot].value.state == Resident && c.published[slot].value.kind != p.kind then TypeMismatch
    else if c.published[slot].value.revision == UINT64_MAX then InvalidFormat
    else Success
  }

  /** The checks of a publication, in their order. */
  ghost predicate AdmissionVerdict(c: Contents, capacity: nat, p: Publication, verdict: Result, slot: nat)
    requires Consistent(c)
  {
    var g := Relation(c.published, c.index);
    if p.key.typeId == 0 || p.schemaVersion == 0 || p.kind > KIND_COMPOSITION then verdict == InvalidArgument
    else if !ListVerdict(g, p.key, p.deps, Success) then verdict != Success && ListVerdict(g, p.key, p.deps, verdict)
    else if p.key !in c.index && (forall s :: 0 <= s < |c.published| ==> c.published[s].Some?) then verdict == OutOfBudget
    else SlotFor(c, p.key, slot) && verdict == SlotVerdict(c, capacity, p, slot)
  }

  lemma VerdictIsOne(g: Graph<Key>, key: Key, deps: seq<Dependency>, verdict: Result)
    requires ListVerdict(g, key, deps, verdict)
    ensures ListVerdict(g, key, deps, Success) <==> verdict == Success
  {
  }

  lemma AdmittedIsInstallable(c: Contents, capacity: nat, p: Publication, slot: nat)
    requires Consistent(c) && AdmissionVerdict(c, capacity, p, Success, slot)
    ensures slot < |c.published| && Installable(c, slot, NewRecord(c, p, slot)) && NewRecord(c, p, slot).handle.slot == slot
    ensures TotalLength(c.edges) - |c.edges[slot]| + |p.deps| <= capacity
  {
    hide Acyclic, EdgesIndexed, TotalLength;
    var g := Relation(c.published, c.index);
    forall t | t in Targets(p.deps) ensures !Reach(g, t, p.key) {
      var i :| 0 <= i < |p.deps| && p.deps[i].target == t;
      assert EdgeVerdict(g, p.key, p.deps[i]) == Success;
    }
  }

  /** A successful publication: the record is in its slot, the relation has the new targets for
      its key, and exactly the dependents of the key were told. */
  ghost predicate PublishedAs(c: Contents, capacity: nat, p: Publication, handle: Handle, d: Contents)
  {
    && Consistent(c) && AdmissionVerdict(c, capacity, p, Success, handle.slot) && handle.slot < |c.published|
    && handle == NewRecord(c, p, handle.slot).handle
    && Announced(Installed(c, handle.slot, NewRecord(c, p, handle.slot)), p.key, d)
  }

  lemma PublicationKeepsAcyclic(c: Contents, capacity: nat, p: Publication, handle: Handle, d: Contents)
    requires PublishedAs(c, capacity, p, handle, d)
    ensures Indexed(d.published, d.index)
    ensures Relation(d.published, d.index) == Relation(c.published, c.index)[p.key := Targets(p.deps)]
    ensures Acyclic(Relation(d.published, d.index))
    ensures d.published == c.published[handle.slot := Some(NewRecord(c, p, handle.slot))]
    ensures forall k :: k != p.key ==> (k in d.index <==> k in c.index) && (k in c.index ==> d.index[k] == c.index[k])
  {
    AdmittedIsInstallable(c, capacity, p, handle.slot);
    InstalledIsConsistent(c, handle.slot, NewRecord(c, p, handle.slot));
  }

  /** After a publication the named slot, and no other, shows what was published: a resident key under
      its handle of before with the next revision, a new one under the slot's next handle. */
  lemma PublicationShows(c: Contents, capacity: nat, p: Publication, handle: Handle, d: Contents)
    requires PublishedAs(c, capacity, p, handle, d)
    ensures |d.published| == |c.published| && handle.slot < |c.published| && d.published[handle.slot].Some?
    ensures var r := d.published[handle.slot].value;
      && r.key == p.key && r.kind == p.kind && r.deps == p.deps && r.state == Resident && r.handle == handle
      && (if p.key in c.index then
            c.index[p.key] == handle.slot && c.published[handle.slot].Some?
            && handle == c.published[handle.slot].value.handle && r.revision == c.published[handle.slot].value.revision + 1
          else
            c.published[handle.slot].None? && r.revision == 1 && handle.typeId == p.key.typeId
            && handle.slot < |c.generations| && handle.generation == c.generations[handle.slot])
    ensures p.key in d.index && d.index[p.key] == handle.slot
    ensures forall s :: 0 <= s < |c.published| && s != handle.slot ==> d.published[s] == c.published[s]
  {
    PublicationKeepsAcyclic(c, capacity, p, handle, d);
  }

  /** The next revision wraps like the 64-bit counter it is. */
  ghost function Superseded(record: Record, state: ResourceState): Record
  {
    record.(state := state, revision := if record.revision == UINT64_MAX then 0 else record.revision + 1)
  }

  method NextRevision(current: Record, state: ResourceState) returns (record: Record)
    ensures record == Superseded(current, state)
  {
    var revision := if current.revision == UINT64_MAX then 0 else current.revision + 1;
    record := current.(state := state, revision := revision);
  }

  /** A successful request for a key that was not resident: an empty slot holds an edgeless record. */
  ghost predicate RequestedAs(c: Contents, key: Key, handle: Handle, d: Contents)
  {
    && Consistent(c) && SlotFor(c, key, handle.slot) && key !in c.index
    && handle == Handle(handle.slot, c.generations[handle.slot], key.typeId)
    && Announced(Installed(c, handle.slot, Record(key, handle, 0, Requested, 0, [])), key, d)
  }

  /** The slot is empty, its key and edges are gone, and its dependents have been told. */
  ghost predicate WithdrawnAs(c: Contents, slot: nat, d: Contents)
  {
    && slot < |c.published| == |c.edges| == |c.invalidation| && c.published[slot].Some?
    && var key := c.published[slot].value.key;
      Announced(Withdrawn(c, slot, key).(invalidation := c.invalidation[slot := 0]), key, d)
  }

  /** The slot's record has the next revision and this state; its dependents have been told. */
  ghost predicate SupersededAs(c: Contents, slot: nat, state: ResourceState, d: Contents)
  {
    && slot < |c.published| && c.published[slot].Some?
    && var prior := c.published[slot].value;
      Announced(c.(published := c.published[slot := Some(Superseded(prior, state))]), prior.key, d)
  }

  lemma EmptySlotHasNoEdges(c: Contents, slot: nat)
    requires Consistent(c) && slot < |c.published| && c.published[slot].None?
    ensures c.edges[slot] == []
  {
  }

  /** A record replaced in place by one with the same key, handle and dependencies. */
  lemma SupersededIsConsistent(c: Contents, slot: nat, record: Record)
    requires Consistent(c) && slot < |c.published| && c.published[slot].Some?
    requires record.key == c.published[slot].value.key && record.handle == c.published[slot].value.handle
    requires record.deps == c.published[slot].value.deps && record.revision <= UINT64_MAX
    ensures Consistent(c.(published := c.published[slot := Some(record)]))
    ensures Relation(c.published[slot := Some(record)], c.index) == Relation(c.published, c.index)
  {
    hide Acyclic, EdgesIndexed;
    RelationAfterPublish(c.published, c.index, slot, record);
    assert c.index[record.key := slot] == c.index;
    EdgesFollowSlot(c.published, c.edges, slot, Some(record));
    assert c.edges[slot := Reversed(Targets(record.deps))] == c.edges by {
      assert EdgesIndexed(c.published, c.edges);
      EdgeListOf(c, slot);
    }
    assert Relation(c.published[slot := Some(record)], c.index) == Relation(c.published, c.index);
  }

  lemma EdgeListOf(c: Contents, slot: nat)
    requires EdgesIndexed(c.published, c.edges) && slot < |c.published|
    ensures c.edges[slot] == if c.published[slot].Some? then Reversed(Targets(c.published[slot].value.deps)) else []
  {
  }

  class Writer {
    const maxResources: nat
    const published: array<Option<Record>>
    const visited: array<nat>
    const queue: array<nat>
    const invalidation: array<nat>
    const nextGeneration: array<nat>
    const pool: Pool
    const journal: Journal
    var keyIndex: map<Key, nat>
    var traversalStamp: nat
    var changeSequence: nat

    ghost predicate Shape()
      ensures Shape() ==>
        && published.Length == visited.Length == queue.Length == invalidation.Length == nextGeneration.Length == maxResources
        && invalidation != nextGeneration && pool.heads.Length == maxResources
    {
      && maxResources > 0
      && published.Length == visited.Length == queue.Length == invalidation.Length == nextGeneration.Length == maxResources
      && visited != queue && visited != invalidation && visited != nextGeneration
      && queue != invalidation && queue != nextGeneration && invalidation != nextGeneration
      && pool.heads.Length == maxResources
    }

    ghost predicate Stamped()
      reads this`traversalStamp, visited
    {
      traversalStamp <= UINT32_MAX && forall i :: 0 <= i < visited.Length ==> visited[i] <= traversalStamp
    }

    ghost predicate Searchable()
      reads this`traversalStamp, this`keyIndex, published, visited
      ensures Searchable() ==> Shape() && Stamped() && Indexed(published[..], keyIndex)
    {
      Shape() && Stamped() && Indexed(published[..], keyIndex)
    }

    ghost function Deps(): (g: Graph<Key>)
      requires Searchable()
      reads this, published, visited
    {
      Relation(published[..], keyIndex)
    }

    ghost function State(tail: nat): Pass
      reads this, published, visited, queue, invalidation, journal
    {
      Pass(published[..], keyIndex, visited[..], traversalStamp, queue[..], tail, invalidation[..], journal.history, changeSequence)
    }

    /** What the writer's operations are about, without the traversal scratch state. */
    ghost function Contents(): Contents
      requires pool.Valid()
      reads this, published, invalidation, nextGeneration, pool, pool.cells, pool.buckets, pool.heads, journal
    {
      Holding(published[..], keyIndex, pool.View(), invalidation[..], nextGeneration[..], journal.history, changeSequence)
    }

    ghost predicate Valid()
      reads this, published, visited, invalidation, nextGeneration, pool, pool.cells, pool.buckets, pool.heads, journal, journal.ring
      ensures Valid() ==> Shape() && Stamped() && pool.Valid() && journal.Valid() && Consistent(Contents())
    {
      && Searchable()
      && pool.Valid() && journal.Valid()
      && Consistent(Contents())
    }

    /** A graph that came up ready, around a fresh reverse-edge pool and journal. */
    constructor (maxResources: nat, pool: Pool, journal: Journal)
      requires maxResources > 0
      requires pool.Valid() && journal.Valid() && pool.View() == Copies([], maxResources)
      ensures Valid() && keyIndex == map[] && changeSequence == 0 && this.pool == pool && this.journal == journal
    {
      this.maxResources, this.pool, this.journal := maxResources, pool, journal;
      keyIndex, traversalStamp, changeSequence := map[], 0, 0;
      published := new Option<Record>[maxResources](i => None);
      visited := new nat[maxResources](i => 0);
      queue := new nat[maxResources](i => 0);
      invalidation := new nat[maxResources](i => 0);
      nextGeneration := new nat[maxResources](i => 1);
      new;
      NothingPublished(published[..]);
    }

    /** Start a traversal: afterwards no slot carries the current stamp, also when it wraps. */
    method AdvanceStamp()
      requires Searchable()
      modifies this`traversalStamp, visited
      ensures Searchable()
      ensures forall i :: 0 <= i < visited.Length ==> visited[i] != traversalStamp
    {
      traversalStamp := NextGeneration(traversalStamp);
      if traversalStamp == 1 {
        for i := 0 to maxResources
          invariant forall j :: 0 <= j < i ==> visited[j] == 0
          invariant traversalStamp == 1
        {
          visited[i] := 0;
        }
      }
    }

    /** Stamp a slot and put it at the end of the traversal queue. */
    method Enqueue(slot: nat, tail: nat)
      requires Searchable() && slot < maxResources && tail < maxResources
      modifies visited, queue
      ensures Searchable()
      ensures visited[..] == old(visited[..])[slot := traversalStamp] && queue[..] == old(queue[..])[tail := slot]
    {
      visited[slot] := traversalStamp;
      queue[tail] := slot;
    }

    /** Breadth-first search for a dependency path. */
    method ReachesKey(current: Key, goal: Key) returns (found: bool)
      requires Searchable()
      modifies this`traversalStamp, visited, queue
      ensures Searchable()
      ensures found == Reach(Deps(), current, goal)
    {
      ghost var g := Deps();
      if current == goal {
        ReachSelf(g, goal);
        return true;
      }
      if current !in keyIndex {
        if Reach(g, current, goal) {
          ReachFirstEdge(g, current, goal);
        }
        return false;
      }
      AdvanceStamp();
      ghost var pub := published[..];
      var head, tail := 0, 1;
      queue[0] := keyIndex[current];
      visited[keyIndex[current]] := traversalStamp;
      ReachSelf(g, current);
      while head < tail
        invariant Searchable() && published[..] == pub
        invariant Searching(pub, keyIndex, visited[..], traversalStamp, queue[..], head, tail, current, goal)
        decreases maxResources - head
      {
        found, tail := ExpandSlot(head, tail, current, goal);
        if found {
          return;
        }
        head := head + 1;
      }
      SearchExhausted(pub, keyIndex, visited[..], traversalStamp, queue[..], tail, current, goal);
      return false;
    }

    /** One entry of the search queue: stop at the goal, and queue the unstamped resident targets. */
    method ExpandSlot(head: nat, tail: nat, ghost current: Key, goal: Key) returns (found: bool, tail': nat)
      requires Searchable() && head < tail
      requires Searching(published[..], keyIndex, visited[..], traversalStamp, queue[..], head, tail, current, goal)
      modifies visited, queue
      ensures Searchable()
      ensures found ==> Reach(Deps(), current, goal)
      ensures !found ==>
        Searching(published[..], keyIndex, visited[..], traversalStamp, queue[..], head + 1, tail', current, goal)
    {
      ghost var g := Deps();
      ghost var pub := published[..];
      tail' := tail;
      var slot := queue[head];
      var deps := published[slot].value.deps;
      var e := 0;
      assert Expanded(pub, keyIndex, visited[..], traversalStamp, slot, goal, e);
      hide Expanded, Searching, Frontier;
      while e < |deps|
        invariant 0 <= e <= |deps|
        invariant Searchable() && published[..] == pub && tail <= tail' && queue[head] == slot
        invariant Searching(pub, keyIndex, visited[..], traversalStamp, queue[..], head, tail', current, goal)
        invariant Expanded(pub, keyIndex, visited[..], traversalStamp, slot, goal, e)
      {
        if deps[e].target == goal {
          ReachThrough(slot, e, current);
          return true, tail';
        }
        tail' := ExpandEdge(slot, e, head, tail', current, goal);
        e := e + 1;
      }
      SearchAdvances(pub, keyIndex, visited[..], traversalStamp, queue[..], head, tail', current, goal);
      return false, tail';
    }

    lemma ReachThrough(slot: nat, e: nat, current: Key)
      requires Searchable() && slot < maxResources && published[slot].Some? && e < |published[slot].value.deps|
      requires Reach(Deps(), current, published[slot].value.key)
      ensures Reach(Deps(), current, published[slot].value.deps[e].target)
    {
      assert Targets(published[slot].value.deps)[e] == published[slot].value.deps[e].target;
      ReachAppend(Deps(), current, published[slot].value.key, published[slot].value.deps[e].target);
    }

    lemma HeadIsReached(head: nat, tail: nat, current: Key, goal: Key)
      requires Searchable()
      requires Searching(published[..], keyIndex, visited[..], traversalStamp, queue[..], head, tail, current, goal) && head < tail
      ensures head < queue.Length && queue[head] < published.Length && published[queue[head]].Some?
      ensures Reach(Deps(), current, published[queue[head]].value.key)
    {
      hide Reach, Relation;
    }

    /** One edge of the search that does not lead to the goal: queue its target if it is unstamped. */
    method ExpandEdge(slot: nat, e: nat, ghost head: nat, tail: nat, ghost current: Key, ghost goal: Key) returns (tail': nat)
      requires Searchable() && head < tail <= maxResources && queue[head] == slot
      requires Searching(published[..], keyIndex, visited[..], traversalStamp, queue[..], head, tail, current, goal)
      requires Expanded(published[..], keyIndex, visited[..], traversalStamp, slot, goal, e)
      requires e < |published[slot].value.deps| && published[slot].value.deps[e].target != goal
      modifies visited, queue
      ensures Searchable() && tail <= tail' <= maxResources && queue[head] == slot
      ensures Searching(published[..], keyIndex, visited[..], traversalStamp, queue[..], head, tail', current, goal)
      ensures Expanded(published[..], keyIndex, visited[..], traversalStamp, slot, goal, e + 1)
    {
      hide Expanded, Searching, Frontier, Reach, Relation;
      HeadIsReached(head, tail, current, goal);
      ReachThrough(slot, e, current);
      var next := published[slot].value.deps[e].target;
      tail' := tail;
      ghost var before := visited[..];
      if next in keyIndex && visited[keyIndex[next]] != traversalStamp {
        SearchEnqueues(published[..], keyIndex, visited[..], traversalStamp, queue[..], head, tail, current, goal, next);
        Enqueue(keyIndex[next], tail);
        tail' := tail + 1;
      }
      ExpandedGrows(published[..], keyIndex, before, traversalStamp, slot, goal, e, visited[..]);
    }

    // ------------------------------------------------------------ invalidation

    /** Stamp one more dependent: record its exact identity in the journal and queue it. */
    method Mark(slot: nat, tail: nat, changed: Key, ghost k: Key, ghost before: seq<nat>, ghost past: seq<Event>)
      requires Searchable() && journal.Valid() && Acyclic(Deps()) && Marked(State(tail), changed, before, past)
      requires slot < maxResources && visited[slot] != traversalStamp
      requires published[slot].Some? && k in Targets(published[slot].value.deps) && Reach(Deps(), k, changed)
      modifies visited, queue, invalidation, journal, journal.ring
      ensures Searchable() && journal.Valid() && tail < maxResources && Marked(State(tail + 1), changed, before, past)
      ensures visited[..] == old(visited[..])[slot := traversalStamp] && queue[..] == old(queue[..])[tail := slot]
    {
      hide Marked, Acyclic, Indexed, RingHolds, Relation, Targets;
      MarkStep(State(tail), changed, before, past, k, slot);
      invalidation[slot] := changeSequence;
      journal.Append(changed, published[slot].value.handle, changeSequence);
      Enqueue(slot, tail);
    }

    /** Mark the sources of every edge to the current key. */
    method ScanBucket(changed: Key, current: Key, tail: nat, ghost before: seq<nat>, ghost past: seq<Event>) returns (tail': nat)
      requires Searchable() && Acyclic(Deps()) && pool.Valid() && journal.Valid()
      requires EdgesIndexed(published[..], pool.View())
      requires Marked(State(tail), changed, before, past) && Reach(Deps(), current, changed)
      modifies visited, queue, invalidation, journal, journal.ring
      ensures Searchable() && journal.Valid() && Marked(State(tail'), changed, before, past)
      ensures Grown(old(State(tail)), State(tail')) && Scanned(published[..], visited[..], traversalStamp, current)
    {
      ghost var p := pool.State();
      ghost var start := State(tail);
      var b := Bucket(pool.hash, current, pool.buckets.Length);
      ghost var chain, j := p.chains[b], 0;
      ChainLinks(p, pool.hash, b, 0);
      tail' := tail;
      var edge := pool.buckets[b];
      assert Grown(start, State(tail'));
      assert ScannedEdges(p.cells, chain, j, current, visited[..], traversalStamp);
      hide Marked, Acyclic, Indexed, PoolOk, TargetLists, RingHolds, EdgesIndexed, Relation, Scanned, ScannedEdges, Grown;
      while edge.Some?
        invariant Searchable() && journal.Valid() && Marked(State(tail'), changed, before, past)
        invariant Grown(start, State(tail'))
        invariant 0 <= j <= |chain| && edge == At(chain, j)
        invariant ScannedEdges(p.cells, chain, j, current, visited[..], traversalStamp)
        decreases |chain| - j
      {
        ChainLinks(p, pool.hash, b, j);
        ghost var mid := State(tail');
        tail' := ScanEdge(edge.value, changed, current, tail', before, past, p, j);
        GrownFurther(start, mid, State(tail'));
        ScannedEdgesStay(mid, State(tail'), p.cells, chain, j, current);
        ScannedEdgesGrow(p.cells, chain, j, current, visited[..], traversalStamp);
        edge, j := pool.cells[edge.value].nextBucket, j + 1;
      }
      ChainScanned(p, pool.hash, published[..], current, visited[..], traversalStamp);
    }

    /** One edge of the bucket: skip other targets and slots already stamped. */
    method ScanEdge(edge: nat, changed: Key, current: Key, tail: nat, ghost before: seq<nat>, ghost past: seq<Event>,
                    ghost p: Links, ghost j: nat)
      returns (tail': nat)
      requires Searchable() && Acyclic(Deps()) && journal.Valid() && p.cells == pool.cells[..]
      requires PoolOk(p, pool.hash) && EdgesIndexed(published[..], TargetLists(p))
      requires var chain := p.chains[Bucket(pool.hash, current, |p.chains|)]; j < |chain| && chain[j] == edge < |p.cells|
      requires Marked(State(tail), changed, before, past) && Reach(Deps(), current, changed)
      modifies visited, queue, invalidation, journal, journal.ring
      ensures Searchable() && journal.Valid() && Marked(State(tail'), changed, before, past)
      ensures Grown(old(State(tail)), State(tail'))
      ensures p.cells[edge].target == current ==>
        p.cells[edge].source < maxResources && visited[p.cells[edge].source] == traversalStamp
    {
      hide Marked, Acyclic, Indexed, PoolOk, TargetLists, RingHolds, EdgesIndexed, Relation;
      tail' := tail;
      var cell := pool.cells[edge];
      if cell.target == current {
        EdgeSourceDepends(p, pool.hash, published[..], current, j);
        if visited[cell.source] != traversalStamp {
          Mark(cell.source, tail', changed, current, before, past);
          tail' := tail' + 1;
        }
      }
    }

    /** One turn of the walk: the pass has queued queue[..tail] and is about to scan current. */
    ghost predicate Walking(changed: Key, current: Key, head: nat, tail: nat, before: seq<nat>, past: seq<Event>)
      reads this, published, visited, queue, invalidation, pool, pool.cells, pool.buckets, pool.heads, journal, journal.ring
      ensures Walking(changed, current, head, tail, before, past) ==> head <= tail <= maxResources
    {
      && Searchable() && Acyclic(Deps()) && pool.Valid() && journal.Valid()
      && EdgesIndexed(published[..], pool.View())
      && Marked(State(tail), changed, before, past) && Progress(State(tail), head, changed, current)
    }

    method ScanCurrent(changed: Key, current: Key, ghost head: nat, tail: nat, ghost before: seq<nat>, ghost past: seq<Event>)
      returns (tail': nat)
      requires Walking(changed, current, head, tail, before, past)
      modifies visited, queue, invalidation, journal, journal.ring
      ensures Walking(changed, current, head, tail', before, past) && Scanned(published[..], visited[..], traversalStamp, current)
    {
      hide Marked, Acyclic, Indexed, PoolOk, TargetLists, RingHolds, EdgesIndexed, Relation, Scanned, Grown, Reach;
      ghost var start := State(tail);
      tail' := ScanBucket(changed, current, tail, before, past);
      ProgressStays(start, State(tail'), head, changed, current, before, past);
    }

    method NextKey(head: nat, ghost tail: nat, ghost changed: Key, ghost current: Key, ghost before: seq<nat>, ghost past: seq<Event>)
      returns (next: Key)
      requires Walking(changed, current, head, tail, before, past)
      requires head < tail && Scanned(published[..], visited[..], traversalStamp, current)
      ensures Walking(changed, next, head + 1, tail, before, past)
    {
      ProgressAdvances(State(tail), head, changed, current, before, past);
      next := published[queue[head]].value.key;
    }

    method Walk(changed: Key, ghost before: seq<nat>, ghost past: seq<Event>) returns (tail: nat, ghost current: Key)
      requires Walking(changed, changed, 0, 0, before, past)
      modifies visited, queue, invalidation, journal, journal.ring
      ensures Walking(changed, current, tail, tail, before, past) && Scanned(published[..], visited[..], traversalStamp, current)
    {
      hide Walking, Scanned;
      var head: nat := 0;
      var key := changed;
      tail := ScanCurrent(changed, key, head, 0, before, past);
      while head < tail
        invariant Walking(changed, key, head, tail, before, past)
        invariant Scanned(published[..], visited[..], traversalStamp, key)
        decreases maxResources - head
      {
        key := NextKey(head, tail, changed, key, before, past);
        head := head + 1;
        tail := ScanCurrent(changed, key, head, tail, before, past);
      }
      current := key;
    }

    method WalkDependents(changed: Key) returns (ghost marked: seq<nat>)
      requires Searchable() && Acyclic(Deps()) && pool.Valid() && journal.Valid()
      requires EdgesIndexed(published[..], pool.View())
      requires forall s :: 0 <= s < maxResources ==> visited[s] != traversalStamp
      modifies visited, queue, invalidation, journal, journal.ring
      ensures Searchable() && journal.Valid()
      ensures Invalidated(published[..], keyIndex, changed, marked, changeSequence,
                          old(invalidation[..]), invalidation[..], old(journal.history), journal.history)
    {
      ghost var before, past := invalidation[..], journal.history;
      PassStarts(State(0), changed);
      var tail, current := Walk(changed, before, past);
      PassDone(State(tail), changed, current, before, past);
      marked := queue[..tail];
    }

    /** Tell every dependent of a changed key: breadth first over the reverse edges. */
    method InvalidateReverseDependents(changed: Key)
      requires Valid()
      modifies this`traversalStamp, this`changeSequence, visited, queue, invalidation, journal, journal.ring
      ensures Valid() && Announced(old(Contents()), changed, Contents())
    {
      hide Acyclic, Indexed, PoolOk, TargetLists, RingHolds, EdgesIndexed, Relation, Invalidated;
      AdvanceStamp();
      changeSequence := if changeSequence == UINT64_MAX then 1 else changeSequence + 1;
      var marked := WalkDependents(changed);
    }

    // ------------------------------------------------------------ publication

    /** The index and the pool already describe the slot with this record in it. */
    ghost predicate Prepared(slot: nat, record: Option<Record>)
      reads this, published, visited, invalidation, nextGeneration, pool, pool.cells, pool.buckets, pool.heads, journal, journal.ring
    {
      && Shape() && slot < maxResources
      && Stamped() && pool.Valid() && journal.Valid()
      && Consistent(Contents().(published := published[..][slot := record]))
    }

    method PublishRecord(slot: nat, record: Option<Record>)
      requires Prepared(slot, record) && (published[slot].Some? || record.Some?)
      modifies this`traversalStamp, this`changeSequence, published, visited, queue, invalidation, journal, journal.ring
      ensures Valid()
      ensures Announced(old(Contents().(published := published[..][slot := record])),
                        if record.Some? then record.value.key else old(published[slot]).value.key, Contents())
    {
      hide Consistent, Announced, PoolOk, TargetLists, RingHolds;
      var changed := if record.Some? then record.value.key else published[slot].value.key;
      published[slot] := record;
      InvalidateReverseDependents(changed);
    }

    method ValidateDependencies(publication: Publication) returns (verdict: Result)
      requires Searchable()
      modifies this`traversalStamp, visited, queue
      ensures Searchable() && ListVerdict(Deps(), publication.key, publication.deps, verdict)
    {
      ghost var g := Deps();
      hide Reach, Indexed, Relation;
      for e := 0 to |publication.deps|
        invariant Searchable() && Deps() == g
        invariant forall i :: 0 <= i < e ==> EdgeVerdict(g, publication.key, publication.deps[i]) == Success
      {
        var edge := publication.deps[e];
        if edge.target.typeId == 0 || edge.kind.OutOfRange? {
          return InvalidArgument;
        }
        if edge.kind.Required? && edge.target !in keyIndex {
          return DependencyMissing;
        }
        var cyclic := ReachesKey(edge.target, publication.key);
        if cyclic {
          return DependencyCycle;
        }
      }
      return Success;
    }

    method FindEmptySlot() returns (slot: Option<nat>)
      requires Shape()
      ensures slot.Some? ==> slot.value < maxResources && published[slot.value].None? && forall s :: 0 <= s < slot.value ==> published[s].Some?
      ensures slot.None? ==> forall s :: 0 <= s < maxResources ==> published[s].Some?
    {
      for s: nat := 0 to maxResources
        invariant forall i :: 0 <= i < s ==> published[i].Some?
      {
        if published[s].None? {
          return Some(s);
        }
      }
      return None;
    }

    method ReplaceEdges(slot: nat, deps: seq<Dependency>)
      requires pool.Valid() && slot < pool.heads.Length
      requires pool.active - |pool.View()[slot]| + |deps| <= pool.cells.Length
      modifies pool, pool.cells, pool.buckets, pool.heads
      ensures pool.Valid() && pool.View() == old(pool.View())[slot := Reversed(Targets(deps))]
    {
      hide PoolOk, TargetLists, Reversed, TotalLength;
      pool.Remove(slot);
      pool.Add(slot, deps);
      assert Reversed(Targets(deps)) + [] == Reversed(Targets(deps));
    }

    /** A slot that was empty hands out its next generation next time. */
    method ClaimGeneration(slot: nat, generation: nat)
      requires Shape() && slot < maxResources
      modifies nextGeneration
      ensures nextGeneration[..] ==
        if published[slot].Some? then old(nextGeneration[..]) else old(nextGeneration[..])[slot := NextGeneration(generation)]
    {
      if published[slot].None? {
        nextGeneration[slot] := NextGeneration(generation);
      }
    }

    /** Update everything but the published pointer. */
    method Install(slot: nat, record: Record)
      requires Shape() && pool.Valid() && slot < maxResources
      requires pool.active - |pool.View()[slot]| + |record.deps| <= pool.cells.Length
      modifies this`keyIndex, invalidation, nextGeneration, pool, pool.cells, pool.buckets, pool.heads
      ensures pool.Valid() && pool.View() == old(pool.View())[slot := Reversed(Targets(record.deps))]
      ensures keyIndex == old(keyIndex)[record.key := slot] && invalidation[..] == old(invalidation[..])[slot := 0]
      ensures nextGeneration[..] == if published[slot].Some? then old(nextGeneration[..])
                                    else old(nextGeneration[..])[slot := NextGeneration(record.handle.generation)]
    {
      hide PoolOk, TargetLists, Reversed, TotalLength;
      keyIndex := keyIndex[record.key := slot];
      ReplaceEdges(slot, record.deps);
      invalidation[slot] := 0;
      ClaimGeneration(slot, record.handle.generation);
    }

    lemma InstalledIsPrepared(c: Contents, slot: nat, record: Record)
      requires Shape() && Stamped() && pool.Valid() && journal.Valid() && Installable(c, slot, record) && slot < maxResources
      requires c.published == published[..] && keyIndex == c.index[record.key := slot]
      requires pool.View() == c.edges[slot := Reversed(Targets(record.deps))] && invalidation[..] == c.invalidation[slot := 0]
      requires nextGeneration[..] == if published[slot].Some? then c.generations
                                     else c.generations[slot := NextGeneration(record.handle.generation)]
      requires journal.history == c.history && changeSequence == c.change
      ensures Prepared(slot, Some(record))
      ensures Contents().(published := published[..][slot := Some(record)]) == Installed(c, slot, record)
    {
      InstalledIsConsistent(c, slot, record);
      hide Consistent, PoolOk, TargetLists, RingHolds, Installable, Reversed, Targets, TotalLength;
    }

    /** The part of a publication after which nothing can fail. */
    method Commit(slot: nat, record: Record)
      requires Valid() && slot < maxResources && Installable(Contents(), slot, record)
      requires pool.active - |pool.View()[slot]| + |record.deps| <= pool.cells.Length
      modifies this`traversalStamp, this`changeSequence, this`keyIndex, published, visited, queue, invalidation, nextGeneration
      modifies pool, pool.cells, pool.buckets, pool.heads, journal, journal.ring
      ensures Valid()
      ensures Announced(Installed(old(Contents()), slot, record), record.key, Contents())
    {
      hide Consistent, Announced, Prepared, Installed, Installable, PoolOk, TargetLists, RingHolds;
      ghost var before := Contents();
      Install(slot, record);
      InstalledIsPrepared(before, slot, record);
      PublishRecord(slot, Some(record));
    }

    method AdmitIntoSlot(p: Publication, slot: nat) returns (verdict: Result)
      requires Valid() && slot < maxResources
      ensures verdict == SlotVerdict(Contents(), pool.cells.Length, p, slot)
    {
      hide Consistent, PoolOk, TargetLists, RingHolds, TotalLength;
      pool.ActiveEdges();
      var room := pool.CanReplace(slot, |p.deps|);
      if !room {
        return OutOfBudget;
      }
      if published[slot].Some? {
        var prior := published[slot].value;
        if prior.state == Resident && prior.kind != p.kind {
          return TypeMismatch;
        }
        if prior.revision == UINT64_MAX {
          return InvalidFormat;
        }
      }
      return Success;
    }

    method SlotOf(key: Key) returns (slot: Option<nat>)
      requires Valid()
      ensures slot.None? <==> key !in keyIndex && forall s :: 0 <= s < maxResources ==> published[s].Some?
      ensures slot.Some? ==> slot.value < maxResources && SlotFor(Contents(), key, slot.value)
    {
      hide Acyclic, EdgesIndexed, PoolOk, TargetLists, RingHolds, TotalLength, Relation;
      if key in keyIndex {
        return Some(keyIndex[key]);
      }
      slot := FindEmptySlot();
    }

    method CheckDependencies(p: Publication) returns (verdict: Result)
      requires Valid()
      modifies this`traversalStamp, visited, queue
      ensures Valid() && Contents() == old(Contents())
      ensures ListVerdict(Relation(Contents().published, Contents().index), p.key, p.deps, verdict)
      ensures ListVerdict(Relation(Contents().published, Contents().index), p.key, p.deps, Success) <==> verdict == Success
    {
      verdict := ValidateDependencies(p);
      hide Acyclic, EdgesIndexed, PoolOk, TargetLists, RingHolds, ListVerdict, Relation;
      VerdictIsOne(Deps(), p.key, p.deps, verdict);
    }

    /** The slot of a resident key or the first empty one, if the publication fits there. */
    method FindRoom(p: Publication) returns (verdict: Result, slot: nat)
      requires Valid()
      ensures if p.key !in Contents().index && (forall s :: 0 <= s < maxResources ==> Contents().published[s].Some?) then
                verdict == OutOfBudget
              else SlotFor(Contents(), p.key, slot) && verdict == SlotVerdict(Contents(), pool.cells.Length, p, slot)
    {
      hide Acyclic, EdgesIndexed, PoolOk, TargetLists, RingHolds, TotalLength, SlotVerdict;
      verdict, slot := OutOfBudget, 0;
      var found := SlotOf(p.key);
      if found.Some? {
        slot := found.value;
        verdict := AdmitIntoSlot(p, slot);
      }
    }

    /** Everything a publication checks before it allocates. */
    method Admit(p: Publication) returns (verdict: Result, slot: nat)
      requires Valid()
      modifies this`traversalStamp, visited, queue
      ensures Valid() && Contents() == old(Contents())
      ensures AdmissionVerdict(Contents(), pool.cells.Length, p, verdict, slot)
    {
      hide Consistent, PoolOk, TargetLists, RingHolds, TotalLength, ListVerdict, SlotFor, SlotVerdict;
      verdict, slot := InvalidArgument, 0;
      if p.key.typeId != 0 && p.schemaVersion != 0 && p.kind <= KIND_COMPOSITION {
        verdict := CheckDependencies(p);
        if verdict == Success {
          verdict, slot := FindRoom(p);
        }
      }
    }

    /** Publish a cooked resource. The allocator, the preparation of its chunks and the growth
        of the key index may refuse; then nothing has changed. */
    method Publish(p: Publication, memory: bool, chunks: Result, inserted: bool) returns (result: Result, handle: Handle)
      requires Valid()
      modifies this`traversalStamp, this`changeSequence, this`keyIndex, published, visited, queue, invalidation, nextGeneration
      modifies pool, pool.cells, pool.buckets, pool.heads, journal, journal.ring
      ensures Valid()
      ensures result != Success ==> Contents() == old(Contents())
      ensures result == Success ==> PublishedAs(old(Contents()), pool.cells.Length, p, handle, Contents())
      ensures exists verdict, slot ::
        && AdmissionVerdict(old(Contents()), pool.cells.Length, p, verdict, slot)
        && result == (if verdict != Success then verdict else if !memory then OutOfBudget else if chunks != Success then chunks
                      else if p.key !in old(keyIndex) && !inserted then OutOfBudget else Success)
    {
      handle := Handle(0, 0, 0);
      var slot: nat;
      result, slot := Admit(p);
      if result != Success {
        return;
      }
      result := if !memory then OutOfBudget else if chunks != Success then chunks
                else if p.key !in keyIndex && !inserted then OutOfBudget else Success;
      if result == Success {
        handle := CommitPublication(p, slot);
      }
    }

    method MakeRecord(p: Publication, slot: nat) returns (record: Record)
      requires Valid() && slot < maxResources
      ensures record == NewRecord(Contents(), p, slot)
    {
      hide Acyclic, EdgesIndexed, PoolOk, TargetLists, RingHolds, Relation, Indexed, TotalLength;
      if published[slot].Some? {
        record := Record(p.key, published[slot].value.handle, p.kind, Resident, published[slot].value.revision + 1, p.deps);
      } else {
        record := Record(p.key, Handle(slot, nextGeneration[slot], p.key.typeId), p.kind, Resident, 1, p.deps);
      }
    }

    method CommitPublication(p: Publication, slot: nat) returns (handle: Handle)
      requires Valid() && AdmissionVerdict(Contents(), pool.cells.Length, p, Success, slot)
      modifies this`traversalStamp, this`changeSequence, this`keyIndex, published, visited, queue, invalidation, nextGeneration
      modifies pool, pool.cells, pool.buckets, pool.heads, journal, journal.ring
      ensures Valid() && PublishedAs(old(Contents()), pool.cells.Length, p, handle, Contents())
    {
      AdmittedIsInstallable(Contents(), pool.cells.Length, p, slot);
      pool.ActiveEdges();
      hide Consistent, PoolOk, TargetLists, RingHolds, TotalLength, AdmissionVerdict, Installed, Announced, Installable, NewRecord;
      var record := MakeRecord(p, slot);
      handle := record.handle;
      Commit(slot, record);
    }

    // ------------------------------------------------------------ withdrawal and failure

    /** Unlink the key and the edges of a slot from everything but the published pointer. */
    method Uninstall(slot: nat, key: Key)
      requires Shape() && pool.Valid() && slot < maxResources
      modifies this`keyIndex, invalidation, pool, pool.cells, pool.buckets, pool.heads
      ensures pool.Valid() && pool.View() == old(pool.View())[slot := []]
      ensures keyIndex == old(keyIndex) - {key} && invalidation[..] == old(invalidation[..])[slot := 0]
    {
      hide PoolOk, TargetLists, TotalLength;
      keyIndex := keyIndex - {key};
      pool.Remove(slot);
      invalidation[slot] := 0;
    }

    lemma UninstalledIsPrepared(c: Contents, slot: nat)
      requires Shape() && Stamped() && pool.Valid() && journal.Valid() && Consistent(c) && slot < maxResources
      requires c.published == published[..] && published[slot].Some? && keyIndex == c.index - {published[slot].value.key}
      requires pool.View() == c.edges[slot := []] && invalidation[..] == c.invalidation[slot := 0]
      requires nextGeneration[..] == c.generations && journal.history == c.history && changeSequence == c.change
      ensures Prepared(slot, None)
      ensures Contents().(published := published[..][slot := None])
           == Withdrawn(c, slot, published[slot].value.key).(invalidation := c.invalidation[slot := 0])
    {
      WithdrawnIsConsistent(c, slot);
      hide Consistent, PoolOk, TargetLists, RingHolds, TotalLength;
    }

    /** Withdraw a resource: its key and its edges go, edges to it stay, its dependents are told. */
    method Retire(h: Handle) returns (result: Result)
      requires Valid()
      modifies this`traversalStamp, this`changeSequence, this`keyIndex, published, visited, queue, invalidation
      modifies pool, pool.cells, pool.buckets, pool.heads, journal, journal.ring
      ensures Valid()
      ensures result == if Live(old(published[..]), h) then Success else InvalidHandle
      ensures result != Success ==> Contents() == old(Contents())
      ensures result == Success ==> WithdrawnAs(old(Contents()), h.slot, Contents())
    {
      hide Consistent, Announced, Prepared, Withdrawn, PoolOk, TargetLists, RingHolds;
      if h.slot >= maxResources || published[h.slot].None? || published[h.slot].value.handle != h {
        return InvalidHandle;
      }
      WithdrawLive(h.slot);
      return Success;
    }

    method WithdrawLive(slot: nat)
      requires Valid() && slot < maxResources && published[slot].Some?
      modifies this`traversalStamp, this`changeSequence, this`keyIndex, published, visited, queue, invalidation
      modifies pool, pool.cells, pool.buckets, pool.heads, journal, journal.ring
      ensures Valid()
      ensures WithdrawnAs(old(Contents()), slot, Contents())
    {
      hide Consistent, Announced, Prepared, Withdrawn, PoolOk, TargetLists, RingHolds;
      ghost var before := Contents();
      Uninstall(slot, published[slot].value.key);
      UninstalledIsPrepared(before, slot);
      PublishRecord(slot, None);
    }

    /** A request that was not fulfilled is marked as failed; a resident resource is kept. */
    method MarkFailed(h: Handle, cause: Result, memory: bool) returns (result: Result)
      requires Valid()
      modifies this`traversalStamp, this`changeSequence, published, visited, queue, invalidation, journal, journal.ring
      ensures Valid()
      ensures result == if !Live(old(published[..]), h) then InvalidHandle
                        else if cause == Success || old(published[h.slot]).value.state == Resident then InvalidArgument
                        else if !memory then OutOfBudget else Success
      ensures result != Success ==> Contents() == old(Contents())
      ensures result == Success ==> SupersededAs(old(Contents()), h.slot, Failed, Contents())
    {
      hide Consistent, Announced, PoolOk, TargetLists, RingHolds;
      if h.slot >= maxResources || published[h.slot].None? || published[h.slot].value.handle != h {
        return InvalidHandle;
      }
      if cause == Success || published[h.slot].value.state == Resident {
        return InvalidArgument;
      }
      if !memory {
        return OutOfBudget;
      }
      Supersede(h.slot, Failed);
      return Success;
    }

    method Supersede(slot: nat, state: ResourceState)
      requires Valid() && slot < maxResources && published[slot].Some?
      modifies this`traversalStamp, this`changeSequence, published, visited, queue, invalidation, journal, journal.ring
      ensures Valid()
      ensures SupersededAs(old(Contents()), slot, state, Contents())
    {
      hide Announced, Acyclic, EdgesIndexed, PoolOk, TargetLists, RingHolds, TotalLength, Relation;
      var record := NextRevision(published[slot].value, state);
      SupersededIsConsistent(Contents(), slot, record);
      PublishRecord(slot, Some(record));
    }

    /** A key asked for before it is published: resident keys answer with their handle. */
    method Request(key: Key, memory: bool, inserted: bool) returns (result: Result, handle: Handle)
      requires Valid()
      modifies this`traversalStamp, this`changeSequence, this`keyIndex, published, visited, queue, invalidation, nextGeneration
      modifies pool, pool.cells, pool.buckets, pool.heads, journal, journal.ring
      ensures Valid()
      ensures result == if key.typeId == 0 then InvalidArgument
                        else if key in old(keyIndex) then Success
                        else if forall s :: 0 <= s < maxResources ==> old(published[s]).Some? then OutOfBudget
                        else if !memory || !inserted then OutOfBudget else Success
      ensures result != Success || key in old(keyIndex) ==> Contents() == old(Contents())
      ensures result == Success && key in old(keyIndex) ==> handle == old(published[keyIndex[key]]).value.handle
      ensures result == Success && key !in old(keyIndex) ==> RequestedAs(old(Contents()), key, handle, Contents())
    {
      handle := Handle(0, 0, 0);
      if key.typeId == 0 {
        return InvalidArgument, handle;
      }
      hide Acyclic, EdgesIndexed, PoolOk, TargetLists, RingHolds, TotalLength, Relation;
      if key in keyIndex {
        return Success, published[keyIndex[key]].value.handle;
      }
      var slot := FindEmptySlot();
      if slot.None? || !memory || !inserted {
        return OutOfBudget, handle;
      }
      handle := RequestInSlot(key, slot.value);
      result := Success;
    }

    method RequestInSlot(key: Key, slot: nat) returns (handle: Handle)
      requires Valid() && slot < maxResources && published[slot].None? && key !in keyIndex
      requires forall s :: 0 <= s < slot ==> published[s].Some?
      modifies this`traversalStamp, this`changeSequence, this`keyIndex, published, visited, queue, invalidation, nextGeneration
      modifies pool, pool.cells, pool.buckets, pool.heads, journal, journal.ring
      ensures Valid() && RequestedAs(old(Contents()), key, handle, Contents())
    {
      hide Acyclic, EdgesIndexed, PoolOk, TargetLists, RingHolds, TotalLength, Relation, Installed, Announced;
      handle := Handle(slot, nextGeneration[slot], key.typeId);
      var record := Record(key, handle, 0, Requested, 0, []);
      EmptySlotHasNoEdges(Contents(), slot);
      pool.ActiveEdges();
      Commit(slot, record);
    }
  }
}
