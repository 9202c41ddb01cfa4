/** The dependency planner: it lists the live dependencies of a resource in an order in which
    they can be prepared, by depth-first search over the slots. */
module DependencyPlanner {
  import opened DepthFirst
  import opened Digraph
  import opened ResourceRecords
  import opened ResourceTypes
  import opened Wrappers

  function KeyOf(published: seq<Option<Record>>, s: nat): Key
    requires s < |published| && published[s].Some?
  {
    published[s].value.key
  }

  // ---------------------------------------------------------------- slots and keys

  /** A dependency as an edge between slots. */
  ghost function ArcOf(index: map<Key, nat>, d: Dependency): Arc
  {
    if d.target in index then To(index[d.target]) else if d.kind.Required? then Missing else Absent
  }

  ghost function ArcsOf(index: map<Key, nat>, record: Option<Record>): (arcs: seq<Arc>)
    ensures record.None? ==> arcs == []
    ensures record.Some? ==>
      |arcs| == |record.value.deps| && forall e :: 0 <= e < |arcs| ==> arcs[e] == ArcOf(index, record.value.deps[e])
  {
    if record.None? then [] else seq(|record.value.deps|, e requires 0 <= e < |record.value.deps| => ArcOf(index, record.value.deps[e]))
  }

  ghost function Adjacency(published: seq<Option<Record>>, index: map<Key, nat>): (adj: seq<seq<Arc>>)
    requires Indexed(published, index)
    ensures |adj| == |published| && ArcsOk(adj)
    ensures forall s :: 0 <= s < |adj| ==> adj[s] == ArcsOf(index, published[s])
  {
    seq(|published|, s requires 0 <= s < |published| => ArcsOf(index, published[s]))
  }

  /** Slot edges are exactly the dependencies between resident keys. */
  lemma SlotEdge(published: seq<Option<Record>>, index: map<Key, nat>, a: nat, b: nat)
    requires Indexed(published, index) && Edge<nat>(Arrows(Adjacency(published, index)), a, b)
    ensures a < |published| && b < |published| && published[a].Some? && published[b].Some?
    ensures Edge<Key>(Relation(published, index), KeyOf(published, a), KeyOf(published, b))
  {
    var e :| 0 <= e < |Adjacency(published, index)[a]| && Adjacency(published, index)[a][e] == To(b);
    assert Targets(published[a].value.deps)[e] == published[a].value.deps[e].target;
  }

  lemma KeyEdge(published: seq<Option<Record>>, index: map<Key, nat>, x: Key, y: Key)
    requires Indexed(published, index) && Edge<Key>(Relation(published, index), x, y) && y in index
    ensures x in index && Edge<nat>(Arrows(Adjacency(published, index)), index[x], index[y])
  {
    var deps := published[index[x]].value.deps;
    var e :| 0 <= e < |deps| && deps[e].target == y;
    assert Adjacency(published, index)[index[x]][e] == To(index[y]);
  }

  lemma SlotReachIsKeyReach(published: seq<Option<Record>>, index: map<Key, nat>, a: nat, b: nat)
    requires Indexed(published, index) && a < |published| && published[a].Some?
    ensures Reach<nat>(Arrows(Adjacency(published, index)), a, b) <==>
      b < |published| && published[b].Some? && Reach<Key>(Relation(published, index), KeyOf(published, a), KeyOf(published, b))
  {
    var g, h := Relation(published, index), Arrows(Adjacency(published, index));
    var slots: iset<nat> := iset s: nat | s < |published| && published[s].Some? && Reach<Key>(g, KeyOf(published, a), KeyOf(published, s));
    ReachSelf<Key>(g, KeyOf(published, a));
    ReachSelf<nat>(h, a);
    forall x: nat, y: nat | x in slots && Edge<nat>(h, x, y) ensures y in slots {
      SlotEdge(published, index, x, y);
      ReachAppend<Key>(g, KeyOf(published, a), KeyOf(published, x), KeyOf(published, y));
    }
    if Reach<nat>(h, a, b) {
      ClosedUnderReach<nat>(h, slots, a, b);
    }
    var keys := iset k: Key | k in index ==> Reach<nat>(h, a, index[k]);
    forall x: Key, y: Key | x in keys && Edge<Key>(g, x, y) ensures y in keys {
      if y in index {
        KeyEdge(published, index, x, y);
        ReachAppend<nat>(h, a, index[x], index[y]);
      }
    }
    if b < |published| && published[b].Some? && Reach<Key>(g, KeyOf(published, a), KeyOf(published, b)) {
      ClosedUnderReach<Key>(g, keys, KeyOf(published, a), KeyOf(published, b));
    }
  }

  lemma SlotsAreAcyclic(published: seq<Option<Record>>, index: map<Key, nat>)
    requires Indexed(published, index) && Acyclic<Key>(Relation(published, index))
    ensures Acyclic<nat>(Arrows(Adjacency(published, index)))
  {
    var h := Arrows(Adjacency(published, index));
    forall a: nat, b: nat | Edge<nat>(h, a, b) ensures !Reach<nat>(h, b, a) {
      SlotEdge(published, index, a, b);
      SlotReachIsKeyReach(published, index, b, a);
    }
  }

  // ---------------------------------------------------------------- what a plan is

  /** A resident resource that the root depends on, or the root itself. */
  ghost predicate Needed(published: seq<Option<Record>>, index: map<Key, nat>, root: nat, s: nat)
    requires Indexed(published, index) && root < |published| && published[root].Some?
  {
    && s < |published| && published[s].Some?
    && Reach(Relation(published, index), KeyOf(published, root), KeyOf(published, s))
  }

  /** Some needed resource requires a resource that is not there. */
  ghost predicate SomethingMissing(published: seq<Option<Record>>, index: map<Key, nat>, root: nat)
    requires Indexed(published, index) && root < |published| && published[root].Some?
  {
    exists s: nat, e: nat :: Needed(published, index, root, s) && e < |published[s].value.deps|
      && published[s].value.deps[e].kind.Required? && published[s].value.deps[e].target !in index
  }

  ghost predicate AfterDependencies(published: seq<Option<Record>>, index: map<Key, nat>, order: seq<nat>, j: nat)
    requires j < |order|
  {
    && order[j] < |published| && published[order[j]].Some?
    && forall e :: 0 <= e < |published[order[j]].value.deps| && published[order[j]].value.deps[e].target in index ==>
         index[published[order[j]].value.deps[e].target] in order[..j]
  }

  /** Exactly the needed resources, each once, each after all of its resident dependencies, the root last. */
  ghost predicate DependencyPlan(published: seq<Option<Record>>, index: map<Key, nat>, root: nat, order: seq<nat>)
    requires Indexed(published, index) && root < |published| && published[root].Some?
  {
    && (forall s: nat :: s in order <==> Needed(published, index, root, s))
    && (forall i, j :: 0 <= i < j < |order| ==> order[i] != order[j])
    && (forall j :: 0 <= j < |order| ==> order[j] in order && AfterDependencies(published, index, order, j))
    && |order| > 0 && order[|order| - 1] == root
  }

  lemma ClosureIsPlan(published: seq<Option<Record>>, index: map<Key, nat>, root: nat, order: seq<nat>)
    requires Indexed(published, index) && root < |published| && published[root].Some?
    requires ClosureOrder(Adjacency(published, index), root, order)
    ensures DependencyPlan(published, index, root, order) && !SomethingMissing(published, index, root)
  {
    var adj := Adjacency(published, index);
    forall s: nat ensures s in order <==> Needed(published, index, root, s) {
      SlotReachIsKeyReach(published, index, root, s);
    }
    hide Needed, Reach;
    forall j | 0 <= j < |order| ensures published[order[j]].Some? && AfterDependencies(published, index, order, j) {
      assert order[j] in order && Needed(published, index, root, order[j]);
      NeededIsLive(published, index, root, order[j]);
      NothingMissingAt(published, index, order, j);
    }
    forall s: nat, e: nat | Needed(published, index, root, s) && s < |published| && published[s].Some? && e < |published[s].value.deps|
      ensures !(published[s].value.deps[e].kind.Required? && published[s].value.deps[e].target !in index)
    {
      var j :| 0 <= j < |order| && order[j] == s;
      assert AfterTargets(adj, order, j);
      assert Before(order[..j], adj[s][e]);
    }
    SomethingMissingIsListed(published, index, root);
  }

  lemma NeededIsLive(published: seq<Option<Record>>, index: map<Key, nat>, root: nat, s: nat)
    requires Indexed(published, index) && root < |published| && published[root].Some? && Needed(published, index, root, s)
    ensures s < |published| && published[s].Some?
  {
  }

  lemma NothingMissingAt(published: seq<Option<Record>>, index: map<Key, nat>, order: seq<nat>, j: nat)
    requires Indexed(published, index) && j < |order| && order[j] < |published| && published[order[j]].Some?
    requires AfterTargets(Adjacency(published, index), order, j)
    ensures AfterDependencies(published, index, order, j)
  {
    var adj := Adjacency(published, index);
    forall e | 0 <= e < |published[order[j]].value.deps| && published[order[j]].value.deps[e].target in index
      ensures index[published[order[j]].value.deps[e].target] in order[..j]
    {
      assert Before(order[..j], adj[order[j]][e]);
    }
  }

  lemma SomethingMissingIsListed(published: seq<Option<Record>>, index: map<Key, nat>, root: nat)
    requires Indexed(published, index) && root < |published| && published[root].Some?
    requires forall s: nat, e: nat ::
      Needed(published, index, root, s) && s < |published| && published[s].Some? && e < |published[s].value.deps| ==>
        !(published[s].value.deps[e].kind.Required? && published[s].value.deps[e].target !in index)
    ensures !SomethingMissing(published, index, root)
  {
  }

  datatype PlanEntry = PlanEntry(handle: Handle, revision: nat, state: ResourceState, invalidation: nat)

  ghost function EntryOf(published: seq<Option<Record>>, invalidation: seq<nat>, s: nat): PlanEntry
    requires s < |published| == |invalidation| && published[s].Some?
  {
    PlanEntry(published[s].value.handle, published[s].value.revision, published[s].value.state, invalidation[s])
  }

  /** The planner's answer: the first missing requirement stops it; otherwise it reports how many
      entries a plan takes, and lists them when they fit. */
  ghost predicate PlanResult(published: seq<Option<Record>>, index: map<Key, nat>, invalidation: seq<nat>, root: Handle,
                             capacity: nat, result: Result, entries: seq<PlanEntry>, required: nat)
    requires Indexed(published, index) && |invalidation| == |published|
  {
    if !Live(published, root) then result == InvalidHandle && entries == [] && required == 0
    else if SomethingMissing(published, index, root.slot) then result == DependencyMissing && entries == [] && required == 0
    else exists order ::
      && DependencyPlan(published, index, root.slot, order) && required == |order|
      && (capacity < |order| ==> result == OutOfBudget && entries == [])
      && (|order| <= capacity ==> result == Success && ListsEntries(published, invalidation, order, entries))
  }

  ghost predicate ListsEntries(published: seq<Option<Record>>, invalidation: seq<nat>, order: seq<nat>, entries: seq<PlanEntry>)
    requires |invalidation| == |published|
  {
    && |entries| == |order|
    && forall i :: 0 <= i < |order| ==>
         order[i] < |published| && published[order[i]].Some? && entries[i] == EntryOf(published, invalidation, order[i])
  }

  // ---------------------------------------------------------------- the search over the writer's arrays

  class Planner {
    const scratch: Scratch

    constructor (maxResources: nat)
      ensures scratch.Shape(maxResources)
    {
      scratch := new Scratch(maxResources);
    }

    /** One turn of the search with the slot on top of the stack: take its next edge, or list it. */
    method Turn(published: seq<Option<Record>>, index: map<Key, nat>, ghost adj: seq<seq<Arc>>, ghost root: nat, depth: nat, count: nat)
      returns (missing: bool, depth': nat, count': nat)
      requires Indexed(published, index) && adj == Adjacency(published, index) && Acyclic<nat>(Arrows(adj))
      requires scratch.Shape(|adj|) && Walking(adj, scratch.State(depth, count), root, 0) && depth > 0
      modifies scratch.stack, scratch.next, scratch.states, scratch.order
      ensures missing ==> root < |adj| && Stops(adj, root)
      ensures !missing ==> Stepped(adj, root, 0, old(scratch.State(depth, count)), false, scratch.State(depth', count'))
    {
      hide Adjacency, Walking, Stepped, Stops, Indexed, ArcOf, Acyclic, Arrows;
      TopIsStacked(adj, scratch.State(depth, count), root, 0);
      var slot := scratch.stack[depth - 1];
      if published[slot].Some? && scratch.next[depth - 1] < |published[slot].value.deps| {
        count' := count;
        missing, depth' := TakeEdge(adj, root, depth, count, index, published[slot].value.deps[scratch.next[depth - 1]]);
      } else {
        scratch.Finish(adj, root, 0, depth, count);
        missing, depth', count' := false, depth - 1, count + 1;
      }
    }

    /** The relation is acyclic, so the source's cycle exit is not taken. */
    method TakeEdge(ghost adj: seq<seq<Arc>>, ghost root: nat, depth: nat, ghost count: nat, index: map<Key, nat>, edge: Dependency)
      returns (missing: bool, depth': nat)
      requires scratch.Shape(|adj|) && Walking(adj, scratch.State(depth, count), root, 0) && Acyclic<nat>(Arrows(adj)) && depth > 0
      requires scratch.stack[depth - 1] < |adj| && scratch.next[depth - 1] < |adj[scratch.stack[depth - 1]]|
      requires adj[scratch.stack[depth - 1]][scratch.next[depth - 1]] == ArcOf(index, edge)
      modifies scratch.stack, scratch.next, scratch.states
      ensures missing ==> root < |adj| && Stops(adj, root)
      ensures !missing ==> Stepped(adj, root, 0, old(scratch.State(depth, count)), false, scratch.State(depth', count))
    {
      missing, depth' := false, depth;
      if edge.target in index {
        var cyclic: bool;
        cyclic, depth' := scratch.Follow(adj, root, 0, depth, count, index[edge.target]);
      } else if edge.kind.Required? {
        missing := true;
        MissingStops(adj, scratch.State(depth, count), root);
      } else {
        scratch.Skip(adj, root, 0, depth, count);
      }
    }

    method Search(published: seq<Option<Record>>, index: map<Key, nat>, root: nat) returns (missing: bool, count: nat)
      requires scratch.Shape(|published|) && Indexed(published, index) && Acyclic<Key>(Relation(published, index))
      requires root < |published|
      modifies scratch.stack, scratch.next, scratch.states, scratch.order
      ensures missing ==> Stops(Adjacency(published, index), root)
      ensures !missing ==> Walking(Adjacency(published, index), scratch.State(0, count), root, 0)
    {
      hide Acyclic, Indexed, Relation, Stops, Walking, Stepped, EdgesLeft;
      ghost var adj := Adjacency(published, index);
      SlotsAreAcyclic(published, index);
      scratch.Clear(adj);
      scratch.Start(adj, root, 0);
      var depth: nat := 1;
      missing, count := false, 0;
      VisitedFit(adj, scratch.State(depth, count));
      while !missing && depth > 0
        invariant missing ==> Stops(adj, root)
        invariant !missing ==> Walking(adj, scratch.State(depth, count), root, 0) && depth + count <= |published|
        decreases !missing, |published| - (depth + count), |published| - count, EdgesLeft(adj, scratch.State(depth, count))
      {
        ghost var before := scratch.State(depth, count);
        missing, depth, count := Turn(published, index, adj, root, depth, count);
        if !missing {
          StepIsLower(adj, root, 0, before, scratch.State(depth, count));
        }
      }
    }

    method FindPlan(published: seq<Option<Record>>, index: map<Key, nat>, root: nat) returns (missing: bool, count: nat)
      requires scratch.Shape(|published|) && Indexed(published, index) && Acyclic<Key>(Relation(published, index))
      requires root < |published| && published[root].Some?
      modifies scratch.stack, scratch.next, scratch.states, scratch.order
      ensures missing <==> SomethingMissing(published, index, root)
      ensures !missing ==> count <= |published| && DependencyPlan(published, index, root, scratch.order[..count])
    {
      missing, count := Search(published, index, root);
      if missing {
        StopIsMissing(published, index, root);
      } else {
        ListIsClosure(Adjacency(published, index), scratch.State(0, count), root);
        ClosureIsPlan(published, index, root, scratch.order[..count]);
      }
    }

    /** List what a resource needs, dependencies first. */
    method CompileDependencyOrder(published: seq<Option<Record>>, index: map<Key, nat>, invalidation: seq<nat>, root: Handle,
                                  capacity: nat)
      returns (result: Result, entries: seq<PlanEntry>, required: nat)
      requires scratch.Shape(|published|) && Indexed(published, index) && Acyclic<Key>(Relation(published, index))
      requires |invalidation| == |published|
      modifies scratch.stack, scratch.next, scratch.states, scratch.order
      ensures PlanResult(published, index, invalidation, root, capacity, result, entries, required)
    {
      entries, required := [], 0;
      if root.slot >= |published| || published[root.slot].None? || published[root.slot].value.handle != root {
        return InvalidHandle, entries, required;
      }
      var missing, count := FindPlan(published, index, root.slot);
      hide Acyclic, Relation, DependencyPlan, SomethingMissing;
      if missing {
        return DependencyMissing, entries, required;
      }
      required := count;
      if count > capacity {
        return OutOfBudget, entries, required;
      }
      entries := Entries(published, index, root.slot, invalidation, count);
      result := Success;
    }

    method Entries(published: seq<Option<Record>>, ghost index: map<Key, nat>, ghost root: nat, invalidation: seq<nat>, count: nat)
      returns (entries: seq<PlanEntry>)
      requires scratch.Shape(|published|) && count <= |published| == |invalidation|
      requires Indexed(published, index) && root < |published| && published[root].Some?
      requires DependencyPlan(published, index, root, scratch.order[..count])
      ensures ListsEntries(published, invalidation, scratch.order[..count], entries)
    {
      entries := [];
      hide Needed;
      for i := 0 to count
        invariant |entries| == i && forall j :: 0 <= j < i ==>
          scratch.order[j] < |published| && published[scratch.order[j]].Some?
          && entries[j] == EntryOf(published, invalidation, scratch.order[j])
      {
        assert AfterDependencies(published, index, scratch.order[..count], i);
        var s := scratch.order[i];
        var record := published[s].value;
        entries := entries + [PlanEntry(record.handle, record.revision, record.state, invalidation[s])];
      }
    }
  }

  /** A reachable slot has an edge to something that must be there and is not. */
  ghost predicate Stops(adj: seq<seq<Arc>>, root: nat)
  {
    exists s: nat, e: nat :: s < |adj| && e < |adj[s]| && adj[s][e] == Missing && Reach<nat>(Arrows(adj), root, s)
  }

  lemma MissingStops(adj: seq<seq<Arc>>, w: Walk, root: nat)
    requires Walking(adj, w, root, 0) && w.depth > 0
    requires w.next[w.depth - 1] < |adj[w.stack[w.depth - 1]]| && adj[w.stack[w.depth - 1]][w.next[w.depth - 1]] == Missing
    ensures root < |adj| && Stops(adj, root)
  {
    assert Reach<nat>(Arrows(adj), root, w.stack[w.depth - 1]);
  }

  lemma StopIsMissing(published: seq<Option<Record>>, index: map<Key, nat>, root: nat)
    requires Indexed(published, index) && root < |published| && published[root].Some?
    requires Stops(Adjacency(published, index), root)
    ensures SomethingMissing(published, index, root)
  {
    var adj := Adjacency(published, index);
    var s: nat, e: nat :| s < |adj| && e < |adj[s]| && adj[s][e] == Missing && Reach<nat>(Arrows(adj), root, s);
    SlotReachIsKeyReach(published, index, root, s);
    assert Needed(published, index, root, s);
  }
}
