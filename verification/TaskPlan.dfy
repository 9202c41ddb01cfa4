/** Task passes for a dependency plan: one pass for each entry, after the passes of everything the
    entry depends on. */
module TaskPlan {
  import opened DependencyPlanner
  import opened Digraph
  import opened ResourceRecords
  import opened ResourceTypes
  import opened Wrappers

  /** A pass has one prerequisite for each resident edge, in edge order: the pass of that edge's target. */
  ghost predicate WaitsFor(index: map<Key, nat>, order: seq<nat>, deps: seq<Dependency>, pass: seq<nat>, edges: seq<nat>)
  {
    && |pass| == |edges| && (forall q, r :: 0 <= q < r < |edges| ==> edges[q] < edges[r])
    && (forall e :: 0 <= e < |deps| ==> (deps[e].target in index <==> e in edges))
    && (forall q :: 0 <= q < |edges| ==>
          && edges[q] < |deps| && deps[edges[q]].target in index
          && pass[q] < |order| && order[pass[q]] == index[deps[edges[q]].target])
  }

  /** Pass j waits for exactly the passes of what entry j depends on, and all of them come before it. */
  ghost predicate PassesFollow(published: seq<Option<Record>>, index: map<Key, nat>, order: seq<nat>, passes: seq<seq<nat>>)
  {
    && |passes| <= |order|
    && forall j :: 0 <= j < |passes| ==> PassFollows(published, index, order, passes, j)
  }

  ghost predicate PassFollows(published: seq<Option<Record>>, index: map<Key, nat>, order: seq<nat>, passes: seq<seq<nat>>, j: nat)
    requires j < |passes| <= |order|
  {
    && AfterDependencies(published, index, order, j)
    && exists edges :: WaitsFor(index, order[..j], published[order[j]].value.deps, passes[j], edges)
  }

  /** There is an edge to the slot that has this place in the order. */
  ghost predicate LeadsTo(index: map<Key, nat>, order: seq<nat>, deps: seq<Dependency>, p: nat)
  {
    p < |order| && exists e :: 0 <= e < |deps| && deps[e].target in index && index[deps[e].target] == order[p]
  }

  lemma PrerequisitesAreTargets(index: map<Key, nat>, order: seq<nat>, deps: seq<Dependency>, pass: seq<nat>, edges: seq<nat>, p: nat)
    requires WaitsFor(index, order, deps, pass, edges) && forall a, b :: 0 <= a < b < |order| ==> order[a] != order[b]
    ensures p in pass <==> LeadsTo(index, order, deps, p)
  {
    if p in pass {
      var q :| 0 <= q < |pass| && pass[q] == p;
      assert deps[edges[q]].target in index;
    }
    if LeadsTo(index, order, deps, p) {
      var e :| 0 <= e < |deps| && deps[e].target in index && index[deps[e].target] == order[p];
      var q :| 0 <= q < |edges| && edges[q] == e;
      assert order[pass[q]] == order[p];
    }
  }

  /** So a pass waits for an earlier pass if and only if its entry has an edge to that pass's entry. */
  lemma WaitsExactly(published: seq<Option<Record>>, index: map<Key, nat>, order: seq<nat>, passes: seq<seq<nat>>, j: nat, p: nat)
    requires PassesFollow(published, index, order, passes) && j < |passes|
    requires forall a, b :: 0 <= a < b < |order| ==> order[a] != order[b]
    ensures order[j] < |published| && published[order[j]].Some?
    ensures p in passes[j] <==> LeadsTo(index, order[..j], published[order[j]].value.deps, p)
  {
    hide WaitsFor, LeadsTo;
    assert PassFollows(published, index, order, passes, j);
    var edges :| WaitsFor(index, order[..j], published[order[j]].value.deps, passes[j], edges);
    PrerequisitesAreTargets(index, order[..j], published[order[j]].value.deps, passes[j], edges, p);
  }

  /** The lookup holds one more than the place of every slot listed so far, and zero for all others. */
  ghost predicate Looked(lookup: seq<nat>, order: seq<nat>, n: nat)
  {
    && n <= |order|
    && (forall s: nat :: s < |lookup| && s !in order[..n] ==> lookup[s] == 0)
    && (forall j :: 0 <= j < n ==> order[j] < |lookup| && lookup[order[j]] == j + 1)
  }

  lemma LookedUp(lookup: seq<nat>, order: seq<nat>, n: nat, s: nat)
    requires Looked(lookup, order, n) && s in order[..n]
    ensures s < |lookup| && 0 < lookup[s] <= n && order[lookup[s] - 1] == s
  {
  }

  /** One more edge has been looked at: nothing to wait for, or one more prerequisite. */
  lemma ResidentEdge(index: map<Key, nat>, order: seq<nat>, deps: seq<Dependency>, pass: seq<nat>, edges: seq<nat>, e: nat)
    requires e < |deps| && WaitsFor(index, order, deps[..e], pass, edges)
    ensures deps[e].target !in index ==> WaitsFor(index, order, deps[..e + 1], pass, edges)
    ensures deps[e].target in index ==> forall p: nat :: p < |order| && order[p] == index[deps[e].target] ==>
      WaitsFor(index, order, deps[..e + 1], pass + [p], edges + [e])
  {
    var more := deps[..e + 1];
    assert forall i :: 0 <= i < e ==> more[i] == deps[..e][i];
    forall p: nat | deps[e].target in index && p < |order| && order[p] == index[deps[e].target]
      ensures WaitsFor(index, order, more, pass + [p], edges + [e])
    {
      assert forall i :: 0 <= i <= e ==> (i in edges + [e] <==> i == e || i in edges);
    }
  }

  ghost predicate InPlace(published: seq<Option<Record>>)
  {
    forall s :: 0 <= s < |published| && published[s].Some? ==> published[s].value.handle.slot == s
  }

  /** What a plan promises, entry by entry. */
  ghost predicate Planned(published: seq<Option<Record>>, index: map<Key, nat>, invalidation: seq<nat>, order: seq<nat>, entries: seq<PlanEntry>)
    requires |invalidation| == |published|
  {
    && InPlace(published) && ListsEntries(published, invalidation, order, entries)
    && (forall i, j :: 0 <= i < j < |order| ==> order[i] != order[j])
    && (forall j :: 0 <= j < |order| ==> AfterDependencies(published, index, order, j))
  }

  class TaskCompiler {
    /** One cell for each slot; the planner's scratch, reused. */
    const lookup: array<nat>

    constructor (maxResources: nat)
      ensures lookup.Length == maxResources && fresh(lookup)
    {
      lookup := new nat[maxResources];
    }

    /** The prerequisites of one pass. Every resident dependency has an earlier pass, so the source's two
        error exits here, for a missing and for a stale prerequisite, are not taken. */
    method FindPrerequisites(index: map<Key, nat>, ghost order: seq<nat>, pass: nat, deps: seq<Dependency>, admits: (nat, nat) -> bool)
      returns (full: bool, prerequisites: seq<nat>, ghost edges: seq<nat>)
      requires Looked(lookup[..], order, pass)
      requires forall e :: 0 <= e < |deps| && deps[e].target in index ==> index[deps[e].target] in order[..pass]
      ensures !full ==> WaitsFor(index, order[..pass], deps, prerequisites, edges)
      ensures (forall p :: admits(p, pass)) ==> !full
    {
      prerequisites, edges := [], [];
      for e := 0 to |deps|
        invariant WaitsFor(index, order[..pass], deps[..e], prerequisites, edges)
      {
        ResidentEdge(index, order[..pass], deps, prerequisites, edges, e);
        if deps[e].target in index {
          var slot := index[deps[e].target];
          LookedUp(lookup[..], order, pass, slot);
          var prerequisite := lookup[slot];
          assert 0 < prerequisite <= pass;
          if !admits(prerequisite - 1, pass) {
            return true, prerequisites, edges;
          }
          prerequisites, edges := prerequisites + [prerequisite - 1], edges + [e];
        }
      }
      assert deps[..|deps|] == deps;
      full := false;
    }

    /** One pass for each entry. Descriptions and room in the task graph may be refused. */
    method BuildPasses(published: seq<Option<Record>>, index: map<Key, nat>, ghost invalidation: seq<nat>, ghost order: seq<nat>,
                       entries: seq<PlanEntry>, describes: PlanEntry -> bool, admitsPass: nat -> bool, admits: (nat, nat) -> bool)
      returns (result: Result, passes: seq<seq<nat>>)
      requires |invalidation| == |published| == lookup.Length && Planned(published, index, invalidation, order, entries)
      modifies lookup
      ensures result in {Success, OutOfBudget, OperationFailed}
      ensures result == Success ==> |passes| == |entries| && PassesFollow(published, index, order, passes)
      ensures (forall entry :: describes(entry)) && (forall n :: admitsPass(n)) && (forall p, n :: admits(p, n)) ==> result == Success
    {
      passes := [];
      for s := 0 to lookup.Length
        invariant forall i :: 0 <= i < s ==> lookup[i] == 0
      {
        lookup[s] := 0;
      }
      for pass: nat := 0 to |entries|
        invariant |passes| == pass && PassesFollow(published, index, order, passes) && Looked(lookup[..], order, pass)
      {
        if !describes(entries[pass]) {
          return OperationFailed, passes;
        }
        if !admitsPass(pass) {
          return OutOfBudget, passes;
        }
        var full: bool;
        full, passes := AddPass(published, index, invalidation, order, entries, pass, passes, admits);
        if full {
          return OutOfBudget, passes;
        }
      }
      result := Success;
    }

    method AddPass(published: seq<Option<Record>>, index: map<Key, nat>, ghost invalidation: seq<nat>, ghost order: seq<nat>,
                   entries: seq<PlanEntry>, pass: nat, passes: seq<seq<nat>>, admits: (nat, nat) -> bool)
      returns (full: bool, more: seq<seq<nat>>)
      requires |invalidation| == |published| == lookup.Length && Planned(published, index, invalidation, order, entries)
      requires pass < |entries| && |passes| == pass && PassesFollow(published, index, order, passes) && Looked(lookup[..], order, pass)
      modifies lookup
      ensures !full ==> |more| == pass + 1 && PassesFollow(published, index, order, more) && Looked(lookup[..], order, pass + 1)
      ensures (forall p :: admits(p, pass)) ==> !full
    {
      assert AfterDependencies(published, index, order, pass);
      var slot := entries[pass].handle.slot;
      var prerequisites: seq<nat>;
      ghost var edges: seq<nat>;
      full, prerequisites, edges := FindPrerequisites(index, order, pass, published[slot].value.deps, admits);
      more := passes;
      if !full {
        more := passes + [prerequisites];
        PassAdded(published, index, order, passes, prerequisites, edges);
        hide PassesFollow;
        assert order[..pass + 1] == order[..pass] + [slot];
        lookup[slot] := pass + 1;
      }
    }

    /** Compile the plan of a resource into passes, in a task graph that must be empty. */
    method CompileTaskGraph(planner: Planner, published: seq<Option<Record>>, index: map<Key, nat>, invalidation: seq<nat>, root: Handle,
                            capacity: nat, empty: bool, describes: PlanEntry -> bool, admitsPass: nat -> bool, admits: (nat, nat) -> bool)
      returns (result: Result, entries: seq<PlanEntry>, passes: seq<seq<nat>>, ghost order: seq<nat>)
      requires planner.scratch.Shape(|published|) && Indexed(published, index) && Acyclic<Key>(Relation(published, index))
      requires |invalidation| == |published| == lookup.Length && InPlace(published) && lookup != planner.scratch.stack
      requires lookup != planner.scratch.next && lookup != planner.scratch.order
      modifies lookup, planner.scratch.stack, planner.scratch.next, planner.scratch.states, planner.scratch.order
      ensures result == Success ==>
        && Live(published, root) && DependencyPlan(published, index, root.slot, order) && ListsEntries(published, invalidation, order, entries)
        && |passes| == |order| && PassesFollow(published, index, order, passes)
      ensures capacity == 0 || !empty ==> result == InvalidArgument
      ensures result != StaleRevision && result != DependencyCycle
      ensures capacity > 0 && empty && (forall entry :: describes(entry)) && (forall n :: admitsPass(n)) && (forall p, n :: admits(p, n)) ==>
        exists required :: PlanResult(published, index, invalidation, root, capacity, result, entries, required)
      ensures result == DependencyMissing ==> Live(published, root) && SomethingMissing(published, index, root.slot)
      ensures result != Success ==> passes == []
    {
      entries, passes, order := [], [], [];
      if capacity == 0 || !empty {
        return InvalidArgument, entries, passes, order;
      }
      var required: nat;
      result, entries, required := planner.CompileDependencyOrder(published, index, invalidation, root, capacity);
      if result != Success {
        return;
      }
      order :| DependencyPlan(published, index, root.slot, order) && ListsEntries(published, invalidation, order, entries);
      result, passes := BuildPasses(published, index, invalidation, order, entries, describes, admitsPass, admits);
      if result != Success {
        passes := [];
      }
    }
  }

  lemma PassAdded(published: seq<Option<Record>>, index: map<Key, nat>, order: seq<nat>, passes: seq<seq<nat>>, pass: seq<nat>,
                  edges: seq<nat>)
    requires PassesFollow(published, index, order, passes) && |passes| < |order| && AfterDependencies(published, index, order, |passes|)
    requires WaitsFor(index, order[..|passes|], published[order[|passes|]].value.deps, pass, edges)
    ensures PassesFollow(published, index, order, passes + [pass])
  {
    forall j | 0 <= j <= |passes| ensures PassFollows(published, index, order, passes + [pass], j) {
      if j < |passes| {
        assert PassFollows(published, index, order, passes, j) && (passes + [pass])[j] == passes[j];
      } else {
        assert WaitsFor(index, order[..j], published[order[j]].value.deps, (passes + [pass])[j], edges);
      }
    }
  }
}
