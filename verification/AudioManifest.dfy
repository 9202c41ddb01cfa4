/** The audio manifest: the record checks of its package table and the three-colour search that
    rejects dependency cycles. */
module AudioManifest {
  import opened DepthFirst
  import opened Digraph
  import opened Wrappers

  datatype Package = Package(id: nat, providerKey: nat, start: nat, count: nat, required: set<nat>)

  datatype ManifestResult = Ok | InvalidRecord | DuplicateId | MissingCapability | MissingDependency | CyclicDependency

  ghost predicate SortedIds(packages: seq<Package>)
  {
    forall i, j :: 0 <= i < j < |packages| ==> packages[i].id < packages[j].id
  }

  ghost predicate Known(packages: seq<Package>, id: nat)
  {
    exists i :: 0 <= i < |packages| && packages[i].id == id
  }

  function Consumed(packages: seq<Package>, n: nat): (total: nat)
    requires n <= |packages|
  {
    if n == 0 then 0 else Consumed(packages, n - 1) + packages[n - 1].count
  }

  lemma {:induction false} ConsumedGrows(packages: seq<Package>, m: nat, n: nat)
    requires m <= n <= |packages|
    ensures Consumed(packages, m) <= Consumed(packages, n)
    decreases n - m
  {
    if m < n {
      ConsumedGrows(packages, m, n - 1);
    }
  }

  /** The package's own fields, and its place in the dependency table. */
  ghost predicate HeadOk(packages: seq<Package>, available: set<nat>, i: nat)
    requires i < |packages|
  {
    var p := packages[i];
    p.id != 0 && p.providerKey != 0 && p.start == Consumed(packages, i) && p.required <= available
  }

  ghost predicate HeadsOk(packages: seq<Package>, dependencyCount: nat, available: set<nat>)
  {
    && SortedIds(packages) && Consumed(packages, |packages|) == dependencyCount
    && forall i :: 0 <= i < |packages| ==> HeadOk(packages, available, i)
  }

  /** The package depends on known packages other than itself, in ascending order. */
  ghost predicate DependenciesOk(packages: seq<Package>, dependencies: seq<nat>, i: nat)
    requires i < |packages| && packages[i].start + packages[i].count <= |dependencies|
  {
    var p := packages[i];
    forall d :: 0 <= d < p.count ==> DependencyOk(packages, dependencies, i, d)
  }

  ghost predicate DependencyOk(packages: seq<Package>, dependencies: seq<nat>, i: nat, d: nat)
    requires i < |packages| && packages[i].start + packages[i].count <= |dependencies| && d < packages[i].count
  {
    var p := packages[i];
    var id := dependencies[p.start + d];
    id != p.id && Known(packages, id) && (d > 0 ==> dependencies[p.start + d - 1] < id)
  }

  /** A package table that passes the record checks. */
  ghost predicate RecordsOk(packages: seq<Package>, dependencies: seq<nat>, available: set<nat>)
  {
    && HeadsOk(packages, |dependencies|, available)
    && (forall i :: 0 <= i < |packages| ==>
          packages[i].start + packages[i].count <= |dependencies| && DependenciesOk(packages, dependencies, i))
  }

  /** What a package's own record is refused for, if anything. */
  ghost function HeadFault(packages: seq<Package>, dependencyCount: nat, available: set<nat>, i: nat): ManifestResult
    requires i < |packages|
  {
    var p := packages[i];
    if p.id == 0 || p.providerKey == 0 || p.start != Consumed(packages, i) || Consumed(packages, i + 1) > dependencyCount then InvalidRecord
    else if i > 0 && p.id <= packages[i - 1].id then DuplicateId
    else if !(p.required <= available) then MissingCapability
    else Ok
  }

  ghost predicate HeadsSound(packages: seq<Package>, dependencyCount: nat, available: set<nat>, n: nat)
    requires n <= |packages|
  {
    forall i :: 0 <= i < n ==> HeadFault(packages, dependencyCount, available, i) == Ok
  }

  /** The first record that is refused decides; a table that leaves dependencies over is refused last. */
  ghost predicate HeadVerdict(packages: seq<Package>, dependencyCount: nat, available: set<nat>, result: ManifestResult)
  {
    if HeadsSound(packages, dependencyCount, available, |packages|) then
      result == if Consumed(packages, |packages|) != dependencyCount then InvalidRecord else Ok
    else exists i :: 0 <= i < |packages| && result == HeadFault(packages, dependencyCount, available, i) != Ok
           && HeadsSound(packages, dependencyCount, available, i)
  }

  ghost function DependencyFault(packages: seq<Package>, dependencies: seq<nat>, i: nat, d: nat): ManifestResult
    requires i < |packages| && packages[i].start + packages[i].count <= |dependencies| && d < packages[i].count
  {
    var p := packages[i];
    var id := dependencies[p.start + d];
    if id == p.id || (d > 0 && id <= dependencies[p.start + d - 1]) then InvalidRecord
    else if !Known(packages, id) then MissingDependency
    else Ok
  }

  /** The first dependency of a package that is refused decides. */
  ghost predicate DependencyVerdict(packages: seq<Package>, dependencies: seq<nat>, i: nat, result: ManifestResult)
    requires i < |packages| && packages[i].start + packages[i].count <= |dependencies|
  {
    if DependenciesOk(packages, dependencies, i) then result == Ok
    else exists d :: 0 <= d < packages[i].count && result == DependencyFault(packages, dependencies, i, d) != Ok
           && forall e :: 0 <= e < d ==> DependencyOk(packages, dependencies, i, e)
  }

  /** Records before dependencies, and the first fault in each decides. */
  ghost predicate RecordVerdict(packages: seq<Package>, dependencies: seq<nat>, available: set<nat>, result: ManifestResult)
  {
    if !HeadVerdict(packages, |dependencies|, available, Ok) then result != Ok && HeadVerdict(packages, |dependencies|, available, result)
    else if RecordsOk(packages, dependencies, available) then result == Ok
    else exists i :: 0 <= i < |packages| && packages[i].start + packages[i].count <= |dependencies|
           && result != Ok && DependencyVerdict(packages, dependencies, i, result)
           && forall j :: 0 <= j < i ==>
                packages[j].start + packages[j].count <= |dependencies| && DependenciesOk(packages, dependencies, j)
  }

  /** Binary search for an id in a sorted table. */
  method FindPackageIndex(packages: seq<Package>, id: nat) returns (found: Option<nat>)
    requires SortedIds(packages)
    ensures found.Some? ==> found.value < |packages| && packages[found.value].id == id
    ensures found.None? <==> !Known(packages, id)
  {
    var first: nat, end: nat := 0, |packages|;
    while first < end
      invariant first <= end <= |packages|
      invariant forall i :: 0 <= i < first ==> packages[i].id < id
      invariant forall i :: end <= i < |packages| ==> id <= packages[i].id
    {
      var middle := first + (end - first) / 2;
      if packages[middle].id < id {
        first := middle + 1;
      } else {
        end := middle;
      }
    }
    if first == |packages| || packages[first].id != id {
      return None;
    }
    return Some(first);
  }

  /** The record checks pass exactly the tables they describe. */
  method ValidatePackages(packages: seq<Package>, dependencies: seq<nat>, available: set<nat>) returns (result: ManifestResult)
    ensures result == Ok <==> RecordsOk(packages, dependencies, available)
    ensures RecordVerdict(packages, dependencies, available, result)
    ensures result != CyclicDependency
  {
    result := ValidateHeads(packages, |dependencies|, available);
    if result == Ok {
      forall i | 0 <= i < |packages| ensures packages[i].start + packages[i].count <= |dependencies| {
        assert HeadOk(packages, available, i);
        ConsumedGrows(packages, i + 1, |packages|);
      }
      for i := 0 to |packages|
        invariant result == Ok && forall j :: 0 <= j < i ==> DependenciesOk(packages, dependencies, j)
      {
        result := ValidateDependencies(packages, dependencies, i);
        if result != Ok {
          return;
        }
      }
    }
  }

  lemma {:induction false} SoundHeadsAscend(packages: seq<Package>, dependencyCount: nat, available: set<nat>, i: nat, j: nat)
    requires HeadsSound(packages, dependencyCount, available, |packages|) && i < j < |packages|
    ensures packages[i].id < packages[j].id
    decreases j
  {
    assert HeadFault(packages, dependencyCount, available, j) == Ok;
    if i < j - 1 {
      SoundHeadsAscend(packages, dependencyCount, available, i, j - 1);
    }
  }

  /** Records without a fault, all dependencies used, are exactly the tables described. */
  lemma SoundHeadsAreOk(packages: seq<Package>, dependencyCount: nat, available: set<nat>)
    ensures HeadVerdict(packages, dependencyCount, available, Ok) <==> HeadsOk(packages, dependencyCount, available)
  {
    if HeadVerdict(packages, dependencyCount, available, Ok) {
      forall i, j | 0 <= i < j < |packages| ensures packages[i].id < packages[j].id {
        SoundHeadsAscend(packages, dependencyCount, available, i, j);
      }
      forall i | 0 <= i < |packages| ensures HeadOk(packages, available, i) {
        assert HeadFault(packages, dependencyCount, available, i) == Ok;
      }
    }
    if HeadsOk(packages, dependencyCount, available) {
      forall i | 0 <= i < |packages| ensures HeadFault(packages, dependencyCount, available, i) == Ok {
        ConsumedGrows(packages, i + 1, |packages|);
        assert HeadOk(packages, available, i);
      }
    }
  }

  method ValidateHeads(packages: seq<Package>, dependencyCount: nat, available: set<nat>) returns (result: ManifestResult)
    ensures result == Ok <==> HeadsOk(packages, dependencyCount, available)
    ensures HeadVerdict(packages, dependencyCount, available, result)
    ensures result == Ok <==> HeadVerdict(packages, dependencyCount, available, Ok)
    ensures result != CyclicDependency
  {
    hide HeadFault, HeadsOk;
    SoundHeadsAreOk(packages, dependencyCount, available);
    var consumed: nat := 0;
    for i := 0 to |packages|
      invariant consumed == Consumed(packages, i) && HeadsSound(packages, dependencyCount, available, i)
      invariant consumed <= dependencyCount
    {
      result := ValidateHead(packages, dependencyCount, available, i, consumed);
      if result != Ok {
        assert !HeadsSound(packages, dependencyCount, available, |packages|);
        return;
      }
      consumed := consumed + packages[i].count;
    }
    if consumed != dependencyCount {
      return InvalidRecord;
    }
    return Ok;
  }

  method ValidateHead(packages: seq<Package>, dependencyCount: nat, available: set<nat>, i: nat, consumed: nat) returns (result: ManifestResult)
    requires i < |packages| && consumed == Consumed(packages, i) <= dependencyCount
    ensures result == HeadFault(packages, dependencyCount, available, i) && result != CyclicDependency
    ensures result == Ok ==> consumed + packages[i].count <= dependencyCount
  {
    var p := packages[i];
    if p.id == 0 || p.providerKey == 0 || p.start != consumed || p.count > dependencyCount - consumed {
      return InvalidRecord;
    }
    if i != 0 && p.id <= packages[i - 1].id {
      return DuplicateId;
    }
    if !(p.required <= available) {
      return MissingCapability;
    }
    return Ok;
  }

  method ValidateDependencies(packages: seq<Package>, dependencies: seq<nat>, i: nat) returns (result: ManifestResult)
    requires SortedIds(packages) && i < |packages| && packages[i].start + packages[i].count <= |dependencies|
    ensures result == Ok <==> DependenciesOk(packages, dependencies, i)
    ensures DependencyVerdict(packages, dependencies, i, result)
    ensures result != CyclicDependency
  {
    var p := packages[i];
    for d := 0 to p.count
      invariant forall e :: 0 <= e < d ==> DependencyOk(packages, dependencies, i, e)
    {
      var id := dependencies[p.start + d];
      if id == p.id || (d != 0 && id <= dependencies[p.start + d - 1]) {
        assert !DependencyOk(packages, dependencies, i, d) && DependencyFault(packages, dependencies, i, d) == InvalidRecord;
        return InvalidRecord;
      }
      var resolved := FindPackageIndex(packages, id);
      if resolved.None? {
        assert !DependencyOk(packages, dependencies, i, d) && DependencyFault(packages, dependencies, i, d) == MissingDependency;
        return MissingDependency;
      }
    }
    return Ok;
  }

  // ---------------------------------------------------------------- the dependency relation

  ghost function IndexOf(packages: seq<Package>, id: nat): (i: nat)
    requires Known(packages, id)
    ensures i < |packages| && packages[i].id == id
  {
    var i :| 0 <= i < |packages| && packages[i].id == id;
    i
  }

  lemma IndexIsUnique(packages: seq<Package>, id: nat, i: nat)
    requires SortedIds(packages) && i < |packages| && packages[i].id == id
    ensures Known(packages, id) && IndexOf(packages, id) == i
  {
    var k := IndexOf(packages, id);
    assert packages[k].id == packages[i].id;
  }

  ghost function ArcAt(packages: seq<Package>, dependencies: seq<nat>, i: nat, d: nat): (arc: Arc)
    requires i < |packages| && packages[i].start + packages[i].count <= |dependencies| && d < packages[i].count
    requires DependencyOk(packages, dependencies, i, d)
  {
    To(IndexOf(packages, dependencies[packages[i].start + d]))
  }

  ghost function ArcsOf(packages: seq<Package>, dependencies: seq<nat>, i: nat): (arcs: seq<Arc>)
    requires i < |packages| && packages[i].start + packages[i].count <= |dependencies| && DependenciesOk(packages, dependencies, i)
    ensures |arcs| == packages[i].count
    ensures forall d :: 0 <= d < |arcs| ==> DependencyOk(packages, dependencies, i, d) && arcs[d] == ArcAt(packages, dependencies, i, d)
  {
    assert forall d :: 0 <= d < packages[i].count ==> DependencyOk(packages, dependencies, i, d);
    seq(packages[i].count, d requires 0 <= d < packages[i].count => ArcAt(packages, dependencies, i, d))
  }

  /** The dependencies between packages, by their position in the table. */
  ghost function Adjacency(packages: seq<Package>, dependencies: seq<nat>, available: set<nat>): (adj: seq<seq<Arc>>)
    requires RecordsOk(packages, dependencies, available)
    ensures |adj| == |packages| && ArcsOk(adj)
    ensures forall i :: 0 <= i < |adj| ==> adj[i] == ArcsOf(packages, dependencies, i)
  {
    seq(|packages|, i requires 0 <= i < |packages| => ArcsOf(packages, dependencies, i))
  }

  lemma ArcsCounted(packages: seq<Package>, dependencies: seq<nat>, available: set<nat>, i: nat)
    requires RecordsOk(packages, dependencies, available) && i < |packages|
    ensures |Adjacency(packages, dependencies, available)[i]| == packages[i].count
  {
    assert Adjacency(packages, dependencies, available)[i] == ArcsOf(packages, dependencies, i);
  }

  lemma DependencyNeedsAnother(packages: seq<Package>, dependencies: seq<nat>, i: nat, d: nat)
    requires i < |packages| && packages[i].start + packages[i].count <= |dependencies|
    requires DependenciesOk(packages, dependencies, i) && d < packages[i].count
    ensures |packages| >= 2 && |dependencies| > 0
  {
    assert DependencyOk(packages, dependencies, i, d);
    var k := IndexOf(packages, dependencies[packages[i].start + d]);
    assert k != i;
  }

  /** With fewer than two packages, or no dependencies, there is nothing to search. */
  lemma TrivialIsAcyclic(packages: seq<Package>, dependencies: seq<nat>, available: set<nat>)
    requires RecordsOk(packages, dependencies, available) && (|packages| < 2 || dependencies == [])
    ensures Acyclic<nat>(Arrows(Adjacency(packages, dependencies, available)))
  {
    var adj := Adjacency(packages, dependencies, available);
    forall i | 0 <= i < |packages| ensures packages[i].count == 0 {
      if packages[i].count > 0 {
        DependencyNeedsAnother(packages, dependencies, i, 0);
      }
    }
    assert forall a: nat, b: nat :: !Edge<nat>(Arrows(adj), a, b);
  }

  /** The next dependency of the package on top of the stack, as the search looks it up. */
  method LookUpDependency(packages: seq<Package>, dependencies: seq<nat>, ghost available: set<nat>, i: nat, d: nat)
    returns (index: Option<nat>)
    requires RecordsOk(packages, dependencies, available) && i < |packages| && d < packages[i].count
    ensures index.Some? && index.value < |packages| && Adjacency(packages, dependencies, available)[i][d] == To(index.value)
  {
    assert Adjacency(packages, dependencies, available)[i] == ArcsOf(packages, dependencies, i);
    index := FindPackageIndex(packages, dependencies[packages[i].start + d]);
    assert DependencyOk(packages, dependencies, i, d);
    IndexIsUnique(packages, dependencies[packages[i].start + d], index.value);
  }

  /** The three-colour search, as the manifest check and the package planner run it. It finds every
      dependency, and its stack never outgrows the table. */
  class PackageSearch {
    const scratch: Scratch

    constructor (size: nat)
      ensures scratch.Shape(size) && fresh(scratch.stack) && fresh(scratch.next) && fresh(scratch.states) && fresh(scratch.order)
    {
      scratch := new Scratch(size);
    }

    method Turn(packages: seq<Package>, dependencies: seq<nat>, ghost available: set<nat>, ghost adj: seq<seq<Arc>>,
                ghost root: nat, ghost base: nat, depth: nat, count: nat)
      returns (cyclic: bool, depth': nat, count': nat)
      requires RecordsOk(packages, dependencies, available) && adj == Adjacency(packages, dependencies, available)
      requires scratch.Shape(|adj|) && Walking(adj, scratch.State(depth, count), root, base) && depth > 0
      modifies scratch.stack, scratch.next, scratch.states, scratch.order
      ensures Stepped(adj, root, base, old(scratch.State(depth, count)), cyclic, scratch.State(depth', count'))
    {
      hide RecordsOk, Walking, Stepped, Acyclic, Arrows;
      TopIsStacked(adj, scratch.State(depth, count), root, base);
      ArcsCounted(packages, dependencies, available, scratch.stack[depth - 1]);
      var top := scratch.stack[depth - 1];
      if scratch.next[depth - 1] < packages[top].count {
        count' := count;
        cyclic, depth' := TakeDependency(packages, dependencies, available, adj, root, base, depth, count);
      } else {
        scratch.Finish(adj, root, base, depth, count);
        cyclic, depth', count' := false, depth - 1, count + 1;
      }
    }

    method TakeDependency(packages: seq<Package>, dependencies: seq<nat>, ghost available: set<nat>, ghost adj: seq<seq<Arc>>,
                          ghost root: nat, ghost base: nat, depth: nat, ghost count: nat)
      returns (cyclic: bool, depth': nat)
      requires RecordsOk(packages, dependencies, available) && adj == Adjacency(packages, dependencies, available)
      requires scratch.Shape(|adj|) && Walking(adj, scratch.State(depth, count), root, base) && depth > 0
      requires scratch.stack[depth - 1] < |adj| && scratch.next[depth - 1] < |adj[scratch.stack[depth - 1]]|
      modifies scratch.stack, scratch.next, scratch.states
      ensures Stepped(adj, root, base, old(scratch.State(depth, count)), cyclic, scratch.State(depth', count))
    {
      assert adj[scratch.stack[depth - 1]] == ArcsOf(packages, dependencies, scratch.stack[depth - 1]);
      var found := LookUpDependency(packages, dependencies, available, scratch.stack[depth - 1], scratch.next[depth - 1]);
      cyclic, depth' := scratch.Follow(adj, root, base, depth, count, found.value);
    }

    /** Search everything reachable from one package that no earlier search has seen. */
    method SearchFrom(packages: seq<Package>, dependencies: seq<nat>, ghost available: set<nat>, ghost adj: seq<seq<Arc>>,
                      root: nat, count: nat)
      returns (cyclic: bool, count': nat)
      requires RecordsOk(packages, dependencies, available) && adj == Adjacency(packages, dependencies, available)
      requires scratch.Shape(|adj|) && Resting(adj, scratch.State(0, count)) && root < |packages| && scratch.states[root].Unseen?
      modifies scratch.stack, scratch.next, scratch.states, scratch.order
      ensures cyclic ==> !Acyclic<nat>(Arrows(adj))
      ensures !cyclic ==> Walking(adj, scratch.State(0, count'), root, count)
      ensures !cyclic ==> Resting(adj, scratch.State(0, count')) && scratch.states[root].Done?
      ensures !cyclic ==> DoneStay(old(scratch.states[..]), scratch.states[..])
    {
      hide RecordsOk, Adjacency, Resting, Arrows, Acyclic, Walking, Stepped, EdgesLeft;
      ghost var was := scratch.states[..];
      scratch.Start(adj, root, count);
      var depth: nat := 1;
      cyclic, count' := false, count;
      VisitedFit(adj, scratch.State(depth, count'));
      while !cyclic && depth > 0
        invariant cyclic ==> !Acyclic<nat>(Arrows(adj))
        invariant !cyclic ==> Walking(adj, scratch.State(depth, count'), root, count) && depth + count' <= |packages|
        invariant !cyclic ==> DoneStay(was, scratch.states[..])
        decreases !cyclic, |packages| - (depth + count'), |packages| - count', EdgesLeft(adj, scratch.State(depth, count'))
      {
        ghost var before := scratch.State(depth, count');
        cyclic, depth, count' := Turn(packages, dependencies, available, adj, root, count, depth, count');
        if !cyclic {
          StepIsLower(adj, root, count, before, scratch.State(depth, count'));
        }
      }
      if !cyclic {
        WalkRests(adj, scratch.State(0, count'), root, count);
      }
    }

    /** A table that passes the record checks is rejected exactly when its dependencies have a cycle. */
    method Validate(packages: seq<Package>, dependencies: seq<nat>, ghost available: set<nat>) returns (result: ManifestResult)
      requires RecordsOk(packages, dependencies, available) && scratch.Shape(|packages|)
      modifies scratch.stack, scratch.next, scratch.states, scratch.order
      ensures result == if Acyclic<nat>(Arrows(Adjacency(packages, dependencies, available))) then Ok else CyclicDependency
    {
      if |packages| < 2 || |dependencies| == 0 {
        TrivialIsAcyclic(packages, dependencies, available);
        return Ok;
      }
      ghost var adj := Adjacency(packages, dependencies, available);
      scratch.Clear(adj);
      var count: nat := 0;
      hide Acyclic, RecordsOk;
      for root := 0 to |packages|
        invariant Resting(adj, scratch.State(0, count)) && forall s :: 0 <= s < root ==> scratch.states[s].Done?
      {
        if scratch.states[root].Unseen? {
          var cyclic: bool;
          cyclic, count := SearchFrom(packages, dependencies, available, adj, root, count);
          if cyclic {
            return CyclicDependency;
          }
        }
      }
      FullListIsAcyclic(adj, scratch.State(0, count));
      return Ok;
    }
  }
}
