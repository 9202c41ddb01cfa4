/** What the package loader keeps, stated on values: banks retained in dependency-first order,
    and for every package the number of root leases whose closure contains it. */
module PackageLeases {
  import opened DepthFirst
  import opened Digraph

  /** Loading is a bank whose asynchronous load is under way; Broken one that failed but whose
      native handle is still held. */
  datatype PackageState = Gone | Resident | Broken | Loading

  datatype Holdings = Holdings(states: seq<PackageState>, order: seq<nat>, refs: seq<nat>, roots: seq<nat>)

  /** Leases on the first n packages whose closure contains p. */
  ghost function Leases(adj: seq<seq<Arc>>, roots: seq<nat>, n: nat, p: nat): (leases: nat)
    requires n <= |roots|
  {
    if n == 0 then 0
    else Leases(adj, roots, n - 1, p) + if Reach<nat>(Arrows(adj), n - 1, p) then roots[n - 1] else 0
  }

  /** Every reference count is the number of root leases that reach the package. */
  ghost predicate Counts(adj: seq<seq<Arc>>, h: Holdings)
  {
    && |h.refs| == |h.roots| == |adj|
    && forall p :: 0 <= p < |adj| ==> h.refs[p] == Leases(adj, h.roots, |adj|, p)
  }

  /** The load order lists exactly the packages with a retained bank, each once and after
      everything it depends on. */
  ghost predicate Ordered(adj: seq<seq<Arc>>, h: Holdings)
  {
    && |h.states| == |adj|
    && (forall i :: 0 <= i < |h.order| ==> h.order[i] < |adj|)
    && (forall i, j :: 0 <= i < j < |h.order| ==> h.order[i] != h.order[j])
    && (forall p :: 0 <= p < |adj| ==> (!h.states[p].Gone? <==> p in h.order))
    && (forall i :: 0 <= i < |h.order| ==> AfterTargets(adj, h.order, i))
  }

  /** A leased package has a usable bank. */
  ghost predicate LeasedResident(h: Holdings)
  {
    |h.states| == |h.refs| && forall p :: 0 <= p < |h.refs| && h.refs[p] > 0 ==> h.states[p].Resident?
  }

  ghost predicate Sound(adj: seq<seq<Arc>>, h: Holdings)
    ensures Sound(adj, h) ==> |h.states| == |h.refs| == |h.roots| == |adj|
  {
    ArcsOk(adj) && Counts(adj, h) && Ordered(adj, h) && LeasedResident(h)
  }

  // ---------------------------------------------------------------- counting leases

  lemma {:induction false} LeasesChange(adj: seq<seq<Arc>>, roots: seq<nat>, n: nat, root: nat, leases: nat, p: nat)
    requires n <= |roots| && root < |roots|
    ensures Leases(adj, roots[root := leases], n, p) + (if root < n && Reach<nat>(Arrows(adj), root, p) then roots[root] else 0)
         == Leases(adj, roots, n, p) + (if root < n && Reach<nat>(Arrows(adj), root, p) then leases else 0)
  {
    if n > 0 {
      LeasesChange(adj, roots, n - 1, root, leases, p);
    }
  }

  lemma {:induction false} LeaseCounts(adj: seq<seq<Arc>>, roots: seq<nat>, n: nat, root: nat, p: nat)
    requires root < n <= |roots| && Reach<nat>(Arrows(adj), root, p)
    ensures roots[root] <= Leases(adj, roots, n, p)
  {
    if root < n - 1 {
      LeaseCounts(adj, roots, n - 1, root, p);
    }
  }

  lemma {:induction false} SomeLease(adj: seq<seq<Arc>>, roots: seq<nat>, n: nat, p: nat) returns (root: nat)
    requires n <= |roots| && Leases(adj, roots, n, p) > 0
    ensures root < n && roots[root] > 0 && Reach<nat>(Arrows(adj), root, p)
  {
    if Reach<nat>(Arrows(adj), n - 1, p) && roots[n - 1] > 0 {
      root := n - 1;
    } else {
      root := SomeLease(adj, roots, n - 1, p);
    }
  }

  /** A lease that reaches a package reaches what it depends on. */
  lemma LeasedDependency(adj: seq<seq<Arc>>, h: Holdings, q: nat, p: nat)
    requires Counts(adj, h) && q < |adj| && p < |adj| && To(p) in adj[q] && h.refs[q] > 0
    ensures h.refs[p] > 0
  {
    var root := SomeLease(adj, h.roots, |adj|, q);
    assert Edge<nat>(Arrows(adj), q, p);
    ReachAppend<nat>(Arrows(adj), root, q, p);
    LeaseCounts(adj, h.roots, |adj|, root, p);
  }

  lemma {:induction false} NoLeases(adj: seq<seq<Arc>>, roots: seq<nat>, n: nat, p: nat)
    requires n <= |roots| && forall r :: 0 <= r < |roots| ==> roots[r] == 0
    ensures Leases(adj, roots, n, p) == 0
  {
    if n > 0 {
      NoLeases(adj, roots, n - 1, p);
    }
  }

  // ---------------------------------------------------------------- the changes the loader makes

  function Retained(h: Holdings, p: nat, state: PackageState): Holdings
    requires p < |h.states|
  {
    h.(states := h.states[p := state], order := h.order + [p])
  }

  /** A bank kept for a package whose dependencies are all kept. */
  lemma RetainKeepsSound(adj: seq<seq<Arc>>, h: Holdings, p: nat, state: PackageState)
    requires Sound(adj, h) && p < |adj| && h.states[p].Gone? && !state.Gone?
    requires forall e :: 0 <= e < |adj[p]| ==> Before(h.order, adj[p][e])
    ensures Sound(adj, Retained(h, p, state))
  {
    var h' := Retained(h, p, state);
    assert h.refs[p] == 0;
    forall i | 0 <= i < |h'.order| ensures AfterTargets(adj, h'.order, i) {
      if i < |h.order| {
        assert h'.order[..i] == h.order[..i];
        assert AfterTargets(adj, h.order, i);
      } else {
        assert h'.order[..i] == h.order;
      }
    }
  }

  function StateChanged(h: Holdings, p: nat, state: PackageState): Holdings
    requires p < |h.states|
  {
    h.(states := h.states[p := state])
  }

  lemma StateChangeKeepsSound(adj: seq<seq<Arc>>, h: Holdings, p: nat, state: PackageState)
    requires Sound(adj, h) && p < |adj| && !h.states[p].Gone? && !state.Gone? && h.refs[p] == 0
    ensures Sound(adj, StateChanged(h, p, state))
  {
  }

  function WithoutAt(order: seq<nat>, i: nat): (shorter: seq<nat>)
    requires i < |order|
    ensures |shorter| == |order| - 1
    ensures forall j :: 0 <= j < |shorter| ==> shorter[j] == order[if j < i then j else j + 1]
  {
    order[..i] + order[i + 1..]
  }

  /** The bank at position i of the load order is unloaded. */
  function Dropped(h: Holdings, i: nat): Holdings
    requires i < |h.order| && h.order[i] < |h.states|
  {
    h.(states := h.states[h.order[i] := Gone], order := WithoutAt(h.order, i))
  }

  lemma DroppedMembers(order: seq<nat>, i: nat, p: nat)
    requires i < |order| && forall a, b :: 0 <= a < b < |order| ==> order[a] != order[b]
    ensures p in WithoutAt(order, i) <==> p in order && p != order[i]
  {
    var shorter := WithoutAt(order, i);
    if p in order && p != order[i] {
      var a :| 0 <= a < |order| && order[a] == p;
      assert shorter[if a < i then a else a - 1] == p;
    }
    if p in shorter {
      var j :| 0 <= j < |shorter| && shorter[j] == p;
      assert order[if j < i then j else j + 1] == p;
    }
  }

  /** An unleased bank can go once everything listed after it is leased. */
  lemma DropKeepsSound(adj: seq<seq<Arc>>, h: Holdings, i: nat)
    requires Sound(adj, h) && i < |h.order| && h.refs[h.order[i]] == 0
    requires forall j :: i < j < |h.order| ==> h.refs[h.order[j]] > 0
    ensures Sound(adj, Dropped(h, i))
  {
    var h' := Dropped(h, i);
    var p := h.order[i];
    forall q | 0 <= q < |adj| ensures !h'.states[q].Gone? <==> q in h'.order {
      DroppedMembers(h.order, i, q);
    }
    forall j | 0 <= j < |h'.order| ensures AfterTargets(adj, h'.order, j) {
      DropKeepsPlace(adj, h, i, j);
    }
  }

  lemma DropKeepsPlace(adj: seq<seq<Arc>>, h: Holdings, i: nat, j: nat)
    requires Sound(adj, h) && i < |h.order| && h.refs[h.order[i]] == 0 && j < |h.order| - 1
    requires forall j :: i < j < |h.order| ==> h.refs[h.order[j]] > 0
    ensures WithoutAt(h.order, i)[j] < |adj| && AfterTargets(adj, WithoutAt(h.order, i), j)
  {
    var shorter := WithoutAt(h.order, i);
    var k := if j < i then j else j + 1;
    assert AfterTargets(adj, h.order, k);
    forall e | 0 <= e < |adj[shorter[j]]| ensures Before(shorter[..j], adj[shorter[j]][e]) {
      var arc := adj[h.order[k]][e];
      assert Before(h.order[..k], arc);
      if arc.To? {
        assert arc in adj[h.order[k]];
        var a :| 0 <= a < k && h.order[a] == arc.node;
        if k > i {
          LeasedDependency(adj, h, h.order[k], arc.node);
        }
        PrefixWithout(h.order, i, k, a);
      }
    }
  }

  lemma PrefixWithout(order: seq<nat>, i: nat, k: nat, a: nat)
    requires i < |order| && k < |order| && k != i && a < k && a != i
    ensures var j := if k < i then k else k - 1; j < |WithoutAt(order, i)| && order[a] in WithoutAt(order, i)[..j]
  {
    var j := if k < i then k else k - 1;
    assert WithoutAt(order, i)[..j][if a < i then a else a - 1] == order[a];
  }

  /** One more lease on root, counted on everything in its closure. */
  ghost predicate Acquired(adj: seq<seq<Arc>>, h: Holdings, root: nat, h': Holdings)
  {
    && |h.refs| == |h.roots| == |adj| && root < |adj| && |h'.refs| == |adj|
    && h'.states == h.states && h'.order == h.order && h'.roots == h.roots[root := h.roots[root] + 1]
    && forall p :: 0 <= p < |adj| ==>
         h'.refs[p] == h.refs[p] + if Reach<nat>(Arrows(adj), root, p) then 1 else 0
  }

  lemma AcquireKeepsSound(adj: seq<seq<Arc>>, h: Holdings, root: nat, h': Holdings)
    requires Sound(adj, h) && Acquired(adj, h, root, h')
    requires forall p: nat :: p < |adj| && Reach<nat>(Arrows(adj), root, p) ==> h.states[p].Resident?
    ensures Sound(adj, h')
  {
    forall p | 0 <= p < |adj| ensures h'.refs[p] == Leases(adj, h'.roots, |adj|, p) {
      LeasesChange(adj, h.roots, |adj|, root, h.roots[root] + 1, p);
    }
    hide Reach, AfterTargets, Leases;
  }

  /** One lease less. */
  ghost predicate Released(adj: seq<seq<Arc>>, h: Holdings, root: nat, h': Holdings)
  {
    && |h.refs| == |h.roots| == |adj| && root < |adj| && |h'.refs| == |adj| && h.roots[root] > 0
    && h'.states == h.states && h'.order == h.order && h'.roots == h.roots[root := h.roots[root] - 1]
    && forall p :: 0 <= p < |adj| ==>
         h.refs[p] == h'.refs[p] + if Reach<nat>(Arrows(adj), root, p) then 1 else 0
  }

  lemma ReleaseKeepsSound(adj: seq<seq<Arc>>, h: Holdings, root: nat, h': Holdings)
    requires Sound(adj, h) && Released(adj, h, root, h')
    ensures Sound(adj, h')
  {
    forall p | 0 <= p < |adj| ensures h'.refs[p] == Leases(adj, h'.roots, |adj|, p) {
      LeasesChange(adj, h.roots, |adj|, root, h.roots[root] - 1, p);
    }
    hide Reach, AfterTargets, Leases;
  }

  /** What a lease keeps: its whole closure is counted and resident. */
  lemma LeaseHoldsClosure(adj: seq<seq<Arc>>, h: Holdings, root: nat, p: nat)
    requires Sound(adj, h) && root < |adj| && h.roots[root] > 0 && p < |adj| && Reach<nat>(Arrows(adj), root, p)
    ensures h.refs[p] > 0 && h.states[p].Resident? && p in h.order
  {
    LeaseCounts(adj, h.roots, |adj|, root, p);
  }
}
