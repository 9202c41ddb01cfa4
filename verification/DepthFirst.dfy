/** Depth-first search with an explicit stack, three colours and a list of finished nodes, as the
    dependency planner, the manifest check and the package planner all run it. */
module DepthFirst {
  import opened Digraph

  datatype Colour = Unseen | OnStack | Done

  /** Where an edge of a node leads: to a node, to something that may be absent, or to something
      that must be there and is not. */
  datatype Arc = To(node: nat) | Absent | Missing

  /** The scratch arrays of a search: a stack of nodes with the next edge of each, a colour per
      node and the finished nodes so far. */
  datatype Walk = Walk(
    stack: seq<nat>,
    next: seq<nat>,
    states: seq<Colour>,
    order: seq<nat>,
    depth: nat,
    count: nat)

  ghost predicate ArcsOk(adj: seq<seq<Arc>>)
  {
    forall s, e :: 0 <= s < |adj| && 0 <= e < |adj[s]| && adj[s][e].To? ==> adj[s][e].node < |adj|
  }

  function NodesOf(arcs: seq<Arc>): (nodes: seq<nat>)
    ensures forall t :: t in nodes <==> To(t) in arcs
  {
    if arcs == [] then []
    else NodesOf(arcs[..|arcs| - 1]) + if arcs[|arcs| - 1].To? then [arcs[|arcs| - 1].node] else []
  }

  ghost function Arrows(adj: seq<seq<Arc>>): (g: Graph<nat>)
    ensures forall a: nat, b: nat :: Edge<nat>(g, a, b) <==> a < |adj| && To(b) in adj[a]
  {
    map a: nat | a < |adj| :: NodesOf(adj[a])
  }

  ghost predicate Sizes(n: nat, w: Walk)
  {
    |w.stack| == |w.next| == |w.states| == |w.order| == n && w.depth <= n && w.count <= n
  }

  /** The first depth entries of the stack are exactly the nodes on it by colour. */
  ghost predicate Stacked(adj: seq<seq<Arc>>, w: Walk)
    requires Sizes(|adj|, w)
  {
    && (forall i :: 0 <= i < w.depth ==>
          w.stack[i] < |adj| && w.states[w.stack[i]].OnStack? && w.next[i] <= |adj[w.stack[i]]|)
    && (forall i, j :: 0 <= i < j < w.depth ==> w.stack[i] != w.stack[j])
    && (forall s :: 0 <= s < |w.states| && w.states[s].OnStack? ==> s in w.stack[..w.depth])
  }

  /** The edge taken last from the node leads to the child. */
  ghost predicate LastEdgeTo(adj: seq<seq<Arc>>, s: nat, next: nat, child: nat)
  {
    s < |adj| && 0 < next <= |adj[s]| && adj[s][next - 1] == To(child)
  }

  /** Each stacked node was pushed for the last edge taken from the one below. */
  ghost predicate Linked(adj: seq<seq<Arc>>, w: Walk)
    requires Sizes(|adj|, w)
  {
    forall i :: 0 <= i < w.depth - 1 ==> LastEdgeTo(adj, w.stack[i], w.next[i], w.stack[i + 1])
  }

  /** Nothing is left to do for the edge: its node is finished, or it may be absent. */
  ghost predicate Settled(states: seq<Colour>, arc: Arc)
  {
    match arc
    case To(node) => node < |states| && states[node].Done?
    case Absent => true
    case Missing => false
  }

  ghost predicate EdgesSettled(adj: seq<seq<Arc>>, w: Walk)
    requires Sizes(|adj|, w) && Stacked(adj, w)
  {
    forall i, e :: 0 <= i < w.depth && 0 <= e < w.next[i] && (i < w.depth - 1 ==> e < w.next[i] - 1) ==>
      Settled(w.states, adj[w.stack[i]][e])
  }

  /** The edge's node is among the nodes, or it may be absent. */
  ghost predicate Before(nodes: seq<nat>, arc: Arc)
  {
    match arc
    case To(node) => node in nodes
    case Absent => true
    case Missing => false
  }

  ghost predicate AfterTargets(adj: seq<seq<Arc>>, order: seq<nat>, j: nat)
    requires j < |order| && order[j] < |adj|
  {
    forall e :: 0 <= e < |adj[order[j]]| ==> Before(order[..j], adj[order[j]][e])
  }

  /** The list holds exactly the finished nodes, each after everything its edges lead to. */
  ghost predicate Listed(adj: seq<seq<Arc>>, w: Walk)
    requires Sizes(|adj|, w)
  {
    && (forall j :: 0 <= j < w.count ==> w.order[j] < |adj| && w.states[w.order[j]].Done?)
    && (forall i, j :: 0 <= i < j < w.count ==> w.order[i] != w.order[j])
    && (forall s :: 0 <= s < |w.states| && w.states[s].Done? ==> s in w.order[..w.count])
    && (forall j :: 0 <= j < w.count ==> AfterTargets(adj, w.order, j))
  }

  /** What the search from root has met since the list had base entries is reachable from root. */
  ghost predicate Reached(adj: seq<seq<Arc>>, w: Walk, root: nat, base: nat)
    requires Sizes(|adj|, w)
  {
    && (forall i :: 0 <= i < w.depth ==> Reach<nat>(Arrows(adj), root, w.stack[i]))
    && (forall j :: base <= j < w.count ==> Reach<nat>(Arrows(adj), root, w.order[j]))
  }

  /** The search from root, started when base nodes were finished. */
  ghost predicate Walking(adj: seq<seq<Arc>>, w: Walk, root: nat, base: nat)
    ensures Walking(adj, w, root, base) ==> Sizes(|adj|, w) && Stacked(adj, w) && ArcsOk(adj)
  {
    && ArcsOk(adj) && root < |adj|
    && Sizes(|adj|, w) && Stacked(adj, w) && Linked(adj, w) && EdgesSettled(adj, w)
    && Listed(adj, w) && Reached(adj, w, root, base)
    && base <= w.count
    && (if w.depth > 0 then w.stack[0] == root else w.count > base && w.order[w.count - 1] == root)
  }

  /** Between searches: nothing on the stack, and the list is closed under edges. */
  ghost predicate Resting(adj: seq<seq<Arc>>, w: Walk)
    ensures Resting(adj, w) ==> Sizes(|adj|, w) && ArcsOk(adj)
  {
    && ArcsOk(adj) && Sizes(|adj|, w) && w.depth == 0 && Stacked(adj, w) && Listed(adj, w)
  }

  lemma WalkRests(adj: seq<seq<Arc>>, w: Walk, root: nat, base: nat)
    requires Walking(adj, w, root, base) && w.depth == 0
    ensures Resting(adj, w) && root < |w.states| && w.states[root].Done?
  {
  }

  lemma NothingSeenRests(adj: seq<seq<Arc>>, w: Walk)
    requires ArcsOk(adj) && Sizes(|adj|, w) && w.depth == 0 && w.count == 0
    requires forall s :: 0 <= s < |w.states| ==> w.states[s].Unseen?
    ensures Resting(adj, w)
  {
  }

  // ---------------------------------------------------------------- the steps of the search

  function Started(w: Walk, root: nat): Walk
    requires 0 < |w.stack| == |w.next| && root < |w.states|
  {
    w.(stack := w.stack[0 := root], next := w.next[0 := 0], states := w.states[root := OnStack], depth := 1)
  }

  lemma WalkStarts(adj: seq<seq<Arc>>, w: Walk, root: nat)
    requires Resting(adj, w) && root < |adj| && w.states[root].Unseen?
    ensures Walking(adj, Started(w, root), root, w.count)
  {
    ReachSelf<nat>(Arrows(adj), root);
    assert Started(w, root).stack[..1] == [root];
  }

  function Skipped(w: Walk): Walk
    requires 0 < w.depth <= |w.next|
  {
    w.(next := w.next[w.depth - 1 := w.next[w.depth - 1] + 1])
  }

  lemma SkipStacked(adj: seq<seq<Arc>>, w: Walk)
    requires Sizes(|adj|, w) && Stacked(adj, w) && Linked(adj, w) && w.depth > 0
    requires w.next[w.depth - 1] < |adj[w.stack[w.depth - 1]]|
    ensures Sizes(|adj|, Skipped(w)) && Stacked(adj, Skipped(w)) && Linked(adj, Skipped(w))
  {
    hide LastEdgeTo;
  }

  lemma SkipSettled(adj: seq<seq<Arc>>, w: Walk)
    requires Sizes(|adj|, w) && Stacked(adj, w) && w.depth > 0
    requires EdgesSettled(adj, w) && Sizes(|adj|, Skipped(w)) && Stacked(adj, Skipped(w))
    requires w.next[w.depth - 1] < |adj[w.stack[w.depth - 1]]|
    requires Settled(w.states, adj[w.stack[w.depth - 1]][w.next[w.depth - 1]])
    ensures EdgesSettled(adj, Skipped(w))
  {
    hide Settled;
  }

  lemma SkipListed(adj: seq<seq<Arc>>, w: Walk, root: nat, base: nat)
    requires Walking(adj, w, root, base) && w.depth > 0 && Sizes(|adj|, Skipped(w))
    ensures Listed(adj, Skipped(w)) && Reached(adj, Skipped(w), root, base)
  {
    hide Stacked, Linked, EdgesSettled, AfterTargets, Reach;
  }

  /** An edge that is settled is passed over. */
  lemma WalkSkips(adj: seq<seq<Arc>>, w: Walk, root: nat, base: nat)
    requires Walking(adj, w, root, base) && w.depth > 0
    requires w.next[w.depth - 1] < |adj[w.stack[w.depth - 1]]|
    requires Settled(w.states, adj[w.stack[w.depth - 1]][w.next[w.depth - 1]])
    ensures Walking(adj, Skipped(w), root, base)
  {
    SkipStacked(adj, w);
    SkipSettled(adj, w);
    SkipListed(adj, w, root, base);
    hide Sizes, Stacked, Linked, EdgesSettled, Listed, Reached, Settled;
  }

  lemma StackHasRoom(adj: seq<seq<Arc>>, w: Walk, s: nat)
    requires Sizes(|adj|, w) && Stacked(adj, w) && s < |adj| && w.states[s].Unseen?
    ensures w.depth < |adj|
  {
    DistinctBelow(w.stack[..w.depth] + [s], |adj|);
  }

  lemma VisitedFit(adj: seq<seq<Arc>>, w: Walk)
    requires Sizes(|adj|, w) && Stacked(adj, w) && Listed(adj, w)
    ensures w.depth + w.count <= |adj|
  {
    var visited := w.stack[..w.depth] + w.order[..w.count];
    forall i, j | 0 <= i < j < |visited| ensures visited[i] != visited[j] {
      if i < w.depth <= j {
        assert w.states[visited[i]].OnStack? && w.states[visited[j]].Done?;
      }
    }
    DistinctBelow(visited, |adj|);
  }

  function Pushed(w: Walk, child: nat): Walk
    requires 0 < w.depth <= |w.next| && w.depth < |w.next| == |w.stack| && child < |w.states|
  {
    w.(stack := w.stack[w.depth := child],
       next := w.next[w.depth - 1 := w.next[w.depth - 1] + 1][w.depth := 0],
       states := w.states[child := OnStack],
       depth := w.depth + 1)
  }

  ghost predicate TopEdgeTo(adj: seq<seq<Arc>>, w: Walk, child: nat)
    requires Sizes(|adj|, w)
  {
    w.depth > 0 && LastEdgeTo(adj, w.stack[w.depth - 1], w.next[w.depth - 1] + 1, child)
  }

  lemma PushStacked(adj: seq<seq<Arc>>, w: Walk, child: nat)
    requires Sizes(|adj|, w) && Stacked(adj, w) && 0 < w.depth < |adj|
    requires child < |adj| && w.states[child].Unseen?
    requires w.next[w.depth - 1] < |adj[w.stack[w.depth - 1]]|
    ensures Sizes(|adj|, Pushed(w, child)) && Stacked(adj, Pushed(w, child))
  {
    var w' := Pushed(w, child);
    forall s | 0 <= s < |w'.states| && w'.states[s].OnStack? ensures s in w'.stack[..w'.depth] {
      if s == child {
        assert w'.stack[..w'.depth][w.depth] == child;
      } else {
        var i :| 0 <= i < w.depth && w.stack[i] == s;
        assert w'.stack[..w'.depth][i] == s;
      }
    }
  }

  lemma PushLinked(adj: seq<seq<Arc>>, w: Walk, child: nat)
    requires Sizes(|adj|, w) && Linked(adj, w) && TopEdgeTo(adj, w, child) && w.depth < |adj| && child < |adj|
    requires Sizes(|adj|, Pushed(w, child))
    ensures Linked(adj, Pushed(w, child))
  {
    hide LastEdgeTo;
  }

  lemma PushSettled(adj: seq<seq<Arc>>, w: Walk, child: nat)
    requires Sizes(|adj|, w) && Stacked(adj, w) && Linked(adj, w) && EdgesSettled(adj, w)
    requires TopEdgeTo(adj, w, child) && w.depth < |adj| && child < |adj| && w.states[child].Unseen?
    requires Sizes(|adj|, Pushed(w, child)) && Stacked(adj, Pushed(w, child))
    ensures Linked(adj, Pushed(w, child)) && EdgesSettled(adj, Pushed(w, child))
  {
    PushLinked(adj, w, child);
    hide Linked, LastEdgeTo;
    var w' := Pushed(w, child);
    forall i, e | 0 <= i < w'.depth && 0 <= e < w'.next[i] && (i < w'.depth - 1 ==> e < w'.next[i] - 1)
      ensures Settled(w'.states, adj[w'.stack[i]][e])
    {
      assert Settled(w.states, adj[w.stack[i]][e]);
    }
  }

  lemma PushListed(adj: seq<seq<Arc>>, w: Walk, root: nat, base: nat, child: nat)
    requires Walking(adj, w, root, base) && 0 < w.depth < |adj|
    requires child < |adj| && w.states[child].Unseen? && Sizes(|adj|, Pushed(w, child))
    ensures Listed(adj, Pushed(w, child))
  {
    hide Stacked, Linked, EdgesSettled, AfterTargets, Reached;
  }

  lemma PushReached(adj: seq<seq<Arc>>, w: Walk, root: nat, base: nat, child: nat)
    requires Walking(adj, w, root, base) && TopEdgeTo(adj, w, child)
    requires child < |adj| && w.depth < |adj| && Sizes(|adj|, Pushed(w, child))
    ensures Reached(adj, Pushed(w, child), root, base)
  {
    var g := Arrows(adj);
    assert Edge<nat>(g, w.stack[w.depth - 1], child);
    ReachAppend<nat>(g, root, w.stack[w.depth - 1], child);
    hide Reach, Linked, EdgesSettled, Listed;
  }

  /** An edge to an unseen node is followed. */
  lemma WalkPushes(adj: seq<seq<Arc>>, w: Walk, root: nat, base: nat, child: nat)
    requires Walking(adj, w, root, base) && TopEdgeTo(adj, w, child)
    requires child < |adj| && w.states[child].Unseen?
    ensures w.depth < |adj| && Walking(adj, Pushed(w, child), root, base)
  {
    StackHasRoom(adj, w, child);
    PushStacked(adj, w, child);
    PushSettled(adj, w, child);
    PushListed(adj, w, root, base, child);
    PushReached(adj, w, root, base, child);
    hide Sizes, Stacked, Linked, EdgesSettled, Listed, Reached, LastEdgeTo;
  }

  function Finished(w: Walk): Walk
    requires 0 < w.depth <= |w.stack| && w.stack[w.depth - 1] < |w.states| && w.count < |w.order|
  {
    var node := w.stack[w.depth - 1];
    w.(states := w.states[node := Done], order := w.order[w.count := node], depth := w.depth - 1, count := w.count + 1)
  }

  lemma FinishStacked(adj: seq<seq<Arc>>, w: Walk)
    requires Sizes(|adj|, w) && Stacked(adj, w) && w.depth > 0 && w.count < |adj|
    ensures Sizes(|adj|, Finished(w)) && Stacked(adj, Finished(w))
  {
    var w' := Finished(w);
    forall s | 0 <= s < |w'.states| && w'.states[s].OnStack? ensures s in w'.stack[..w'.depth] {
      var i :| 0 <= i < w.depth && w.stack[i] == s;
      assert w'.stack[..w'.depth][i] == s;
    }
  }

  lemma FinishMembers(w: Walk)
    requires 0 < w.depth <= |w.stack| && w.stack[w.depth - 1] < |w.states| && w.count < |w.order|
    requires forall s :: 0 <= s < |w.states| && w.states[s].Done? ==> s in w.order[..w.count]
    ensures forall s :: 0 <= s < |w.states| && Finished(w).states[s].Done? ==> s in Finished(w).order[..w.count + 1]
  {
    var w' := Finished(w);
    assert w'.order[..w'.count] == w.order[..w.count] + [w.stack[w.depth - 1]];
  }

  lemma FinishListed(adj: seq<seq<Arc>>, w: Walk, root: nat, base: nat)
    requires Walking(adj, w, root, base) && w.depth > 0 && w.count < |adj|
    requires w.next[w.depth - 1] == |adj[w.stack[w.depth - 1]]|
    ensures Sizes(|adj|, Finished(w)) && Listed(adj, Finished(w))
  {
    hide Linked, Reached;
    FinishMembers(w);
    var w' := Finished(w);
    FinishedComesLast(adj, w, root, base);
    forall j | 0 <= j < w'.count ensures AfterTargets(adj, w'.order, j) {
      if j < w.count {
        assert AfterTargets(adj, w.order, j) && w'.order[..j] == w.order[..j];
      }
    }
  }

  /** Everything the finished node leads to is on the list before it. */
  lemma FinishedComesLast(adj: seq<seq<Arc>>, w: Walk, root: nat, base: nat)
    requires Walking(adj, w, root, base) && w.depth > 0 && w.count < |adj|
    requires w.next[w.depth - 1] == |adj[w.stack[w.depth - 1]]|
    ensures AfterTargets(adj, Finished(w).order, w.count)
  {
    hide Linked, Reached;
    FinishMembers(w);
    var w' := Finished(w);
    assert w'.order[..w.count] == w.order[..w.count];
    forall e | 0 <= e < |adj[w'.order[w.count]]| ensures Before(w'.order[..w.count], adj[w'.order[w.count]][e]) {
      assert Settled(w.states, adj[w'.order[w.count]][e]);
    }
  }

  lemma FinishSettled(adj: seq<seq<Arc>>, w: Walk, root: nat, base: nat)
    requires Walking(adj, w, root, base) && w.depth > 0 && w.count < |adj|
    requires Sizes(|adj|, Finished(w)) && Stacked(adj, Finished(w))
    ensures EdgesSettled(adj, Finished(w))
  {
    hide Listed, Reached;
    var w' := Finished(w);
    forall i, e | 0 <= i < w'.depth && 0 <= e < w'.next[i] && (i < w'.depth - 1 ==> e < w'.next[i] - 1)
      ensures Settled(w'.states, adj[w'.stack[i]][e])
    {
      if i == w'.depth - 1 {
        assert LastEdgeTo(adj, w.stack[i], w.next[i], w.stack[i + 1]);
      }
      if e < w.next[i] - 1 {
        assert Settled(w.states, adj[w.stack[i]][e]);
      }
    }
  }

  lemma FinishReached(adj: seq<seq<Arc>>, w: Walk, root: nat, base: nat)
    requires Walking(adj, w, root, base) && w.depth > 0 && w.count < |adj| && Sizes(|adj|, Finished(w))
    ensures Reached(adj, Finished(w), root, base) && Linked(adj, Finished(w))
  {
    hide EdgesSettled, Listed, Reach, LastEdgeTo;
  }

  /** A node with no edge left is listed and leaves the stack. */
  lemma WalkFinishes(adj: seq<seq<Arc>>, w: Walk, root: nat, base: nat)
    requires Walking(adj, w, root, base) && w.depth > 0
    requires w.next[w.depth - 1] == |adj[w.stack[w.depth - 1]]|
    ensures w.count < |adj| && Walking(adj, Finished(w), root, base)
  {
    VisitedFit(adj, w);
    FinishStacked(adj, w);
    FinishListed(adj, w, root, base);
    FinishSettled(adj, w, root, base);
    FinishReached(adj, w, root, base);
    hide Sizes, Stacked, EdgesSettled, Listed, Reached, LastEdgeTo;
  }

  /** What makes the search terminate: a node is pushed, listed, or one more of its edges is taken.
      Finished nodes stay finished. */
  ghost predicate Progress(w: Walk, w': Walk)
  {
    DoneStay(w.states, w'.states) && Advances(w, w')
  }

  ghost predicate DoneStay(states: seq<Colour>, states': seq<Colour>)
  {
    |states'| == |states| && forall s :: 0 <= s < |states| && states[s].Done? ==> states'[s].Done?
  }

  ghost predicate Advances(w: Walk, w': Walk)
  {
    || w'.depth + w'.count > w.depth + w.count
    || (w'.depth + w'.count == w.depth + w.count && w'.count > w.count)
    || (w'.depth == w.depth && w'.count == w.count && 0 < w.depth <= |w.stack| == |w'.stack| == |w.next| == |w'.next|
        && w'.stack[w.depth - 1] == w.stack[w.depth - 1] && w'.next[w.depth - 1] == w.next[w.depth - 1] + 1)
  }

  lemma SkipProgresses(w: Walk)
    requires 0 < w.depth <= |w.stack| == |w.next|
    ensures Progress(w, Skipped(w))
  {
  }

  lemma PushProgresses(w: Walk, child: nat)
    requires 0 < w.depth < |w.next| == |w.stack| && child < |w.states| && w.states[child].Unseen?
    ensures Progress(w, Pushed(w, child))
  {
  }

  lemma FinishProgresses(w: Walk)
    requires 0 < w.depth <= |w.stack| && w.stack[w.depth - 1] < |w.states| && w.count < |w.order|
    ensures Progress(w, Finished(w))
  {
  }

  /** Edges the node on top of the stack still has to take. */
  ghost function EdgesLeft(adj: seq<seq<Arc>>, w: Walk): (n: nat)
  {
    if 0 < w.depth <= |w.stack| == |w.next| && w.stack[w.depth - 1] < |adj| && w.next[w.depth - 1] <= |adj[w.stack[w.depth - 1]]| then
      |adj[w.stack[w.depth - 1]]| - w.next[w.depth - 1]
    else 0
  }

  ghost predicate Lower(n: nat, a: (nat, nat), b: (nat, nat), edgesA: nat, edgesB: nat)
  {
    || n - a.0 - a.1 < n - b.0 - b.1
    || (a.0 + a.1 == b.0 + b.1 && n - a.1 < n - b.1)
    || (a == b && edgesA < edgesB)
  }

  lemma ProgressIsLower(adj: seq<seq<Arc>>, w: Walk, w': Walk, root: nat, base: nat)
    requires Walking(adj, w', root, base) && Progress(w, w')
    ensures Lower(|adj|, (w'.depth, w'.count), (w.depth, w.count), EdgesLeft(adj, w'), EdgesLeft(adj, w))
    ensures w'.depth + w'.count <= |adj| && DoneStay(w.states, w'.states)
  {
    VisitedFit(adj, w');
  }

  // ---------------------------------------------------------------- cycles, and what the list means

  lemma {:induction false} StackReach(adj: seq<seq<Arc>>, w: Walk, i: nat, j: nat)
    requires Sizes(|adj|, w) && Linked(adj, w) && i <= j < w.depth
    ensures Reach<nat>(Arrows(adj), w.stack[i], w.stack[j])
    decreases j - i
  {
    var g := Arrows(adj);
    if i == j {
      ReachSelf<nat>(g, w.stack[i]);
    } else {
      StackReach(adj, w, i, j - 1);
      assert LastEdgeTo(adj, w.stack[j - 1], w.next[j - 1], w.stack[j]);
      assert Edge<nat>(g, w.stack[j - 1], w.stack[j]);
      ReachAppend<nat>(g, w.stack[i], w.stack[j - 1], w.stack[j]);
    }
  }

  /** An edge back onto the stack closes a cycle. */
  lemma BackEdgeIsCycle(adj: seq<seq<Arc>>, w: Walk, child: nat)
    requires Sizes(|adj|, w) && Stacked(adj, w) && Linked(adj, w)
    requires TopEdgeTo(adj, w, child) && child < |adj| && w.states[child].OnStack?
    ensures !Acyclic<nat>(Arrows(adj))
  {
    var i :| 0 <= i < w.depth && w.stack[i] == child;
    StackReach(adj, w, i, w.depth - 1);
    assert Edge<nat>(Arrows(adj), w.stack[w.depth - 1], child);
  }

  /** The nodes reachable from root, each once, each after all of its successors. */
  ghost predicate ClosureOrder(adj: seq<seq<Arc>>, root: nat, order: seq<nat>)
  {
    && (forall s: nat :: s in order <==> Reach<nat>(Arrows(adj), root, s))
    && (forall i, j :: 0 <= i < j < |order| ==> order[i] != order[j])
    && (forall j :: 0 <= j < |order| ==> order[j] < |adj| && AfterTargets(adj, order, j))
    && |order| > 0 && order[|order| - 1] == root
  }

  /** A search from root over an untouched graph lists exactly the closure of root. */
  lemma ListIsClosure(adj: seq<seq<Arc>>, w: Walk, root: nat)
    requires Walking(adj, w, root, 0) && w.depth == 0
    ensures ClosureOrder(adj, root, w.order[..w.count])
  {
    var order := w.order[..w.count];
    forall s: nat ensures s in order <==> Reach<nat>(Arrows(adj), root, s) {
      ListedIsReachable(adj, w, root, s);
    }
    hide Reached, Reach, Before;
    forall j | 0 <= j < |order| ensures AfterTargets(adj, order, j) {
      assert order[..j] == w.order[..j];
      assert AfterTargets(adj, w.order, j);
    }
  }

  lemma ListedIsReachable(adj: seq<seq<Arc>>, w: Walk, root: nat, s: nat)
    requires Walking(adj, w, root, 0) && w.depth == 0
    ensures s in w.order[..w.count] <==> Reach<nat>(Arrows(adj), root, s)
  {
    var order := w.order[..w.count];
    var listed: iset<nat> := iset k: nat | k in order;
    forall a: nat, b: nat | a in listed && Edge<nat>(Arrows(adj), a, b) ensures b in listed {
      var j :| 0 <= j < w.count && w.order[j] == a;
      assert AfterTargets(adj, w.order, j);
      var e :| 0 <= e < |adj[a]| && adj[a][e] == To(b);
      assert Before(w.order[..j], adj[a][e]);
    }
    if Reach<nat>(Arrows(adj), root, s) {
      assert w.order[w.count - 1] == root && root in order;
      ClosedUnderReach<nat>(Arrows(adj), listed, root, s);
    }
  }

  function Position(order: seq<nat>, s: nat): (p: nat)
    requires s in order
    ensures p < |order| && order[p] == s
  {
    if order[0] == s then 0 else 1 + Position(order[1..], s)
  }

  /** When every node has been listed, no cycle exists: edges lead strictly down the list. */
  lemma FullListIsAcyclic(adj: seq<seq<Arc>>, w: Walk)
    requires Resting(adj, w) && forall s :: 0 <= s < |adj| ==> w.states[s].Done?
    ensures Acyclic<nat>(Arrows(adj))
  {
    var g := Arrows(adj);
    var order := w.order[..w.count];
    forall a: nat, b: nat | Edge<nat>(g, a, b) ensures !Reach<nat>(g, b, a) {
      EdgeGoesDown(adj, w, a, b);
      var below: iset<nat> := iset k: nat | k in order && Position(order, k) <= Position(order, b);
      forall x: nat, y: nat | x in below && Edge<nat>(g, x, y) ensures y in below {
        EdgeGoesDown(adj, w, x, y);
      }
      if Reach<nat>(g, b, a) {
        ClosedUnderReach<nat>(g, below, b, a);
      }
    }
  }

  lemma EdgeGoesDown(adj: seq<seq<Arc>>, w: Walk, a: nat, b: nat)
    requires Resting(adj, w) && (forall s :: 0 <= s < |adj| ==> w.states[s].Done?) && Edge<nat>(Arrows(adj), a, b)
    ensures a in w.order[..w.count] && b in w.order[..w.count]
    ensures Position(w.order[..w.count], b) < Position(w.order[..w.count], a)
  {
    var order := w.order[..w.count];
    var j := Position(order, a);
    assert AfterTargets(adj, w.order, j);
    var e :| 0 <= e < |adj[a]| && adj[a][e] == To(b);
    assert Before(w.order[..j], adj[a][e]);
    var i :| 0 <= i < j && w.order[i] == b;
    PositionIsFirst(order, b, i);
  }

  lemma {:induction false} PositionIsFirst(order: seq<nat>, s: nat, i: nat)
    requires i < |order| && order[i] == s
    ensures s in order && Position(order, s) <= i
  {
    if order[0] != s {
      PositionIsFirst(order[1..], s, i - 1);
    }
  }

  /** One turn of a search: it found a cycle, or it went on and made progress. */
  ghost predicate Stepped(adj: seq<seq<Arc>>, root: nat, base: nat, w: Walk, cyclic: bool, w': Walk)
    ensures Stepped(adj, root, base, w, cyclic, w') ==> if cyclic then !Acyclic<nat>(Arrows(adj)) else Walking(adj, w', root, base)
  {
    if cyclic then !Acyclic<nat>(Arrows(adj)) else Walking(adj, w', root, base) && Progress(w, w')
  }

  lemma StepIsLower(adj: seq<seq<Arc>>, root: nat, base: nat, w: Walk, w': Walk)
    requires Stepped(adj, root, base, w, false, w')
    ensures Lower(|adj|, (w'.depth, w'.count), (w.depth, w.count), EdgesLeft(adj, w'), EdgesLeft(adj, w))
    ensures w'.depth + w'.count <= |adj| && DoneStay(w.states, w'.states)
  {
    ProgressIsLower(adj, w, w', root, base);
  }

  /** The arrays of a search, updated in place. */
  class Scratch {
    const stack: array<nat>
    const next: array<nat>
    const states: array<Colour>
    const order: array<nat>

    constructor (size: nat)
      ensures Shape(size) && fresh(stack) && fresh(next) && fresh(states) && fresh(order)
    {
      stack := new nat[size];
      next := new nat[size];
      states := new Colour[size];
      order := new nat[size];
    }

    ghost predicate Shape(size: nat)
    {
      stack.Length == next.Length == states.Length == order.Length == size && stack != next && stack != order && next != order
    }

    ghost function State(depth: nat, count: nat): Walk
      reads stack, next, states, order
    {
      Walk(stack[..], next[..], states[..], order[..], depth, count)
    }

    method Clear(ghost adj: seq<seq<Arc>>)
      requires Shape(|adj|) && ArcsOk(adj)
      modifies states
      ensures Resting(adj, State(0, 0)) && forall s :: 0 <= s < states.Length ==> states[s].Unseen?
    {
      for s := 0 to states.Length
        invariant forall i :: 0 <= i < s ==> states[i] == Unseen
      {
        states[s] := Unseen;
      }
      NothingSeenRests(adj, State(0, 0));
    }

    method Start(ghost adj: seq<seq<Arc>>, root: nat, ghost count: nat)
      requires Shape(|adj|) && Resting(adj, State(0, count)) && root < |adj| && states[root].Unseen?
      modifies stack, next, states
      ensures Walking(adj, State(1, count), root, count) && DoneStay(old(states[..]), states[..])
    {
      WalkStarts(adj, State(0, count), root);
      ghost var before := State(0, count);
      stack[0], next[0], states[root] := root, 0, OnStack;
      assert State(1, count) == Started(before, root);
    }

    method Skip(ghost adj: seq<seq<Arc>>, ghost root: nat, ghost base: nat, depth: nat, ghost count: nat)
      requires Shape(|adj|) && Walking(adj, State(depth, count), root, base) && depth > 0
      requires stack[depth - 1] < |adj| && next[depth - 1] < |adj[stack[depth - 1]]|
      requires Settled(states[..], adj[stack[depth - 1]][next[depth - 1]])
      modifies next
      ensures Walking(adj, State(depth, count), root, base)
      ensures Progress(old(State(depth, count)), State(depth, count))
    {
      WalkSkips(adj, State(depth, count), root, base);
      SkipProgresses(State(depth, count));
      hide Walking, Progress;
      next[depth - 1] := next[depth - 1] + 1;
      assert State(depth, count) == Skipped(old(State(depth, count)));
    }

    method Push(ghost adj: seq<seq<Arc>>, ghost root: nat, ghost base: nat, depth: nat, child: nat, ghost count: nat)
      requires Shape(|adj|) && Walking(adj, State(depth, count), root, base) && depth > 0
      requires TopEdgeTo(adj, State(depth, count), child) && child < |adj| && states[child].Unseen?
      modifies stack, next, states
      ensures Walking(adj, State(depth + 1, count), root, base)
      ensures Progress(old(State(depth, count)), State(depth + 1, count))
    {
      WalkPushes(adj, State(depth, count), root, base, child);
      PushProgresses(State(depth, count), child);
      hide Walking, Progress;
      next[depth - 1] := next[depth - 1] + 1;
      stack[depth] := child;
      next[depth] := 0;
      states[child] := OnStack;
      assert State(depth + 1, count) == Pushed(old(State(depth, count)), child);
    }

    method Finish(ghost adj: seq<seq<Arc>>, ghost root: nat, ghost base: nat, depth: nat, count: nat)
      requires Shape(|adj|) && Walking(adj, State(depth, count), root, base) && depth > 0
      requires stack[depth - 1] < |adj| && next[depth - 1] == |adj[stack[depth - 1]]|
      modifies states, order
      ensures Stepped(adj, root, base, old(State(depth, count)), false, State(depth - 1, count + 1))
    {
      WalkFinishes(adj, State(depth, count), root, base);
      FinishProgresses(State(depth, count));
      hide Walking, Progress;
      states[stack[depth - 1]] := Done;
      order[count] := stack[depth - 1];
      assert State(depth - 1, count + 1) == Finished(old(State(depth, count)));
    }

    /** The next edge leads to this node: go there, or pass it over when it is finished. An edge
        back onto the stack is reported. */
    method Follow(ghost adj: seq<seq<Arc>>, ghost root: nat, ghost base: nat, depth: nat, ghost count: nat, child: nat)
      returns (cyclic: bool, depth': nat)
      requires Shape(|adj|) && Walking(adj, State(depth, count), root, base) && depth > 0
      requires stack[depth - 1] < |adj| && next[depth - 1] < |adj[stack[depth - 1]]|
      requires adj[stack[depth - 1]][next[depth - 1]] == To(child)
      modifies stack, next, states
      ensures Stepped(adj, root, base, old(State(depth, count)), cyclic, State(depth', count))
    {
      cyclic, depth' := false, depth;
      if states[child].OnStack? {
        BackEdgeIsCycle(adj, State(depth, count), child);
        cyclic := true;
      } else if states[child].Done? {
        Skip(adj, root, base, depth, count);
      } else {
        Push(adj, root, base, depth, child, count);
        depth' := depth + 1;
      }
    }
  }

  lemma TopIsStacked(adj: seq<seq<Arc>>, w: Walk, root: nat, base: nat)
    requires Walking(adj, w, root, base) && w.depth > 0
    ensures w.stack[w.depth - 1] < |adj| && w.next[w.depth - 1] <= |adj[w.stack[w.depth - 1]]|
    ensures w.states[w.stack[w.depth - 1]].OnStack?
  {
  }
}
