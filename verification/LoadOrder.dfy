/** The deterministic load order of a catalog, stated without its arrays: among the ids whose
    dependencies have all been listed, the smallest comes next. */
module LoadOrder {
  import opened Digraph

  datatype Link = Link(owner: nat, target: nat)

  function TargetsOf(links: seq<Link>, id: nat): (targets: seq<nat>)
    ensures forall t :: t in targets <==> Link(id, t) in links
  {
    if links == [] then []
    else TargetsOf(links[..|links| - 1], id) + if links[|links| - 1].owner == id then [links[|links| - 1].target] else []
  }

  ghost function GraphOf(links: seq<Link>): (g: Graph<nat>)
    ensures forall a: nat, b: nat :: Edge<nat>(g, a, b) <==> Link(a, b) in links
  {
    map a | a in (set l | l in links :: l.owner) :: TargetsOf(links, a)
  }

  lemma LinkAddsEdge(links: seq<Link>, l: Link)
    ensures forall a: nat, b: nat ::
      Edge<nat>(GraphOf(links + [l]), a, b) <==> Edge<nat>(GraphOf(links), a, b) || (a == l.owner && b == l.target)
  {
    forall a: nat, b: nat
      ensures Edge<nat>(GraphOf(links + [l]), a, b) <==> Edge<nat>(GraphOf(links), a, b) || (a == l.owner && b == l.target)
    {
      assert Link(a, b) in links + [l] <==> Link(a, b) in links || Link(a, b) == l;
    }
  }

  /** A graph with one edge more that closes a cycle has a cycle. */
  lemma ClosingEdge(g: Graph<nat>, h: Graph<nat>, owner: nat, target: nat)
    requires forall a: nat, b: nat :: Edge<nat>(h, a, b) <==> Edge<nat>(g, a, b) || (a == owner && b == target)
    requires Reach<nat>(g, target, owner)
    ensures !Acyclic<nat>(h)
  {
    hide Edge, Reach;
    ReachGrows<nat>(g, h, target, owner);
    assert Edge<nat>(h, owner, target);
  }

  /** One that closes none has no cycle if there was none. */
  lemma HarmlessEdge(g: Graph<nat>, h: Graph<nat>, owner: nat, target: nat)
    requires Acyclic<nat>(g) && !Reach<nat>(g, target, owner)
    requires forall a: nat, b: nat :: Edge<nat>(h, a, b) <==> Edge<nat>(g, a, b) || (a == owner && b == target)
    ensures Acyclic<nat>(h)
  {
    hide Reach;
    var held: seq<nat> := if owner in g then g[owner] else [];
    var r := g[owner := held + [target]];
    forall t | t in held + [target] ensures !Reach<nat>(g, t, owner) {
      assert t != target ==> Edge<nat>(g, owner, t);
    }
    ReplaceKeepsAcyclic<nat>(g, owner, held + [target]);
    FewerEdges<nat>(h, r);
  }

  /** A new link keeps the relation acyclic exactly when its target does not reach its owner. */
  lemma LinkKeepsAcyclic(links: seq<Link>, l: Link)
    requires Acyclic<nat>(GraphOf(links))
    ensures Acyclic<nat>(GraphOf(links + [l])) <==> !Reach<nat>(GraphOf(links), l.target, l.owner)
  {
    hide GraphOf, Reach, Acyclic, Edge;
    LinkAddsEdge(links, l);
    if Reach<nat>(GraphOf(links), l.target, l.owner) {
      ClosingEdge(GraphOf(links), GraphOf(links + [l]), l.owner, l.target);
    } else {
      HarmlessEdge(GraphOf(links), GraphOf(links + [l]), l.owner, l.target);
    }
  }

  function LinkSet(links: seq<Link>): (s: set<Link>)
    ensures forall l :: l in s <==> l in links
  {
    set l | l in links
  }

  // ---------------------------------------------------------------- smallest ready id first

  ghost predicate Ready(ids: set<nat>, links: set<Link>, done: set<nat>, x: nat)
  {
    x in ids && x !in done && forall l :: l in links && l.owner == x ==> l.target in done
  }

  function Members(s: seq<nat>): (m: set<nat>)
    ensures forall x :: x in m <==> x in s
  {
    set x | x in s
  }

  ghost predicate NextIs(ids: set<nat>, links: set<Link>, done: set<nat>, x: nat)
  {
    Ready(ids, links, done, x) && forall y: nat :: Ready(ids, links, done, y) ==> x <= y
  }

  /** Each id listed is the smallest one ready at that point. */
  ghost predicate SmallestFirst(ids: set<nat>, links: set<Link>, order: seq<nat>)
  {
    forall i :: 0 <= i < |order| ==> NextIs(ids, links, Members(order[..i]), order[i])
  }

  /** The full list of ids, each after everything it depends on. */
  ghost predicate DependencyFirst(ids: set<nat>, links: set<Link>, order: seq<nat>)
  {
    && Members(order) == ids && |order| == |ids|
    && forall i :: 0 <= i < |order| ==> Ready(ids, links, Members(order[..i]), order[i])
  }

  /** The order depends on the ids and links only, not on how they were added. */
  lemma {:induction false} OrderIsUnique(ids: set<nat>, links: set<Link>, a: seq<nat>, b: seq<nat>)
    requires SmallestFirst(ids, links, a) && SmallestFirst(ids, links, b) && |a| == |b|
    ensures a == b
  {
    if a != [] {
      var n := |a| - 1;
      assert forall i :: 0 <= i <= n ==> a[..n][..i] == a[..i] && b[..n][..i] == b[..i];
      OrderIsUnique(ids, links, a[..n], b[..n]);
      assert NextIs(ids, links, Members(a[..n]), a[n]) && NextIs(ids, links, Members(b[..n]), b[n]);
      assert a == a[..n] + [a[n]] && b == b[..n] + [b[n]];
    }
  }

  /** No dependency-first order is lexicographically smaller: at the first difference the
      smallest-first order has the smaller id. */
  lemma SmallestFirstIsLeast(ids: set<nat>, links: set<Link>, order: seq<nat>, other: seq<nat>, i: nat)
    requires SmallestFirst(ids, links, order) && DependencyFirst(ids, links, other)
    requires i < |order| && i < |other| && order[..i] == other[..i]
    ensures order[i] <= other[i]
  {
    assert NextIs(ids, links, Members(order[..i]), order[i]);
    assert Ready(ids, links, Members(other[..i]), other[i]);
  }

  lemma SmallestFirstDistinct(ids: set<nat>, links: set<Link>, order: seq<nat>)
    requires SmallestFirst(ids, links, order)
    ensures forall i, j :: 0 <= i < j < |order| ==> order[i] != order[j]
    ensures forall i :: 0 <= i < |order| ==> order[i] in ids
    ensures |Members(order)| == |order| <= |ids|
  {
    forall i, j | 0 <= i < j < |order| ensures order[i] != order[j] {
      assert NextIs(ids, links, Members(order[..j]), order[j]);
      assert order[..j][i] == order[i];
    }
    forall i | 0 <= i < |order| ensures order[i] in ids {
      assert NextIs(ids, links, Members(order[..i]), order[i]);
    }
    DistinctMembers<nat>(order);
    SubsetSize<nat>(Members(order), ids);
  }

  lemma SmallestFirstIsComplete(ids: set<nat>, links: set<Link>, order: seq<nat>)
    requires SmallestFirst(ids, links, order) && |order| == |ids|
    ensures DependencyFirst(ids, links, order)
  {
    SmallestFirstDistinct(ids, links, order);
    if x: nat :| x in ids && x !in Members(order) {
      SmallerSet<nat>(Members(order), ids, x);
    }
    forall i | 0 <= i < |order| ensures Ready(ids, links, Members(order[..i]), order[i]) {
      assert NextIs(ids, links, Members(order[..i]), order[i]);
    }
  }

  /** In an acyclic relation over the ids, some id is ready until all are listed. */
  lemma SomethingIsReady(ids: set<nat>, links: seq<Link>, done: set<nat>) returns (x: nat)
    requires Acyclic<nat>(GraphOf(links)) && (forall l :: l in links ==> l.target in ids)
    requires done <= ids && done != ids
    ensures Ready(ids, LinkSet(links), done, x)
  {
    assert ids - done != {} by {
      assert ids == done + (ids - done);
    }
    x := AcyclicHasSink<nat>(GraphOf(links), ids - done);
    forall l | l in links && l.owner == x ensures l.target in done {
      assert Edge<nat>(GraphOf(links), x, l.target);
    }
  }

  // ---------------------------------------------------------------- counting what an id waits for

  /** How many links of the id lead to something not done. */
  function Pending(links: seq<Link>, id: nat, done: set<nat>): (n: nat)
    ensures n <= |links|
    ensures n == 0 <==> forall l :: l in links && l.owner == id ==> l.target in done
  {
    if links == [] then 0
    else
      var last := links[|links| - 1];
      assert forall l :: l in links <==> l in links[..|links| - 1] || l == last;
      Pending(links[..|links| - 1], id, done) + if last.owner == id && last.target !in done then 1 else 0
  }

  lemma PendingStep(links: seq<Link>, e: nat, id: nat, done: set<nat>)
    requires e < |links|
    ensures Pending(links[..e + 1], id, done)
         == Pending(links[..e], id, done) + if links[e].owner == id && links[e].target !in done then 1 else 0
  {
    assert links[..e + 1][..e] == links[..e];
  }

  lemma {:induction false} PendingGrows(links: seq<Link>, e: nat, id: nat, done: set<nat>)
    requires e <= |links|
    ensures Pending(links[..e], id, done) <= Pending(links, id, done)
    decreases |links| - e
  {
    if e < |links| {
      PendingStep(links, e, id, done);
      PendingGrows(links, e + 1, id, done);
    } else {
      assert links[..e] == links;
    }
  }
}
