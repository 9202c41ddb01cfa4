/** Finite dependency relations as adjacency maps: a node in the map has the listed
    targets; a node outside it has none. */
module Digraph {

  type Graph<N> = map<N, seq<N>>

  predicate Edge<N(==)>(g: Graph<N>, a: N, b: N)
  {
    a in g && b in g[a]
  }

  ghost predicate Path<N>(g: Graph<N>, p: seq<N>)
  {
    |p| > 0 && forall i :: 0 <= i < |p| - 1 ==> Edge(g, p[i], p[i + 1])
  }

  ghost predicate PathFromTo<N>(g: Graph<N>, p: seq<N>, a: N, b: N)
  {
    Path(g, p) && p[0] == a && p[|p| - 1] == b
  }

  /** b can be reached from a along zero or more edges. */
  ghost predicate Reach<N(!new)>(g: Graph<N>, a: N, b: N)
  {
    exists p: seq<N> :: PathFromTo(g, p, a, b)
  }

  /** No edge can be closed into a cycle. */
  ghost predicate Acyclic<N(!new)>(g: Graph<N>)
  {
    forall a, b :: Edge(g, a, b) ==> !Reach(g, b, a)
  }

  lemma ReachSelf<N(!new)>(g: Graph<N>, a: N)
    ensures Reach(g, a, a)
  {
    assert PathFromTo(g, [a], a, a);
  }

  lemma ReachPrepend<N(!new)>(g: Graph<N>, a: N, b: N, c: N)
    requires Edge(g, a, b) && Reach(g, b, c)
    ensures Reach(g, a, c)
  {
    var p :| PathFromTo(g, p, b, c);
    assert PathFromTo(g, [a] + p, a, c);
  }

  lemma ReachAppend<N(!new)>(g: Graph<N>, a: N, b: N, c: N)
    requires Reach(g, a, b) && Edge(g, b, c)
    ensures Reach(g, a, c)
  {
    var p :| PathFromTo(g, p, a, b);
    assert PathFromTo(g, p + [c], a, c);
  }

  lemma ReachJoin<N(!new)>(g: Graph<N>, a: N, b: N, c: N)
    requires Reach(g, a, b) && Reach(g, b, c)
    ensures Reach(g, a, c)
  {
    var p :| PathFromTo(g, p, a, b);
    var q :| PathFromTo(g, q, b, c);
    var r := p + q[1..];
    forall i | 0 <= i < |r| - 1 ensures Edge(g, r[i], r[i + 1]) {
      if i >= |p| - 1 {
        assert r[i] == q[i - (|p| - 1)];
      }
    }
    assert PathFromTo(g, r, a, c);
  }

  /** A path is a single node or starts with an edge. */
  lemma ReachFirstEdge<N(!new)>(g: Graph<N>, a: N, c: N)
    requires Reach(g, a, c) && a != c
    ensures exists b :: Edge(g, a, b) && Reach(g, b, c)
  {
    var p :| PathFromTo(g, p, a, c);
    assert PathFromTo(g, p[1..], p[1], c);
    assert Edge(g, a, p[1]) && Reach(g, p[1], c);
  }

  /** A set closed under edges keeps every path that starts in it. */
  lemma {:induction false} ClosedUnderReach<N(!new)>(g: Graph<N>, s: iset<N>, a: N, b: N)
    requires a in s && Reach(g, a, b)
    requires forall x, y :: x in s && Edge(g, x, y) ==> y in s
    ensures b in s
  {
    var p :| PathFromTo(g, p, a, b);
    ClosedUnderPath(g, s, p);
  }

  lemma {:induction false} ClosedUnderPath<N>(g: Graph<N>, s: iset<N>, p: seq<N>)
    requires Path(g, p) && p[0] in s
    requires forall x, y :: x in s && Edge(g, x, y) ==> y in s
    ensures p[|p| - 1] in s
  {
    if |p| > 1 {
      assert Edge(g, p[0], p[1]);
      ClosedUnderPath(g, s, p[1..]);
    }
  }

  /** A set closed under taking predecessors holds every node that reaches it. */
  lemma {:induction false} ClosedUnderPredecessors<N(!new)>(g: Graph<N>, s: iset<N>, a: N, b: N)
    requires b in s && Reach(g, a, b)
    requires forall x, y :: y in s && Edge(g, x, y) ==> x in s
    ensures a in s
  {
    var outside := iset x | x !in s;
    if a in outside {
      ClosedUnderReach(g, outside, a, b);
    }
  }

  lemma ReachGrows<N(!new)>(g: Graph<N>, h: Graph<N>, a: N, b: N)
    requires Reach(g, a, b) && forall x, y :: Edge(g, x, y) ==> Edge(h, x, y)
    ensures Reach(h, a, b)
  {
    var p :| PathFromTo(g, p, a, b);
    assert PathFromTo(h, p, a, b);
  }

  lemma FewerEdges<N(!new)>(g: Graph<N>, h: Graph<N>)
    requires forall a, b :: Edge(g, a, b) ==> Edge(h, a, b)
    ensures forall a, b :: Reach(g, a, b) ==> Reach(h, a, b)
    ensures Acyclic(h) ==> Acyclic(g)
  {
    forall a, b | Reach(g, a, b) ensures Reach(h, a, b) {
      ReachGrows(g, h, a, b);
    }
  }

  /** Following a path until it first meets k uses no edge out of k. */
  lemma {:induction false} PathToNodeAvoidsItsEdges<N(!new)>(g: Graph<N>, k: N, targets: seq<N>, p: seq<N>)
    requires Path(g[k := targets], p) && p[|p| - 1] == k
    ensures Reach(g, p[0], k)
    decreases |p|
  {
    if p[0] == k {
      ReachSelf(g, k);
    } else {
      assert Edge(g[k := targets], p[0], p[1]);
      PathToNodeAvoidsItsEdges(g, k, targets, p[1..]);
      ReachPrepend(g, p[0], p[1], k);
    }
  }

  /** Giving k new targets leaves which nodes reach k unchanged. */
  lemma ReachOfReplaced<N(!new)>(g: Graph<N>, k: N, targets: seq<N>, a: N)
    ensures Reach(g[k := targets], a, k) ==> Reach(g, a, k)
  {
    if Reach(g[k := targets], a, k) {
      var p :| PathFromTo(g[k := targets], p, a, k);
      PathToNodeAvoidsItsEdges(g, k, targets, p);
    }
  }

  /** A path after the replacement either is an old path or passes through k and one of its
      new targets. */
  lemma {:induction false} PathSplitsAtNode<N(!new)>(g: Graph<N>, k: N, targets: seq<N>, p: seq<N>)
    requires Path(g[k := targets], p)
    ensures Reach(g, p[0], p[|p| - 1]) ||
      (Reach(g[k := targets], p[0], k) && exists t :: t in targets && Reach(g[k := targets], t, p[|p| - 1]))
    decreases |p|
  {
    var h := g[k := targets];
    var last := p[|p| - 1];
    if |p| == 1 {
      ReachSelf(g, last);
    } else {
      assert Edge(h, p[0], p[1]);
      if p[0] == k {
        ReachSelf(h, k);
        assert PathFromTo(h, p[1..], p[1], last);
      } else {
        PathSplitsAtNode(g, k, targets, p[1..]);
        if Reach(g, p[1], last) {
          ReachPrepend(g, p[0], p[1], last);
        } else {
          ReachPrepend(h, p[0], p[1], k);
        }
      }
    }
  }

  /** Replacing the targets of k by nodes that do not reach k creates no cycle. */
  lemma ReplaceKeepsAcyclic<N(!new)>(g: Graph<N>, k: N, targets: seq<N>)
    requires Acyclic(g)
    requires forall t :: t in targets ==> !Reach(g, t, k)
    ensures Acyclic(g[k := targets])
  {
    var h := g[k := targets];
    forall a, b | Edge(h, a, b) ensures !Reach(h, b, a) {
      if Reach(h, b, a) {
        if a == k {
          ReachOfReplaced(g, k, targets, b);
        } else {
          var p :| PathFromTo(h, p, b, a);
          PathSplitsAtNode(g, k, targets, p);
          if !Reach(g, b, a) {
            var t :| t in targets && Reach(h, t, a);
            ReachAppend(h, t, a, b);
            ReachJoin(h, t, b, k);
            ReachOfReplaced(g, k, targets, t);
          }
        }
      }
    }
  }

  /** Conversely, a new target that does reach k closes a cycle. */
  lemma ReachableTargetClosesCycle<N(!new)>(g: Graph<N>, k: N, targets: seq<N>, t: N)
    requires t in targets && Reach(g, t, k)
    ensures !Acyclic(g[k := targets])
  {
    var h := g[k := targets];
    var p :| PathFromTo(g, p, t, k);
    FirstVisit(g, k, targets, p);
    assert Edge(h, k, t);
  }

  lemma {:induction false} FirstVisit<N(!new)>(g: Graph<N>, k: N, targets: seq<N>, p: seq<N>)
    requires Path(g, p) && p[|p| - 1] == k
    ensures Reach(g[k := targets], p[0], k)
    decreases |p|
  {
    var h := g[k := targets];
    if p[0] == k {
      ReachSelf(h, k);
    } else {
      assert Edge(g, p[0], p[1]);
      FirstVisit(g, k, targets, p[1..]);
      ReachPrepend(h, p[0], p[1], k);
    }
  }

  /** In an acyclic relation every non-empty set of nodes has one without a target in it. */
  lemma {:induction false} AcyclicHasSink<N(!new)>(g: Graph<N>, s: set<N>) returns (x: N)
    requires Acyclic(g) && s != {}
    ensures x in s && forall y :: Edge(g, x, y) ==> y !in s
    decreases |s|
  {
    x :| x in s;
    if y :| y in s && Edge(g, x, y) {
      var t := set z | z in s && Reach(g, y, z);
      ReachSelf(g, y);
      assert y in t && x !in t;
      SmallerSet(t, s, x);
      x := AcyclicHasSink(g, t);
      forall w | Edge(g, x, w) ensures w !in s {
        ReachAppend(g, y, x, w);
      }
    }
  }

  lemma SmallerSet<N>(t: set<N>, s: set<N>, x: N)
    requires t <= s && x in s && x !in t
    ensures |t| < |s|
  {
    SubsetSize(t, s - {x});
  }

  lemma {:induction false} SubsetSize<N>(t: set<N>, s: set<N>)
    requires t <= s
    ensures |t| <= |s|
  {
    if t != {} {
      var x :| x in t;
      SubsetSize(t - {x}, s - {x});
    }
  }

  function Below(n: nat): (s: set<nat>)
    ensures |s| == n
    ensures forall i: nat :: i in s <==> i < n
  {
    if n == 0 then {} else Below(n - 1) + {n - 1}
  }

  /** Distinct numbers below n are at most n. */
  lemma DistinctBelow(s: seq<nat>, n: nat)
    requires forall i :: 0 <= i < |s| ==> s[i] < n
    requires forall i, j :: 0 <= i < j < |s| ==> s[i] != s[j]
    ensures |s| <= n
  {
    var members := set x | x in s;
    DistinctMembers(s);
    SubsetSize(members, Below(n));
  }

  lemma {:induction false} DistinctMembers<T>(s: seq<T>)
    requires forall i, j :: 0 <= i < j < |s| ==> s[i] != s[j]
    ensures |set x | x in s| == |s|
  {
    if s == [] {
      assert (set x | x in s) == {};
    } else {
      var last := s[|s| - 1];
      var rest := s[..|s| - 1];
      DistinctMembers(rest);
      assert (set x | x in s) == (set x | x in rest) + {last} by {
        assert s == rest + [last];
      }
    }
  }
}
