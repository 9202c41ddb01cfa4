/** Breadth-first search over the dependency relation with visited stamps and a bounded queue. */
module DependencySearch {
  import opened Digraph
  import opened ResourceRecords
  import opened ResourceTypes
  import opened Wrappers

  /** The first tail entries of the queue are distinct live slots, exactly those stamped. */
  ghost predicate Frontier(published: seq<Option<Record>>, visited: seq<nat>, stamp: nat, queue: seq<nat>, tail: nat)
  {
    && |visited| == |published| == |queue| && tail <= |queue|
    && (forall i :: 0 <= i < tail ==> queue[i] < |published| && published[queue[i]].Some? && visited[queue[i]] == stamp)
    && (forall i, j :: 0 <= i < j < tail ==> queue[i] != queue[j])
    && (forall s :: 0 <= s < |visited| && visited[s] == stamp ==> s in queue[..tail])
  }

  lemma FrontierHasRoom(published: seq<Option<Record>>, visited: seq<nat>, stamp: nat, queue: seq<nat>, tail: nat, slot: nat)
    requires Frontier(published, visited, stamp, queue, tail) && slot < |visited| && visited[slot] != stamp
    ensures tail < |queue|
  {
    DistinctBelow(queue[..tail] + [slot], |published|);
  }

  lemma FrontierGrows(published: seq<Option<Record>>, visited: seq<nat>, stamp: nat, queue: seq<nat>, tail: nat, slot: nat)
    requires Frontier(published, visited, stamp, queue, tail) && tail < |queue|
    requires slot < |visited| && visited[slot] != stamp && published[slot].Some?
    ensures Frontier(published, visited[slot := stamp], stamp, queue[tail := slot], tail + 1)
  {
    var visited', queue' := visited[slot := stamp], queue[tail := slot];
    forall s | 0 <= s < |visited'| && visited'[s] == stamp ensures s in queue'[..tail + 1] {
      if s == slot {
        assert queue'[..tail + 1][tail] == slot;
      } else {
        var i :| 0 <= i < tail && queue[i] == s;
        assert queue'[..tail + 1][i] == s;
      }
    }
  }

  /** None of the first n targets of the slot is the goal, and the resident ones are stamped. */
  ghost predicate Expanded(published: seq<Option<Record>>, index: map<Key, nat>, visited: seq<nat>, stamp: nat,
                           slot: nat, goal: Key, n: nat)
  {
    && slot < |published| && published[slot].Some?
    && n <= |published[slot].value.deps|
    && forall e :: 0 <= e < n ==>
         var t := published[slot].value.deps[e].target;
         t != goal && (t in index && index[t] < |visited| ==> visited[index[t]] == stamp)
  }

  /** A search that has expanded its first head entries from current without meeting goal. */
  ghost predicate Searching(published: seq<Option<Record>>, index: map<Key, nat>, visited: seq<nat>, stamp: nat,
                            queue: seq<nat>, head: nat, tail: nat, current: Key, goal: Key)
    requires Indexed(published, index)
  {
    && Frontier(published, visited, stamp, queue, tail)
    && head <= tail
    && current in index && tail >= 1 && queue[0] == index[current]
    && (forall i :: 0 <= i < tail ==>
          var k := published[queue[i]].value.key; k != goal && Reach(Relation(published, index), current, k))
    && (forall i :: 0 <= i < head ==>
          Expanded(published, index, visited, stamp, queue[i], goal, |published[queue[i]].value.deps|))
  }

  lemma SearchExhausted(published: seq<Option<Record>>, index: map<Key, nat>, visited: seq<nat>, stamp: nat,
                        queue: seq<nat>, tail: nat, current: Key, goal: Key)
    requires Indexed(published, index) && Searching(published, index, visited, stamp, queue, tail, tail, current, goal)
    ensures !Reach(Relation(published, index), current, goal)
  {
    var g := Relation(published, index);
    var s := iset k: Key | k != goal && (k in index ==> visited[index[k]] == stamp);
    forall x, y | x in s && Edge(g, x, y) ensures y in s {
      assert index[x] in queue[..tail];
      var i :| 0 <= i < tail && queue[i] == index[x];
      assert Expanded(published, index, visited, stamp, queue[i], goal, |published[queue[i]].value.deps|);
    }
    if Reach(g, current, goal) {
      ClosedUnderReach(g, s, current, goal);
    }
  }

  /** Stamping one more slot keeps what has been expanded. */
  lemma SearchEnqueues(published: seq<Option<Record>>, index: map<Key, nat>, visited: seq<nat>, stamp: nat,
                       queue: seq<nat>, head: nat, tail: nat, current: Key, goal: Key, next: Key)
    requires Indexed(published, index) && Searching(published, index, visited, stamp, queue, head, tail, current, goal)
    requires next in index && next != goal && Reach(Relation(published, index), current, next)
    requires visited[index[next]] != stamp
    ensures tail < |queue|
    ensures Searching(published, index, visited[index[next] := stamp], stamp, queue[tail := index[next]], head, tail + 1,
                      current, goal)
  {
    FrontierHasRoom(published, visited, stamp, queue, tail, index[next]);
    FrontierGrows(published, visited, stamp, queue, tail, index[next]);
    forall i | 0 <= i < head
      ensures Expanded(published, index, visited[index[next] := stamp], stamp, queue[tail := index[next]][i], goal,
                       |published[queue[i]].value.deps|)
    {
      assert Expanded(published, index, visited, stamp, queue[i], goal, |published[queue[i]].value.deps|);
    }
  }

  lemma SearchAdvances(published: seq<Option<Record>>, index: map<Key, nat>, visited: seq<nat>, stamp: nat,
                       queue: seq<nat>, head: nat, tail: nat, current: Key, goal: Key)
    requires Indexed(published, index) && Searching(published, index, visited, stamp, queue, head, tail, current, goal)
    requires head < tail && Expanded(published, index, visited, stamp, queue[head], goal, |published[queue[head]].value.deps|)
    ensures Searching(published, index, visited, stamp, queue, head + 1, tail, current, goal)
  {
  }

  /** One more target has been looked at, and stamped if it is resident. */
  lemma ExpandedGrows(published: seq<Option<Record>>, index: map<Key, nat>, visited: seq<nat>, stamp: nat,
                      slot: nat, goal: Key, n: nat, visited': seq<nat>)
    requires Expanded(published, index, visited, stamp, slot, goal, n) && n < |published[slot].value.deps|
    requires |visited'| == |visited| && forall i :: 0 <= i < |visited| && visited[i] == stamp ==> visited'[i] == stamp
    requires var t := published[slot].value.deps[n].target;
      t != goal && (t in index && index[t] < |visited| ==> visited'[index[t]] == stamp)
    ensures Expanded(published, index, visited', stamp, slot, goal, n + 1)
  {
  }
}
