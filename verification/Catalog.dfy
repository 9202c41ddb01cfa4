/** The authoring catalog of resources: entries and links in caller-supplied arrays, with
    incremental cycle checks and a deterministic load order. */
module Catalog {
  import opened Digraph
  import opened LoadOrder
  import opened Wrappers

  datatype Source = External | Embedded | Unknown

  datatype Entry = Entry(id: nat, pathAtom: nat, typeId: nat, generation: nat, source: Source)

  datatype Status = Ok | InvalidArgument | Duplicate | NotFound | OutOfCapacity | Cyclic | Sealed

  function IdsOf(entries: seq<Entry>): (ids: seq<nat>)
    ensures |ids| == |entries| && forall i :: 0 <= i < |ids| ==> ids[i] == entries[i].id
  {
    seq(|entries|, i requires 0 <= i < |entries| => entries[i].id)
  }

  ghost predicate Distinct(ids: seq<nat>)
  {
    forall i, j :: 0 <= i < j < |ids| ==> ids[i] != ids[j]
  }

  /** What holds of every catalog that can be built: ids are distinct and non-zero, links join
      known ids, none is repeated, and they close no cycle. */
  ghost predicate WellFormed(ids: seq<nat>, links: seq<Link>)
  {
    && Distinct(ids) && 0 !in ids
    && (forall l :: l in links ==> l.owner in ids && l.target in ids)
    && (forall i, j :: 0 <= i < j < |links| ==> links[i] != links[j])
    && Acyclic<nat>(GraphOf(links))
  }

  lemma AllOwnersKnown(ids: seq<nat>, links: seq<Link>)
    requires WellFormed(ids, links)
    ensures Distinct(ids) && forall l :: l in links ==> l.owner in ids
  {
  }

  lemma EntryAdded(ids: seq<nat>, links: seq<Link>, id: nat)
    requires WellFormed(ids, links) && id != 0 && id !in ids
    ensures WellFormed(ids + [id], links)
  {
  }

  lemma LinkAdded(ids: seq<nat>, links: seq<Link>, l: Link)
    requires WellFormed(ids, links) && l.owner in ids && l.target in ids && l !in links
    requires !Reach<nat>(GraphOf(links), l.target, l.owner)
    ensures WellFormed(ids, links + [l])
  {
    LinkKeepsAcyclic(links, l);
    assert forall k :: k in links + [l] <==> k in links || k == l;
  }

  // ---------------------------------------------------------------- depth-first reachability

  /** A search from start that has pushed exactly the seen entries and still has to look at
      those on the stack. */
  ghost predicate Searching(ids: seq<nat>, links: seq<Link>, seen: seq<bool>, stack: seq<nat>, start: nat, target: nat)
    ensures Searching(ids, links, seen, stack, start, target) ==>
      start < |ids| && (forall i :: 0 <= i < |stack| ==> stack[i] < |ids| && Reach<nat>(GraphOf(links), ids[start], ids[stack[i]]))
  {
    && |seen| == |ids| && start < |ids| && target < |ids| && seen[start]
    && (forall i :: 0 <= i < |stack| ==> stack[i] < |ids| && seen[stack[i]])
    && (forall i, j :: 0 <= i < j < |stack| ==> stack[i] != stack[j])
    && (forall i :: 0 <= i < |ids| && seen[i] ==> Reach<nat>(GraphOf(links), ids[start], ids[i]))
    && (forall i :: 0 <= i < |ids| && seen[i] && i !in stack ==> Expanded(ids, links, seen, target, i, |links|))
  }

  /** The entry is not the target, and what its first n links lead to has been seen. */
  ghost predicate Expanded(ids: seq<nat>, links: seq<Link>, seen: seq<bool>, target: nat, i: nat, n: nat)
    requires |seen| == |ids|
  {
    && i < |ids| && i != target
    && forall e, j :: 0 <= e < n && e < |links| && links[e].owner == ids[i] && 0 <= j < |ids| && ids[j] == links[e].target ==> seen[j]
  }

  lemma SearchExhausted(ids: seq<nat>, links: seq<Link>, seen: seq<bool>, start: nat, target: nat)
    requires WellFormed(ids, links) && Searching(ids, links, seen, [], start, target)
    ensures !Reach<nat>(GraphOf(links), ids[start], ids[target])
  {
    var g := GraphOf(links);
    var reached: iset<nat> := iset i | 0 <= i < |ids| && seen[i] :: ids[i];
    forall a: nat, b: nat | a in reached && Edge<nat>(g, a, b) ensures b in reached {
      var i :| 0 <= i < |ids| && seen[i] && ids[i] == a;
      assert Expanded(ids, links, seen, target, i, |links|);
      var e :| 0 <= e < |links| && links[e] == Link(a, b);
      var j :| 0 <= j < |ids| && ids[j] == b;
    }
    forall i | 0 <= i < |ids| && seen[i] ensures ids[i] != ids[target] {
      assert Expanded(ids, links, seen, target, i, |links|);
    }
    if Reach<nat>(g, ids[start], ids[target]) {
      ClosedUnderReach<nat>(g, reached, ids[start], ids[target]);
    }
  }

  /** The stack without its top, while that entry's links are being followed. */
  ghost predicate Expanding(ids: seq<nat>, links: seq<Link>, seen: seq<bool>, stack: seq<nat>, start: nat, target: nat, node: nat, n: nat)
  {
    && |seen| == |ids| && start < |ids| && target < |ids| && seen[start] && node < |ids| && seen[node] && node !in stack
    && (forall i :: 0 <= i < |stack| ==> stack[i] < |ids| && seen[stack[i]])
    && (forall i, j :: 0 <= i < j < |stack| ==> stack[i] != stack[j])
    && (forall i :: 0 <= i < |ids| && seen[i] ==> Reach<nat>(GraphOf(links), ids[start], ids[i]))
    && (forall i :: 0 <= i < |ids| && seen[i] && i !in stack && i != node ==> Expanded(ids, links, seen, target, i, |links|))
    && Expanded(ids, links, seen, target, node, n)
  }

  lemma SearchPops(ids: seq<nat>, links: seq<Link>, seen: seq<bool>, stack: seq<nat>, start: nat, target: nat)
    requires Searching(ids, links, seen, stack, start, target) && |stack| > 0 && stack[|stack| - 1] != target
    ensures stack[|stack| - 1] < |ids| && stack[|stack| - 1] !in stack[..|stack| - 1]
    ensures Expanding(ids, links, seen, stack[..|stack| - 1], start, target, stack[|stack| - 1], 0)
  {
    var rest := stack[..|stack| - 1];
    assert stack == rest + [stack[|stack| - 1]];
  }

  lemma SearchPushes(ids: seq<nat>, links: seq<Link>, seen: seq<bool>, stack: seq<nat>, start: nat, target: nat, node: nat, n: nat, j: nat)
    requires Distinct(ids) && Expanding(ids, links, seen, stack, start, target, node, n) && n < |links|
    requires links[n].owner == ids[node] && j < |ids| && links[n].target == ids[j] && !seen[j]
    ensures |stack| < |ids|
    ensures Expanding(ids, links, seen[j := true], stack + [j], start, target, node, n + 1)
  {
    DistinctBelow(stack + [j], |ids|);
    var g := GraphOf(links);
    assert Edge<nat>(g, ids[node], ids[j]);
    ReachAppend<nat>(g, ids[start], ids[node], ids[j]);
    forall i | 0 <= i < |ids| && seen[j := true][i] && i !in stack + [j] && i != node
      ensures Expanded(ids, links, seen[j := true], target, i, |links|)
    {
      assert j in stack + [j];
      assert Expanded(ids, links, seen, target, i, |links|);
    }
    hide Reach;
  }

  lemma SearchPasses(ids: seq<nat>, links: seq<Link>, seen: seq<bool>, stack: seq<nat>, start: nat, target: nat, node: nat, n: nat)
    requires Distinct(ids) && Expanding(ids, links, seen, stack, start, target, node, n) && n < |links|
    requires links[n].owner != ids[node] || forall j :: 0 <= j < |ids| && ids[j] == links[n].target ==> seen[j]
    ensures Expanding(ids, links, seen, stack, start, target, node, n + 1)
  {
  }

  lemma SearchStarts(ids: seq<nat>, links: seq<Link>, seen: seq<bool>, start: nat, target: nat)
    requires start < |ids| && target < |ids| && |seen| == |ids|
    requires forall i :: 0 <= i < |seen| ==> (seen[i] <==> i == start)
    ensures Searching(ids, links, seen, [start], start, target)
  {
    ReachSelf<nat>(GraphOf(links), ids[start]);
  }

  /** Entries that have left the stack: seen, and never pushed again. */
  ghost predicate Popped(done: set<nat>, seen: seq<bool>, stack: seq<nat>)
    ensures Popped(done, seen, stack) ==> |done| <= |seen|
  {
    && (forall i :: i in done ==> i < |seen| && seen[i] && i !in stack)
    && |done| <= |seen|
  }

  lemma PoppedStays(done: set<nat>, seen: seq<bool>, stack: seq<nat>, j: nat)
    requires Popped(done, seen, stack) && j < |seen| && !seen[j]
    ensures Popped(done, seen[j := true], stack + [j])
  {
  }

  lemma PopDone(ids: seq<nat>, links: seq<Link>, seen: seq<bool>, stack: seq<nat>, start: nat, target: nat, done: set<nat>)
      returns (larger: set<nat>)
    requires Searching(ids, links, seen, stack, start, target) && |stack| > 0 && stack[|stack| - 1] != target
    requires Popped(done, seen, stack)
    ensures Popped(larger, seen, stack[..|stack| - 1]) && |larger| == |done| + 1
    ensures Expanding(ids, links, seen, stack[..|stack| - 1], start, target, stack[|stack| - 1], 0)
  {
    SearchPops(ids, links, seen, stack, start, target);
    larger := done + {stack[|stack| - 1]};
    assert stack == stack[..|stack| - 1] + [stack[|stack| - 1]];
    SubsetSize<nat>(larger, Below(|seen|));
  }

  // ---------------------------------------------------------------- the load order

  /** The working arrays of a traversal that has listed the done ids: the marks, and for every
      entry the number of its links still waited for. */
  ghost predicate Counted(ids: seq<nat>, links: seq<Link>, scratch: seq<nat>, seen: seq<bool>, done: set<nat>)
  {
    && |scratch| == |seen| == |ids|
    && forall i :: 0 <= i < |ids| ==> scratch[i] == Pending(links, ids[i], done) && (seen[i] <==> ids[i] in done)
  }

  /** Counts while the links are being counted: the first e are in. */
  ghost predicate CountedTo(ids: seq<nat>, links: seq<Link>, scratch: seq<nat>, e: nat)
    requires e <= |links|
  {
    |scratch| == |ids| && forall i :: 0 <= i < |ids| ==> scratch[i] == Pending(links[..e], ids[i], {})
  }

  lemma CountOne(ids: seq<nat>, links: seq<Link>, scratch: seq<nat>, e: nat, owner: nat)
    requires Distinct(ids) && e < |links| && CountedTo(ids, links, scratch, e) && owner < |ids| && ids[owner] == links[e].owner
    ensures |scratch| == |ids| && CountedTo(ids, links, scratch[owner := scratch[owner] + 1], e + 1)
  {
    forall i | 0 <= i < |ids|
      ensures Pending(links[..e + 1], ids[i], {}) == Pending(links[..e], ids[i], {}) + if i == owner then 1 else 0
    {
      PendingStep(links, e, ids[i], {});
    }
  }

  lemma AllCounted(ids: seq<nat>, links: seq<Link>, scratch: seq<nat>, seen: seq<bool>)
    requires CountedTo(ids, links, scratch, |links|) && |seen| == |ids| && forall i :: 0 <= i < |ids| ==> !seen[i]
    ensures Counted(ids, links, scratch, seen, {})
  {
    assert links[..|links|] == links;
  }

  lemma CountedReady(ids: seq<nat>, links: seq<Link>, scratch: seq<nat>, seen: seq<bool>, done: set<nat>, i: nat)
    requires Counted(ids, links, scratch, seen, done) && i < |ids|
    ensures Ready(Members(ids), LinkSet(links), done, ids[i]) <==> !seen[i] && scratch[i] == 0
  {
  }

  /** Counts while the links to a completed id are being taken off: the first e are done. */
  ghost predicate Discounted(ids: seq<nat>, links: seq<Link>, scratch: seq<nat>, done: set<nat>, c: nat, e: nat)
    requires e <= |links|
  {
    && |scratch| == |ids|
    && forall i :: 0 <= i < |ids| ==>
         scratch[i] + Pending(links[..e], ids[i], done) == Pending(links, ids[i], done) + Pending(links[..e], ids[i], done + {c})
  }

  lemma DiscountOne(ids: seq<nat>, links: seq<Link>, scratch: seq<nat>, done: set<nat>, c: nat, e: nat, owner: nat)
    requires Distinct(ids) && e < |links| && Discounted(ids, links, scratch, done, c, e) && c !in done
    requires owner < |ids| && links[e].owner == ids[owner]
    ensures links[e].target == c ==> scratch[owner] > 0 && Discounted(ids, links, scratch[owner := scratch[owner] - 1], done, c, e + 1)
    ensures links[e].target != c ==> Discounted(ids, links, scratch, done, c, e + 1)
  {
    forall i | 0 <= i < |ids|
      ensures Pending(links[..e + 1], ids[i], done) <= Pending(links, ids[i], done)
      ensures Pending(links[..e + 1], ids[i], done)
           == Pending(links[..e], ids[i], done) + if i == owner && links[e].target !in done then 1 else 0
      ensures Pending(links[..e + 1], ids[i], done + {c})
           == Pending(links[..e], ids[i], done + {c}) + if i == owner && links[e].target !in done + {c} then 1 else 0
    {
      PendingGrows(links, e + 1, ids[i], done);
      PendingStep(links, e, ids[i], done);
      PendingStep(links, e, ids[i], done + {c});
    }
  }

  lemma DiscountNone(ids: seq<nat>, links: seq<Link>, scratch: seq<nat>, done: set<nat>, c: nat, e: nat)
    requires Distinct(ids) && e < |links| && Discounted(ids, links, scratch, done, c, e) && c !in done
    requires links[e].owner in ids && links[e].target != c
    ensures Discounted(ids, links, scratch, done, c, e + 1)
  {
    var owner: nat :| owner < |ids| && ids[owner] == links[e].owner;
    DiscountOne(ids, links, scratch, done, c, e, owner);
  }

  ghost predicate Marks(ids: seq<nat>, seen: seq<bool>, done: set<nat>)
    requires |seen| == |ids|
  {
    forall i :: 0 <= i < |ids| ==> (seen[i] <==> ids[i] in done)
  }

  lemma DiscountStarts(ids: seq<nat>, links: seq<Link>, scratch: seq<nat>, seen: seq<bool>, done: set<nat>, c: nat)
    requires Counted(ids, links, scratch, seen, done)
    ensures Discounted(ids, links, scratch, done, c, 0) && |seen| == |ids| && Marks(ids, seen, done)
  {
  }

  lemma DiscountsDone(ids: seq<nat>, links: seq<Link>, scratch: seq<nat>, seen: seq<bool>, done: set<nat>, next: nat)
    requires Distinct(ids) && next < |ids| && |seen| == |ids| && Marks(ids, seen, done)
    requires Discounted(ids, links, scratch, done, ids[next], |links|)
    ensures Counted(ids, links, scratch, seen[next := true], done + {ids[next]})
  {
    assert links[..|links|] == links;
  }

  class ResourceCatalog {
    const entries: array<Entry>
    const links: array<Link>
    const scratch: array<nat>
    const seen: array<bool>
    var entryCount: nat
    var linkCount: nat
    var isSealed: bool

    ghost predicate Shape()
      reads this
    {
      && entries.Length == scratch.Length == seen.Length
      && entryCount <= entries.Length && linkCount <= links.Length
    }

    ghost function Ids(): (ids: seq<nat>)
      requires Shape()
      reads this, entries
    {
      IdsOf(entries[..entryCount])
    }

    ghost function Links(): (held: seq<Link>)
      requires Shape()
      reads this, links
    {
      links[..linkCount]
    }

    ghost predicate Valid()
      reads this, entries, links
      ensures Valid() ==> Shape() && Distinct(Ids())
    {
      Shape() && WellFormed(Ids(), Links())
    }

    /** A catalog around arrays of the caller. */
    constructor (entries: array<Entry>, links: array<Link>, scratch: array<nat>, seen: array<bool>)
      requires 0 < entries.Length == scratch.Length == seen.Length && 0 < links.Length
      ensures Valid() && Ids() == [] && Links() == [] && !isSealed
    {
      this.entries, this.links, this.scratch, this.seen := entries, links, scratch, seen;
      entryCount, linkCount, isSealed := 0, 0, false;
    }

    method FindIndex(id: nat) returns (index: Option<nat>)
      requires Shape()
      ensures index.Some? ==> index.value < entryCount && Ids()[index.value] == id
      ensures index.None? <==> id !in Ids()
    {
      for i: nat := 0 to entryCount
        invariant forall j :: 0 <= j < i ==> Ids()[j] != id
      {
        if entries[i].id == id {
          assert Ids()[i] == id;
          return Some(i);
        }
      }
      return None;
    }

    method AddResource(id: nat, typeId: nat, pathAtom: nat, source: Source) returns (status: Status)
      requires Valid()
      modifies this`entryCount, entries
      ensures Valid() && Links() == old(Links())
      ensures status == if isSealed then Sealed
                        else if id == 0 || typeId == 0 || source.Unknown? || (source.External? && pathAtom == 0) then InvalidArgument
                        else if id in old(Ids()) then Duplicate
                        else if |old(Ids())| == entries.Length then OutOfCapacity else Ok
      ensures Ids() == if status == Ok then old(Ids()) + [id] else old(Ids())
      ensures status == Ok ==> entries[..entryCount] == old(entries[..entryCount]) + [Entry(id, pathAtom, typeId, 1, source)]
    {
      if isSealed {
        return Sealed;
      }
      if id == 0 || typeId == 0 || source.Unknown? || (source.External? && pathAtom == 0) {
        return InvalidArgument;
      }
      var found := FindIndex(id);
      if found.Some? {
        return Duplicate;
      }
      if entryCount == entries.Length {
        return OutOfCapacity;
      }
      EntryAdded(Ids(), Links(), id);
      hide WellFormed;
      ghost var before := Ids();
      entries[entryCount] := Entry(id, pathAtom, typeId, 1, source);
      entryCount := entryCount + 1;
      assert Ids() == before + [id];
      return Ok;
    }

    method StartSearch(start: nat, ghost target: nat)
      requires Shape() && start < entryCount && target < entryCount
      modifies scratch, seen
      ensures Searching(Ids(), Links(), seen[..entryCount], scratch[..1], start, target)
      ensures Popped({}, seen[..entryCount], scratch[..1])
    {
      for i := 0 to entryCount
        invariant forall j :: 0 <= j < i ==> !seen[j]
      {
        seen[i] := false;
      }
      seen[start] := true;
      scratch[0] := start;
      SearchStarts(Ids(), Links(), seen[..entryCount], start, target);
      assert scratch[..1] == [start];
    }

    /** Whether the links lead from one entry to another: depth first over an explicit stack. */
    method CanReach(start: nat, target: nat) returns (found: bool)
      requires Valid() && start < entryCount && target < entryCount
      modifies scratch, seen
      ensures Valid() && found == Reach<nat>(GraphOf(Links()), Ids()[start], Ids()[target])
    {
      ghost var ids, held := Ids(), Links();
      hide Reach, Acyclic, Searching, Popped, Expanding;
      StartSearch(start, target);
      var top: nat := 1;
      ghost var done: set<nat> := {};
      while top > 0
        invariant top <= entryCount && Ids() == ids && Links() == held
        invariant Searching(ids, held, seen[..entryCount], scratch[..top], start, target)
        invariant Popped(done, seen[..entryCount], scratch[..top])
        decreases entryCount - |done|
      {
        var node := scratch[top - 1];
        if node == target {
          return true;
        }
        done := PopDone(ids, held, seen[..entryCount], scratch[..top], start, target, done);
        assert scratch[..top][..top - 1] == scratch[..top - 1];
        top := FollowLinks(node, top - 1, start, target, done);
      }
      assert scratch[..0] == [];
      SearchExhausted(ids, held, seen[..entryCount], start, target);
      return false;
    }

    /** Push the unseen targets of one entry. */
    method FollowLinks(node: nat, top: nat, ghost start: nat, ghost target: nat, ghost done: set<nat>) returns (top': nat)
      requires Valid() && top <= entryCount
      requires Expanding(Ids(), Links(), seen[..entryCount], scratch[..top], start, target, node, 0)
      requires Popped(done, seen[..entryCount], scratch[..top])
      modifies scratch, seen
      ensures top' <= entryCount && Searching(Ids(), Links(), seen[..entryCount], scratch[..top'], start, target)
      ensures Popped(done, seen[..entryCount], scratch[..top'])
    {
      ghost var ids, held := Ids(), Links();
      top' := top;
      hide WellFormed, Reach;
      for e := 0 to linkCount
        invariant top' <= entryCount && Ids() == ids && Links() == held
        invariant Expanding(ids, held, seen[..entryCount], scratch[..top'], start, target, node, e)
        invariant Popped(done, seen[..entryCount], scratch[..top'])
      {
        top' := FollowLink(e, node, top', start, target, done);
      }
    }

    method Push(index: nat, top: nat)
      requires Shape() && index < entryCount && top < entryCount
      modifies scratch, seen
      ensures scratch[..top + 1] == old(scratch[..top]) + [index]
      ensures seen[..entryCount] == old(seen[..entryCount])[index := true]
    {
      seen[index] := true;
      scratch[top] := index;
    }

    method FollowLink(e: nat, node: nat, top: nat, ghost start: nat, ghost target: nat, ghost done: set<nat>) returns (top': nat)
      requires Shape() && Distinct(Ids()) && top <= entryCount && e < linkCount
      requires Expanding(Ids(), Links(), seen[..entryCount], scratch[..top], start, target, node, e)
      requires Popped(done, seen[..entryCount], scratch[..top])
      modifies scratch, seen
      ensures top' <= entryCount && Expanding(Ids(), Links(), seen[..entryCount], scratch[..top'], start, target, node, e + 1)
      ensures Popped(done, seen[..entryCount], scratch[..top'])
    {
      hide Reach, Popped, GraphOf;
      top' := top;
      ghost var ids, held := Ids(), Links();
      var link := links[e];
      if link.owner == entries[node].id {
        var next := FindIndex(link.target);
        if next.Some? && !seen[next.value] {
          SearchPushes(ids, held, seen[..entryCount], scratch[..top], start, target, node, e, next.value);
          PoppedStays(done, seen[..entryCount], scratch[..top], next.value);
          Push(next.value, top);
          return top + 1;
        }
      }
      SearchPasses(ids, held, seen[..entryCount], scratch[..top], start, target, node, e);
    }

    /** Record that one resource needs another, unless that would close a cycle. */
    method AddDependency(owner: nat, target: nat) returns (status: Status)
      requires Valid()
      modifies this`linkCount, links, scratch, seen
      ensures Valid() && Ids() == old(Ids())
      ensures status == if isSealed then Sealed
                        else if owner !in old(Ids()) || target !in old(Ids()) then NotFound
                        else if owner == target then Cyclic
                        else if Link(owner, target) in old(Links()) then Duplicate
                        else if |old(Links())| == links.Length then OutOfCapacity
                        else if Acyclic<nat>(GraphOf(old(Links()) + [Link(owner, target)])) then Ok else Cyclic
      ensures Links() == if status == Ok then old(Links()) + [Link(owner, target)] else old(Links())
    {
      hide Acyclic, Reach, GraphOf;
      assert 0 !in Ids();
      if isSealed {
        return Sealed;
      }
      var from := FindIndex(owner);
      var to := FindIndex(target);
      if owner == 0 || target == 0 || from.None? || to.None? {
        return NotFound;
      }
      if from == to {
        return Cyclic;
      }
      var known := HasLink(owner, target);
      if known {
        return Duplicate;
      }
      if linkCount == links.Length {
        return OutOfCapacity;
      }
      LinkKeepsAcyclic(Links(), Link(owner, target));
      var cyclic := CanReach(to.value, from.value);
      if cyclic {
        return Cyclic;
      }
      AppendLink(Link(owner, target));
      return Ok;
    }

    method AppendLink(link: Link)
      requires Valid() && linkCount < links.Length && link.owner in Ids() && link.target in Ids() && link !in Links()
      requires !Reach<nat>(GraphOf(Links()), link.target, link.owner)
      modifies this`linkCount, links
      ensures Valid() && Ids() == old(Ids()) && Links() == old(Links()) + [link]
    {
      LinkAdded(Ids(), Links(), link);
      hide WellFormed, Acyclic, Reach, GraphOf;
      ghost var before := Links();
      links[linkCount] := link;
      linkCount := linkCount + 1;
      assert Links() == before + [link];
    }

    method HasLink(owner: nat, target: nat) returns (known: bool)
      requires Shape()
      ensures known <==> Link(owner, target) in Links()
    {
      for e := 0 to linkCount
        invariant Link(owner, target) !in Links()[..e]
      {
        if links[e].owner == owner && links[e].target == target {
          assert Links()[e] == Link(owner, target);
          return true;
        }
      }
      assert Links()[..linkCount] == Links();
      return false;
    }

    /** Find the smallest id that waits for nothing. */
    method SelectNext(ghost done: set<nat>) returns (next: Option<nat>)
      requires Shape() && Counted(Ids(), Links(), scratch[..entryCount], seen[..entryCount], done)
      ensures next.Some? ==> next.value < entryCount && NextIs(Members(Ids()), LinkSet(Links()), done, Ids()[next.value])
      ensures next.None? ==> forall x: nat :: !Ready(Members(Ids()), LinkSet(Links()), done, x)
    {
      ghost var all, ids, held := Ids(), Members(Ids()), LinkSet(Links());
      hide Counted, Ready, Members, LinkSet, Smallest;
      next := None;
      for i: nat := 0 to entryCount
        invariant next.Some? ==> next.value < i
        invariant Smallest(all, ids, held, done, i, next)
      {
        CountedReady(all, Links(), scratch[..entryCount], seen[..entryCount], done, i);
        SmallestGrows(all, ids, held, done, i, next);
        if !seen[i] && scratch[i] == 0 && (next.None? || entries[i].id < entries[next.value].id) {
          next := Some(i);
        }
      }
      SmallestIsNext(all, held, done, next);
    }

    /** Count, for every entry, the links it waits for. */
    method CountLinks()
      requires Shape() && Distinct(Ids()) && (forall l :: l in Links() ==> l.owner in Ids())
      modifies scratch, seen
      ensures Counted(Ids(), Links(), scratch[..entryCount], seen[..entryCount], {})
    {
      ghost var all, held := Ids(), Links();
      for i := 0 to entryCount
        invariant forall j :: 0 <= j < i ==> !seen[j] && scratch[j] == 0
      {
        seen[i], scratch[i] := false, 0;
      }
      assert CountedTo(all, held, scratch[..entryCount], 0);
      hide CountedTo, Distinct;
      for e := 0 to linkCount
        modifies scratch
        invariant CountedTo(all, held, scratch[..entryCount], e)
      {
        assert held[e] in held;
        var owner := FindIndex(links[e].owner);
        CountOne(all, held, scratch[..entryCount], e, owner.value);
        ghost var before := scratch[..entryCount];
        scratch[owner.value] := scratch[owner.value] + 1;
        assert scratch[..entryCount] == before[owner.value := before[owner.value] + 1];
      }
      AllCounted(all, held, scratch[..entryCount], seen[..entryCount]);
    }

    /** List an entry: mark it, and take its links off the counts of the entries that wait for it. */
    method Complete(next: nat, ghost done: set<nat>)
      requires Shape() && Distinct(Ids()) && (forall l :: l in Links() ==> l.owner in Ids())
      requires Counted(Ids(), Links(), scratch[..entryCount], seen[..entryCount], done)
      requires next < entryCount && Ids()[next] !in done
      modifies scratch, seen
      ensures Counted(Ids(), Links(), scratch[..entryCount], seen[..entryCount], done + {Ids()[next]})
    {
      ghost var all, held, before := Ids(), Links(), seen[..entryCount];
      DiscountStarts(all, held, scratch[..entryCount], before, done, all[next]);
      hide Counted, Discounted, Distinct;
      seen[next] := true;
      assert seen[..entryCount] == before[next := true];
      for e := 0 to linkCount
        modifies scratch
        invariant Discounted(all, held, scratch[..entryCount], done, all[next], e)
      {
        DiscountLink(e, entries[next].id, done);
      }
      DiscountsDone(all, held, scratch[..entryCount], before, done, next);
    }

    /** The count of a waiting owner is never zero here, so the source's cycle exit is not taken. */
    method DiscountLink(e: nat, completed: nat, ghost done: set<nat>)
      requires Shape() && Distinct(Ids()) && (forall l :: l in Links() ==> l.owner in Ids())
      requires e < linkCount && completed !in done && Discounted(Ids(), Links(), scratch[..entryCount], done, completed, e)
      modifies scratch
      ensures Discounted(Ids(), Links(), scratch[..entryCount], done, completed, e + 1)
    {
      assert Links()[e] in Links();
      if links[e].target == completed {
        var owner := FindIndex(links[e].owner);
        TakeOff(e, owner.value, completed, done);
      } else {
        DiscountNone(Ids(), Links(), scratch[..entryCount], done, completed, e);
      }
    }

    method TakeOff(e: nat, owner: nat, completed: nat, ghost done: set<nat>)
      requires Shape() && Distinct(Ids()) && owner < entryCount && e < linkCount
      requires links[e] == Link(Ids()[owner], completed)
      requires completed !in done && Discounted(Ids(), Links(), scratch[..entryCount], done, completed, e)
      modifies scratch
      ensures Discounted(Ids(), Links(), scratch[..entryCount], done, completed, e + 1)
    {
      DiscountOne(Ids(), Links(), scratch[..entryCount], done, completed, e, owner);
      hide Discounted;
      assert scratch[owner] > 0;
      ghost var before := scratch[..entryCount];
      scratch[owner] := scratch[owner] - 1;
      assert scratch[..entryCount] == before[owner := before[owner] - 1];
    }

    ghost predicate Traversing(ids: seq<nat>, held: seq<Link>, order: seq<nat>)
      reads this, entries, links, scratch, seen
    {
      && Shape() && Ids() == ids && Links() == held && WellFormed(ids, held)
      && SmallestFirst(Members(ids), LinkSet(held), order) && |order| <= |ids|
      && Counted(ids, held, scratch[..entryCount], seen[..entryCount], Members(order))
    }

    /** List one more id; until all are listed there is one, so the source's cycle exit is not taken. */
    method ListNext(ghost ids: seq<nat>, ghost held: seq<Link>, ghost order: seq<nat>) returns (next: nat, ghost longer: seq<nat>)
      requires Traversing(ids, held, order) && |order| < |ids|
      modifies scratch, seen
      ensures next < entryCount && longer == order + [Ids()[next]] && Traversing(ids, held, longer)
    {
      hide WellFormed, Acyclic, SmallestFirst, Counted;
      AllOwnersKnown(ids, held);
      var found := SelectNext(Members(order));
      OrderGoesOn(ids, held, order);
      assert found.Some? by {
        var ready: nat :| Ready(Members(ids), LinkSet(held), Members(order), ready);
        assert Ready(Members(Ids()), LinkSet(Links()), Members(order), ready);
      }
      next := found.value;
      longer := OrderExtends(Members(ids), LinkSet(held), order, ids[next]);
      Complete(next, Members(order));
    }

    method StartTraversal()
      requires Valid()
      modifies scratch, seen
      ensures Traversing(Ids(), Links(), [])
    {
      AllOwnersKnown(Ids(), Links());
      NothingListed(Members(Ids()), LinkSet(Links()));
      hide Acyclic, Counted, SmallestFirst;
      CountLinks();
    }

    lemma TraversalDone(ids: seq<nat>, held: seq<Link>, order: seq<nat>)
      requires Traversing(ids, held, order)
      ensures Valid() && Ids() == ids && Links() == held && SmallestFirst(Members(ids), LinkSet(held), order)
    {
    }

    /** One traversal; only a writing one touches the output. */
    method Traverse(out: array<nat>, write: bool) returns (ghost order: seq<nat>)
      requires Valid() && out != scratch && entryCount <= out.Length
      modifies scratch, seen, out
      ensures Valid() && Ids() == old(Ids()) && Links() == old(Links())
      ensures |order| == entryCount && SmallestFirst(Members(Ids()), LinkSet(Links()), order)
      ensures if write then out[..] == order + old(out[entryCount..]) else out[..] == old(out[..])
    {
      hide Traversing, WellFormed, SmallestFirst;
      ghost var ids, held, was := Ids(), Links(), out[..];
      StartTraversal();
      order := [];
      for i := 0 to entryCount
        modifies scratch, seen, out
        invariant |order| == i && Traversing(ids, held, order)
        invariant forall j :: 0 <= j < out.Length ==> out[j] == if write && j < i then order[j] else was[j]
      {
        var next: nat;
        next, order := ListNext(ids, held, order);
        if write {
          out[i] := entries[next].id;
        }
      }
      TraversalDone(ids, held, order);
    }

    /** The load order: how many ids there are, and the ids if the caller has room for all. Only
        the second of two traversals writes. */
    method BuildLoadOrder(out: array?<nat>) returns (status: Status, count: nat)
      requires Valid() && (out != null ==> out != scratch)
      modifies scratch, seen, out
      ensures Valid() && Ids() == old(Ids()) && Links() == old(Links())
      ensures count == |Ids()|
      ensures status == if out != null && out.Length < |Ids()| then OutOfCapacity else Ok
      ensures out != null && status == OutOfCapacity ==> out[..] == old(out[..])
      ensures out != null && status == Ok ==>
        && SmallestFirst(Members(Ids()), LinkSet(Links()), out[..count])
        && DependencyFirst(Members(Ids()), LinkSet(Links()), out[..count])
        && out[count..] == old(out[count..])
    {
      count := entryCount;
      if out == null {
        return Ok, count;
      }
      if out.Length < entryCount {
        return OutOfCapacity, count;
      }
      WriteLoadOrder(out);
      status := Ok;
    }

    method WriteLoadOrder(out: array<nat>)
      requires Valid() && out != scratch && entryCount <= out.Length
      modifies scratch, seen, out
      ensures Valid() && Ids() == old(Ids()) && Links() == old(Links())
      ensures SmallestFirst(Members(Ids()), LinkSet(Links()), out[..entryCount])
      ensures DependencyFirst(Members(Ids()), LinkSet(Links()), out[..entryCount])
      ensures out[entryCount..] == old(out[entryCount..])
    {
      var first := Traverse(out, false);
      var order := Traverse(out, true);
      assert out[..entryCount] == order;
      DistinctMembers<nat>(Ids());
      assert Members(Ids()) == set x | x in Ids();
      SmallestFirstIsComplete(Members(Ids()), LinkSet(Links()), order);
    }
  }

  lemma NothingListed(ids: set<nat>, links: set<Link>)
    ensures SmallestFirst(ids, links, []) && Members([]) == {}
  {
  }

  /** Until all ids are listed, one is ready. */
  lemma OrderGoesOn(ids: seq<nat>, links: seq<Link>, order: seq<nat>)
    requires WellFormed(ids, links) && SmallestFirst(Members(ids), LinkSet(links), order) && |order| < |ids|
    ensures exists x: nat :: Ready(Members(ids), LinkSet(links), Members(order), x)
  {
    SmallestFirstDistinct(Members(ids), LinkSet(links), order);
    DistinctMembers<nat>(ids);
    assert Members(ids) == set x | x in ids;
    var x := SomethingIsReady(Members(ids), links, Members(order));
  }

  lemma OrderExtends(ids: set<nat>, links: set<Link>, order: seq<nat>, x: nat) returns (longer: seq<nat>)
    requires SmallestFirst(ids, links, order) && NextIs(ids, links, Members(order), x)
    ensures longer == order + [x] && SmallestFirst(ids, links, longer) && Members(longer) == Members(order) + {x}
  {
    longer := order + [x];
    forall i | 0 <= i < |longer| ensures NextIs(ids, links, Members(longer[..i]), longer[i]) {
      assert longer[..i] == order[..i];
      if i == |order| {
        assert order[..i] == order;
      }
    }
  }

  /** The smallest ready id among the first n entries, if there is one. */
  ghost predicate Smallest(all: seq<nat>, ids: set<nat>, held: set<Link>, done: set<nat>, n: nat, next: Option<nat>)
    requires n <= |all| && (next.Some? ==> next.value < n)
  {
    && (next.Some? ==> Ready(ids, held, done, all[next.value]))
    && forall j :: 0 <= j < n && Ready(ids, held, done, all[j]) ==> next.Some? && all[next.value] <= all[j]
  }

  lemma SmallestGrows(all: seq<nat>, ids: set<nat>, held: set<Link>, done: set<nat>, n: nat, next: Option<nat>)
    requires n < |all| && (next.Some? ==> next.value < n) && Smallest(all, ids, held, done, n, next)
    ensures Smallest(all, ids, held, done, n + 1,
      if Ready(ids, held, done, all[n]) && (next.None? || all[n] < all[next.value]) then Some(n) else next)
  {
  }

  lemma SmallestIsNext(all: seq<nat>, held: set<Link>, done: set<nat>, next: Option<nat>)
    requires (next.Some? ==> next.value < |all|) && Smallest(all, Members(all), held, done, |all|, next)
    ensures next.Some? ==> NextIs(Members(all), held, done, all[next.value])
    ensures next.None? ==> forall x: nat :: !Ready(Members(all), held, done, x)
  {
    forall x: nat | Ready(Members(all), held, done, x) ensures next.Some? && all[next.value] <= x {
      var j :| 0 <= j < |all| && all[j] == x;
    }
  }
}
