/** The package loader: root leases share the banks of their dependency closures. Loads run at
    once or step by step, failed loads are rolled back, and unleased banks are unloaded in
    reverse order. What the bank store answers is a parameter of each operation. */
module PackageLoader {
  import opened AudioManifest
  import opened DepthFirst
  import opened Digraph
  import opened PackageLeases
  import opened Wrappers

  const UINT32_MAX: nat := 0xFFFF_FFFF

  datatype Failure = InvalidHandle | Capacity | BackendError | InvalidArgument | NotInitialized | Busy | Cancelled

  datatype AudioResult = Success | Pending | Failed(error: Failure)

  /** How the bank store answers a load: a bank, nothing, or a failed bank whose handle it keeps. */
  datatype BankLoad = Loaded | Refused(error: Failure) | Quarantined(error: Failure)

  /** What happens when the loader turns to a package: path resolution, bank load, sample preload. */
  datatype LoadOutcome = LoadOutcome(resolve: Option<Failure>, pathGiven: bool, bank: BankLoad, preload: Option<Failure>)

  /** How the bank store answers when a step-by-step load is begun, and when it is polled. */
  datatype BankBegin = Started | LoadedAtOnce | BeginRefused(error: Failure) | BeginQuarantined(error: Failure)

  datatype BankPoll = StillLoading | Ready | LoadFailed(error: Failure)

  datatype PollOutcome = PollOutcome(resolve: Option<Failure>, pathGiven: bool, begin: BankBegin, poll: BankPoll, preload: Option<Failure>)

  /** A step-by-step load: its root, its plan and how far it has come. Once it has failed, the
      error it will end with. */
  datatype Async = Async(root: nat, planCount: nat, step: nat, oldCount: nat, preload: bool, terminal: Option<Failure>)

  datatype Step = Waiting | Stepped | StepFailed(error: Failure)

  datatype Entry = Entry(state: PackageState, refs: nat, roots: nat)

  /** Nothing goes wrong in one poll, and a bank that was being loaded is ready. */
  predicate Cooperates(o: PollOutcome)
  {
    o.resolve.None? && o.pathGiven && (o.begin.Started? || o.begin.LoadedAtOnce?) && o.poll.Ready? && o.preload.None?
  }

  /** The bank listed last will not unload. */
  ghost predicate StuckOn(h: Holdings, unload: nat -> Option<Failure>, failure: Option<Failure>)
  {
    h.order != [] && failure.Some? && unload(h.order[|h.order| - 1]) == failure
  }

  /** What goes wrong with the samples of a bank that is there. */
  ghost function SampleTrouble(preload: bool, samples: Option<Failure>): Option<Failure>
  {
    if preload then samples else None
  }

  /** What goes wrong with a package in a load at once: the first of path resolution, path, bank and samples. */
  ghost function Trouble(state: PackageState, preload: bool, o: LoadOutcome): Option<Failure>
  {
    if !state.Gone? then SampleTrouble(preload, o.preload)
    else if o.resolve.Some? then o.resolve
    else if !o.pathGiven then Some(InvalidArgument)
    else if o.bank.Refused? || o.bank.Quarantined? then Some(o.bank.error)
    else SampleTrouble(preload, o.preload)
  }

  ghost function TroubleAt(states: seq<PackageState>, plan: seq<nat>, i: nat, preload: bool, load: nat -> LoadOutcome): Option<Failure>
  {
    if i < |plan| && plan[i] < |states| then Trouble(states[plan[i]], preload, load(plan[i])) else None
  }

  /** The first trouble with the first n packages of a plan, or none. */
  ghost predicate FirstTrouble(states: seq<PackageState>, plan: seq<nat>, n: nat, preload: bool, load: nat -> LoadOutcome, failure: Option<Failure>)
  {
    if failure.None? then forall i :: 0 <= i < n ==> TroubleAt(states, plan, i, preload, load).None?
    else exists k :: 0 <= k < n && TroubleAt(states, plan, k, preload, load) == failure
                  && forall i :: 0 <= i < k ==> TroubleAt(states, plan, i, preload, load).None?
  }

  /** The packages of a plan from the k-th on are as they were. */
  ghost predicate Untouched(states: seq<PackageState>, now: seq<PackageState>, plan: seq<nat>, k: nat)
  {
    |now| == |states| && forall i :: k <= i < |plan| && plan[i] < |states| ==> now[plan[i]] == states[plan[i]]
  }

  lemma NothingTried(states: seq<PackageState>, plan: seq<nat>, preload: bool, load: nat -> LoadOutcome)
    ensures FirstTrouble(states, plan, 0, preload, load, None) && Untouched(states, states, plan, 0)
  {
  }

  lemma TroubleFollows(states: seq<PackageState>, before: seq<PackageState>, now: seq<PackageState>, plan: seq<nat>, k: nat,
                       preload: bool, load: nat -> LoadOutcome, failure: Option<Failure>)
    requires FirstTrouble(states, plan, k, preload, load, None) && Untouched(states, before, plan, k)
    requires k < |plan| && plan[k] < |states| && failure == Trouble(before[plan[k]], preload, load(plan[k])) && |now| == |before|
    requires forall q :: 0 <= q < |before| && q != plan[k] ==> now[q] == before[q]
    requires forall i, j :: 0 <= i < j < |plan| ==> plan[i] != plan[j]
    ensures if failure.None? then FirstTrouble(states, plan, k + 1, preload, load, None) && Untouched(states, now, plan, k + 1)
            else FirstTrouble(states, plan, |plan|, preload, load, failure)
  {
    hide Trouble;
    assert TroubleAt(states, plan, k, preload, load) == failure;
  }

  /** A failure with this error was undone, or it is stuck on a bank that will not unload. */
  ghost predicate FailsWith(base: Holdings, h: Holdings, unload: nat -> Option<Failure>, error: Failure, result: AudioResult)
  {
    || (result == Failed(error) && h == base)
    || (result.Failed? && StuckOn(h, unload, Some(result.error)))
  }

  /** A package cannot be loaded now: a bank of its closure is broken or half loaded, or a count is full. */
  ghost predicate Blocked(adj: seq<seq<Arc>>, h: Holdings, root: nat)
  {
    || (root < |h.roots| && h.roots[root] >= UINT32_MAX)
    || exists p: nat :: p < |h.states| && p < |h.refs| && Reach<nat>(Arrows(adj), root, p)
                     && (h.states[p].Broken? || h.states[p].Loading? || h.refs[p] >= UINT32_MAX)
  }

  /** A load at once: a blocked one changes nothing; otherwise it succeeds if and only if nothing goes wrong
      with any package of the closure, and fails with what went wrong with one of them. */
  ghost predicate LoadsAs(adj: seq<seq<Arc>>, h: Holdings, root: nat, preload: bool, load: nat -> LoadOutcome,
                          unload: nat -> Option<Failure>, result: AudioResult, h': Holdings)
  {
    if Blocked(adj, h, root) then result in {Failed(Busy), Failed(Capacity)} && h' == h
    else
      && (result == Success <==> forall p: nat :: p < |h.states| && Reach<nat>(Arrows(adj), root, p) ==> Trouble(h.states[p], preload, load(p)).None?)
      && (result != Success ==>
            exists p: nat :: p < |h.states| && Reach<nat>(Arrows(adj), root, p) && Trouble(h.states[p], preload, load(p)).Some?
                          && FailsWith(h, h', unload, Trouble(h.states[p], preload, load(p)).value, result))
  }

  lemma RunLoadsAs(adj: seq<seq<Arc>>, h: Holdings, root: nat, plan: seq<nat>, preload: bool, load: nat -> LoadOutcome,
                   unload: nat -> Option<Failure>, result: AudioResult, h': Holdings, failure: Option<Failure>)
    requires !Blocked(adj, h, root) && ClosureOrder(adj, root, plan) && |adj| == |h.states|
    requires FirstTrouble(h.states, plan, |plan|, preload, load, failure)
    requires if failure.None? then result == Success else FailsWith(h, h', unload, failure.value, result)
    ensures LoadsAs(adj, h, root, preload, load, unload, result, h')
  {
    hide Blocked, Trouble, Arrows;
    if failure.None? {
      forall p: nat | p < |h.states| && Reach<nat>(Arrows(adj), root, p) ensures Trouble(h.states[p], preload, load(p)).None? {
        var i :| 0 <= i < |plan| && plan[i] == p;
        assert TroubleAt(h.states, plan, i, preload, load).None?;
      }
    } else {
      var k :| 0 <= k < |plan| && TroubleAt(h.states, plan, k, preload, load) == failure;
      assert plan[k] in plan;
    }
  }

  /** What one poll comes to, by the state of the package it is about and the answers it gets. */
  ghost function StepOf(state: PackageState, preload: bool, o: PollOutcome): Step
  {
    var failed :=
      if state.Gone? && o.resolve.Some? then o.resolve
      else if state.Gone? && !o.pathGiven then Some(InvalidArgument)
      else if state.Gone? && (o.begin.BeginRefused? || o.begin.BeginQuarantined?) then Some(o.begin.error)
      else if state.Loading? && o.poll.LoadFailed? then Some(o.poll.error)
      else None;
    if failed.Some? then StepFailed(failed.value)
    else if (state.Gone? && o.begin.Started?) || (state.Loading? && o.poll.StillLoading?) then Waiting
    else
      var trouble := SampleTrouble(preload, o.preload);
      if trouble.Some? then StepFailed(trouble.value) else Stepped
  }

  /** No bank is broken or half loaded, and no count is full. */
  ghost predicate Unhindered(h: Holdings)
  {
    && (forall p :: 0 <= p < |h.states| ==> h.states[p].Gone? || h.states[p].Resident?)
    && (forall p :: 0 <= p < |h.refs| ==> h.refs[p] < UINT32_MAX) && (forall p :: 0 <= p < |h.roots| ==> h.roots[p] < UINT32_MAX)
  }

  function StatesOf(entries: seq<Entry>): (states: seq<PackageState>)
    ensures |states| == |entries| && forall p :: 0 <= p < |entries| ==> states[p] == entries[p].state
  {
    seq(|entries|, p requires 0 <= p < |entries| => entries[p].state)
  }

  function RefsOf(entries: seq<Entry>): (refs: seq<nat>)
    ensures |refs| == |entries| && forall p :: 0 <= p < |entries| ==> refs[p] == entries[p].refs
  {
    seq(|entries|, p requires 0 <= p < |entries| => entries[p].refs)
  }

  function RootsOf(entries: seq<Entry>): (roots: seq<nat>)
    ensures |roots| == |entries| && forall p :: 0 <= p < |entries| ==> roots[p] == entries[p].roots
  {
    seq(|entries|, p requires 0 <= p < |entries| => entries[p].roots)
  }

  // ---------------------------------------------------------------- loads in progress, on values

  /** Only banks listed after those of h have been added: leases, and the banks of h, are as they were. */
  ghost predicate Extends(h: Holdings, h': Holdings)
  {
    && h'.refs == h.refs && h'.roots == h.roots && |h'.states| == |h.states|
    && h.order <= h'.order
    && forall p :: 0 <= p < |h.states| && p in h.order ==> h'.states[p] == h.states[p]
  }

  /** No asynchronous load has left a bank half loaded. */
  ghost predicate Idle(h: Holdings)
  {
    forall p :: 0 <= p < |h.states| ==> !h.states[p].Loading?
  }

  lemma LoadedIsIdle(adj: seq<seq<Arc>>, h: Holdings, root: nat, h': Holdings)
    requires Sound(adj, h) && Sound(adj, h') && Idle(h) && LoadedAs(adj, h, root, h')
    ensures Idle(h')
  {
    assert h'.order == h.order + h'.order[|h.order|..];
    forall p: nat | p < |adj| && !h'.states[p].Gone? ensures !h'.states[p].Loading? {
      assert p in h'.order;
    }
  }

  lemma ExtendsItself(h: Holdings)
    ensures Extends(h, h)
  {
  }

  /** Nothing added means nothing changed. */
  lemma NothingAdded(adj: seq<seq<Arc>>, h: Holdings, h': Holdings)
    requires Sound(adj, h) && Sound(adj, h') && Extends(h, h') && |h'.order| == |h.order|
    ensures h' == h
  {
    assert h'.order == h.order;
    assert forall p :: 0 <= p < |h.states| ==> h'.states[p] == h.states[p];
    assert h'.states == h.states;
  }

  lemma RetainExtends(adj: seq<seq<Arc>>, h: Holdings, h': Holdings, p: nat, state: PackageState)
    requires Sound(adj, h) && Extends(h, h') && Sound(adj, h') && p < |adj| && h'.states[p].Gone?
    ensures Extends(h, Retained(h', p, state)) && p !in h.order
  {
    assert p !in h'.order;
  }

  lemma StateChangeExtends(h: Holdings, h': Holdings, p: nat, state: PackageState)
    requires Extends(h, h') && p < |h'.states| && p !in h.order
    ensures Extends(h, StateChanged(h', p, state))
  {
  }

  /** The bank listed last, if added, is unleased and can be dropped again. */
  lemma LastAdded(adj: seq<seq<Arc>>, h: Holdings, h': Holdings)
    requires Sound(adj, h) && Sound(adj, h') && Extends(h, h') && |h'.order| > |h.order|
    ensures var p := h'.order[|h'.order| - 1];
      && p < |adj| && p !in h.order && h'.refs[p] == 0 && h'.roots[p] == 0
      && Sound(adj, Dropped(h', |h'.order| - 1)) && Extends(h, Dropped(h', |h'.order| - 1))
  {
    var last := |h'.order| - 1;
    var p := h'.order[last];
    assert forall i :: 0 <= i < |h.order| ==> h.order[i] == h'.order[i];
    assert p !in h.order;
    assert h.states[p].Gone?;
    ReachSelf<nat>(Arrows(adj), p);
    LeaseCounts(adj, h'.roots, |adj|, p, p);
    DropKeepsSound(adj, h', last);
    var h'' := Dropped(h', last);
    assert h''.order == h'.order[..last];
  }

  /** The plan's next package can be retained: what it depends on comes earlier in the plan. */
  lemma PlanIsReady(adj: seq<seq<Arc>>, h: Holdings, root: nat, plan: seq<nat>, k: nat)
    requires Sound(adj, h) && ClosureOrder(adj, root, plan) && k < |plan|
    requires forall i :: 0 <= i < k ==> plan[i] < |adj| && !h.states[plan[i]].Gone?
    ensures plan[k] < |adj| && forall e :: 0 <= e < |adj[plan[k]]| ==> Before(h.order, adj[plan[k]][e])
  {
    assert AfterTargets(adj, plan, k);
    forall e | 0 <= e < |adj[plan[k]]| ensures Before(h.order, adj[plan[k]][e]) {
      assert Before(plan[..k], adj[plan[k]][e]);
    }
  }

  /** A load that worked: the root's closure is resident, and counted once more. */
  ghost predicate LoadedAs(adj: seq<seq<Arc>>, h: Holdings, root: nat, h': Holdings)
  {
    && |h.refs| == |h.roots| == |h.states| == |adj| && root < |adj| && |h'.refs| == |h'.states| == |adj|
    && h'.roots == h.roots[root := h.roots[root] + 1]
    && (forall p :: 0 <= p < |adj| ==>
          h'.refs[p] == h.refs[p] + if Reach<nat>(Arrows(adj), root, p) then 1 else 0)
    && (forall p :: 0 <= p < |adj| && Reach<nat>(Arrows(adj), root, p) ==> h'.states[p].Resident?)
    && h.order <= h'.order
    && (forall p :: 0 <= p < |adj| && p in h.order ==> h'.states[p] == h.states[p])
    && (forall p :: p in h'.order[|h.order|..] ==> Reach<nat>(Arrows(adj), root, p))
  }

  /** A load under way: the first k packages of the plan are resident, the others are untouched. */
  ghost predicate Underway(adj: seq<seq<Arc>>, base: Holdings, h: Holdings, root: nat, plan: seq<nat>, k: nat)
  {
    && Sound(adj, base) && Sound(adj, h) && Extends(base, h) && ClosureOrder(adj, root, plan) && k <= |plan|
    && (forall i :: 0 <= i < k ==> plan[i] < |adj| && h.states[plan[i]].Resident?)
    && (forall i :: k <= i < |plan| ==> plan[i] < |adj| && (h.states[plan[i]].Gone? || h.states[plan[i]].Resident?))
    && (forall p :: p in h.order[|base.order|..] ==> p in plan)
  }

  lemma UnderwayStarts(adj: seq<seq<Arc>>, h: Holdings, root: nat, plan: seq<nat>)
    requires Sound(adj, h) && ClosureOrder(adj, root, plan)
    requires forall i :: 0 <= i < |plan| ==> plan[i] < |adj| && (h.states[plan[i]].Gone? || h.states[plan[i]].Resident?)
    ensures Underway(adj, h, h, root, plan, 0)
  {
  }

  lemma UnderwayAdvances(adj: seq<seq<Arc>>, base: Holdings, h: Holdings, h': Holdings, root: nat, plan: seq<nat>, k: nat)
    requires Underway(adj, base, h, root, plan, k) && k < |plan| && Sound(adj, h') && Extends(base, h')
    requires plan[k] < |adj| && h'.states[plan[k]].Resident?
    requires forall q :: 0 <= q < |adj| && q != plan[k] ==> h'.states[q] == h.states[q]
    requires h'.order == h.order || h'.order == h.order + [plan[k]]
    ensures Underway(adj, base, h', root, plan, k + 1)
  {
    assert forall i :: 0 <= i < |plan| && i != k ==> plan[i] != plan[k];
    if h'.order == h.order + [plan[k]] {
      assert h'.order[|base.order|..] == h.order[|base.order|..] + [plan[k]];
    }
  }

  /** Counting a finished load on its closure makes it a load that worked. */
  lemma UnderwayLoads(adj: seq<seq<Arc>>, base: Holdings, h: Holdings, root: nat, plan: seq<nat>, h': Holdings)
    requires Underway(adj, base, h, root, plan, |plan|) && Acquired(adj, h, root, h')
    ensures LoadedAs(adj, base, root, h') && Sound(adj, h')
  {
    forall p: nat | p < |adj| && Reach<nat>(Arrows(adj), root, p) ensures h.states[p].Resident? {
      assert p in plan;
      var i :| 0 <= i < |plan| && plan[i] == p;
    }
    AcquireKeepsSound(adj, h, root, h');
    forall p | p in h'.order[|base.order|..] ensures Reach<nat>(Arrows(adj), root, p) {
      assert p in plan;
    }
  }

  lemma AcquiredEntries(adj: seq<seq<Arc>>, was: seq<Entry>, now: seq<Entry>, order: seq<nat>, root: nat, plan: seq<nat>)
    requires |was| == |now| == |adj| && root < |adj| && ClosureOrder(adj, root, plan)
    requires forall p :: 0 <= p < |adj| ==>
      now[p] == Entry(was[p].state, was[p].refs + (if p in plan then 1 else 0), was[p].roots + (if p == root then 1 else 0))
    ensures Acquired(adj, Holdings(StatesOf(was), order, RefsOf(was), RootsOf(was)), root,
                     Holdings(StatesOf(now), order, RefsOf(now), RootsOf(now)))
  {
    assert StatesOf(now) == StatesOf(was);
    assert RootsOf(now) == RootsOf(was)[root := was[root].roots + 1];
  }

  lemma ReleasedEntries(adj: seq<seq<Arc>>, was: seq<Entry>, now: seq<Entry>, order: seq<nat>, root: nat, plan: seq<nat>)
    requires |was| == |now| == |adj| && root < |adj| && ClosureOrder(adj, root, plan) && was[root].roots > 0
    requires forall p :: 0 <= p < |adj| ==>
      && now[p].state == was[p].state && was[p].refs == now[p].refs + (if p in plan then 1 else 0)
      && was[p].roots == now[p].roots + (if p == root then 1 else 0)
    ensures Released(adj, Holdings(StatesOf(was), order, RefsOf(was), RootsOf(was)), root,
                     Holdings(StatesOf(now), order, RefsOf(now), RootsOf(now)))
  {
    assert StatesOf(now) == StatesOf(was);
    assert RootsOf(now) == RootsOf(was)[root := was[root].roots - 1];
  }

  /** What is left after a collection: everything leased is as it was, and nothing was added. */
  ghost predicate Collected(h: Holdings, h': Holdings)
  {
    && h'.refs == h.refs && h'.roots == h.roots && |h'.states| == |h.states| == |h.refs|
    && (forall p :: p in h'.order ==> p in h.order)
    && (forall p :: 0 <= p < |h.states| && p in h'.order ==> h'.states[p] == h.states[p])
    && (forall p :: 0 <= p < |h.states| && p in h.order && h.refs[p] > 0 ==> p in h'.order)
  }

  /** A collection that has dealt with the load order from position i on: all of that is leased. */
  ghost predicate Collecting(adj: seq<seq<Arc>>, h: Holdings, h': Holdings, i: nat)
  {
    && Sound(adj, h') && Collected(h, h') && i <= |h'.order|
    && forall j :: i <= j < |h'.order| ==> h'.refs[h'.order[j]] > 0
  }

  /** A collection ends early only at an unleased bank that will not unload, and with the bank store's answer. */
  ghost predicate Uncollected(h: Holdings, unload: nat -> Option<Failure>, failure: Option<Failure>)
  {
    failure.Some? && exists p :: p in h.order && p < |h.refs| && h.refs[p] == 0 && unload(p) == failure
  }

  lemma CollectKeeps(adj: seq<seq<Arc>>, h: Holdings, h': Holdings, i: nat)
    requires Collecting(adj, h, h', i + 1) && h'.refs[h'.order[i]] > 0
    ensures Collecting(adj, h, h', i)
  {
  }

  lemma CollectDrops(adj: seq<seq<Arc>>, h: Holdings, h': Holdings, i: nat)
    requires Collecting(adj, h, h', i + 1) && h'.refs[h'.order[i]] == 0
    ensures Collecting(adj, h, Dropped(h', i), i) && h'.roots[h'.order[i]] == 0
  {
    var p := h'.order[i];
    ReachSelf<nat>(Arrows(adj), p);
    LeaseCounts(adj, h'.roots, |adj|, p, p);
    DropKeepsSound(adj, h', i);
    forall q: nat ensures q in Dropped(h', i).order <==> q in h'.order && q != p {
      DroppedMembers(h'.order, i, q);
    }
  }

  /** A step-by-step load: like a load under way, but the bank of the next package may be half loaded. */
  ghost predicate Midway(adj: seq<seq<Arc>>, base: Holdings, h: Holdings, root: nat, plan: seq<nat>, k: nat)
  {
    && Sound(adj, base) && Sound(adj, h) && Extends(base, h) && ClosureOrder(adj, root, plan) && k <= |plan|
    && (forall i :: 0 <= i < k ==> plan[i] < |adj| && h.states[plan[i]].Resident?)
    && (forall i :: k < i < |plan| ==> plan[i] < |adj| && (h.states[plan[i]].Gone? || h.states[plan[i]].Resident?))
    && (k < |plan| ==> plan[k] < |adj| && !h.states[plan[k]].Broken?)
    && (forall p :: p in h.order[|base.order|..] ==> p in plan)
    && (forall p :: 0 <= p < |h.states| && h.states[p].Loading? ==> k < |plan| && p == plan[k])
  }

  lemma UnderwayIsMidway(adj: seq<seq<Arc>>, base: Holdings, h: Holdings, root: nat, plan: seq<nat>, k: nat)
    requires Underway(adj, base, h, root, plan, k) && Idle(h)
    ensures Midway(adj, base, h, root, plan, k)
  {
  }

  lemma MidwayIsUnderway(adj: seq<seq<Arc>>, base: Holdings, h: Holdings, root: nat, plan: seq<nat>, k: nat)
    requires Midway(adj, base, h, root, plan, k) && (k < |plan| ==> !h.states[plan[k]].Loading?)
    ensures Underway(adj, base, h, root, plan, k) && Idle(h)
  {
  }

  /** The bank of the plan's next package is kept. */
  lemma MidwayRetains(adj: seq<seq<Arc>>, base: Holdings, h: Holdings, root: nat, plan: seq<nat>, k: nat, state: PackageState)
    requires Midway(adj, base, h, root, plan, k) && k < |plan| && h.states[plan[k]].Gone? && !state.Gone?
    ensures |h.order| < |adj| && Sound(adj, Retained(h, plan[k], state)) && Extends(base, Retained(h, plan[k], state))
    ensures !state.Broken? ==> Midway(adj, base, Retained(h, plan[k], state), root, plan, k)
  {
    PlanIsReady(adj, h, root, plan, k);
    OrderHasRoom(adj, h, plan[k]);
    RetainKeepsSound(adj, h, plan[k], state);
    RetainExtends(adj, base, h, plan[k], state);
    var h' := Retained(h, plan[k], state);
    assert forall i :: 0 <= i < |plan| && i != k ==> plan[i] != plan[k];
    assert h'.order[|base.order|..] == h.order[|base.order|..] + [plan[k]];
    assert plan[k] in plan;
    hide Sound, ClosureOrder, Extends;
  }

  /** A half loaded bank becomes usable or broken. */
  lemma MidwayTurns(adj: seq<seq<Arc>>, base: Holdings, h: Holdings, root: nat, plan: seq<nat>, k: nat, state: PackageState)
    requires Midway(adj, base, h, root, plan, k) && k < |plan| && h.states[plan[k]].Loading? && !state.Gone? && Idle(base)
    ensures Sound(adj, StateChanged(h, plan[k], state)) && Extends(base, StateChanged(h, plan[k], state))
    ensures !state.Broken? ==> Midway(adj, base, StateChanged(h, plan[k], state), root, plan, k)
  {
    assert plan[k] !in base.order;
    assert base.states[plan[k]].Gone?;
    StateChangeKeepsSound(adj, h, plan[k], state);
    StateChangeExtends(base, h, plan[k], state);
    assert forall i :: 0 <= i < |plan| && i != k ==> plan[i] != plan[k];
    hide Sound, ClosureOrder, Extends;
  }

  lemma MidwayAdvances(adj: seq<seq<Arc>>, base: Holdings, h: Holdings, root: nat, plan: seq<nat>, k: nat)
    requires Midway(adj, base, h, root, plan, k) && k < |plan| && h.states[plan[k]].Resident?
    ensures Midway(adj, base, h, root, plan, k + 1)
  {
  }

  lemma OrderHasRoom(adj: seq<seq<Arc>>, h: Holdings, p: nat)
    requires Sound(adj, h) && p < |adj| && h.states[p].Gone?
    ensures |h.order| < |adj|
  {
    DistinctBelow(h.order + [p], |adj|);
  }

  lemma NothingHeld(adj: seq<seq<Arc>>, h: Holdings)
    requires ArcsOk(adj) && |h.states| == |h.refs| == |h.roots| == |adj| && h.order == []
    requires forall p :: 0 <= p < |adj| ==> h.states[p].Gone? && h.refs[p] == 0 && h.roots[p] == 0
    ensures Sound(adj, h)
  {
    forall p | 0 <= p < |adj| ensures Leases(adj, h.roots, |adj|, p) == 0 {
      NoLeases(adj, h.roots, |adj|, p);
    }
  }

  class Loader {
    const packages: seq<Package>
    const dependencies: seq<nat>
    ghost const available: set<nat>
    const search: PackageSearch
    const entries: array<Entry>
    const loadOrder: array<nat>
    var loadedCount: nat
    var pending: Option<Async>
    /** What was held when the pending load was begun. */
    ghost var base: Holdings

    /** The manifest the loader was given has passed its checks. */
    ghost predicate Checked()
    {
      && RecordsOk(packages, dependencies, available)
      && Acyclic<nat>(Arrows(Adjacency(packages, dependencies, available)))
    }

    ghost function Adj(): (adj: seq<seq<Arc>>)
      requires Checked()
      ensures |adj| == |packages| && ArcsOk(adj)
    {
      Adjacency(packages, dependencies, available)
    }

    ghost predicate Shape()
      reads this`loadedCount
    {
      && Checked() && search.scratch.Shape(|packages|)
      && entries.Length == loadOrder.Length == |packages| && loadedCount <= |packages|
      && loadOrder != search.scratch.stack && loadOrder != search.scratch.next && loadOrder != search.scratch.order
    }

    ghost function Held(): (h: Holdings)
      requires Shape()
      reads this`loadedCount, entries, loadOrder
    {
      Holdings(StatesOf(entries[..]), loadOrder[..loadedCount], RefsOf(entries[..]), RootsOf(entries[..]))
    }

    ghost predicate Steady()
      reads this`loadedCount, entries, loadOrder
      ensures Steady() ==> Shape() && Sound(Adj(), Held())
    {
      Shape() && Sound(Adj(), Held())
    }

    ghost function Plan(count: nat): seq<nat>
      requires Shape() && count <= |packages|
      reads this`loadedCount, search.scratch.order
    {
      search.scratch.order[..count]
    }

    /** A pending load has only added banks of its plan to what was held when it was begun. */
    ghost predicate AsyncOk(a: Async)
      requires Steady()
      reads this`loadedCount, this`base, entries, loadOrder, search.scratch.order
    {
      && a.root < |packages| && a.planCount <= |packages| && |base.order| == a.oldCount
      && Sound(Adj(), base) && Idle(base) && Extends(base, Held())
      && (a.terminal.None? ==> Midway(Adj(), base, Held(), a.root, Plan(a.planCount), a.step))
    }

    ghost predicate Valid()
      reads this`loadedCount, this`pending, this`base, entries, loadOrder, search.scratch.order
      ensures Valid() ==> Steady()
    {
      Steady() && if pending.Some? then AsyncOk(pending.value) else Idle(Held())
    }

    constructor (packages: seq<Package>, dependencies: seq<nat>, ghost available: set<nat>)
      requires RecordsOk(packages, dependencies, available)
      requires Acyclic<nat>(Arrows(Adjacency(packages, dependencies, available)))
      ensures Valid() && pending.None? && loadedCount == 0 && this.packages == packages && this.dependencies == dependencies
    {
      this.packages, this.dependencies, this.available := packages, dependencies, available;
      search := new PackageSearch(|packages|);
      entries := new Entry[|packages|](i => Entry(Gone, 0, 0));
      loadOrder := new nat[|packages|];
      loadedCount, pending := 0, None;
      base := Holdings([], [], [], []);
      new;
      NothingHeld(Adjacency(packages, dependencies, available), Held());
    }

    /** The dependency closure of a package, dependencies first. A checked manifest has no cycle, so
        the source's error exits are not taken. */
    method BuildPlan(root: nat) returns (count: nat)
      requires Steady() && root < |packages|
      modifies search.scratch.stack, search.scratch.next, search.scratch.states, search.scratch.order
      ensures Steady() && Held() == old(Held())
      ensures count <= |packages| && ClosureOrder(Adj(), root, Plan(count))
    {
      ghost var adj := Adj();
      search.scratch.Clear(adj);
      var cyclic: bool;
      cyclic, count := search.SearchFrom(packages, dependencies, available, adj, root, 0);
      ListIsClosure(adj, search.scratch.State(0, count), root);
    }

    /** Unload the banks added since the load order had the given length, last first. */
    method RollbackTo(oldCount: nat, unload: nat -> Option<Failure>, ghost base: Holdings) returns (failure: Option<Failure>)
      requires Steady() && Sound(Adj(), base) && Extends(base, Held()) && |base.order| == oldCount
      modifies this`loadedCount, entries
      ensures Steady() && Extends(base, Held())
      ensures failure.None? ==> Held() == base
      ensures failure.Some? ==> StuckOn(Held(), unload, failure)
      ensures (forall p :: unload(p).None?) ==> failure.None?
      ensures Idle(old(Held())) ==> Idle(Held())
    {
      hide StuckOn;
      ghost var was := Held();
      while loadedCount > oldCount
        invariant Steady() && Extends(base, Held()) && (Idle(was) ==> Idle(Held()))
      {
        failure := UndoLast(unload, base);
        if failure.Some? {
          return;
        }
      }
      NothingAdded(Adj(), base, Held());
      return None;
    }

    method UndoLast(unload: nat -> Option<Failure>, ghost base: Holdings) returns (failure: Option<Failure>)
      requires Steady() && Sound(Adj(), base) && Extends(base, Held()) && |base.order| < loadedCount
      modifies this`loadedCount, entries
      ensures Steady() && Extends(base, Held()) && (Idle(old(Held())) ==> Idle(Held()))
      ensures failure == unload(loadOrder[old(loadedCount) - 1])
      ensures failure.Some? ==> StuckOn(Held(), unload, failure)
      ensures failure.None? ==> loadedCount == old(loadedCount) - 1
    {
      hide RecordsOk, Acyclic, Counts, Ordered, LeasedResident;
      LastAdded(Adj(), base, Held());
      var p := loadOrder[loadedCount - 1];
      failure := unload(p);
      if failure.None? {
        DropLast(p);
      }
    }

    method DropLast(p: nat)
      requires Shape() && loadedCount > 0 && p == loadOrder[loadedCount - 1] < |packages|
      requires entries[p].refs == 0 && entries[p].roots == 0
      modifies this`loadedCount, entries
      ensures Shape() && loadedCount == old(loadedCount) - 1
      ensures Held() == Dropped(old(Held()), old(loadedCount) - 1)
    {
      entries[p] := Entry(Gone, 0, 0);
      loadedCount := loadedCount - 1;
    }

    method Retain(p: nat, state: PackageState)
      requires Shape() && p < |packages| && loadedCount < |packages|
      modifies this`loadedCount, entries, loadOrder
      ensures Shape() && Held() == Retained(old(Held()), p, state)
    {
      entries[p] := entries[p].(state := state);
      loadOrder[loadedCount] := p;
      loadedCount := loadedCount + 1;
    }

    /** One package of a plan: load its bank unless it is resident, then preload its samples. */
    method LoadOne(p: nat, preload: bool, outcome: LoadOutcome, ghost base: Holdings) returns (failure: Option<Failure>)
      requires Steady() && Sound(Adj(), base) && Extends(base, Held()) && p < |packages|
      requires entries[p].state.Gone? || entries[p].state.Resident?
      requires forall e :: 0 <= e < |Adj()[p]| ==> Before(Held().order, Adj()[p][e])
      modifies this`loadedCount, entries, loadOrder
      ensures Steady() && Extends(base, Held())
      ensures failure == Trouble(old(entries[p]).state, preload, outcome)
      ensures failure.None? ==> entries[p].state.Resident?
      ensures !entries[p].state.Loading?
      ensures forall q :: 0 <= q < |packages| && q != p ==> entries[q] == old(entries[q])
      ensures Held().order == old(Held().order) || Held().order == old(Held().order) + [p]
    {
      failure := None;
      if entries[p].state.Gone? {
        if outcome.resolve.Some? {
          return outcome.resolve;
        }
        if !outcome.pathGiven {
          return Some(InvalidArgument);
        }
        if outcome.bank.Refused? {
          return Some(outcome.bank.error);
        }
        var state := if outcome.bank.Loaded? then Resident else Broken;
        OrderHasRoom(Adj(), Held(), p);
        RetainKeepsSound(Adj(), Held(), p, state);
        RetainExtends(Adj(), base, Held(), p, state);
        Retain(p, state);
        if outcome.bank.Quarantined? {
          return Some(outcome.bank.error);
        }
      }
      if preload {
        failure := outcome.preload;
      }
    }

    method LoadPlan(root: nat, count: nat, preload: bool, load: nat -> LoadOutcome, ghost base: Holdings) returns (failure: Option<Failure>)
      requires Steady() && count <= |packages| && Underway(Adj(), base, Held(), root, Plan(count), 0)
      modifies this`loadedCount, entries, loadOrder
      ensures Steady() && Extends(base, Held())
      ensures failure.None? ==> Underway(Adj(), base, Held(), root, Plan(count), count)
      ensures Plan(count) == old(Plan(count)) && FirstTrouble(old(Held()).states, Plan(count), count, preload, load, failure)
      ensures Idle(old(Held())) ==> Idle(Held())
    {
      hide RecordsOk, Acyclic, Sound, Trouble, FirstTrouble, Untouched, Extends;
      ghost var was, adj, plan := Held(), Adj(), Plan(count);
      NothingTried(was.states, plan, preload, load);
      for k := 0 to count
        invariant Steady() && Plan(count) == plan && Underway(adj, base, Held(), root, plan, k)
        invariant Idle(was) ==> Idle(Held())
        invariant FirstTrouble(was.states, plan, k, preload, load, None) && Untouched(was.states, Held().states, plan, k)
      {
        ghost var before := Held();
        failure := LoadNext(root, count, k, preload, load, base);
        TroubleFollows(was.states, before.states, Held().states, plan, k, preload, load, failure);
        if failure.Some? {
          return;
        }
      }
      return None;
    }

    method LoadNext(ghost root: nat, ghost count: nat, k: nat, preload: bool, load: nat -> LoadOutcome, ghost base: Holdings)
      returns (failure: Option<Failure>)
      requires Steady() && k < count <= |packages| && Underway(Adj(), base, Held(), root, Plan(count), k)
      modifies this`loadedCount, entries, loadOrder
      ensures Steady() && Plan(count) == old(Plan(count)) && Extends(base, Held())
      ensures failure.None? ==> Underway(Adj(), base, Held(), root, Plan(count), k + 1)
      ensures Plan(count)[k] < |packages|
      ensures failure == Trouble(old(Held()).states[Plan(count)[k]], preload, load(Plan(count)[k]))
      ensures forall q :: 0 <= q < |packages| && q != Plan(count)[k] ==> Held().states[q] == old(Held()).states[q]
      ensures Idle(old(Held())) ==> Idle(Held())
    {
      ghost var before := Held();
      var p := search.scratch.order[k];
      assert p == Plan(count)[k];
      PlanIsReady(Adj(), before, root, Plan(count), k);
      failure := LoadOne(p, preload, load(p), base);
      if failure.None? {
        UnderwayAdvances(Adj(), base, before, Held(), root, Plan(count), k);
      }
    }

    method CountPlan(count: nat, ghost plan: seq<nat>)
      requires Shape() && count <= |packages| && plan == Plan(count)
      requires forall i :: 0 <= i < |plan| ==> plan[i] < |packages|
      requires forall i, j :: 0 <= i < j < |plan| ==> plan[i] != plan[j]
      modifies entries
      ensures forall p :: 0 <= p < |packages| ==>
        entries[p] == old(entries[p]).(refs := old(entries[p]).refs + if p in plan then 1 else 0)
    {
      for i := 0 to count
        invariant forall p :: 0 <= p < |packages| ==>
          entries[p] == old(entries[p]).(refs := old(entries[p]).refs + if p in plan[..i] then 1 else 0)
      {
        var p := search.scratch.order[i];
        assert p == plan[i] && p !in plan[..i];
        assert plan[..i + 1] == plan[..i] + [p];
        entries[p] := entries[p].(refs := entries[p].refs + 1);
      }
      assert plan[..count] == plan;
    }

    /** Count one more lease on everything in the plan. */
    method Acquire(root: nat, count: nat)
      requires Shape() && root < |packages| && count <= |packages| && ClosureOrder(Adj(), root, Plan(count))
      modifies entries
      ensures Shape() && Acquired(Adj(), old(Held()), root, Held())
    {
      hide RecordsOk, Acyclic;
      ghost var was := entries[..];
      CountPlan(count, Plan(count));
      entries[root] := entries[root].(roots := entries[root].roots + 1);
      AcquiredEntries(Adj(), was, entries[..], loadOrder[..loadedCount], root, Plan(count));
    }

    method FindPackage(id: nat) returns (found: Option<nat>)
      requires Shape()
      ensures found.Some? ==> found.value < |packages| && packages[found.value].id == id
      ensures found.None? <==> !Known(packages, id)
    {
      found := FindPackageIndex(packages, id);
    }

    lemma BlockedBy(root: nat, count: nat, i: nat)
      requires Steady() && root < |packages| && count <= |packages| && ClosureOrder(Adj(), root, Plan(count)) && i < count
      ensures Plan(count)[i] < |packages|
      ensures var entry := entries[Plan(count)[i]];
        entry.state.Broken? || entry.state.Loading? || entry.refs >= UINT32_MAX ==> !Unhindered(Held()) && Blocked(Adj(), Held(), root)
    {
      hide RecordsOk, Acyclic, Sound, Reach, Arrows;
      assert Plan(count)[i] in Plan(count);
    }

    /** Why a plan cannot be loaded now, if it cannot: a bank of it is broken, or a count is full. */
    method CheckPlan(root: nat, count: nat) returns (failure: Option<Failure>)
      requires Steady() && root < |packages| && count <= |packages| && ClosureOrder(Adj(), root, Plan(count))
      ensures failure.None? ==> forall p :: p in Plan(count) ==>
        p < |packages| && (entries[p].state.Gone? || entries[p].state.Resident?) && entries[p].refs < UINT32_MAX
      ensures failure.None? ==> entries[root].roots < UINT32_MAX
      ensures failure.Some? ==> failure.value in {Capacity, Busy} && !Unhindered(Held()) && Blocked(Adj(), Held(), root)
    {
      hide Sound, Reach, Arrows;
      if entries[root].roots >= UINT32_MAX {
        return Some(Capacity);
      }
      for i := 0 to count
        invariant forall j :: 0 <= j < i ==> var p := search.scratch.order[j];
          p < |packages| && (entries[p].state.Gone? || entries[p].state.Resident?) && entries[p].refs < UINT32_MAX
      {
        BlockedBy(root, count, i);
        var entry := entries[search.scratch.order[i]];
        if entry.state.Broken? || entry.state.Loading? {
          return Some(Busy);
        }
        if entry.refs >= UINT32_MAX {
          return Some(Capacity);
        }
      }
      return None;
    }

    lemma NotBlocked(root: nat, count: nat)
      requires Steady() && root < |packages| && count <= |packages| && ClosureOrder(Adj(), root, Plan(count))
      requires entries[root].roots < UINT32_MAX
      requires forall p :: p in Plan(count) ==>
        p < |packages| && (entries[p].state.Gone? || entries[p].state.Resident?) && entries[p].refs < UINT32_MAX
      ensures !Blocked(Adj(), Held(), root)
    {
    }

    /** Take a lease on a package, loading what its closure still lacks. A load that fails is rolled
        back; if every unload works, nothing has changed. */
    method LoadPackage(id: nat, preload: bool, ready: bool, banksAgree: bool, load: nat -> LoadOutcome,
                       unload: nat -> Option<Failure>) returns (result: AudioResult, ghost root: nat)
      requires Valid()
      modifies this`loadedCount, entries, loadOrder
      modifies search.scratch.stack, search.scratch.next, search.scratch.states, search.scratch.order
      ensures Valid() && result != Pending && (pending.Some? ==> result == Failed(Busy) && Held() == old(Held()))
      ensures pending.None? && !(ready && banksAgree && Known(packages, id)) ==>
        && Held() == old(Held())
        && result == Failed(if !ready then NotInitialized else if !Known(packages, id) then InvalidHandle else Busy)
      ensures result == Success ==> root < |packages| && packages[root].id == id && LoadedAs(Adj(), old(Held()), root, Held())
      ensures result != Success ==> Extends(old(Held()), Held())
      ensures result != Success && (forall p :: unload(p).None?) ==> Held() == old(Held())
      ensures pending.None? && ready && banksAgree && Known(packages, id) ==>
        root < |packages| && packages[root].id == id && LoadsAs(Adj(), old(Held()), root, preload, load, unload, result, Held())
    {
      root := 0;
      ExtendsItself(Held());
      if pending.Some? {
        return Failed(Busy), root;
      }
      if !ready {
        return Failed(NotInitialized), root;
      }
      var found := FindPackage(id);
      if found.None? {
        return Failed(InvalidHandle), root;
      }
      root := found.value;
      if !banksAgree {
        return Failed(Busy), root;
      }
      result := LoadRoot(found.value, preload, load, unload);
    }

    method LoadRoot(root: nat, preload: bool, load: nat -> LoadOutcome, unload: nat -> Option<Failure>) returns (result: AudioResult)
      requires Steady() && Idle(Held()) && root < |packages|
      modifies this`loadedCount, entries, loadOrder
      modifies search.scratch.stack, search.scratch.next, search.scratch.states, search.scratch.order
      ensures Steady() && result != Pending
      ensures result == Success ==> LoadedAs(Adj(), old(Held()), root, Held())
      ensures result != Success ==> Extends(old(Held()), Held())
      ensures Idle(Held())
      ensures result != Success && (forall p :: unload(p).None?) ==> Held() == old(Held())
      ensures LoadsAs(Adj(), old(Held()), root, preload, load, unload, result, Held())
    {
      ghost var base := Held();
      ExtendsItself(base);
      var count := BuildPlan(root);
      var refusal := CheckPlan(root, count);
      if refusal.Some? {
        return Failed(refusal.value);
      }
      UnderwayStarts(Adj(), base, root, Plan(count));
      ghost var plan := Plan(count);
      NotBlocked(root, count);
      result := RunPlan(root, count, preload, load, unload, base);
      ghost var failure :| FirstTrouble(base.states, plan, count, preload, load, failure)
        && if failure.None? then result == Success else FailsWith(base, Held(), unload, failure.value, result);
      RunLoadsAs(Adj(), base, root, plan, preload, load, unload, result, Held(), failure);
    }

    method RunPlan(root: nat, count: nat, preload: bool, load: nat -> LoadOutcome, unload: nat -> Option<Failure>, ghost base: Holdings)
      returns (result: AudioResult)
      requires Steady() && Idle(base) && root < |packages| && count <= |packages| && base == Held()
      requires Underway(Adj(), base, Held(), root, Plan(count), 0)
      modifies this`loadedCount, entries, loadOrder
      ensures Steady() && result != Pending
      ensures result == Success ==> LoadedAs(Adj(), base, root, Held())
      ensures result != Success ==> Extends(base, Held())
      ensures Idle(Held())
      ensures result != Success && (forall p :: unload(p).None?) ==> Held() == base
      ensures exists failure ::
        && FirstTrouble(base.states, old(Plan(count)), count, preload, load, failure)
        && if failure.None? then result == Success else FailsWith(base, Held(), unload, failure.value, result)
    {
      var oldCount := loadedCount;
      var failure := LoadPlan(root, count, preload, load, base);
      if failure.None? {
        ghost var loaded := Held();
        Acquire(root, count);
        UnderwayLoads(Adj(), base, loaded, root, Plan(count), Held());
        LoadedIsIdle(Adj(), base, root, Held());
        return Success;
      }
      var stuck := RollbackTo(oldCount, unload, base);
      return Failed(if stuck.None? then failure.value else stuck.value);
    }

    /** Unload every unleased bank; refused while a step-by-step load is pending. */
    method CollectUnused(ready: bool, banksAgree: bool, unload: nat -> Option<Failure>) returns (result: AudioResult)
      requires Valid()
      modifies this`loadedCount, entries, loadOrder
      ensures Valid() && Collected(old(Held()), Held())
      ensures pending.Some? || !ready || !banksAgree ==> result == Failed(Busy) && Held() == old(Held())
      ensures pending.None? && ready && banksAgree && result != Success ==>
        result.Failed? && Uncollected(Held(), unload, Some(result.error))
      ensures result == Success ==> forall p :: p in Held().order ==> Held().refs[p] > 0
      ensures pending.None? && ready && banksAgree && (forall p :: unload(p).None?) ==> result == Success
    {
      if pending.Some? {
        return Failed(Busy);
      }
      result := Collect(ready, banksAgree, unload);
    }

    /** Last loaded first, closing the gaps in the load order. */
    method Collect(ready: bool, banksAgree: bool, unload: nat -> Option<Failure>) returns (result: AudioResult)
      requires Steady()
      modifies this`loadedCount, entries, loadOrder
      ensures Steady() && Collected(old(Held()), Held())
      ensures Idle(old(Held())) ==> Idle(Held())
      ensures !ready || !banksAgree ==> result == Failed(Busy) && Held() == old(Held())
      ensures ready && banksAgree && result != Success ==> result.Failed? && Uncollected(Held(), unload, Some(result.error))
      ensures result == Success ==> forall p :: p in Held().order ==> Held().refs[p] > 0
      ensures ready && banksAgree && (forall p :: unload(p).None?) ==> result == Success
    {
      ghost var was := Held();
      if !ready || !banksAgree {
        return Failed(Busy);
      }
      var i: nat := loadedCount;
      while i != 0
        invariant Steady() && i <= loadedCount && Collecting(Adj(), was, Held(), i)
      {
        var failure: Option<Failure>;
        failure := CollectAt(i - 1, unload, was);
        if failure.Some? {
          return Failed(failure.value);
        }
        i := i - 1;
      }
      return Success;
    }

    method CollectAt(i: nat, unload: nat -> Option<Failure>, ghost was: Holdings) returns (failure: Option<Failure>)
      requires Steady() && i < loadedCount && Collecting(Adj(), was, Held(), i + 1)
      modifies this`loadedCount, entries, loadOrder
      ensures Steady() && i <= loadedCount && Collecting(Adj(), was, Held(), if failure.None? then i else i + 1)
      ensures failure.Some? ==> Uncollected(Held(), unload, failure)
      ensures (forall p :: unload(p).None?) ==> failure.None?
    {
      var p := loadOrder[i];
      assert p == Held().order[i] && p < |packages|;
      if entries[p].refs != 0 {
        CollectKeeps(Adj(), was, Held(), i);
        return None;
      }
      failure := unload(p);
      if failure.None? {
        CollectDrops(Adj(), was, Held(), i);
        DropAt(i, p);
      }
    }

    method DropAt(i: nat, p: nat)
      requires Shape() && i < loadedCount && p == loadOrder[i] < |packages|
      requires entries[p].refs == 0 && entries[p].roots == 0
      modifies this`loadedCount, entries, loadOrder
      ensures Shape() && loadedCount == old(loadedCount) - 1 && Held() == Dropped(old(Held()), i)
    {
      hide RecordsOk, Acyclic, Sound;
      entries[p] := Entry(Gone, 0, 0);
      CloseGap(i);
      loadedCount := loadedCount - 1;
    }

    /** Move everything behind a place of the load order forward by one. */
    method CloseGap(i: nat)
      requires i < loadedCount <= loadOrder.Length
      modifies loadOrder
      ensures loadOrder[..loadedCount - 1] == WithoutAt(old(loadOrder[..loadedCount]), i)
    {
      ghost var order := loadOrder[..];
      for shift: nat := i + 1 to loadedCount
        invariant forall j :: 0 <= j < i ==> loadOrder[j] == order[j]
        invariant forall j :: i <= j < shift - 1 ==> loadOrder[j] == order[j + 1]
        invariant forall j :: shift - 1 <= j < loadOrder.Length ==> loadOrder[j] == order[j]
      {
        loadOrder[shift - 1] := loadOrder[shift];
      }
    }

    method UncountPlan(count: nat, ghost plan: seq<nat>)
      requires Shape() && count <= |packages| && plan == Plan(count)
      requires forall i :: 0 <= i < |plan| ==> plan[i] < |packages| && entries[plan[i]].refs > 0
      requires forall i, j :: 0 <= i < j < |plan| ==> plan[i] != plan[j]
      modifies entries
      ensures forall p :: 0 <= p < |packages| ==>
        && entries[p].state == old(entries[p]).state && entries[p].roots == old(entries[p]).roots
        && old(entries[p]).refs == entries[p].refs + if p in plan then 1 else 0
    {
      for i := 0 to count
        invariant forall p :: 0 <= p < |packages| ==>
          && entries[p].state == old(entries[p]).state && entries[p].roots == old(entries[p]).roots
          && old(entries[p]).refs == entries[p].refs + if p in plan[..i] then 1 else 0
      {
        var p := search.scratch.order[i];
        assert p == plan[i] && p !in plan[..i];
        assert plan[..i + 1] == plan[..i] + [p];
        entries[p] := entries[p].(refs := entries[p].refs - 1);
      }
      assert plan[..count] == plan;
    }

    /** Give a lease back and unload what nothing needs any more. Every count of the closure is
        positive, so the source's check for a zero count never fails. */
    method ReleasePackage(id: nat, ready: bool, banksAgree: bool, unload: nat -> Option<Failure>)
      returns (result: AudioResult, ghost root: nat, ghost released: Holdings)
      requires Valid()
      modifies this`loadedCount, entries, loadOrder
      modifies search.scratch.stack, search.scratch.next, search.scratch.states, search.scratch.order
      ensures Valid() && (pending.Some? ==> result == Failed(Busy) && Held() == old(Held()))
      ensures pending.None? && !(ready && banksAgree && Known(packages, id) && old(Held()).roots[IndexOf(packages, id)] > 0) ==>
        && Held() == old(Held())
        && result == Failed(if !ready then NotInitialized
                            else if !Known(packages, id) || Held().roots[IndexOf(packages, id)] == 0 then InvalidHandle else Busy)
      ensures Held() == old(Held()) || (Released(Adj(), old(Held()), root, released) && Collected(released, Held()))
      ensures pending.None? && ready && banksAgree && Known(packages, id) && old(Held()).roots[IndexOf(packages, id)] > 0 ==>
        && root == IndexOf(packages, id) && Released(Adj(), old(Held()), root, released) && Collected(released, Held())
        && (result == Success || (result.Failed? && Uncollected(Held(), unload, Some(result.error))))
      ensures result == Success ==> forall p :: p in Held().order ==> Held().refs[p] > 0
    {
      root, released := 0, Held();
      if pending.Some? {
        return Failed(Busy), root, released;
      }
      if !ready {
        return Failed(NotInitialized), root, released;
      }
      var found := FindPackage(id);
      if found.Some? {
        IndexIsUnique(packages, id, found.value);
      }
      if found.None? || entries[found.value].roots == 0 {
        return Failed(InvalidHandle), root, released;
      }
      if !banksAgree {
        return Failed(Busy), root, released;
      }
      root := found.value;
      released := ReleaseRoot(found.value);
      result := Collect(true, true, unload);
    }

    method ReleaseRoot(root: nat) returns (ghost released: Holdings)
      requires Steady() && root < |packages| && entries[root].roots > 0
      modifies entries
      modifies search.scratch.stack, search.scratch.next, search.scratch.states, search.scratch.order
      ensures Steady() && released == Held() && Released(Adj(), old(Held()), root, Held())
    {
      hide RecordsOk, Acyclic, Counts, Ordered, LeasedResident;
      ghost var was := Held();
      var count := BuildPlan(root);
      ghost var plan := Plan(count);
      forall i | 0 <= i < |plan| ensures plan[i] < |packages| && entries[plan[i]].refs > 0 {
        assert plan[i] in plan;
        LeaseHoldsClosure(Adj(), was, root, plan[i]);
      }
      ghost var before := entries[..];
      entries[root] := entries[root].(roots := entries[root].roots - 1);
      UncountPlan(count, plan);
      ReleasedEntries(Adj(), before, entries[..], loadOrder[..loadedCount], root, plan);
      ReleaseKeepsSound(Adj(), was, root, Held());
      released := Held();
    }

    // ------------------------------------------------------------ step-by-step loads

    /** Begin a load that polls carry out. */
    method BeginLoadPackage(id: nat, preload: bool, ready: bool, banksAgree: bool) returns (result: AudioResult)
      requires Valid()
      modifies this`pending, this`base
      modifies search.scratch.stack, search.scratch.next, search.scratch.states, search.scratch.order
      ensures Valid() && Held() == old(Held())
      ensures result == Pending ==>
        && old(pending).None? && pending.Some? && pending.value.terminal.None? && pending.value.step == 0
        && packages[pending.value.root].id == id && base == Held()
      ensures result != Pending ==> result != Success && pending == old(pending) && base == old(base)
      ensures old(pending).None? && ready && banksAgree && Known(packages, id) ==>
        (result == Pending <==> !Blocked(Adj(), Held(), IndexOf(packages, id)))
      ensures old(pending).None? && ready && banksAgree && Known(packages, id) && Unhindered(Held()) ==> result == Pending
    {
      if !ready {
        return Failed(NotInitialized);
      }
      if pending.Some? || !banksAgree {
        return Failed(Busy);
      }
      var found := FindPackage(id);
      if found.None? {
        return Failed(InvalidHandle);
      }
      IndexIsUnique(packages, id, found.value);
      result := BeginRoot(found.value, preload);
    }

    method BeginRoot(root: nat, preload: bool) returns (result: AudioResult)
      requires Valid() && pending.None? && root < |packages|
      modifies this`pending, this`base
      modifies search.scratch.stack, search.scratch.next, search.scratch.states, search.scratch.order
      ensures Valid() && Held() == old(Held())
      ensures result == Pending ==>
        && pending.Some? && pending.value.terminal.None? && pending.value.step == 0
        && pending.value.root == root && base == Held()
      ensures result != Pending ==> result != Success && pending == old(pending) && base == old(base)
      ensures result == Pending <==> !Blocked(Adj(), Held(), root)
      ensures Unhindered(Held()) ==> result == Pending
    {
      hide Sound, Idle, RecordsOk, Acyclic, Blocked, ClosureOrder;
      var count := BuildPlan(root);
      var refusal := CheckPlan(root, count);
      if refusal.Some? {
        return Failed(refusal.value);
      }
      NotBlocked(root, count);
      ExtendsItself(Held());
      UnderwayStarts(Adj(), Held(), root, Plan(count));
      UnderwayIsMidway(Adj(), Held(), Held(), root, Plan(count), 0);
      base := Held();
      pending := Some(Async(root, count, 0, loadedCount, preload, None));
      return Pending;
    }

    /** A failed load is rolled back. Until that works, it stays pending with its error. */
    method FailAsync(error: Failure, unload: nat -> Option<Failure>) returns (result: AudioResult)
      requires Steady() && Sound(Adj(), base) && Idle(base) && Extends(base, Held())
      requires pending.Some? && |base.order| == pending.value.oldCount
      requires pending.value.root < |packages| && pending.value.planCount <= |packages|
      modifies this`loadedCount, this`pending, entries
      ensures Valid() && result.Failed?
      ensures if pending.None? then Held() == base && result == Failed(error)
              else pending.value == old(pending.value).(terminal := Some(error)) && Extends(base, Held())
                   && StuckOn(Held(), unload, Some(result.error))
      ensures (forall p :: unload(p).None?) ==> pending.None?
    {
      pending := Some(pending.value.(terminal := Some(error)));
      var stuck := RollbackTo(pending.value.oldCount, unload, base);
      if stuck.Some? {
        return Failed(stuck.value);
      }
      pending := None;
      return Failed(error);
    }

    method CancelLoadPackage(unload: nat -> Option<Failure>) returns (result: AudioResult)
      requires Valid()
      modifies this`loadedCount, this`pending, entries
      ensures Valid() && result.Failed?
      ensures old(pending).None? ==> result == Failed(InvalidHandle) && pending.None? && Held() == old(Held())
      ensures old(pending).Some? && pending.None? ==> result == Failed(Cancelled) && Held() == base
      ensures pending.Some? ==> pending.value.terminal == Some(Cancelled) && StuckOn(Held(), unload, Some(result.error))
      ensures (forall p :: unload(p).None?) ==> pending.None?
    {
      if pending.None? {
        return Failed(InvalidHandle);
      }
      result := FailAsync(Cancelled, unload);
    }

    /** The next package of the pending plan: begin or poll its bank, then preload its samples. */
    method StepPackage(a: Async, outcome: PollOutcome) returns (status: Step)
      requires Steady() && AsyncOk(a) && a.terminal.None? && a.step < a.planCount
      modifies this`loadedCount, entries, loadOrder
      ensures Steady() && Extends(base, Held())
      ensures status.Waiting? ==> AsyncOk(a)
      ensures status.Stepped? ==> AsyncOk(a.(step := a.step + 1))
      ensures var p := search.scratch.order[a.step];
        p < |packages| && status == StepOf(old(entries[search.scratch.order[a.step]]).state, a.preload, outcome)
      ensures Cooperates(outcome) ==> !status.StepFailed? && (status.Waiting? ==> loadedCount == old(loadedCount) + 1)
      ensures Cooperates(outcome) && status.Waiting? ==> !old(Loads(a)) && Loads(a)
    {
      hide Sound, Idle, RecordsOk, Acyclic, Extends;
      var p := search.scratch.order[a.step];
      assert p == Plan(a.planCount)[a.step];
      status := Stepped;
      if entries[p].state.Gone? {
        status := BeginBank(a, p, outcome);
      }
      if status.Stepped? && entries[p].state.Loading? {
        status := PollBank(a, p, outcome.poll);
      }
      if status.Stepped? {
        status := PreloadBank(a, p, outcome.preload);
      }
    }

    method PreloadBank(a: Async, p: nat, preload: Option<Failure>) returns (status: Step)
      requires Steady() && AsyncOk(a) && a.terminal.None? && a.step < a.planCount
      requires p == Plan(a.planCount)[a.step] && p < |packages| && entries[p].state.Resident?
      ensures status.Stepped? ==> AsyncOk(a.(step := a.step + 1))
      ensures var trouble := SampleTrouble(a.preload, preload); status == if trouble.Some? then StepFailed(trouble.value) else Stepped
    {
      if a.preload && preload.Some? {
        return StepFailed(preload.value);
      }
      MidwayAdvances(Adj(), base, Held(), a.root, Plan(a.planCount), a.step);
      return Stepped;
    }

    /** Resolve the path and begin the load of a bank that is not there. */
    method BeginBank(a: Async, p: nat, outcome: PollOutcome) returns (status: Step)
      requires Steady() && AsyncOk(a) && a.terminal.None? && a.step < a.planCount
      requires p == Plan(a.planCount)[a.step] && p < |packages| && entries[p].state.Gone?
      modifies this`loadedCount, entries, loadOrder
      ensures Steady() && Extends(base, Held()) && Plan(a.planCount) == old(Plan(a.planCount))
      ensures !status.StepFailed? ==> AsyncOk(a) && !entries[p].state.Gone?
      ensures status.Waiting? ==> entries[p].state.Loading? && loadedCount == old(loadedCount) + 1
      ensures status.Stepped? ==> entries[p].state.Resident?
      ensures status == if outcome.resolve.Some? then StepFailed(outcome.resolve.value)
                        else if !outcome.pathGiven then StepFailed(InvalidArgument)
                        else if outcome.begin.BeginRefused? || outcome.begin.BeginQuarantined? then StepFailed(outcome.begin.error)
                        else if outcome.begin.Started? then Waiting else Stepped
    {
      if outcome.resolve.Some? {
        return StepFailed(outcome.resolve.value);
      }
      if !outcome.pathGiven {
        return StepFailed(InvalidArgument);
      }
      if outcome.begin.BeginRefused? {
        return StepFailed(outcome.begin.error);
      }
      var state := match outcome.begin case Started => Loading case LoadedAtOnce => Resident case _ => Broken;
      MidwayRetains(Adj(), base, Held(), a.root, Plan(a.planCount), a.step, state);
      Retain(p, state);
      status := match outcome.begin
        case Started => Waiting
        case BeginQuarantined(error) => StepFailed(error)
        case _ => Stepped;
    }

    method PollBank(a: Async, p: nat, poll: BankPoll) returns (status: Step)
      requires Steady() && AsyncOk(a) && a.terminal.None? && a.step < a.planCount
      requires p == Plan(a.planCount)[a.step] && p < |packages| && entries[p].state.Loading?
      modifies entries
      ensures Steady() && Extends(base, Held()) && Plan(a.planCount) == old(Plan(a.planCount))
      ensures !status.StepFailed? ==> AsyncOk(a)
      ensures status.Stepped? ==> entries[p].state.Resident?
      ensures status == if poll.LoadFailed? then StepFailed(poll.error) else if poll.StillLoading? then Waiting else Stepped
    {
      match poll {
        case StillLoading =>
          return Waiting;
        case LoadFailed(error) =>
          MidwayTurns(Adj(), base, Held(), a.root, Plan(a.planCount), a.step, Broken);
          SetState(p, Broken);
          return StepFailed(error);
        case Ready =>
          MidwayTurns(Adj(), base, Held(), a.root, Plan(a.planCount), a.step, Resident);
          SetState(p, Resident);
          return Stepped;
      }
    }

    method SetState(p: nat, state: PackageState)
      requires Shape() && p < |packages|
      modifies entries
      ensures Shape() && Held() == StateChanged(old(Held()), p, state)
    {
      entries[p] := entries[p].(state := state);
    }

    /** The next bank of the plan is being loaded. */
    ghost predicate Loads(a: Async)
      reads entries, search.scratch.order
    {
      && a.step < search.scratch.order.Length && search.scratch.order[a.step] < entries.Length
      && entries[search.scratch.order[a.step]].state.Loading?
    }

    /** How many more polls a load can take when they all go well: two for a bank that has to be
        loaded, one to begin it and one that finds it ready. */
    ghost function Remaining(): nat
      reads this`pending, entries, search.scratch.order
    {
      if pending.None? then 0
      else if pending.value.step < pending.value.planCount then
        2 * (pending.value.planCount - pending.value.step) - if Loads(pending.value) then 1 else 0
      else 1
    }

    /** Polled again and again, a load ends in success after at most two polls for each package of its
        plan, provided nothing goes wrong on the way. */
    method FinishLoading(outcomes: nat -> PollOutcome, unload: nat -> Option<Failure>) returns (polls: nat)
      requires Valid() && pending.Some? && pending.value.terminal.None?
      requires forall n :: Cooperates(outcomes(n))
      modifies this`loadedCount, this`pending, entries, loadOrder
      ensures Valid() && pending.None? && LoadedAs(Adj(), old(base), old(pending).value.root, Held())
      ensures 0 < polls <= old(Remaining()) <= 2 * old(pending).value.planCount
    {
      hide Valid, Loads, LoadedAs;
      PlanHasRoot();
      polls := 0;
      var result: AudioResult := Pending;
      while result == Pending
        invariant Valid() && base == old(base) && (result == Pending || result == Success)
        invariant result == Pending ==>
          && pending.Some? && pending.value.terminal.None? && pending.value.root == old(pending).value.root
          && polls + Remaining() <= old(Remaining())
        invariant result == Success ==>
          && pending.None? && 0 < polls <= old(Remaining()) && LoadedAs(Adj(), base, old(pending).value.root, Held())
        decreases if result == Pending then Remaining() + 1 else 0
      {
        result := PollLoadPackage(true, outcomes(polls), unload);
        polls := polls + 1;
      }
    }

    lemma PlanHasRoot()
      requires Valid() && pending.Some? && pending.value.terminal.None?
      ensures pending.value.planCount > 0
    {
    }

    /** Carry a pending load on by one step. */
    method PollLoadPackage(ready: bool, outcome: PollOutcome, unload: nat -> Option<Failure>) returns (result: AudioResult)
      requires Valid()
      modifies this`loadedCount, this`pending, entries, loadOrder
      ensures Valid() && base == old(base)
      ensures result == Success ==> old(pending).Some? && pending.None? && LoadedAs(Adj(), base, old(pending).value.root, Held())
      ensures result == Pending ==> pending.Some? && pending.value.terminal.None?
      ensures old(pending).None? ==> result == Failed(InvalidHandle)
      ensures old(pending).Some? && !ready ==> result == Failed(NotInitialized) && pending == old(pending) && Held() == old(Held())
      ensures old(pending).Some? && old(pending).value.terminal.Some? && ready ==>
        if pending.None? then result == Failed(old(pending).value.terminal.value) && Held() == base
        else pending == old(pending) && result.Failed? && StuckOn(Held(), unload, Some(result.error))
      ensures old(pending).Some? && old(pending).value.terminal.None? && ready && old(pending).value.step < old(pending).value.planCount ==>
        && search.scratch.order[old(pending).value.step] < |packages|
        && StepTaken(old(pending).value, StepOf(old(entries[search.scratch.order[pending.value.step]]).state, old(pending).value.preload, outcome),
                     unload, result)
      ensures result.Failed? && old(pending).Some? && pending.None? ==> Held() == base
      ensures result.Failed? && pending.Some? && ready ==> pending.value.terminal.Some?
      ensures old(pending).Some? && ready && result.Failed? && (forall p :: unload(p).None?) ==> pending.None?
      ensures old(pending).Some? && old(pending).value.terminal.None? && ready && Cooperates(outcome) ==>
        || result == Success
        || (result == Pending && (pending.value.step == old(pending).value.step + 1 || loadedCount == old(loadedCount) + 1))
      ensures result == Pending ==> old(pending).Some? && pending.value.root == old(pending).value.root
      ensures result == Pending && Cooperates(outcome) ==> Remaining() < old(Remaining())
    {
      if pending.None? {
        return Failed(InvalidHandle);
      }
      if !ready {
        return Failed(NotInitialized);
      }
      if pending.value.terminal.Some? {
        result := FailAsync(pending.value.terminal.value, unload);
      } else {
        result := Advance(pending.value, outcome, unload);
      }
    }

    /** How a poll answers, by what its step came to. A failure is undone and answered with its own error,
        or the load stays pending with that error as the one it will end with. */
    ghost predicate StepTaken(a: Async, status: Step, unload: nat -> Option<Failure>, result: AudioResult)
      requires Shape()
      reads this`loadedCount, this`pending, this`base, entries, loadOrder, search.scratch.order
    {
      match status
      case Waiting => result == Pending && pending == Some(a)
      case Stepped =>
        if a.step + 1 < a.planCount then result == Pending && pending == Some(a.(step := a.step + 1))
        else result == Success && pending.None?
      case StepFailed(error) =>
        if pending.None? then result == Failed(error) && Held() == base
        else pending == Some(a.(terminal := Some(error))) && result.Failed? && StuckOn(Held(), unload, Some(result.error))
    }

    method Advance(a: Async, outcome: PollOutcome, unload: nat -> Option<Failure>) returns (result: AudioResult)
      requires Valid() && pending == Some(a) && a.terminal.None?
      modifies this`loadedCount, this`pending, entries, loadOrder
      ensures Valid() && base == old(base)
      ensures result == Success ==> pending.None? && LoadedAs(Adj(), base, a.root, Held())
      ensures result == Pending ==> pending.Some? && pending.value.terminal.None?
      ensures result.Failed? ==> if pending.None? then Held() == base else pending.value.terminal.Some?
      ensures result.Failed? && (forall p :: unload(p).None?) ==> pending.None?
      ensures a.step < a.planCount ==>
        && search.scratch.order[a.step] < |packages|
        && StepTaken(a, StepOf(old(entries[search.scratch.order[a.step]]).state, a.preload, outcome), unload, result)
      ensures Cooperates(outcome) ==>
        || result == Success
        || (result == Pending && (pending.value.step == a.step + 1 || loadedCount == old(loadedCount) + 1))
      ensures result == Pending ==> pending.value.root == a.root && (Cooperates(outcome) ==> Remaining() < old(Remaining()))
    {
      hide Sound, Idle, RecordsOk, Acyclic, Extends, Midway;
      if a.step < a.planCount {
        var status := StepPackage(a, outcome);
        if status.Waiting? {
          return Pending;
        }
        if status.StepFailed? {
          result := FailAsync(status.error, unload);
          return;
        }
        pending := Some(a.(step := a.step + 1));
        if a.step + 1 < a.planCount {
          return Pending;
        }
      }
      CompleteAsync(pending.value);
      return Success;
    }

    /** The whole plan is resident: take the lease. */
    method CompleteAsync(a: Async)
      requires Steady() && AsyncOk(a) && a.terminal.None? && a.step >= a.planCount
      modifies this`pending, entries
      ensures Valid() && pending.None? && LoadedAs(Adj(), base, a.root, Held())
    {
      hide RecordsOk, Acyclic, Extends, LoadedAs, Underway, Counts, Ordered, LeasedResident;
      ghost var plan, loaded := Plan(a.planCount), Held();
      MidwayIsUnderway(Adj(), base, loaded, a.root, plan, a.planCount);
      Acquire(a.root, a.planCount);
      UnderwayLoads(Adj(), base, loaded, a.root, plan, Held());
      LoadedIsIdle(Adj(), base, a.root, Held());
      pending := None;
    }

    /** Forget every lease and unload everything. */
    method UnloadAll(ready: bool, banksAgree: bool, unload: nat -> Option<Failure>) returns (result: AudioResult)
      requires Valid()
      modifies this`loadedCount, this`pending, entries
      ensures Valid() && result != Pending
      ensures result == Success ==> loadedCount == 0 && pending.None?
      ensures result.Failed? ==>
        || StuckOn(Held(), unload, Some(result.error))
        || (result == Failed(Busy) && pending.None? && (!ready || !banksAgree) && Held() == if old(pending).Some? then base else old(Held()))
      ensures ready && banksAgree && (forall p :: unload(p).None?) ==> result == Success
    {
      if pending.Some? {
        result := CancelLoadPackage(unload);
        if result != Failed(Cancelled) {
          return;
        }
        if pending.Some? {
          return;
        }
      }
      if !ready || !banksAgree {
        return Failed(Busy);
      }
      ForgetLeases();
      ghost var empty := Holdings(seq(|packages|, p => Gone), [], seq(|packages|, p => 0), seq(|packages|, p => 0));
      NothingHeld(Adj(), empty);
      var stuck := RollbackTo(0, unload, empty);
      result := if stuck.None? then Success else Failed(stuck.value);
    }

    method ForgetLeases()
      requires Steady() && Idle(Held())
      modifies entries
      ensures Steady() && Idle(Held()) && Held().order == old(Held()).order
      ensures forall p :: 0 <= p < |packages| ==> Held().refs[p] == 0 && Held().roots[p] == 0
    {
      ghost var was := entries[..];
      for p := 0 to |packages|
        invariant forall q :: 0 <= q < |packages| ==> entries[q] == if q < p then Entry(was[q].state, 0, 0) else was[q]
      {
        entries[p] := Entry(entries[p].state, 0, 0);
      }
      assert StatesOf(entries[..]) == StatesOf(was);
      UnleasedIsSound(Adj(), old(Held()), Held());
    }
  }

  lemma UnleasedIsSound(adj: seq<seq<Arc>>, h: Holdings, h': Holdings)
    requires Sound(adj, h) && h'.states == h.states && h'.order == h.order && |h'.refs| == |h'.roots| == |adj|
    requires forall p :: 0 <= p < |adj| ==> h'.refs[p] == 0 && h'.roots[p] == 0
    ensures Sound(adj, h')
  {
    forall p | 0 <= p < |adj| ensures Leases(adj, h'.roots, |adj|, p) == 0 {
      NoLeases(adj, h'.roots, |adj|, p);
    }
  }
}
