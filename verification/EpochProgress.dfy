/** What a scope or the writer achieves when it is left alone, and what it takes to keep a scope out. */
module EpochProgress {
  import opened EpochProtocol
  import opened ReadKeyIndex
  import opened ResourceTypes
  import opened Wrappers

  // ---------------------------------------------------------------- when a scope is turned away

  /** The j-th step of the run is one of the claims of scope t's latest attempt to enter, and the i-th
      reader word was taken at that moment. */
  ghost predicate MetTaken(s0: State, run: seq<Action>, t: nat, i: nat, j: nat)
  {
    && j < |run| && run[j] == Entry(t, Claim) && (forall m :: j < m < |run| ==> run[m] != Entry(t, Enter))
    && Legal(s0, run[..j]) && i < |After(s0, run[..j]).readers| && !After(s0, run[..j]).readers[i].Vacant?
  }

  ghost predicate SomeMetTaken(s0: State, run: seq<Action>, t: nat, i: nat)
  {
    exists j: nat :: MetTaken(s0, run, t, i, j)
  }

  ghost predicate AllMetTaken(s0: State, run: seq<Action>, t: nat, n: nat)
  {
    forall i: nat :: i < n ==> SomeMetTaken(s0, run, t, i)
  }

  lemma ClaimingComesFrom(s: State, a: Action, t: nat)
    requires Enabled(s, a) && t < |s.scopes| == |Apply(s, a).scopes| && Apply(s, a).scopes[t].Claiming?
    ensures
      || (a == Entry(t, Enter) && Apply(s, a).scopes[t].reader == 0)
      || (a == Entry(t, Claim) && s.scopes[t].Claiming? && s.scopes[t].reader + 1 == Apply(s, a).scopes[t].reader
          && s.scopes[t].reader < |s.readers| && !s.readers[s.scopes[t].reader].Vacant?)
      || (a != Entry(t, Enter) && a != Entry(t, Claim) && s.scopes[t] == Apply(s, a).scopes[t])
  {
    hide CanUpdateIndex, ApplyUpdateIndex;
  }

  lemma StillMetTaken(s0: State, run: seq<Action>, a: Action, t: nat, n: nat)
    requires AllMetTaken(s0, run, t, n) && a != Entry(t, Enter)
    ensures AllMetTaken(s0, run + [a], t, n)
  {
    hide Legal, After;
    forall i: nat | i < n ensures SomeMetTaken(s0, run + [a], t, i) {
      assert SomeMetTaken(s0, run, t, i);
      var j: nat :| MetTaken(s0, run, t, i, j);
      assert (run + [a])[..j] == run[..j];
      assert MetTaken(s0, run + [a], t, i, j);
    }
  }

  lemma OneMoreMetTaken(s0: State, run: seq<Action>, t: nat, n: nat)
    requires AllMetTaken(s0, run, t, n) && Legal(s0, run) && n < |After(s0, run).readers| && !After(s0, run).readers[n].Vacant?
    ensures AllMetTaken(s0, run + [Entry(t, Claim)], t, n + 1)
  {
    hide Legal, After;
    StillMetTaken(s0, run, Entry(t, Claim), t, n);
    var more := run + [Entry(t, Claim)];
    assert more[..|run|] == run;
    assert MetTaken(s0, more, t, n, |run|);
  }

  /** A scope that is trying to claim a reader word has met all the words before it taken. */
  lemma {:induction false} ClaimingMetTaken(s0: State, run: seq<Action>, t: nat)
    requires Initial(s0) && Legal(s0, run) && t < |After(s0, run).scopes| && After(s0, run).scopes[t].Claiming?
    ensures AllMetTaken(s0, run, t, After(s0, run).scopes[t].reader)
    decreases |run|
  {
    if run != [] {
      var before, a := run[..|run| - 1], run[|run| - 1];
      assert run == before + [a];
      OneStepMore(s0, before, a);
      hide Enabled, Apply, Legal, After, MetTaken;
      var s := After(s0, before);
      ScopesStay(s, a);
      ClaimingComesFrom(s, a, t);
      if a != Entry(t, Enter) {
        ClaimingMetTaken(s0, before, t);
        if a == Entry(t, Claim) {
          OneMoreMetTaken(s0, before, t, s.scopes[t].reader);
        } else {
          StillMetTaken(s0, before, a, t, s.scopes[t].reader);
        }
      }
    }
  }

  /** A scope is turned away only after it has met every reader word taken, in that same attempt. */
  lemma TurnedAwayMetAllTaken(s0: State, run: seq<Action>, t: nat, e: EntryStep)
    requires Initial(s0) && Legal(s0, run + [Entry(t, e)]) && e in {Enter, Claim}
    requires t < |After(s0, run + [Entry(t, e)]).scopes| && After(s0, run + [Entry(t, e)]).scopes[t].Outside?
    ensures Legal(s0, run) && AllMetTaken(s0, run + [Entry(t, e)], t, |After(s0, run).readers|)
  {
    OneStepMore(s0, run, Entry(t, e));
    hide Legal, After, SomeMetTaken;
    if e == Claim {
      ClaimingMetTaken(s0, run, t);
      OneMoreMetTaken(s0, run, t, After(s0, run).scopes[t].reader);
    }
  }

  // ---------------------------------------------------------------- when a scope has to enter again

  /** The writer has advanced the epoch since scope t last loaded it. */
  ghost predicate AdvancedSince(run: seq<Action>, t: nat)
  {
    exists j :: 0 <= j < |run| && run[j] == Publish(Advance) && forall m :: j < m < |run| ==> run[m] != Entry(t, LoadEpoch)
  }

  predicate HasEpoch(scope: Scope)
  {
    scope.Announcing? || scope.Checking?
  }

  lemma EpochComesFrom(s: State, a: Action, t: nat)
    requires Enabled(s, a) && t < |s.scopes| == |Apply(s, a).scopes| && HasEpoch(Apply(s, a).scopes[t])
    ensures
      || (a == Entry(t, LoadEpoch) && Apply(s, a).scopes[t].epoch == Apply(s, a).epoch)
      || (a != Entry(t, LoadEpoch) && HasEpoch(s.scopes[t]) && s.scopes[t].epoch == Apply(s, a).scopes[t].epoch)
  {
    hide CanUpdateIndex, ApplyUpdateIndex, ApplyExchange, ApplyPushRetired, ApplyAdvance, Allocate, Free, Frees, AfterScan;
  }

  lemma PublishingMovesEpoch(s: State, p: PublishStep)
    requires PublishEnabled(s, p)
    ensures ApplyPublish(s, p).epoch == s.epoch || p == Advance
  {
  }

  lemma CollectingKeepsEpoch(s: State, c: CollectStep)
    requires CollectEnabled(s, c)
    ensures ApplyCollect(s, c).epoch == s.epoch
  {
  }

  lemma OnlyAdvanceMovesEpoch(s: State, a: Action)
    requires Enabled(s, a)
    ensures Apply(s, a).epoch == s.epoch || a == Publish(Advance)
  {
    hide EntryEnabled, EntryOf, LookupEnabled, LookupOf, PublishEnabled, ApplyPublish, CollectEnabled, ApplyCollect;
    match a
    case Publish(p) => PublishingMovesEpoch(s, p);
    case Collect(c) => CollectingKeepsEpoch(s, c);
    case _ =>
  }

  lemma {:induction false} StaleHasAdvance(s0: State, run: seq<Action>, t: nat)
    requires Initial(s0) && Legal(s0, run) && t < |After(s0, run).scopes|
    requires HasEpoch(After(s0, run).scopes[t]) && After(s0, run).scopes[t].epoch != After(s0, run).epoch
    ensures AdvancedSince(run, t)
    decreases |run|
  {
    if run != [] {
      var before, a := run[..|run| - 1], run[|run| - 1];
      assert run == before + [a];
      OneStepMore(s0, before, a);
      hide Enabled, Apply, Legal, After;
      ScopesStay(After(s0, before), a);
      EpochComesFrom(After(s0, before), a, t);
      OnlyAdvanceMovesEpoch(After(s0, before), a);
      if a != Publish(Advance) {
        StaleHasAdvance(s0, before, t);
        var j :| 0 <= j < |before| && before[j] == Publish(Advance) && forall m :: j < m < |before| ==> before[m] != Entry(t, LoadEpoch);
        assert run[j] == Publish(Advance);
      }
    }
  }

  /** A scope that has announced its epoch becomes active unless the writer has advanced since it loaded it. */
  lemma RetriesOnlyAfterAdvance(s0: State, run: seq<Action>, t: nat)
    requires Initial(s0) && Legal(s0, run + [Entry(t, Check)]) && t < |After(s0, run + [Entry(t, Check)]).scopes|
    ensures After(s0, run + [Entry(t, Check)]).scopes[t].Active? || AdvancedSince(run, t)
  {
    OneStepMore(s0, run, Entry(t, Check));
    hide Legal, After, AdvancedSince;
    if !After(s0, run + [Entry(t, Check)]).scopes[t].Active? {
      StaleHasAdvance(s0, run, t);
    }
  }

  // ---------------------------------------------------------------- a scope that is left alone gets in

  /** Steps by which one scope enters. */
  ghost predicate Alone(run: seq<Action>, t: nat)
  {
    forall i :: 0 <= i < |run| ==> run[i].Entry? && run[i].t == t
  }

  /** Scope t alone can become active, on the given word and with the present epoch. */
  ghost predicate GetsIn(s: State, t: nat, reader: nat)
  {
    exists run :: Alone(run, t) && Legal(s, run) && t < |After(s, run).scopes|
               && After(s, run).scopes[t] == Active(reader, s.epoch, {}, NoOp(Nothing))
  }

  lemma OneStepEarlier(s: State, t: nat, e: EntryStep, reader: nat)
    requires Enabled(s, Entry(t, e)) && Apply(s, Entry(t, e)).epoch == s.epoch && GetsIn(Apply(s, Entry(t, e)), t, reader)
    ensures GetsIn(s, t, reader)
  {
    hide Enabled, Apply;
    var s' := Apply(s, Entry(t, e));
    var run :| Alone(run, t) && Legal(s', run) && t < |After(s', run).scopes|
            && After(s', run).scopes[t] == Active(reader, s'.epoch, {}, NoOp(Nothing));
    var more := [Entry(t, e)] + run;
    assert more[1..] == run;
    assert After(s, more) == After(s', run);
  }

  lemma CheckedGetsIn(s: State, t: nat)
    requires t < |s.scopes| && s.scopes[t].Checking? && s.scopes[t].epoch == s.epoch
    ensures GetsIn(s, t, s.scopes[t].reader)
  {
    var s' := Apply(s, Entry(t, Check));
    assert Alone([], t) && Legal(s', []) && After(s', []).scopes[t] == Active(s.scopes[t].reader, s.epoch, {}, NoOp(Nothing));
    OneStepEarlier(s, t, Check, s.scopes[t].reader);
  }

  /** From wherever a scope is on its way in, with a word of its own, it becomes active by its own steps
      if nobody else takes one meanwhile. */
  lemma OwnerGetsIn(s: State, t: nat)
    requires t < |s.scopes| && Owns(s.scopes[t]) && !s.scopes[t].Active? && s.scopes[t].reader < |s.readers|
    ensures GetsIn(s, t, s.scopes[t].reader)
    decreases match s.scopes[t] case Checking(_, e) => if e == s.epoch then 1 else 5 case Announcing(_, e) => if e == s.epoch then 2 else 6
              case Loading(_) => 3 case _ => 4
  {
    hide GetsIn;
    var i := s.scopes[t].reader;
    if s.scopes[t].Checking? && s.scopes[t].epoch == s.epoch {
      CheckedGetsIn(s, t);
    } else {
      var e := match s.scopes[t]
               case Loading(_) => LoadEpoch case Announcing(_, _) => Announce case Checking(_, _) => Check case _ => Withdraw;
      OwnerGetsIn(Apply(s, Entry(t, e)), t);
      OneStepEarlier(s, t, e, i);
    }
  }

  lemma {:induction false} ClaimerGetsIn(s: State, t: nat, i: nat)
    requires t < |s.scopes| && s.scopes[t].Claiming? && s.scopes[t].reader <= i < |s.readers| && s.readers[i].Vacant?
    requires forall k :: 0 <= k < i ==> !s.readers[k].Vacant?
    ensures GetsIn(s, t, i)
    decreases i - s.scopes[t].reader
  {
    hide GetsIn;
    var s' := Apply(s, Entry(t, Claim));
    if s.scopes[t].reader == i {
      OwnerGetsIn(s', t);
    } else {
      ClaimerGetsIn(s', t, i);
    }
    OneStepEarlier(s, t, Claim, i);
  }

  /** A scope that begins to enter and is left alone becomes active on the first vacant word. */
  lemma BeginnerGetsIn(s: State, t: nat, i: nat)
    requires t < |s.scopes| && s.scopes[t].Outside? && i < |s.readers| && s.readers[i].Vacant?
    requires forall k :: 0 <= k < i ==> !s.readers[k].Vacant?
    ensures GetsIn(s, t, i)
  {
    hide GetsIn;
    ClaimerGetsIn(Apply(s, Entry(t, Enter)), t, i);
    OneStepEarlier(s, t, Enter, i);
  }

  // ---------------------------------------------------------------- a lookup that is left alone

  /** Scope t alone comes to an answer about the key. */
  ghost predicate Answers(s: State, t: nat, k: Key)
  {
    exists run: seq<Action> ::
      && (forall i :: 0 <= i < |run| ==> run[i].Lookup? && run[i].t == t) && Legal(s, run)
      && t < |After(s, run).scopes| && AnswerFor(After(s, run).scopes[t], k)
  }

  predicate AnswerFor(scope: Scope, k: Key)
  {
    scope.Active? && scope.op.NoOp?
    && (scope.op.answer == NotFound(k) || (scope.op.answer.Found? && scope.op.answer.k == k))
  }

  lemma OneLookupStepEarlier(s: State, t: nat, l: LookupStep, k: Key)
    requires t < |s.scopes| && LookupEnabled(s, s.scopes[t], l) && Answers(ApplyLookup(s, t, l), t, k)
    ensures Answers(s, t, k)
  {
    hide LookupEnabled, ApplyLookup, AnswerFor;
    var next := ApplyLookup(s, t, l);
    var run: seq<Action> :|
      && (forall i :: 0 <= i < |run| ==> run[i].Lookup? && run[i].t == t) && Legal(next, run)
      && t < |After(next, run).scopes| && AnswerFor(After(next, run).scopes[t], k);
    var more := [Lookup(t, l)] + run;
    assert more[1..] == run;
    assert Legal(s, more) && After(s, more) == After(next, run);
  }

  lemma AnsweredAtOnce(s: State, t: nat, k: Key)
    requires t < |s.scopes| && AnswerFor(s.scopes[t], k)
    ensures Answers(s, t, k)
  {
    assert Legal(s, []) && After(s, []) == s;
  }

  /** Cells and comparisons a lookup still has before it. */
  function Remaining(s: State, op: Op): nat
    requires op.Probing? || op.Comparing?
  {
    if op.n >= |s.cells| then (if op.Probing? then 0 else 1) else 2 * (|s.cells| - op.n) + (if op.Probing? then 1 else 0)
  }

  /** A lookup that is left alone ends, with an answer about its own key. */
  lemma {:induction false} LookupEnds(s: State, t: nat)
    requires t < |s.scopes| && s.scopes[t].Active? && (s.scopes[t].op.Probing? || s.scopes[t].op.Comparing?)
    ensures Answers(s, t, s.scopes[t].op.k)
    decreases Remaining(s, s.scopes[t].op)
  {
    hide Answers;
    var k := s.scopes[t].op.k;
    var l := if s.scopes[t].op.Probing? then FindLoad else FindCompare;
    var next := ApplyLookup(s, t, l);
    if AnswerFor(next.scopes[t], k) {
      AnsweredAtOnce(next, t, k);
    } else {
      LookupEnds(next, t);
    }
    OneLookupStepEarlier(s, t, l, k);
  }

  // ---------------------------------------------------------------- a collection that is left alone

  /** Steps of the collector lead from the one state to the other. */
  ghost predicate Collects(s: State, s': State)
  {
    exists run: seq<Action> :: (forall i :: 0 <= i < |run| ==> run[i].Collect?) && Legal(s, run) && After(s, run) == s'
  }

  lemma OneCollectStepEarlier(s: State, c: CollectStep, s': State)
    requires CollectEnabled(s, c) && Collects(ApplyCollect(s, c), s')
    ensures Collects(s, s')
  {
    hide CollectEnabled, ApplyCollect;
    var next := ApplyCollect(s, c);
    var run: seq<Action> :| (forall i :: 0 <= i < |run| ==> run[i].Collect?) && Legal(next, run) && After(next, run) == s';
    var more := [Collect(c)] + run;
    assert more[1..] == run;
    assert Legal(s, more) && After(s, more) == After(next, run);
  }

  lemma NothingToCollect(s: State)
    ensures Collects(s, s)
  {
    assert Legal(s, []) && After(s, []) == s;
  }

  /** The least epoch that the first n words announce. */
  ghost predicate OldestIn(readers: seq<Word>, n: nat, oldest: Option<nat>)
  {
    && n <= |readers|
    && (oldest.None? ==> forall i :: 0 <= i < n ==> !readers[i].At?)
    && (oldest.Some? ==>
          && (exists i :: 0 <= i < n && readers[i] == At(oldest.value))
          && forall i :: 0 <= i < n && readers[i].At? ==> oldest.value <= readers[i].epoch)
  }

  /** Only what the collector owns is different. */
  ghost predicate SameButCollected(s: State, s': State)
  {
    && s' == s.(writer := s'.writer, heap := s'.heap, retired := s'.retired, retiredAt := s'.retiredAt, pinCount := s'.pinCount)
    && forall r :: r in s'.heap ==> r in s.heap && s'.heap[r] == s.heap[r]
  }

  /** Of what the sweep has not passed yet, exactly the protected records are still there in the end. */
  ghost predicate LeavesProtected(s: State, s': State)
    requires s.writer.Sweeping? && s.writer.at <= |s.retired|
  {
    forall r :: r in s.heap ==> (r in s'.heap <==> r !in s.retired[s.writer.at..] || Protected(s, r, s.writer.oldest))
  }

  lemma SkippedIsLeft(s: State, s': State)
    requires s.writer.Sweeping? && s.writer.at < |s.retired| && Protected(s, s.retired[s.writer.at], s.writer.oldest)
    requires var next := s.(writer := s.writer.(at := s.writer.at + 1, visited := s.writer.visited + 1));
      SameButCollected(next, s') && LeavesProtected(next, s')
    ensures SameButCollected(s, s') && LeavesProtected(s, s')
  {
    assert s.retired[s.writer.at..] == [s.retired[s.writer.at]] + s.retired[s.writer.at + 1..];
  }

  lemma FreedIsGone(s: State, s': State)
    requires s.writer.Sweeping? && s.writer.at < |s.retired| && Frees(s, s.retired[s.writer.at])
    requires SameButCollected(Free(s, s.retired[s.writer.at]), s') && LeavesProtected(Free(s, s.retired[s.writer.at]), s')
    ensures SameButCollected(s, s') && LeavesProtected(s, s')
  {
    var at, x := s.writer.at, s.retired[s.writer.at];
    assert Free(s, x).retired[at..] == s.retired[at + 1..];
    assert s.retired[at..] == [x] + s.retired[at + 1..];
    forall r | r in s.heap ensures r in s'.heap <==> r !in s.retired[at..] || Protected(s, r, s.writer.oldest) {
      if r != x {
        assert Protected(Free(s, x), r, s.writer.oldest) == Protected(s, r, s.writer.oldest);
      }
    }
  }

  lemma {:induction false} SweepAlone(s: State) returns (s': State)
    requires s.writer.Sweeping? && s.writer.at <= |s.retired| && s.writer.visited + |s.retired| - s.writer.at <= s.writer.limit
    ensures Collects(s, s') && s'.writer.Idle? && SameButCollected(s, s') && LeavesProtected(s, s')
    decreases |s.retired| - s.writer.at
  {
    hide Collects, SameButCollected, LeavesProtected, Protected;
    if s.writer.at == |s.retired| {
      s' := s.(writer := Idle);
      NothingToCollect(s');
      NothingIsLeft(s);
    } else if Protected(s, s.retired[s.writer.at], s.writer.oldest) {
      s' := SweepAlone(s.(writer := s.writer.(at := s.writer.at + 1, visited := s.writer.visited + 1)));
      SkippedIsLeft(s, s');
    } else {
      s' := SweepAlone(Free(s, s.retired[s.writer.at]));
      FreedIsGone(s, s');
    }
    OneCollectStepEarlier(s, Sweep, s');
  }

  lemma NothingIsLeft(s: State)
    requires s.writer.Sweeping? && s.writer.at == |s.retired|
    ensures SameButCollected(s, s.(writer := Idle)) && LeavesProtected(s, s.(writer := Idle))
  {
  }

  lemma {:induction false} ScanAlone(s: State) returns (oldest: Option<nat>, s': State)
    requires s.writer.Scanning? && Entering !in s.readers && OldestIn(s.readers, s.writer.reader, s.writer.oldest) && |s.retired| <= s.writer.limit
    ensures OldestIn(s.readers, |s.readers|, oldest) && Collects(s, s') && s'.writer.Idle? && SameButCollected(s, s')
    ensures forall r :: r in s.heap ==> (r in s'.heap <==> r !in s.retired || Protected(s, r, oldest))
    decreases |s.readers| - s.writer.reader
  {
    hide Collects;
    var next := ApplyCollect(s, Scan);
    if s.writer.reader == |s.readers| {
      oldest := s.writer.oldest;
      s' := SweepAlone(next);
    } else {
      oldest, s' := ScanAlone(next);
    }
    OneCollectStepEarlier(s, Scan, s');
  }

  /** A collection that is allowed to visit every retired record and starts while no scope is entering
      runs to its end, and frees exactly the retired records that no pin names and that were retired
      before every announced epoch. */
  lemma CollectionCompletes(s: State, limit: nat) returns (s': State)
    requires Inv(s) && s.writer.Idle? && Entering !in s.readers && |s.retired| <= limit && limit > 0
    ensures Collects(s, s') && s'.writer.Idle? && SameButCollected(s, s')
    ensures forall r :: r in s.heap ==>
      (r in s'.heap <==>
         || r !in s.retiredAt || Some(r) in s.pinSlots
         || exists i :: 0 <= i < |s.readers| && s.readers[i].At? && s.readers[i].epoch <= s.retiredAt[r])
  {
    hide Collects, Exposure, WriterOk, Table, Accounted, Exclusive, ScopeOk;
    var oldest: Option<nat>;
    oldest, s' := ScanAlone(ApplyCollect(s, BeginCollect(limit)));
    OneCollectStepEarlier(s, BeginCollect(limit), s');
  }

  // ---------------------------------------------------------------- a publication that is left alone

  /** Steps of the publishing writer lead from the one state to the other. */
  ghost predicate Publishes(s: State, s': State)
  {
    exists run: seq<Action> :: (forall i :: 0 <= i < |run| ==> run[i].Publish?) && Legal(s, run) && After(s, run) == s'
  }

  lemma OnePublishStepEarlier(s: State, p: PublishStep, s': State)
    requires PublishEnabled(s, p) && Publishes(ApplyPublish(s, p), s')
    ensures Publishes(s, s')
  {
    hide PublishEnabled, ApplyPublish;
    var next := ApplyPublish(s, p);
    var run: seq<Action> :| (forall i :: 0 <= i < |run| ==> run[i].Publish?) && Legal(next, run) && After(next, run) == s';
    var more := [Publish(p)] + run;
    assert more[1..] == run;
    assert Legal(s, more) && After(s, more) == After(next, run);
  }

  lemma NothingToPublish(s: State)
    ensures Publishes(s, s)
  {
    assert Legal(s, []) && After(s, []) == s;
  }

  /** What a slot publishes once it has been exchanged, and the old record is out of reach. */
  ghost predicate Exchanged(s: State, slot: nat, next: Option<nat>, s': State)
    requires slot < |s.slots|
  {
    && s'.writer.Idle? && s'.epoch == s.epoch + 1 && s'.slots == s.slots[slot := next] && s'.heap == s.heap
    && s'.scopes == s.scopes && s'.readers == s.readers && s'.pinSlots == s.pinSlots
    && (if s.slots[slot].Some? then
          s'.retired == [s.slots[slot].value] + s.retired && s'.retiredAt == s.retiredAt[s.slots[slot].value := s.epoch]
        else s'.retired == s.retired && s'.retiredAt == s.retiredAt)
  }

  lemma PushingCompletes(s: State) returns (s': State)
    requires Inv(s) && s.writer.Retiring?
    ensures Publishes(s, s') && Inv(s')
    ensures s'.writer.Idle? && s'.epoch == s.epoch + 1 && s'.slots == s.slots && s'.heap == s.heap
    ensures s'.scopes == s.scopes && s'.readers == s.readers && s'.pinSlots == s.pinSlots
    ensures if s.writer.prior.Some? then
              s'.retired == [s.writer.prior.value] + s.retired && s'.retiredAt == s.retiredAt[s.writer.prior.value := s.epoch]
            else s'.retired == s.retired && s'.retiredAt == s.retiredAt
  {
    hide Inv, Publishes;
    StepKeepsInv(s, Publish(PushRetired));
    var pushed := ApplyPublish(s, PushRetired);
    StepKeepsInv(pushed, Publish(Advance));
    s' := ApplyPublish(pushed, Advance);
    NothingToPublish(s');
    OnePublishStepEarlier(pushed, Advance, s');
    OnePublishStepEarlier(s, PushRetired, s');
  }

  lemma IndexingCompletes(s: State) returns (s': State)
    requires Inv(s) && s.writer.Indexing?
    ensures Publishes(s, s') && Inv(s')
    ensures s'.writer.Idle? && s'.epoch == s.epoch + 1 && s'.slots == s.slots && s'.heap == s.heap
    ensures s'.scopes == s.scopes && s'.readers == s.readers && s'.pinSlots == s.pinSlots
    ensures if s.writer.prior.Some? then
              s'.retired == [s.writer.prior.value] + s.retired && s'.retiredAt == s.retiredAt[s.writer.prior.value := s.epoch]
            else s'.retired == s.retired && s'.retiredAt == s.retiredAt
  {
    hide Inv, Publishes, CanUpdateIndex;
    WriterFindsCell(s);
    var c: nat :| CanUpdateIndex(s, c);
    StepKeepsInv(s, Publish(UpdateIndex(c)));
    s' := PushingCompletes(ApplyPublish(s, UpdateIndex(c)));
    OnePublishStepEarlier(s, UpdateIndex(c), s');
  }

  lemma ExchangeCompletes(s: State) returns (s': State)
    requires Inv(s) && s.writer.Exchanging? && s.writer.slot < |s.slots|
    ensures Publishes(s, s') && Inv(s') && Exchanged(s, s.writer.slot, s.writer.next, s')
  {
    hide Inv, Publishes;
    StepKeepsInv(s, Publish(Exchange));
    s' := IndexingCompletes(ApplyPublish(s, Exchange));
    OnePublishStepEarlier(s, Exchange, s');
  }

  /** A publication that has begun runs to its end: the slot publishes the new record, the index names it
      under its key, the record it replaced is on the retired list under the epoch of before, and the
      epoch has advanced. */
  lemma PublicationCompletes(s: State, p: PublishStep) returns (s': State)
    requires Inv(s) && PublishEnabled(s, p) && (p.BeginInsert? || p.BeginReplace? || p.BeginRetire?)
    ensures Publishes(s, s') && Inv(s') && p.slot < |s.slots|
    ensures var next := if p.BeginRetire? then None else Some(p.r);
      Exchanged(s.(heap := s'.heap), p.slot, next, s')
    ensures p.BeginInsert? ==> s'.heap == s.heap[p.r := Record(p.k, p.h)]
    ensures p.BeginReplace? ==> s'.heap == s.heap[p.r := s.heap[s.slots[p.slot].value]]
    ensures p.BeginRetire? ==> s'.heap == s.heap
    ensures !p.BeginRetire? ==> var k := s'.heap[p.r].key; k in s'.place && View(s'.cells, s'.place)[k] == p.r
  {
    hide Inv, Publishes, View;
    StepKeepsInv(s, Publish(p));
    var begun := ApplyPublish(s, p);
    s' := ExchangeCompletes(begun);
    OnePublishStepEarlier(s, p, s');
    if !p.BeginRetire? {
      IndexAgreesWithSlots(s', s'.heap[p.r].key, p.r);
      assert s'.slots[p.slot] == Some(p.r);
    }
  }
}
