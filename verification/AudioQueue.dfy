/** The bounded multi-producer, multi-consumer queue, as a machine that takes one
    atomic operation of one thread per step. Any number of threads may be anywhere
    inside a push or a pop at the same time.

    Positions are the values of the two counters; position p uses slot p % capacity.
    The history variable pushed holds the value claimed for each position, and popped
    the positions and values handed to consumers, in the order of release. */
module AudioQueue {
  import opened RingArithmetic

  datatype Slot<V> = Slot(sequence: nat, value: V)

  /** Where a thread is. PushAt and PopAt have loaded a counter; PushSaw and PopSaw
      have seen a matching sequence and are about to exchange; PushOwns, PushWrote,
      PopOwns and PopCopied have claimed the position pos. */
  datatype Pc<V> =
    | Idle
    | PushAt(v: V, pos: nat)
    | PushStale(v: V)
    | PushSaw(v: V, pos: nat)
    | PushOwns(v: V, pos: nat)
    | PushWrote(v: V, pos: nat)
    | PopAt(pos: nat)
    | PopStale
    | PopSaw(pos: nat)
    | PopOwns(pos: nat)
    | PopCopied(pos: nat, v: V)

  datatype State<V> = State(
    slots: seq<Slot<V>>,
    enqueue: nat,
    dequeue: nat,
    pcs: seq<Pc<V>>,
    pushed: seq<V>,
    popped: seq<(nat, V)>)

  /** One atomic operation of thread t. */
  datatype Action<V> =
    | CallPush(t: nat, v: V)
    | PushLoadSequence(t: nat)
    | PushReload(t: nat)
    | PushExchange(t: nat, spurious: bool)
    | PushWrite(t: nat)
    | PushPublish(t: nat)
    | CallPop(t: nat)
    | PopLoadSequence(t: nat)
    | PopReload(t: nat)
    | PopExchange(t: nat, spurious: bool)
    | PopCopy(t: nat)
    | PopRelease(t: nat)

  function Index<V>(s: State<V>, pos: nat): (i: nat)
    requires |s.slots| > 0
    ensures i < |s.slots|
  {
    pos % |s.slots|
  }

  predicate Enabled<V>(s: State<V>, a: Action<V>)
  {
    && a.t < |s.pcs|
    && match a
       case CallPush(t, _) => s.pcs[t].Idle?
       case PushLoadSequence(t) => s.pcs[t].PushAt?
       case PushReload(t) => s.pcs[t].PushStale?
       case PushExchange(t, _) => s.pcs[t].PushSaw?
       case PushWrite(t) => s.pcs[t].PushOwns?
       case PushPublish(t) => s.pcs[t].PushWrote?
       case CallPop(t) => s.pcs[t].Idle?
       case PopLoadSequence(t) => s.pcs[t].PopAt?
       case PopReload(t) => s.pcs[t].PopStale?
       case PopExchange(t, _) => s.pcs[t].PopSaw?
       case PopCopy(t) => s.pcs[t].PopOwns?
       case PopRelease(t) => s.pcs[t].PopCopied?
  }

  function Goto<V>(s: State<V>, t: nat, pc: Pc<V>): State<V>
    requires t < |s.pcs|
  {
    s.(pcs := s.pcs[t := pc])
  }

  function Apply<V>(s: State<V>, a: Action<V>): State<V>
    requires |s.slots| > 0 && Enabled(s, a)
  {
    var pc := s.pcs[a.t];
    match a
    case CallPush(t, v) => Goto(s, t, PushAt(v, s.enqueue))
    case PushLoadSequence(t) =>
      var delta := s.slots[Index(s, pc.pos)].sequence - pc.pos;
      Goto(s, t, if delta == 0 then PushSaw(pc.v, pc.pos) else if delta < 0 then Idle else PushStale(pc.v))
    case PushReload(t) => Goto(s, t, PushAt(pc.v, s.enqueue))
    case PushExchange(t, spurious) =>
      if pc.pos == s.enqueue && !spurious then
        Goto(s, t, PushOwns(pc.v, pc.pos)).(enqueue := pc.pos + 1, pushed := s.pushed + [pc.v])
      else
        Goto(s, t, PushAt(pc.v, s.enqueue))
    case PushWrite(t) =>
      var i := Index(s, pc.pos);
      Goto(s, t, PushWrote(pc.v, pc.pos)).(slots := s.slots[i := s.slots[i].(value := pc.v)])
    case PushPublish(t) =>
      var i := Index(s, pc.pos);
      Goto(s, t, Idle).(slots := s.slots[i := s.slots[i].(sequence := pc.pos + 1)])
    case CallPop(t) => Goto(s, t, PopAt(s.dequeue))
    case PopLoadSequence(t) =>
      var delta := s.slots[Index(s, pc.pos)].sequence - (pc.pos + 1);
      Goto(s, t, if delta == 0 then PopSaw(pc.pos) else if delta < 0 then Idle else PopStale)
    case PopReload(t) => Goto(s, t, PopAt(s.dequeue))
    case PopExchange(t, spurious) =>
      if pc.pos == s.dequeue && !spurious then
        Goto(s, t, PopOwns(pc.pos)).(dequeue := pc.pos + 1)
      else
        Goto(s, t, PopAt(s.dequeue))
    case PopCopy(t) =>
      Goto(s, t, PopCopied(pc.pos, s.slots[Index(s, pc.pos)].value))
    case PopRelease(t) =>
      var i := Index(s, pc.pos);
      Goto(s, t, Idle).(slots := s.slots[i := s.slots[i].(sequence := pc.pos + |s.slots|)],
                        popped := s.popped + [(pc.pos, pc.v)])
  }

  /** The state left by initialize, with the threads outside every call. */
  ghost predicate Initial<V>(s: State<V>)
  {
    && |s.slots| >= 2
    && (forall i :: 0 <= i < |s.slots| ==> s.slots[i].sequence == i)
    && (forall t :: 0 <= t < |s.pcs| ==> s.pcs[t].Idle?)
    && s.enqueue == 0 && s.dequeue == 0 && s.pushed == [] && s.popped == []
  }

  ghost predicate Legal<V>(s: State<V>, run: seq<Action<V>>)
    decreases |run|
  {
    run == [] || (|s.slots| > 0 && Enabled(s, run[0]) && Legal(Apply(s, run[0]), run[1..]))
  }

  /** The state at the end of an interleaving. */
  ghost function After<V>(s: State<V>, run: seq<Action<V>>): State<V>
    requires Legal(s, run)
    decreases |run|
  {
    if run == [] then s else After(Apply(s, run[0]), run[1..])
  }

  // ---------------------------------------------------------------- invariant

  predicate Writes<V>(pc: Pc<V>, p: nat)
  {
    (pc.PushOwns? || pc.PushWrote?) && pc.pos == p
  }

  predicate Reads<V>(pc: Pc<V>, p: nat)
  {
    (pc.PopOwns? || pc.PopCopied?) && pc.pos == p
  }

  ghost predicate HasWriter<V>(s: State<V>, p: nat)
  {
    exists t :: 0 <= t < |s.pcs| && Writes(s.pcs[t], p)
  }

  ghost predicate HasReader<V>(s: State<V>, p: nat)
  {
    exists t :: 0 <= t < |s.pcs| && Reads(s.pcs[t], p)
  }

  /** Slot i waits for the push of position p = sequence, or is being written for it. */
  ghost predicate Vacant<V>(s: State<V>, i: nat)
    requires i < |s.slots|
  {
    var p := s.slots[i].sequence;
    && Index(s, p) == i
    && s.dequeue <= p < s.dequeue + |s.slots|
    && (p < s.enqueue ==> HasWriter(s, p))
  }

  /** Slot i carries the value of position p = sequence - 1, or is being read. */
  ghost predicate Filled<V>(s: State<V>, i: nat)
    requires i < |s.slots| && |s.pushed| == s.enqueue
  {
    && s.slots[i].sequence > 0
    && var p := s.slots[i].sequence - 1;
    && Index(s, p) == i
    && p < s.enqueue <= p + |s.slots|
    && s.slots[i].value == s.pushed[p]
    && (p < s.dequeue ==> HasReader(s, p))
  }

  ghost predicate ThreadOk<V>(s: State<V>, pc: Pc<V>)
    requires |s.slots| > 0 && |s.pushed| == s.enqueue
  {
    match pc
    case Idle => true
    case PushAt(_, pos) => pos <= s.enqueue
    case PushStale(_) => true
    case PushSaw(_, pos) =>
      pos <= s.enqueue && (pos == s.enqueue ==> s.slots[Index(s, pos)].sequence == pos)
    case PushOwns(v, pos) =>
      pos < s.enqueue && s.slots[Index(s, pos)].sequence == pos && s.pushed[pos] == v
    case PushWrote(v, pos) =>
      pos < s.enqueue && s.slots[Index(s, pos)] == Slot(pos, v) && s.pushed[pos] == v
    case PopAt(pos) => pos <= s.dequeue
    case PopStale => true
    case PopSaw(pos) =>
      pos <= s.dequeue && (pos == s.dequeue ==> s.slots[Index(s, pos)].sequence == pos + 1)
    case PopOwns(pos) =>
      pos < s.dequeue && s.slots[Index(s, pos)].sequence == pos + 1
    case PopCopied(pos, v) =>
      pos < s.dequeue && s.slots[Index(s, pos)].sequence == pos + 1 && pos < s.enqueue && s.pushed[pos] == v
  }

  /** No two threads have claimed the same position for the same end. */
  ghost predicate Exclusive<V>(s: State<V>)
  {
    && (forall t, u, p :: 0 <= t < |s.pcs| && 0 <= u < |s.pcs| && Writes(s.pcs[t], p) && Writes(s.pcs[u], p) ==> t == u)
    && (forall t, u, p :: 0 <= t < |s.pcs| && 0 <= u < |s.pcs| && Reads(s.pcs[t], p) && Reads(s.pcs[u], p) ==> t == u)
  }

  /** What has been handed out: each entry carries the pushed value of its position, no
      position occurs twice, and every claimed position not yet handed out has its reader. */
  ghost predicate HistoryOk<V>(s: State<V>)
    requires |s.slots| > 0 && |s.pushed| == s.enqueue
  {
    && (forall k :: 0 <= k < |s.popped| ==>
          && s.popped[k].0 < s.dequeue && s.popped[k].0 < s.enqueue
          && s.popped[k].1 == s.pushed[s.popped[k].0]
          && s.slots[Index(s, s.popped[k].0)].sequence > s.popped[k].0 + 1)
    && (forall j, k :: 0 <= j < k < |s.popped| ==> s.popped[j].0 != s.popped[k].0)
    && (forall p :: 0 <= p < s.dequeue ==> HandedOut(s, p) || HasReader(s, p))
  }

  ghost predicate HandedOut<V>(s: State<V>, p: nat)
  {
    exists k :: 0 <= k < |s.popped| && s.popped[k].0 == p
  }

  ghost predicate Inv<V>(s: State<V>)
  {
    && |s.slots| >= 2
    && s.dequeue <= s.enqueue <= s.dequeue + |s.slots|
    && |s.pushed| == s.enqueue
    && (forall i :: 0 <= i < |s.slots| ==> Vacant(s, i) || Filled(s, i))
    && (forall t :: 0 <= t < |s.pcs| ==> ThreadOk(s, s.pcs[t]))
    && Exclusive(s)
    && HistoryOk(s)
  }

  // ---------------------------------------------------------------- every step keeps the invariant

  predicate Owns<V>(pc: Pc<V>)
  {
    pc.PushOwns? || pc.PushWrote? || pc.PopOwns? || pc.PopCopied?
  }

  /** Owners other than t keep what they own when only t moves on. */
  lemma OtherOwnersKept<V>(s: State<V>, s': State<V>, t: nat)
    requires t < |s.pcs| && |s'.pcs| == |s.pcs|
    requires forall u :: 0 <= u < |s.pcs| && u != t ==> s'.pcs[u] == s.pcs[u]
    ensures forall q :: HasWriter(s, q) && !Writes(s.pcs[t], q) ==> HasWriter(s', q)
    ensures forall q :: HasReader(s, q) && !Reads(s.pcs[t], q) ==> HasReader(s', q)
  {
    forall q | HasWriter(s, q) && !Writes(s.pcs[t], q) ensures HasWriter(s', q) {
      var u :| 0 <= u < |s.pcs| && Writes(s.pcs[u], q);
      assert Writes(s'.pcs[u], q);
    }
    forall q | HasReader(s, q) && !Reads(s.pcs[t], q) ensures HasReader(s', q) {
      var u :| 0 <= u < |s.pcs| && Reads(s.pcs[u], q);
      assert Reads(s'.pcs[u], q);
    }
  }

  lemma QuietStep<V>(s: State<V>, t: nat, pc: Pc<V>)
    requires Inv(s) && t < |s.pcs| && !Owns(s.pcs[t]) && !Owns(pc) && ThreadOk(s, pc)
    ensures Inv(Goto(s, t, pc))
  {
    var s' := Goto(s, t, pc);
    OtherOwnersKept(s, s', t);
    forall i | 0 <= i < |s'.slots| ensures Vacant(s', i) || Filled(s', i) {
      assert Vacant(s, i) || Filled(s, i);
    }
    forall u | 0 <= u < |s'.pcs| ensures ThreadOk(s', s'.pcs[u]) {
      assert u != t ==> ThreadOk(s, s.pcs[u]);
    }
    forall p | 0 <= p < s'.dequeue ensures HandedOut(s', p) || HasReader(s', p) {
      assert HandedOut(s, p) || HasReader(s, p);
    }
  }

  /** The history entries stay valid when no pushed value, no sequence below them and no
      reader is lost. */
  lemma HistoryStep<V>(s: State<V>, s': State<V>)
    requires Inv(s) && |s'.slots| == |s.slots| && |s'.pushed| == s'.enqueue
    requires s.pushed <= s'.pushed && s.dequeue <= s'.dequeue && s'.popped == s.popped
    requires forall i :: 0 <= i < |s.slots| ==> s.slots[i].sequence <= s'.slots[i].sequence
    requires forall p :: 0 <= p < s'.dequeue ==> (p < s.dequeue && HasReader(s, p) ==> HasReader(s', p))
    requires forall p :: s.dequeue <= p < s'.dequeue ==> HasReader(s', p)
    ensures HistoryOk(s')
  {
    forall k | 0 <= k < |s'.popped|
      ensures s'.slots[Index(s', s'.popped[k].0)].sequence > s'.popped[k].0 + 1
    {
      assert s.slots[Index(s, s.popped[k].0)].sequence > s.popped[k].0 + 1;
    }
    forall p | 0 <= p < s'.dequeue ensures HandedOut(s', p) || HasReader(s', p) {
      if p < s.dequeue && HandedOut(s, p) {
        var k :| 0 <= k < |s.popped| && s.popped[k].0 == p;
        assert s'.popped[k].0 == p;
      }
    }
  }

  lemma SlotOfSequence<V>(s: State<V>, p: nat)
    requires Inv(s)
    ensures s.slots[Index(s, p)].sequence == p ==> Vacant(s, Index(s, p))
    ensures s.slots[Index(s, p)].sequence == p + 1 ==> Filled(s, Index(s, p))
  {
    var i, n := Index(s, p), |s.slots|;
    NeighbourCells(p, n);
    if p > 0 {
      NeighbourCells(p - 1, n);
    }
    assert Vacant(s, i) || Filled(s, i);
  }

  /** A thread that claims a position is the only one that has claimed it. */
  lemma PushClaimIsExclusive<V>(s: State<V>, t: nat)
    requires Inv(s) && Enabled(s, PushExchange(t, false)) && s.pcs[t].pos == s.enqueue
    ensures Exclusive(Apply(s, PushExchange(t, false)))
  {
    hide Vacant, Filled, HistoryOk;
    forall u | 0 <= u < |s.pcs| && u != t ensures !Writes(s.pcs[u], s.enqueue) {
      assert ThreadOk(s, s.pcs[u]);
    }
  }

  lemma PopClaimIsExclusive<V>(s: State<V>, t: nat)
    requires Inv(s) && Enabled(s, PopExchange(t, false)) && s.pcs[t].pos == s.dequeue
    ensures Exclusive(Apply(s, PopExchange(t, false)))
  {
    hide Vacant, Filled, HistoryOk;
    forall u | 0 <= u < |s.pcs| && u != t ensures !Reads(s.pcs[u], s.dequeue) {
      assert ThreadOk(s, s.pcs[u]);
    }
  }

  lemma PushClaimKeepsSlots<V>(s: State<V>, t: nat)
    requires Inv(s) && Enabled(s, PushExchange(t, false)) && s.pcs[t].pos == s.enqueue
    ensures var s' := Apply(s, PushExchange(t, false));
      |s'.pushed| == s'.enqueue && forall j :: 0 <= j < |s'.slots| ==> Vacant(s', j) || Filled(s', j)
    ensures s.slots[Index(s, s.enqueue)].sequence == s.enqueue < s.dequeue + |s.slots|
  {
    hide HistoryOk, Exclusive;
    var s' := Apply(s, PushExchange(t, false));
    var p, n := s.enqueue, |s.slots|;
    assert ThreadOk(s, s.pcs[t]);
    SlotOfSequence(s, p);
    OtherOwnersKept(s, s', t);
    assert Writes(s'.pcs[t], p) && HasWriter(s', p);
    forall j | 0 <= j < n ensures Vacant(s', j) || Filled(s', j) {
      if Filled(s, j) {
        NeighbourCells(s.slots[j].sequence - 1, n);
      }
    }
  }

  lemma PushClaims<V>(s: State<V>, t: nat)
    requires Inv(s) && Enabled(s, PushExchange(t, false)) && s.pcs[t].pos == s.enqueue
    ensures Inv(Apply(s, PushExchange(t, false)))
  {
    hide HistoryOk, Exclusive, Vacant, Filled;
    var s' := Apply(s, PushExchange(t, false));
    PushClaimKeepsSlots(s, t);
    PushClaimIsExclusive(s, t);
    OtherOwnersKept(s, s', t);
    forall u | 0 <= u < |s'.pcs| ensures ThreadOk(s', s'.pcs[u]) {
      assert ThreadOk(s, s.pcs[u]);
    }
    HistoryStep(s, s');
  }

  lemma PopClaimKeepsSlots<V>(s: State<V>, t: nat)
    requires Inv(s) && Enabled(s, PopExchange(t, false)) && s.pcs[t].pos == s.dequeue
    ensures s.dequeue < s.enqueue && s.slots[Index(s, s.dequeue)].sequence == s.dequeue + 1
    ensures var s' := Apply(s, PopExchange(t, false));
      forall j :: 0 <= j < |s'.slots| ==> Vacant(s', j) || Filled(s', j)
  {
    hide HistoryOk, Exclusive;
    var s' := Apply(s, PopExchange(t, false));
    var p, n := s.dequeue, |s.slots|;
    assert ThreadOk(s, s.pcs[t]);
    SlotOfSequence(s, p);
    assert Filled(s, Index(s, p));
    OtherOwnersKept(s, s', t);
    assert Reads(s'.pcs[t], p) && HasReader(s', p);
    forall j | 0 <= j < n ensures Vacant(s', j) || Filled(s', j) {
      if Vacant(s, j) {
        assert s.slots[j].sequence != p;
      }
    }
  }

  lemma PopClaims<V>(s: State<V>, t: nat)
    requires Inv(s) && Enabled(s, PopExchange(t, false)) && s.pcs[t].pos == s.dequeue
    ensures s.dequeue < s.enqueue
    ensures Inv(Apply(s, PopExchange(t, false)))
  {
    hide HistoryOk, Exclusive, Vacant, Filled;
    var s' := Apply(s, PopExchange(t, false));
    PopClaimKeepsSlots(s, t);
    PopClaimIsExclusive(s, t);
    OtherOwnersKept(s, s', t);
    assert Reads(s'.pcs[t], s.dequeue) && HasReader(s', s.dequeue);
    forall u | 0 <= u < |s'.pcs| ensures ThreadOk(s', s'.pcs[u]) {
      assert ThreadOk(s, s.pcs[u]);
    }
    HistoryStep(s, s');
  }

  lemma PushWrites<V>(s: State<V>, t: nat)
    requires Inv(s) && Enabled(s, PushWrite(t))
    ensures Inv(Apply(s, PushWrite(t)))
  {
    hide HistoryOk;
    var s' := Apply(s, PushWrite(t));
    var p, n := s.pcs[t].pos, |s.slots|;
    assert ThreadOk(s, s.pcs[t]);
    var i := Index(s, p);
    SlotOfSequence(s, p);
    OtherOwnersKept(s, s', t);
    assert Writes(s.pcs[t], p) && Writes(s'.pcs[t], p);
    NeighbourCells(p, n);
    forall j | 0 <= j < n ensures Vacant(s', j) || Filled(s', j) {
      assert Vacant(s, j) || Filled(s, j);
    }
    forall u | 0 <= u < |s'.pcs| ensures ThreadOk(s', s'.pcs[u]) {
      assert ThreadOk(s, s.pcs[u]);
      assert Writes(s.pcs[t], p);
    }
    HistoryStep(s, s');
  }

  lemma PushPublishes<V>(s: State<V>, t: nat)
    requires Inv(s) && Enabled(s, PushPublish(t))
    ensures Inv(Apply(s, PushPublish(t)))
  {
    hide HistoryOk;
    var s' := Apply(s, PushPublish(t));
    var p, n := s.pcs[t].pos, |s.slots|;
    assert ThreadOk(s, s.pcs[t]);
    var i := Index(s, p);
    SlotOfSequence(s, p);
    NeighbourCells(p, n);
    assert Writes(s.pcs[t], p);
    OtherOwnersKept(s, s', t);
    forall j | 0 <= j < n ensures Vacant(s', j) || Filled(s', j) {
      if j == i {
        assert Filled(s', i);
      } else {
        assert Vacant(s, j) || Filled(s, j);
      }
    }
    forall u | 0 <= u < |s'.pcs| ensures ThreadOk(s', s'.pcs[u]) {
      if u != t {
        OthersUndisturbed(s, s', t, u);
      }
    }
    HistoryStep(s, s');
  }

  /** A thread that will act on what it knows of the slot of its position. */
  predicate Relies<V>(s: State<V>, pc: Pc<V>)
  {
    Owns(pc) || (pc.PushSaw? && pc.pos == s.enqueue) || (pc.PopSaw? && pc.pos == s.dequeue)
  }

  /** A thread that has claimed a position is the only one relying on its slot. */
  lemma SoleUser<V>(s: State<V>, t: nat, u: nat)
    requires Inv(s) && t < |s.pcs| && u < |s.pcs| && t != u
    requires Owns(s.pcs[t]) && Relies(s, s.pcs[u])
    ensures Index(s, s.pcs[u].pos) != Index(s, s.pcs[t].pos)
  {
    var pt, pu, n := s.pcs[t], s.pcs[u], |s.slots|;
    assert ThreadOk(s, pt) && ThreadOk(s, pu);
    NeighbourCells(pt.pos, n);
    NeighbourCells(pu.pos, n);
    assert !(Writes(pt, pt.pos) && Writes(pu, pt.pos));
    assert !(Reads(pt, pt.pos) && Reads(pu, pt.pos));
  }

  /** Only the slot of a claimed position is touched by its owner, so nobody else notices. */
  lemma OthersUndisturbed<V>(s: State<V>, s': State<V>, t: nat, u: nat)
    requires Inv(s) && t < |s.pcs| && u < |s.pcs| && t != u && Owns(s.pcs[t])
    requires |s'.slots| == |s.slots| && s'.enqueue == s.enqueue && s'.dequeue == s.dequeue && s'.pushed == s.pushed
    requires forall j :: 0 <= j < |s.slots| && j != Index(s, s.pcs[t].pos) ==> s'.slots[j] == s.slots[j]
    ensures ThreadOk(s', s.pcs[u])
  {
    assert ThreadOk(s, s.pcs[u]);
    if Relies(s, s.pcs[u]) {
      SoleUser(s, t, u);
    }
  }

  lemma PopCopies<V>(s: State<V>, t: nat)
    requires Inv(s) && Enabled(s, PopCopy(t))
    ensures Inv(Apply(s, PopCopy(t)))
  {
    hide HistoryOk;
    var s' := Apply(s, PopCopy(t));
    var p := s.pcs[t].pos;
    assert ThreadOk(s, s.pcs[t]);
    SlotOfSequence(s, p);
    OtherOwnersKept(s, s', t);
    assert Reads(s.pcs[t], p) && Reads(s'.pcs[t], p);
    forall j | 0 <= j < |s'.slots| ensures Vacant(s', j) || Filled(s', j) {
      assert Vacant(s, j) || Filled(s, j);
    }
    forall u | 0 <= u < |s'.pcs| ensures ThreadOk(s', s'.pcs[u]) {
      assert ThreadOk(s, s.pcs[u]);
    }
    HistoryStep(s, s');
  }

  lemma PopReleases<V>(s: State<V>, t: nat)
    requires Inv(s) && Enabled(s, PopRelease(t))
    ensures Inv(Apply(s, PopRelease(t)))
  {
    hide HistoryOk;
    var s' := Apply(s, PopRelease(t));
    var p, n := s.pcs[t].pos, |s.slots|;
    assert ThreadOk(s, s.pcs[t]);
    var i := Index(s, p);
    SlotOfSequence(s, p);
    NeighbourCells(p, n);
    OtherOwnersKept(s, s', t);
    assert Reads(s.pcs[t], p);
    forall j | 0 <= j < n ensures Vacant(s', j) || Filled(s', j) {
      if j == i {
        assert Vacant(s', i);
      } else {
        assert Vacant(s, j) || Filled(s, j);
      }
    }
    forall u | 0 <= u < |s'.pcs| ensures ThreadOk(s', s'.pcs[u]) {
      if u != t {
        OthersUndisturbed(s, s', t, u);
      }
    }
    HistoryGrows(s, t);
  }

  lemma HistoryGrows<V>(s: State<V>, t: nat)
    requires Inv(s) && Enabled(s, PopRelease(t))
    ensures HistoryOk(Apply(s, PopRelease(t)))
  {
    var s' := Apply(s, PopRelease(t));
    var p, n := s.pcs[t].pos, |s.slots|;
    assert ThreadOk(s, s.pcs[t]);
    OtherOwnersKept(s, s', t);
    forall k | 0 <= k < |s'.popped|
      ensures s'.popped[k].0 < s'.dequeue && s'.popped[k].0 < s'.enqueue
      ensures s'.popped[k].1 == s'.pushed[s'.popped[k].0]
      ensures s'.slots[Index(s', s'.popped[k].0)].sequence > s'.popped[k].0 + 1
      ensures k < |s.popped| ==> s'.popped[k].0 != p
    {
      if k < |s.popped| {
        assert s.slots[Index(s, s.popped[k].0)].sequence > s.popped[k].0 + 1;
      }
    }
    forall q | 0 <= q < s'.dequeue ensures HandedOut(s', q) || HasReader(s', q) {
      if q == p {
        assert s'.popped[|s.popped|].0 == p;
      } else if HandedOut(s, q) {
        var k :| 0 <= k < |s.popped| && s.popped[k].0 == q;
        assert s'.popped[k].0 == q;
      } else {
        assert HasReader(s, q);
      }
    }
  }

  lemma StepKeepsInv<V>(s: State<V>, a: Action<V>)
    requires Inv(s) && Enabled(s, a)
    ensures Inv(Apply(s, a))
  {
    var t := a.t;
    assert ThreadOk(s, s.pcs[t]);
    match a
    case PushExchange(_, spurious) =>
      if s.pcs[t].pos == s.enqueue && !spurious {
        PushClaims(s, t);
      } else {
        QuietStep(s, t, PushAt(s.pcs[t].v, s.enqueue));
      }
    case PopExchange(_, spurious) =>
      if s.pcs[t].pos == s.dequeue && !spurious {
        PopClaims(s, t);
      } else {
        QuietStep(s, t, PopAt(s.dequeue));
      }
    case PushWrite(_) => PushWrites(s, t);
    case PushPublish(_) => PushPublishes(s, t);
    case PopCopy(_) => PopCopies(s, t);
    case PopRelease(_) => PopReleases(s, t);
    case _ => QuietStep(s, t, Apply(s, a).pcs[t]);
  }

  lemma InitialInv<V>(s: State<V>)
    requires Initial(s)
    ensures Inv(s)
  {
    forall i | 0 <= i < |s.slots| ensures Vacant(s, i) {
      DivModUnique(i, |s.slots|, 0, i);
    }
  }

  lemma {:induction false} RunKeepsInv<V>(s: State<V>, run: seq<Action<V>>)
    requires Inv(s) && Legal(s, run)
    ensures Inv(After(s, run))
    decreases |run|
  {
    if run != [] {
      StepKeepsInv(s, run[0]);
      RunKeepsInv(Apply(s, run[0]), run[1..]);
    }
  }

  // ---------------------------------------------------------------- what every interleaving guarantees

  /** A consumer is handed, for position p, the very value pushed at p; no position is
      handed out twice; and the counters stay within one ring of each other. */
  lemma PoppedIsPushed<V>(s0: State<V>, run: seq<Action<V>>)
    requires Initial(s0) && Legal(s0, run)
    ensures var s := After(s0, run);
      && s.dequeue <= s.enqueue <= s.dequeue + |s.slots|
      && |s.pushed| == s.enqueue
      && (forall k :: 0 <= k < |s.popped| ==> s.popped[k].0 < s.dequeue && s.popped[k].1 == s.pushed[s.popped[k].0])
      && (forall j, k :: 0 <= j < k < |s.popped| ==> s.popped[j].0 != s.popped[k].0)
  {
    InitialInv(s0);
    RunKeepsInv(s0, run);
  }

  /** Between claiming and releasing a position a thread has its slot to itself: no other
      thread owns that slot, so no value is written or copied under it. */
  lemma OwnersUseDifferentSlots<V>(s0: State<V>, run: seq<Action<V>>, t: nat, u: nat)
    requires Initial(s0) && Legal(s0, run)
    requires var s := After(s0, run); t < |s.pcs| && u < |s.pcs| && t != u && Owns(s.pcs[t]) && Owns(s.pcs[u])
    ensures var s := After(s0, run);
      |s.slots| > 0 && Index(s, s.pcs[t].pos) != Index(s, s.pcs[u].pos)
  {
    InitialInv(s0);
    RunKeepsInv(s0, run);
    SoleUser(After(s0, run), t, u);
  }

  /** Once every call has returned, exactly the claimed positions have been handed out,
      and the slots hold the rest in order. */
  lemma QuiescentConservation<V>(s0: State<V>, run: seq<Action<V>>)
    requires Initial(s0) && Legal(s0, run)
    requires forall t :: 0 <= t < |After(s0, run).pcs| ==> After(s0, run).pcs[t].Idle?
    ensures var s := After(s0, run); forall p: nat :: p < s.dequeue <==> HandedOut(s, p)
    ensures var s := After(s0, run);
      forall p :: s.dequeue <= p < s.enqueue ==>
        p < |s.pushed| && |s.slots| > 0 && s.slots[Index(s, p)] == Slot(p + 1, s.pushed[p])
  {
    InitialInv(s0);
    RunKeepsInv(s0, run);
    var s := After(s0, run);
    forall p | s.dequeue <= p < s.enqueue
      ensures s.slots[Index(s, p)] == Slot(p + 1, s.pushed[p])
    {
      var i, q := Index(s, p), s.slots[Index(s, p)].sequence;
      if Vacant(s, i) {
        assert !HasWriter(s, q);
        SameCellApart(p, q, |s.slots|);
        assert false;
      } else {
        assert Filled(s, i);
        if q - 1 != p {
          SameCellApart(if q - 1 < p then q - 1 else p, if q - 1 < p then p else q - 1, |s.slots|);
        }
      }
    }
  }

  // ---------------------------------------------------------------- refinement of a first-in first-out queue

  /** The abstract queue: claimed by a push, not yet claimed by a pop. */
  ghost function Contents<V>(s: State<V>): seq<V>
    requires Inv(s)
  {
    s.pushed[s.dequeue..]
  }

  /** Each step appends the pushed value, removes the oldest value for the thread that is
      about to copy it, or leaves the abstract queue alone. */
  lemma StepRefinesQueue<V>(s: State<V>, a: Action<V>)
    requires Inv(s) && Enabled(s, a)
    ensures Inv(Apply(s, a))
    ensures |Contents(s)| <= |s.slots|
    ensures var s' := Apply(s, a); var pc := s'.pcs[a.t];
      if a.PushExchange? && pc.PushOwns? then
        |Contents(s)| < |s.slots| && Contents(s') == Contents(s) + [pc.v]
      else if a.PopExchange? && pc.PopOwns? then
        |Contents(s)| > 0 && Contents(s') == Contents(s)[1..] && pc.pos < |s'.pushed| && s'.pushed[pc.pos] == Contents(s)[0]
      else
        Contents(s') == Contents(s)
  {
    StepKeepsInv(s, a);
    assert ThreadOk(s, s.pcs[a.t]);
    if a.PopExchange? && s.pcs[a.t].pos == s.dequeue && !a.spurious {
      PopClaims(s, a.t);
    }
  }

  /** A push gives up exactly when its position is the next one and the ring is full, or
      the consumer of the previous round has not yet released the slot. */
  lemma PushFailsExactly<V>(s: State<V>, t: nat)
    requires Inv(s) && Enabled(s, PushLoadSequence(t))
    ensures var pos := s.pcs[t].pos; var n := |s.slots|;
      Apply(s, PushLoadSequence(t)).pcs[t].Idle? <==>
      pos == s.enqueue && pos >= n && (|Contents(s)| == n || HasReader(s, pos - n))
  {
    var pos, n := s.pcs[t].pos, |s.slots|;
    var i := Index(s, pos);
    var q := s.slots[i].sequence;
    assert ThreadOk(s, s.pcs[t]);
    if pos >= n {
      NeighbourCells(pos - n, n);
    }
    if Vacant(s, i) {
      if q < pos {
        SameCellApart(q, pos, n);
      }
      if pos >= n && HasReader(s, pos - n) {
        var u :| 0 <= u < |s.pcs| && Reads(s.pcs[u], pos - n);
        assert ThreadOk(s, s.pcs[u]);
        NeighbourCells(pos, n);
      }
    } else {
      assert Filled(s, i);
      if q - 1 < pos {
        SameCellApart(q - 1, pos, n);
        assert pos == s.enqueue && q - 1 == pos - n;
      }
    }
  }

  /** A pop gives up exactly when its position is the next one and either nothing has been
      pushed there or the producer that claimed it has not yet published the value. */
  lemma PopFailsExactly<V>(s: State<V>, t: nat)
    requires Inv(s) && Enabled(s, PopLoadSequence(t))
    ensures var pos := s.pcs[t].pos;
      Apply(s, PopLoadSequence(t)).pcs[t].Idle? <==>
      pos == s.dequeue && (Contents(s) == [] || HasWriter(s, pos))
  {
    var pos, n := s.pcs[t].pos, |s.slots|;
    var i := Index(s, pos);
    var q := s.slots[i].sequence;
    assert ThreadOk(s, s.pcs[t]);
    if Vacant(s, i) {
      if pos < q {
        SameCellApart(pos, q, n);
      }
    } else {
      assert Filled(s, i);
      if q - 1 < pos {
        SameCellApart(q - 1, pos, n);
      } else if pos < q - 1 {
        SameCellApart(pos, q - 1, n);
      }
    }
    if pos == s.dequeue && HasWriter(s, pos) {
      var u :| 0 <= u < |s.pcs| && Writes(s.pcs[u], pos);
      assert ThreadOk(s, s.pcs[u]);
    }
  }

  // ---------------------------------------------------------------- a call that is left alone

  /** The slot of the next push is free for it exactly if the ring has room there. */
  lemma NextPushSlot<V>(s: State<V>)
    requires Inv(s)
    ensures s.slots[Index(s, s.enqueue)].sequence == s.enqueue
      <==> !(|Contents(s)| == |s.slots| || (s.enqueue >= |s.slots| && HasReader(s, s.enqueue - |s.slots|)))
  {
    var pos, n := s.enqueue, |s.slots|;
    var i := Index(s, pos);
    var q := s.slots[i].sequence;
    if pos >= n {
      NeighbourCells(pos - n, n);
    }
    if Vacant(s, i) {
      if q < pos {
        SameCellApart(q, pos, n);
      } else if q > pos {
        SameCellApart(pos, q, n);
      }
      if pos >= n && HasReader(s, pos - n) {
        var u :| 0 <= u < |s.pcs| && Reads(s.pcs[u], pos - n);
        assert ThreadOk(s, s.pcs[u]);
      }
    } else {
      assert Filled(s, i);
      SameCellApart(q - 1, pos, n);
    }
  }

  lemma OwnSteps<V>(t: nat, a1: Action<V>, a2: Action<V>, a3: Action<V>, a4: Action<V>, a5: Action<V>)
    requires a1.t == t && a2.t == t && a3.t == t && a4.t == t && a5.t == t
    ensures forall i :: 0 <= i < 5 ==> [a1, a2, a3, a4, a5][i].t == t
  {
  }

  /** A push that is left alone succeeds if there is room at its position, and appends its value. */
  lemma PushAlone<V>(s: State<V>, t: nat, v: V) returns (run: seq<Action<V>>)
    requires Inv(s) && t < |s.pcs| && s.pcs[t].Idle?
    requires |Contents(s)| < |s.slots| && (s.enqueue >= |s.slots| ==> !HasReader(s, s.enqueue - |s.slots|))
    ensures (forall i :: 0 <= i < |run| ==> run[i].t == t) && Legal(s, run)
    ensures var s' := After(s, run);
      Inv(s') && s'.pcs == s.pcs && s'.popped == s.popped && Contents(s') == Contents(s) + [v]
  {
    hide Legal, After, Inv, Index, HasReader;
    NextPushSlot(s);
    InRange(s);
    PushRuns(s, t, v);
    run := [CallPush(t, v), PushLoadSequence(t), PushExchange(t, false), PushWrite(t), PushPublish(t)];
    OwnSteps(t, run[0], run[1], run[2], run[3], run[4]);
    RunKeepsInv(s, run);
  }

  lemma InRange<V>(s: State<V>)
    requires Inv(s)
    ensures s.dequeue <= |s.pushed| == s.enqueue && |s.slots| >= 2
  {
  }

  /** The slot of the next pop carries its value exactly if that has been published. */
  lemma NextPopSlot<V>(s: State<V>)
    requires Inv(s)
    ensures s.slots[Index(s, s.dequeue)].sequence == s.dequeue + 1 <==> Contents(s) != [] && !HasWriter(s, s.dequeue)
    ensures s.slots[Index(s, s.dequeue)].sequence == s.dequeue + 1 ==> s.slots[Index(s, s.dequeue)].value == Contents(s)[0]
  {
    var pos, n := s.dequeue, |s.slots|;
    var i := Index(s, pos);
    var q := s.slots[i].sequence;
    if Vacant(s, i) {
      NeighbourCells(pos, n);
      if q > pos {
        SameCellApart(pos, q, n);
      }
    } else {
      assert Filled(s, i);
      if q - 1 < pos {
        SameCellApart(q - 1, pos, n);
      } else if q - 1 > pos {
        SameCellApart(pos, q - 1, n);
      }
      if HasWriter(s, pos) {
        var u :| 0 <= u < |s.pcs| && Writes(s.pcs[u], pos);
        assert ThreadOk(s, s.pcs[u]);
      }
    }
  }

  /** A pop that is left alone succeeds if a value has been published at its position, and hands it out. */
  lemma PopAlone<V>(s: State<V>, t: nat) returns (run: seq<Action<V>>)
    requires Inv(s) && t < |s.pcs| && s.pcs[t].Idle? && Contents(s) != [] && !HasWriter(s, s.dequeue)
    ensures (forall i :: 0 <= i < |run| ==> run[i].t == t) && Legal(s, run)
    ensures var s' := After(s, run);
      Inv(s') && s'.pcs == s.pcs && s'.popped == s.popped + [(s.dequeue, Contents(s)[0])] && Contents(s') == Contents(s)[1..]
  {
    hide Legal, After, Inv, Index, HasWriter;
    NextPopSlot(s);
    InRange(s);
    PopRuns(s, t);
    run := [CallPop(t), PopLoadSequence(t), PopExchange(t, false), PopCopy(t), PopRelease(t)];
    OwnSteps(t, run[0], run[1], run[2], run[3], run[4]);
    RunKeepsInv(s, run);
    InRange(After(s, run));
  }

  lemma PopRunEnds<V>(s: State<V>, s3: State<V>, s5: State<V>, t: nat)
    requires |s.slots| > 0 && t < |s.pcs| && s.pcs[t].Idle?
    requires s3 == s.(pcs := s.pcs[t := PopOwns(s.dequeue)], dequeue := s.dequeue + 1)
    requires var i := Index(s3, s.dequeue);
      s5 == s3.(slots := s3.slots[i := s3.slots[i].(sequence := s.dequeue + |s3.slots|)], pcs := s3.pcs[t := Idle],
                popped := s3.popped + [(s.dequeue, s3.slots[i].value)])
    ensures var i := Index(s, s.dequeue);
      s5 == s.(slots := s.slots[i := s.slots[i].(sequence := s.dequeue + |s.slots|)], dequeue := s.dequeue + 1,
               popped := s.popped + [(s.dequeue, s.slots[i].value)])
  {
    assert s5.pcs == s.pcs;
  }

  /** The five steps of a pop that nobody gets in the way of. */
  lemma PopRuns<V>(s: State<V>, t: nat)
    requires |s.slots| > 0 && t < |s.pcs| && s.pcs[t].Idle? && s.slots[Index(s, s.dequeue)].sequence == s.dequeue + 1
    ensures var run := [CallPop(t), PopLoadSequence(t), PopExchange(t, false), PopCopy(t), PopRelease(t)];
      var i := Index(s, s.dequeue);
      && Legal(s, run)
      && After(s, run) == s.(slots := s.slots[i := s.slots[i].(sequence := s.dequeue + |s.slots|)], dequeue := s.dequeue + 1,
                             popped := s.popped + [(s.dequeue, s.slots[i].value)])
  {
    hide Legal, After, Index;
    PopRunClaims(s, t);
    var s1 := Apply(s, CallPop(t));
    var s2 := Apply(s1, PopLoadSequence(t));
    var s3 := Apply(s2, PopExchange(t, false));
    PopRunReleases(s3, t, s.dequeue);
    var s4 := Apply(s3, PopCopy(t));
    var s5 := Apply(s4, PopRelease(t));
    PopRunEnds(s, s3, s5, t);
    hide Apply, Enabled;
    FiveSteps(s, s1, s2, s3, s4, s5, CallPop(t), PopLoadSequence(t), PopExchange(t, false), PopCopy(t), PopRelease(t));
  }

  lemma PopRunClaims<V>(s: State<V>, t: nat)
    requires |s.slots| > 0 && t < |s.pcs| && s.pcs[t].Idle? && s.slots[Index(s, s.dequeue)].sequence == s.dequeue + 1
    ensures Enabled(s, CallPop(t)) && Enabled(Apply(s, CallPop(t)), PopLoadSequence(t))
    ensures var s2 := Apply(Apply(s, CallPop(t)), PopLoadSequence(t));
      && |s2.slots| > 0 && Enabled(s2, PopExchange(t, false))
      && Apply(s2, PopExchange(t, false)) == s.(pcs := s.pcs[t := PopOwns(s.dequeue)], dequeue := s.dequeue + 1)
  {
  }

  lemma PopRunReleases<V>(s: State<V>, t: nat, p: nat)
    requires |s.slots| > 0 && t < |s.pcs| && s.pcs[t] == PopOwns(p)
    ensures Enabled(s, PopCopy(t)) && |Apply(s, PopCopy(t)).slots| > 0 && Enabled(Apply(s, PopCopy(t)), PopRelease(t))
    ensures var i := Index(s, p);
      Apply(Apply(s, PopCopy(t)), PopRelease(t))
      == s.(slots := s.slots[i := s.slots[i].(sequence := p + |s.slots|)], pcs := s.pcs[t := Idle], popped := s.popped + [(p, s.slots[i].value)])
  {
  }

  /** Why initialize refuses a capacity below two: with one slot a second push is accepted
      and overwrites the first value before anybody has popped it. */
  lemma OneSlotRingLosesAValue<V>(a: V, b: V)
    ensures var s0 := State([Slot(0, a)], 0, 0, [Idle], [], []);
      exists run :: Legal(s0, run) && var s := After(s0, run);
        s.pcs == [Idle] && s.popped == [] && s.dequeue == 0 && s.pushed == [a, b] && s.slots == [Slot(2, b)]
  {
    var s0: State<V> := State([Slot(0, a)], 0, 0, [Idle], [], []);
    var first := [CallPush(0, a), PushLoadSequence(0), PushExchange(0, false), PushWrite(0), PushPublish(0)];
    var second := [CallPush(0, b), PushLoadSequence(0), PushExchange(0, false), PushWrite(0), PushPublish(0)];
    var s1: State<V> := State([Slot(1, a)], 1, 0, [Idle], [a], []);
    var s2: State<V> := State([Slot(2, b)], 2, 0, [Idle], [a, b], []);
    PushRuns(s0, 0, a);
    assert [] + [a] == [a];
    assert After(s0, first) == s1;
    PushRuns(s1, 0, b);
    assert [a] + [b] == [a, b];
    assert After(s1, second) == s2;
    RunsConcatenate(s0, first, second);
  }

  lemma PushRunEnds<V>(s: State<V>, s3: State<V>, s5: State<V>, t: nat, v: V)
    requires |s.slots| > 0 && t < |s.pcs| && s.pcs[t].Idle?
    requires s3 == s.(pcs := s.pcs[t := PushOwns(v, s.enqueue)], enqueue := s.enqueue + 1, pushed := s.pushed + [v])
    requires s5 == s3.(slots := s3.slots[Index(s3, s.enqueue) := Slot(s.enqueue + 1, v)], pcs := s3.pcs[t := Idle])
    ensures s5 == s.(slots := s.slots[Index(s, s.enqueue) := Slot(s.enqueue + 1, v)], enqueue := s.enqueue + 1, pushed := s.pushed + [v])
  {
    assert s5.pcs == s.pcs;
  }

  /** The five steps of a push that nobody gets in the way of. */
  lemma PushRuns<V>(s: State<V>, t: nat, v: V)
    requires |s.slots| > 0 && t < |s.pcs| && s.pcs[t].Idle? && s.slots[Index(s, s.enqueue)].sequence == s.enqueue
    ensures var run := [CallPush(t, v), PushLoadSequence(t), PushExchange(t, false), PushWrite(t), PushPublish(t)];
      && Legal(s, run)
      && After(s, run) == s.(slots := s.slots[Index(s, s.enqueue) := Slot(s.enqueue + 1, v)], enqueue := s.enqueue + 1, pushed := s.pushed + [v])
  {
    hide Legal, After, Index;
    PushRunClaims(s, t, v);
    var s1 := Apply(s, CallPush(t, v));
    var s2 := Apply(s1, PushLoadSequence(t));
    var s3 := Apply(s2, PushExchange(t, false));
    PushRunFills(s3, t, v, s.enqueue);
    var s4 := Apply(s3, PushWrite(t));
    var s5 := Apply(s4, PushPublish(t));
    PushRunEnds(s, s3, s5, t, v);
    hide Apply, Enabled;
    FiveSteps(s, s1, s2, s3, s4, s5, CallPush(t, v), PushLoadSequence(t), PushExchange(t, false), PushWrite(t), PushPublish(t));
  }

  lemma PushRunClaims<V>(s: State<V>, t: nat, v: V)
    requires |s.slots| > 0 && t < |s.pcs| && s.pcs[t].Idle? && s.slots[Index(s, s.enqueue)].sequence == s.enqueue
    ensures Enabled(s, CallPush(t, v)) && Enabled(Apply(s, CallPush(t, v)), PushLoadSequence(t))
    ensures var s2 := Apply(Apply(s, CallPush(t, v)), PushLoadSequence(t));
      && |s2.slots| > 0 && Enabled(s2, PushExchange(t, false))
      && Apply(s2, PushExchange(t, false))
         == s.(pcs := s.pcs[t := PushOwns(v, s.enqueue)], enqueue := s.enqueue + 1, pushed := s.pushed + [v])
  {
  }

  lemma PushRunFills<V>(s: State<V>, t: nat, v: V, p: nat)
    requires |s.slots| > 0 && t < |s.pcs| && s.pcs[t] == PushOwns(v, p)
    ensures Enabled(s, PushWrite(t)) && |Apply(s, PushWrite(t)).slots| > 0 && Enabled(Apply(s, PushWrite(t)), PushPublish(t))
    ensures Apply(Apply(s, PushWrite(t)), PushPublish(t)) == s.(slots := s.slots[Index(s, p) := Slot(p + 1, v)], pcs := s.pcs[t := Idle])
  {
  }

  lemma FiveSteps<V>(s0: State<V>, s1: State<V>, s2: State<V>, s3: State<V>, s4: State<V>, s5: State<V>,
                     a1: Action<V>, a2: Action<V>, a3: Action<V>, a4: Action<V>, a5: Action<V>)
    requires |s0.slots| > 0 && |s1.slots| > 0 && |s2.slots| > 0 && |s3.slots| > 0 && |s4.slots| > 0
    requires Enabled(s0, a1) && s1 == Apply(s0, a1) && Enabled(s1, a2) && s2 == Apply(s1, a2)
    requires Enabled(s2, a3) && s3 == Apply(s2, a3) && Enabled(s3, a4) && s4 == Apply(s3, a4)
    requires Enabled(s4, a5) && s5 == Apply(s4, a5)
    ensures Legal(s0, [a1, a2, a3, a4, a5]) && After(s0, [a1, a2, a3, a4, a5]) == s5
  {
    hide Apply, Enabled, Legal, After;
    NothingIsLegal(s5);
    LegalStep(s4, a5, []);
    assert [a5] + [] == [a5];
    LegalStep(s3, a4, [a5]);
    assert [a4] + [a5] == [a4, a5];
    LegalStep(s2, a3, [a4, a5]);
    assert [a3] + [a4, a5] == [a3, a4, a5];
    LegalStep(s1, a2, [a3, a4, a5]);
    assert [a2] + [a3, a4, a5] == [a2, a3, a4, a5];
    LegalStep(s0, a1, [a2, a3, a4, a5]);
    assert [a1] + [a2, a3, a4, a5] == [a1, a2, a3, a4, a5];
  }

  lemma NothingIsLegal<V>(s: State<V>)
    ensures Legal(s, []) && After(s, []) == s
  {
  }

  lemma LegalStep<V>(s: State<V>, a: Action<V>, rest: seq<Action<V>>)
    requires |s.slots| > 0 && Enabled(s, a) && Legal(Apply(s, a), rest)
    ensures Legal(s, [a] + rest) && After(s, [a] + rest) == After(Apply(s, a), rest)
  {
    assert ([a] + rest)[1..] == rest;
  }

  lemma {:induction false} RunsConcatenate<V>(s: State<V>, first: seq<Action<V>>, second: seq<Action<V>>)
    requires Legal(s, first) && Legal(After(s, first), second)
    ensures Legal(s, first + second) && After(s, first + second) == After(After(s, first), second)
    decreases |first|
  {
    if first == [] {
      assert first + second == second;
    } else {
      RunsConcatenate(Apply(s, first[0]), first[1..], second);
      assert (first + second)[1..] == first[1..] + second;
    }
  }
}
