/** Lock-free readers, one writer and its collector, as a machine with one atomic operation
    per step. Readers enter scopes, look keys up in the index, resolve handles and pin
    records; the writer replaces records in slots and in the index, puts what it replaced on
    the retired list, advances the publication epoch, and frees retired records that no
    announced epoch and no pin protects. Addresses of freed records may be used again.

    A step that reads through an address that is not allocated sets fault. */
module EpochProtocol {
  import opened ReadKeyIndex
  import opened ResourceTypes
  import opened Wrappers

  datatype Record = Record(key: Key, handle: Handle)

  /** The word of one reader: vacant, reserved during entry, or an announced epoch. */
  datatype Word = Vacant | Entering | At(epoch: nat)

  /** What the last operation of a scope reported. */
  datatype Answer =
    | Nothing
    | Found(k: Key, h: Handle)
    | NotFound(k: Key)
    | Resolved(h: Handle, r: nat)
    | Stale(h: Handle)

  /** What an active scope is doing. since and present are auxiliary: how many removals had
      happened, and whether the key was indexed, when the lookup began. */
  datatype Op =
    | NoOp(answer: Answer)
    | Probing(k: Key, n: nat, since: nat, present: bool)
    | Comparing(k: Key, n: nat, since: nat, present: bool, loaded: nat)
    | Resolving(h: Handle, loaded: nat)

  datatype Scope =
    | Outside
    | Claiming(reader: nat)
    | Loading(reader: nat)
    | Announcing(reader: nat, epoch: nat)
    | Checking(reader: nat, epoch: nat)
    | Withdrawing(reader: nat)
    | Active(reader: nat, epoch: nat, held: set<nat>, op: Op)

  /** The writer thread: publishing (the first four busy states, in order) or collecting. */
  datatype Writer =
    | Idle
    | Exchanging(slot: nat, next: Option<nat>)
    | Indexing(slot: nat, prior: Option<nat>, next: Option<nat>)
    | Retiring(prior: Option<nat>)
    | Advancing
    | Scanning(reader: nat, oldest: Option<nat>, limit: nat)
    | Sweeping(oldest: Option<nat>, at: nat, visited: nat, limit: nat)

  datatype State = State(
    hash: Key -> nat,
    epoch: nat,
    readers: seq<Word>,
    scopes: seq<Scope>,
    writer: Writer,
    slots: seq<Option<nat>>,
    cells: seq<Cell>,
    place: map<Key, nat>,
    removals: seq<Key>,
    heap: map<nat, Record>,
    retired: seq<nat>,
    retiredAt: map<nat, nat>,
    pinSlots: seq<Option<nat>>,
    pinCount: map<nat, nat>,
    fault: bool)

  /** Entering and leaving a scope. */
  datatype EntryStep = Enter | Claim | LoadEpoch | Announce | Check | Withdraw | Leave

  /** What an active scope does with records. */
  datatype LookupStep =
    | BeginFind(k: Key)
    | FindLoad
    | FindCompare
    | ResolveLoad(h: Handle)
    | ResolveCompare
    | UseView(r: nat)

  datatype PublishStep =
    | BeginReplace(slot: nat, r: nat)
    | BeginInsert(slot: nat, r: nat, k: Key, h: Handle)
    | BeginRetire(slot: nat)
    | Exchange
    | UpdateIndex(c: nat)
    | PushRetired
    | Advance

  datatype CollectStep = BeginCollect(limit: nat) | Scan | Sweep

  /** One atomic operation of scope t, or of the writer. */
  datatype Action =
    | Entry(t: nat, entry: EntryStep)
    | Lookup(t: nat, lookup: LookupStep)
    | Pin(t: nat, r: nat, p: nat)
    | Unpin(p: nat)
    | Publish(publish: PublishStep)
    | Collect(collect: CollectStep)

  // ---------------------------------------------------------------- steps of a scope

  predicate EntryEnabled(scope: Scope, readers: seq<Word>, e: EntryStep)
  {
    match e
    case Enter => scope.Outside?
    case Claim => scope.Claiming? && scope.reader < |readers|
    case LoadEpoch => scope.Loading?
    case Announce => scope.Announcing? && scope.reader < |readers|
    case Check => scope.Checking?
    case Withdraw => scope.Withdrawing? && scope.reader < |readers|
    case Leave => scope.Active? && scope.op.NoOp? && scope.reader < |readers|
  }

  /** The scope and the reader words after an entry step. */
  function EntryOf(scope: Scope, readers: seq<Word>, epoch: nat, e: EntryStep): (next: (Scope, seq<Word>))
    requires EntryEnabled(scope, readers, e)
    ensures |next.1| == |readers|
  {
    match e
    case Enter => (if |readers| == 0 then Outside else Claiming(0), readers)
    case Claim =>
      var i := scope.reader;
      if readers[i].Vacant? then (Loading(i), readers[i := Entering])
      else (if i + 1 < |readers| then Claiming(i + 1) else Outside, readers)
    case LoadEpoch => (Announcing(scope.reader, epoch), readers)
    case Announce => (Checking(scope.reader, scope.epoch), readers[scope.reader := At(scope.epoch)])
    case Check =>
      (if scope.epoch == epoch then Active(scope.reader, epoch, {}, NoOp(Nothing)) else Withdrawing(scope.reader), readers)
    case Withdraw => (Loading(scope.reader), readers[scope.reader := Entering])
    case Leave => (Outside, readers[scope.reader := Vacant])
  }

  predicate LookupEnabled(s: State, scope: Scope, l: LookupStep)
  {
    && scope.Active?
    && match l
       case BeginFind(_) => scope.op.NoOp?
       case FindLoad => scope.op.Probing?
       case FindCompare => scope.op.Comparing?
       case ResolveLoad(h) => scope.op.NoOp? && h.slot < |s.slots|
       case ResolveCompare => scope.op.Resolving?
       case UseView(r) => r in scope.held
  }

  /** A probing scope after loading its next cell. */
  function Loaded(scope: Scope, cell: Cell): Scope
    requires scope.Active? && scope.op.Probing?
  {
    var Probing(k, n, since, present) := scope.op;
    match cell
    case Never => scope.(op := NoOp(NotFound(k)))
    case Tombstone => scope.(op := Probing(k, n + 1, since, present))
    case Holds(r, _) => scope.(held := scope.held + {r}, op := Comparing(k, n, since, present, r))
  }

  /** The scope after a lookup step. */
  function LookupOf(s: State, scope: Scope, l: LookupStep): Scope
    requires LookupEnabled(s, scope, l)
  {
    match l
    case BeginFind(k) => scope.(op := Probing(k, 0, |s.removals|, k in s.place))
    case FindLoad =>
      if scope.op.n >= |s.cells| then scope.(op := NoOp(NotFound(scope.op.k)))
      else Loaded(scope, s.cells[Wrap(Home(s.hash, scope.op.k, |s.cells|), scope.op.n, |s.cells|)])
    case FindCompare =>
      var Comparing(k, n, since, present, r) := scope.op;
      scope.(op := if r in s.heap && s.heap[r].key == k then NoOp(Found(k, s.heap[r].handle)) else Probing(k, n + 1, since, present))
    case ResolveLoad(h) =>
      if s.slots[h.slot].None? then scope.(op := NoOp(Stale(h)))
      else scope.(held := scope.held + {s.slots[h.slot].value}, op := Resolving(h, s.slots[h.slot].value))
    case ResolveCompare =>
      var Resolving(h, r) := scope.op;
      scope.(op := NoOp(if r in s.heap && s.heap[r].handle == h then Resolved(h, r) else Stale(h)))
    case UseView(_) => scope
  }

  /** The address a lookup step reads through. */
  function Dereferences(scope: Scope, l: LookupStep): Option<nat>
    requires scope.Active?
  {
    match l
    case FindCompare => if scope.op.Comparing? then Some(scope.op.loaded) else None
    case ResolveCompare => if scope.op.Resolving? then Some(scope.op.loaded) else None
    case UseView(r) => Some(r)
    case _ => None
  }

  function ApplyEntry(s: State, t: nat, e: EntryStep): State
    requires t < |s.scopes| && EntryEnabled(s.scopes[t], s.readers, e)
  {
    var next := EntryOf(s.scopes[t], s.readers, s.epoch, e);
    s.(scopes := s.scopes[t := next.0], readers := next.1)
  }

  function ApplyLookup(s: State, t: nat, l: LookupStep): State
    requires t < |s.scopes| && LookupEnabled(s, s.scopes[t], l)
  {
    var r := Dereferences(s.scopes[t], l);
    s.(scopes := s.scopes[t := LookupOf(s, s.scopes[t], l)], fault := s.fault || (r.Some? && r.value !in s.heap))
  }

  // ---------------------------------------------------------------- pins

  /** The collector holds the pin mutex from the scan to the end of the sweep. */
  predicate PinMutexFree(s: State)
  {
    !s.writer.Scanning? && !s.writer.Sweeping?
  }

  predicate PinEnabled(s: State, t: nat, r: nat, p: nat)
  {
    && t < |s.scopes| && s.scopes[t].Active? && r in s.scopes[t].held && PinMutexFree(s)
    && p < |s.pinSlots| && s.pinSlots[p].None?
  }

  function ApplyPin(s: State, r: nat, p: nat): State
    requires p < |s.pinSlots|
  {
    s.(pinSlots := s.pinSlots[p := Some(r)],
       pinCount := if r in s.pinCount then s.pinCount[r := s.pinCount[r] + 1] else s.pinCount,
       fault := s.fault || r !in s.heap)
  }

  function ApplyUnpin(s: State, p: nat): State
    requires p < |s.pinSlots| && s.pinSlots[p].Some?
  {
    var r := s.pinSlots[p].value;
    s.(pinSlots := s.pinSlots[p := None],
       pinCount := if r in s.pinCount && s.pinCount[r] > 0 then s.pinCount[r := s.pinCount[r] - 1] else s.pinCount,
       fault := s.fault || r !in s.heap)
  }

  // ---------------------------------------------------------------- steps of a publication

  /** The key whose index cell the writer is about to store. */
  function WriterKey(s: State): Option<Key>
    requires s.writer.Indexing?
  {
    if s.writer.next.Some? && s.writer.next.value in s.heap then Some(s.heap[s.writer.next.value].key)
    else if s.writer.prior.Some? && s.writer.prior.value in s.heap then Some(s.heap[s.writer.prior.value].key)
    else None
  }

  /** The writer stores into its key's own cell or, for a new key, into a free cell. */
  ghost predicate CanUpdateIndex(s: State, c: nat)
  {
    && s.writer.Indexing? && |s.cells| > 0 && WriterKey(s).Some?
    && var k := WriterKey(s).value; Suitable(s.cells, s.place, Home(s.hash, k, |s.cells|), k, c)
  }

  ghost predicate PublishEnabled(s: State, p: PublishStep)
  {
    match p
    case BeginReplace(slot, r) =>
      s.writer.Idle? && slot < |s.slots| && s.slots[slot].Some? && s.slots[slot].value in s.heap && r !in s.heap
    case BeginInsert(slot, r, k, h) =>
      s.writer.Idle? && slot < |s.slots| && s.slots[slot].None? && r !in s.heap && k !in s.place && h.slot == slot
    case BeginRetire(slot) => s.writer.Idle? && slot < |s.slots| && s.slots[slot].Some?
    case Exchange => s.writer.Exchanging? && s.writer.slot < |s.slots|
    case UpdateIndex(c) => CanUpdateIndex(s, c)
    case PushRetired => s.writer.Retiring?
    case Advance => s.writer.Advancing?
  }

  function Allocate(s: State, slot: nat, r: nat, record: Record): State
  {
    s.(heap := s.heap[r := record], pinCount := s.pinCount[r := 0], writer := Exchanging(slot, Some(r)))
  }

  function ApplyExchange(s: State): State
    requires s.writer.Exchanging? && s.writer.slot < |s.slots|
  {
    var Exchanging(slot, next) := s.writer;
    s.(slots := s.slots[slot := next], writer := Indexing(slot, s.slots[slot], next))
  }

  ghost function ApplyUpdateIndex(s: State, c: nat): State
    requires CanUpdateIndex(s, c)
  {
    var Indexing(slot, prior, next) := s.writer;
    var k := WriterKey(s).value;
    s.(cells := Store(s.cells, c, k, next), place := Replace(s.place, c, k, next),
       removals := if next.None? then s.removals + [k] else s.removals, writer := Retiring(prior))
  }

  function ApplyPushRetired(s: State): State
    requires s.writer.Retiring?
  {
    if s.writer.prior.None? then s.(writer := Advancing)
    else
      var r := s.writer.prior.value;
      s.(retired := [r] + s.retired, retiredAt := s.retiredAt[r := s.epoch], writer := Advancing)
  }

  function ApplyAdvance(s: State): State
  {
    s.(epoch := s.epoch + 1, writer := Idle)
  }

  ghost function ApplyPublish(s: State, p: PublishStep): (s': State)
    requires PublishEnabled(s, p)
    ensures s'.scopes == s.scopes && s'.pinSlots == s.pinSlots
    ensures forall r :: r in s.heap ==> r in s'.heap && s'.heap[r] == s.heap[r]
    ensures !p.UpdateIndex? ==> s'.place == s.place && s'.removals == s.removals
  {
    match p
    case BeginReplace(slot, r) => Allocate(s, slot, r, s.heap[s.slots[slot].value])
    case BeginInsert(slot, r, k, h) => Allocate(s, slot, r, Record(k, h))
    case BeginRetire(slot) => s.(writer := Exchanging(slot, None))
    case Exchange => ApplyExchange(s)
    case UpdateIndex(c) => ApplyUpdateIndex(s, c)
    case PushRetired => ApplyPushRetired(s)
    case Advance => ApplyAdvance(s)
  }

  // ---------------------------------------------------------------- steps of a collection

  predicate CollectEnabled(s: State, c: CollectStep)
  {
    match c
    case BeginCollect(_) => s.writer.Idle?
    case Scan => s.writer.Scanning?
    case Sweep => s.writer.Sweeping?
  }

  function Min(oldest: Option<nat>, e: nat): Option<nat>
  {
    if oldest.Some? && oldest.value <= e then oldest else Some(e)
  }

  /** The collector loads one reader word: a scope in the middle of its entry stops it. */
  function AfterScan(writer: Writer, readers: seq<Word>): Writer
    requires writer.Scanning?
  {
    var Scanning(i, oldest, limit) := writer;
    if i >= |readers| then Sweeping(oldest, 0, 0, limit)
    else
      match readers[i]
      case Entering => Idle
      case Vacant => Scanning(i + 1, oldest, limit)
      case At(e) => Scanning(i + 1, Min(oldest, e), limit)
  }

  /** The collector skips a record with a pin or with an epoch some scope may still need. */
  predicate Protected(s: State, r: nat, oldest: Option<nat>)
  {
    (r in s.pinCount && s.pinCount[r] > 0) ||
    (r in s.retiredAt && oldest.Some? && s.retiredAt[r] >= oldest.value)
  }

  /** The sweep is about to free record r. */
  predicate Frees(s: State, r: nat)
  {
    && s.writer.Sweeping? && s.writer.at < |s.retired| && s.writer.visited < s.writer.limit
    && r == s.retired[s.writer.at] && !Protected(s, r, s.writer.oldest)
  }

  function Free(s: State, r: nat): State
    requires Frees(s, r)
  {
    var Sweeping(oldest, at, visited, limit) := s.writer;
    s.(retired := s.retired[..at] + s.retired[at + 1..], retiredAt := s.retiredAt - {r}, heap := s.heap - {r},
       pinCount := s.pinCount - {r}, writer := Sweeping(oldest, at, visited + 1, limit))
  }

  function ApplyCollect(s: State, c: CollectStep): (s': State)
    requires CollectEnabled(s, c)
    ensures s'.scopes == s.scopes && s'.pinSlots == s.pinSlots
    ensures s'.place == s.place && s'.removals == s.removals
    ensures forall r :: r in s.heap && !Frees(s, r) ==> r in s'.heap && s'.heap[r] == s.heap[r]
  {
    match c
    case BeginCollect(limit) => if limit == 0 then s else s.(writer := Scanning(0, None, limit))
    case Scan => s.(writer := AfterScan(s.writer, s.readers))
    case Sweep =>
      var Sweeping(oldest, at, visited, limit) := s.writer;
      if at >= |s.retired| || visited >= limit then s.(writer := Idle)
      else if Frees(s, s.retired[at]) then Free(s, s.retired[at])
      else s.(writer := Sweeping(oldest, at + 1, visited + 1, limit))
  }

  // ---------------------------------------------------------------- the machine

  ghost predicate Enabled(s: State, a: Action)
  {
    match a
    case Entry(t, e) => t < |s.scopes| && EntryEnabled(s.scopes[t], s.readers, e)
    case Lookup(t, l) => t < |s.scopes| && LookupEnabled(s, s.scopes[t], l)
    case Pin(t, r, p) => PinEnabled(s, t, r, p)
    case Unpin(p) => p < |s.pinSlots| && s.pinSlots[p].Some? && PinMutexFree(s)
    case Publish(p) => PublishEnabled(s, p)
    case Collect(c) => CollectEnabled(s, c)
  }

  ghost function Apply(s: State, a: Action): State
    requires Enabled(s, a)
  {
    match a
    case Entry(t, e) => ApplyEntry(s, t, e)
    case Lookup(t, l) => ApplyLookup(s, t, l)
    case Pin(t, r, p) => ApplyPin(s, r, p)
    case Unpin(p) => ApplyUnpin(s, p)
    case Publish(p) => ApplyPublish(s, p)
    case Collect(c) => ApplyCollect(s, c)
  }

  ghost predicate Initial(s: State)
  {
    && s.epoch == 1 && s.writer.Idle? && !s.fault
    && (forall i :: 0 <= i < |s.readers| ==> s.readers[i].Vacant?)
    && (forall t :: 0 <= t < |s.scopes| ==> s.scopes[t].Outside?)
    && |s.cells| == 2 * |s.slots| + 1
    && (forall i :: 0 <= i < |s.slots| ==> s.slots[i].None?)
    && (forall c :: 0 <= c < |s.cells| ==> s.cells[c].Never?)
    && (forall p :: 0 <= p < |s.pinSlots| ==> s.pinSlots[p].None?)
    && s.place == map[] && s.removals == [] && s.heap == map[]
    && s.retired == [] && s.retiredAt == map[] && s.pinCount == map[]
  }

  // ---------------------------------------------------------------- invariant: records and the writer

  ghost predicate Unpublished(s: State, r: nat)
  {
    && (forall i :: 0 <= i < |s.slots| ==> s.slots[i] != Some(r))
    && (forall c :: 0 <= c < |s.cells| && s.cells[c].Holds? ==> s.cells[c].record != r)
  }

  /** A record between allocation and publication, or between replacement and retirement. */
  ghost predicate InFlight(s: State, r: nat)
  {
    match s.writer
    case Exchanging(_, next) => next == Some(r)
    case Indexing(_, prior, _) => prior == Some(r)
    case Retiring(prior) => prior == Some(r)
    case _ => false
  }

  /** Whatever a slot or an index cell exposes is allocated and not retired. */
  ghost predicate Exposure(s: State)
  {
    && (forall i :: 0 <= i < |s.slots| && s.slots[i].Some? ==>
          s.slots[i].value in s.heap && s.slots[i].value !in s.retiredAt && s.heap[s.slots[i].value].handle.slot == i)
    && (forall c :: 0 <= c < |s.cells| && s.cells[c].Holds? ==>
          s.cells[c].record in s.heap && s.cells[c].record !in s.retiredAt && s.heap[s.cells[c].record].key == s.cells[c].key)
  }

  /** The retired list has each retired record once. */
  ghost predicate Listed(retired: seq<nat>, retiredAt: map<nat, nat>)
  {
    && (forall r :: r in retiredAt ==> r in retired)
    && (forall j :: 0 <= j < |retired| ==> retired[j] in retiredAt)
    && (forall j, k :: 0 <= j < k < |retired| ==> retired[j] != retired[k])
  }

  lemma ListedPush(retired: seq<nat>, retiredAt: map<nat, nat>, r: nat, e: nat)
    requires Listed(retired, retiredAt) && r !in retiredAt
    ensures Listed([r] + retired, retiredAt[r := e])
  {
    var retired' := [r] + retired;
    forall q | q in retiredAt[r := e] ensures q in retired' {
      assert q == retired'[0] || q in retired'[1..];
    }
  }

  lemma StillListed(retired: seq<nat>, at: nat, q: nat)
    requires at < |retired| && q in retired && q != retired[at]
    ensures q in retired[..at] + retired[at + 1..]
  {
    var j :| 0 <= j < |retired| && retired[j] == q;
    assert (retired[..at] + retired[at + 1..])[if j < at then j else j - 1] == q;
  }

  lemma ListedRemove(retired: seq<nat>, retiredAt: map<nat, nat>, at: nat)
    requires Listed(retired, retiredAt) && at < |retired|
    ensures Listed(retired[..at] + retired[at + 1..], retiredAt - {retired[at]})
  {
    var retired' := retired[..at] + retired[at + 1..];
    forall q | q in retiredAt - {retired[at]} ensures q in retired' {
      StillListed(retired, at, q);
    }
    assert forall j :: 0 <= j < |retired'| ==> retired'[j] == retired[if j < at then j else j + 1];
  }

  /** Retired records are allocated, and were retired in an earlier epoch than the current
      one, except for the one just pushed. */
  ghost predicate Retirement(s: State)
  {
    && Listed(s.retired, s.retiredAt)
    && (forall r :: r in s.retiredAt ==> r in s.heap)
    && (forall r :: r in s.retiredAt ==> s.retiredAt[r] < s.epoch || (s.writer.Advancing? && s.retiredAt[r] == s.epoch))
  }

  ghost predicate WriterOk(s: State)
  {
    match s.writer
    case Exchanging(slot, next) =>
      && slot < |s.slots|
      && (next.Some? ==>
            && next.value in s.heap && next.value !in s.retiredAt && Unpublished(s, next.value)
            && s.heap[next.value].handle.slot == slot)
      && (if s.slots[slot].Some? then
            next.Some? && s.slots[slot].value in s.heap ==> s.heap[next.value].key == s.heap[s.slots[slot].value].key
          else
            next.Some? && s.heap[next.value].key !in s.place)
    case Indexing(slot, prior, next) =>
      && slot < |s.slots| && s.slots[slot] == next && (prior.Some? || next.Some?)
      && (prior.Some? ==>
            && prior.value in s.heap && prior.value !in s.retiredAt && s.heap[prior.value].handle.slot == slot
            && (forall i :: 0 <= i < |s.slots| ==> s.slots[i] != prior)
            && (next.Some? && next.value in s.heap ==> s.heap[next.value].key == s.heap[prior.value].key))
      && (next.Some? ==> forall c :: 0 <= c < |s.cells| && s.cells[c].Holds? ==> s.cells[c].record != next.value)
      && (prior.None? && next.value in s.heap ==> s.heap[next.value].key !in s.place)
    case Retiring(prior) =>
      prior.Some? ==> prior.value in s.heap && prior.value !in s.retiredAt && Unpublished(s, prior.value)
    case _ => true
  }

  /** The slots as the index shows them: the exchanged slot counts as not yet exchanged. */
  function Indexed(s: State): (slots: seq<Option<nat>>)
    ensures |slots| == |s.slots|
  {
    if s.writer.Indexing? && s.writer.slot < |s.slots| then s.slots[s.writer.slot := s.writer.prior] else s.slots
  }

  /** The index is a valid table, larger than the slot count, of exactly the indexed slots. */
  ghost predicate Table(s: State)
  {
    && |s.cells| == 2 * |s.slots| + 1
    && Valid(s.cells, s.place, s.hash)
    && (forall c :: 0 <= c < |s.cells| && s.cells[c].Holds? && s.cells[c].record in s.heap ==>
          var i := s.heap[s.cells[c].record].handle.slot;
          i < |s.slots| && Indexed(s)[i] == Some(s.cells[c].record))
    && (forall i :: 0 <= i < |s.slots| && Indexed(s)[i].Some? && Indexed(s)[i].value in s.heap ==>
          var k := s.heap[Indexed(s)[i].value].key;
          k in s.place && s.cells[s.place[k]].record == Indexed(s)[i].value)
  }

  /** No record is leaked: each is published, retired or in the writer's hands. */
  ghost predicate Accounted(s: State)
  {
    forall r :: r in s.heap ==>
      r in s.retiredAt || InFlight(s, r) ||
      (s.heap[r].handle.slot < |s.slots| && s.slots[s.heap[r].handle.slot] == Some(r))
  }

  ghost predicate Pinning(s: State)
  {
    && s.pinCount.Keys == s.heap.Keys
    && (forall p :: 0 <= p < |s.pinSlots| && s.pinSlots[p].Some? ==> s.pinSlots[p].value in s.heap)
    && (forall r :: r in s.pinCount ==> s.pinCount[r] == multiset(s.pinSlots)[Some(r)])
  }

  // ---------------------------------------------------------------- invariant: scopes

  predicate Owns(scope: Scope)
  {
    !scope.Outside? && !scope.Claiming?
  }

  /** The reader word of a scope says how far its entry has come. */
  ghost predicate WordOk(s: State, scope: Scope)
  {
    match scope
    case Outside => true
    case Claiming(i) => i < |s.readers|
    case Loading(i) => i < |s.readers| && s.readers[i] == Entering
    case Announcing(i, e) => i < |s.readers| && s.readers[i] == Entering && e <= s.epoch
    case Checking(i, e) => i < |s.readers| && s.readers[i] == At(e) && e <= s.epoch
    case Withdrawing(i) => i < |s.readers| && s.readers[i].At?
    case Active(i, e, _, _) => i < |s.readers| && s.readers[i] == At(e) && e <= s.epoch
  }

  ghost predicate Exclusive(s: State)
  {
    forall t, u :: 0 <= t < u < |s.scopes| && Owns(s.scopes[t]) && Owns(s.scopes[u]) ==>
      s.scopes[t].reader != s.scopes[u].reader
  }

  /** Everything an active scope has loaded is allocated and, if retired, was retired in or
      after the epoch the scope announced. */
  ghost predicate HoldsSafely(s: State, scope: Scope)
  {
    scope.Active? ==>
      && (forall r :: r in scope.held ==> r in s.heap && (r in s.retiredAt ==> s.retiredAt[r] >= scope.epoch))
      && (scope.op.Comparing? || scope.op.Resolving? ==> scope.op.loaded in scope.held)
  }

  predicate Covers(s: State, oldest: Option<nat>, e: nat)
  {
    (oldest.Some? && oldest.value <= e) || e == s.epoch
  }

  /** The collector's minimum covers the epoch of every scope it has scanned; a scope that began
      to enter later has loaded the current epoch. */
  ghost predicate Covered(s: State, scope: Scope)
  {
    scope.Announcing? || scope.Checking? || scope.Active? ==>
      match s.writer
      case Scanning(i, oldest, _) => scope.reader < i ==> Covers(s, oldest, scope.epoch)
      case Sweeping(oldest, _, _, _) => Covers(s, oldest, scope.epoch)
      case _ => true
  }

  /** The key was indexed when the lookup began and has not been removed since. */
  ghost predicate Steady(s: State, k: Key, since: nat, present: bool)
  {
    present && since <= |s.removals| && k !in s.removals[since..]
  }

  /** A steady key still lies ahead of the probes made. */
  ghost predicate FindOk(s: State, scope: Scope)
  {
    scope.Active? && |s.cells| > 0 ==>
      match scope.op
      case Probing(k, n, since, present) =>
        since <= |s.removals| && n <= |s.cells| &&
        (Steady(s, k, since, present) ==> Ahead(s, k, n))
      case Comparing(k, n, since, present, loaded) =>
        since <= |s.removals| && n < |s.cells| &&
        (Steady(s, k, since, present) ==>
           Ahead(s, k, n) && (loaded in s.heap && s.heap[loaded].key != k ==> Ahead(s, k, n + 1)))
      case _ => true
  }

  ghost predicate Ahead(s: State, k: Key, n: nat)
    requires |s.cells| > 0
  {
    k in s.place && s.place[k] < |s.cells| && ProbesTo(Home(s.hash, k, |s.cells|), s.place[k], |s.cells|) >= n
  }

  ghost predicate ScopeOk(s: State, scope: Scope)
  {
    WordOk(s, scope) && HoldsSafely(s, scope) && Covered(s, scope) && FindOk(s, scope)
  }

  ghost predicate Inv(s: State)
  {
    && Exposure(s) && Retirement(s) && WriterOk(s) && Table(s) && Accounted(s) && Pinning(s)
    && Exclusive(s) && !s.fault
    && (forall t :: 0 <= t < |s.scopes| ==> ScopeOk(s, s.scopes[t]))
  }

  lemma InitialInv(s: State)
    requires Initial(s)
    ensures Inv(s)
  {
  }

  // ---------------------------------------------------------------- scopes keep the invariant

  /** What does not concern scopes. */
  ghost predicate Publishing(s: State)
  {
    Exposure(s) && Retirement(s) && WriterOk(s) && Table(s) && Accounted(s)
  }

  lemma PublishingUnaffected(s: State, s': State)
    requires Publishing(s)
    requires s' == s.(scopes := s'.scopes, readers := s'.readers, pinSlots := s'.pinSlots, pinCount := s'.pinCount,
                      fault := s'.fault)
    ensures Publishing(s')
  {
    assert Indexed(s') == Indexed(s);
    assert forall r :: InFlight(s', r) == InFlight(s, r);
  }

  /** A scope only ever owns, and only ever writes, its own reader word or one it found vacant. */
  ghost predicate OwnWordOnly(before: Scope, after: Scope, readers: seq<Word>, readers': seq<Word>)
  {
    && |readers'| == |readers|
    && (Owns(after) ==>
          (Owns(before) && before.reader == after.reader) ||
          (after.reader < |readers| && readers[after.reader].Vacant?))
    && (forall i :: 0 <= i < |readers| && readers'[i] != readers[i] ==>
          (Owns(before) && before.reader == i) || readers[i].Vacant?)
  }

  function Moved(s: State, t: nat, scope: Scope, readers: seq<Word>): State
    requires t < |s.scopes|
  {
    s.(scopes := s.scopes[t := scope], readers := readers)
  }

  /** A scope that changes only its own reader word disturbs no other scope. */
  lemma ScopeMoves(s: State, t: nat, scope: Scope, readers: seq<Word>)
    requires Inv(s) && t < |s.scopes|
    requires ScopeOk(Moved(s, t, scope, readers), scope)
    requires OwnWordOnly(s.scopes[t], scope, s.readers, readers)
    ensures Inv(Moved(s, t, scope, readers))
  {
    var s' := Moved(s, t, scope, readers);
    PublishingUnaffected(s, s');
    forall u | 0 <= u < |s'.scopes| && u != t
      ensures ScopeOk(s', s'.scopes[u])
      ensures Owns(scope) && Owns(s.scopes[u]) ==> scope.reader != s.scopes[u].reader
    {
      OtherScopeUndisturbed(s, t, u, scope, readers);
    }
    assert ScopeOk(s', s'.scopes[t]);
  }

  lemma OtherScopeUndisturbed(s: State, t: nat, u: nat, scope: Scope, readers: seq<Word>)
    requires Exclusive(s) && t < |s.scopes| && u < |s.scopes| && t != u
    requires ScopeOk(s, s.scopes[u])
    requires OwnWordOnly(s.scopes[t], scope, s.readers, readers)
    ensures ScopeOk(Moved(s, t, scope, readers), s.scopes[u])
    ensures Owns(scope) && Owns(s.scopes[u]) ==> scope.reader != s.scopes[u].reader
  {
    assert WordOk(Moved(s, t, scope, readers), s.scopes[u]);
  }

  lemma EntryScopeOk(s: State, t: nat, e: EntryStep)
    requires t < |s.scopes| && EntryEnabled(s.scopes[t], s.readers, e) && ScopeOk(s, s.scopes[t])
    ensures var next := EntryOf(s.scopes[t], s.readers, s.epoch, e);
      && ScopeOk(Moved(s, t, next.0, next.1), next.0)
      && OwnWordOnly(s.scopes[t], next.0, s.readers, next.1)
  {
  }

  lemma EntryStepKeepsInv(s: State, t: nat, e: EntryStep)
    requires Inv(s) && t < |s.scopes| && EntryEnabled(s.scopes[t], s.readers, e)
    ensures Inv(ApplyEntry(s, t, e))
  {
    EntryScopeOk(s, t, e);
    var next := EntryOf(s.scopes[t], s.readers, s.epoch, e);
    ScopeMoves(s, t, next.0, next.1);
  }

  /** Loading the next cell keeps a steady key ahead. */
  lemma LoadedScopeOk(s: State, scope: Scope, c: nat)
    requires Exposure(s) && Valid(s.cells, s.place, s.hash) && ScopeOk(s, scope)
    requires scope.Active? && scope.op.Probing? && scope.op.n < |s.cells|
    requires c == Wrap(Home(s.hash, scope.op.k, |s.cells|), scope.op.n, |s.cells|)
    ensures ScopeOk(s, Loaded(scope, s.cells[c]))
  {
    var Probing(k, n, since, present) := scope.op;
    if Steady(s, k, since, present) {
      NextProbe(s.cells, s.place, s.hash, k, n);
    }
  }

  lemma LookupScopeOk(s: State, scope: Scope, l: LookupStep)
    requires Exposure(s) && Valid(s.cells, s.place, s.hash) && LookupEnabled(s, scope, l) && ScopeOk(s, scope)
    ensures ScopeOk(s, LookupOf(s, scope, l))
    ensures Dereferences(scope, l).Some? ==> Dereferences(scope, l).value in s.heap
  {
    if l.FindLoad? && scope.op.n < |s.cells| {
      LoadedScopeOk(s, scope, Wrap(Home(s.hash, scope.op.k, |s.cells|), scope.op.n, |s.cells|));
    }
  }

  lemma LookupStepKeepsInv(s: State, t: nat, l: LookupStep)
    requires Inv(s) && t < |s.scopes| && LookupEnabled(s, s.scopes[t], l)
    ensures Inv(ApplyLookup(s, t, l))
  {
    assert ScopeOk(s, s.scopes[t]);
    LookupScopeOk(s, s.scopes[t], l);
    var scope := LookupOf(s, s.scopes[t], l);
    ScopesInvisible(s, scope, s.scopes[t := scope]);
    ScopeMoves(s, t, scope, s.readers);
    assert ApplyLookup(s, t, l) == Moved(s, t, scope, s.readers);
  }

  lemma ScopesInvisible(s: State, scope: Scope, scopes: seq<Scope>)
    requires ScopeOk(s, scope)
    ensures ScopeOk(s.(scopes := scopes), scope)
  {
  }

  // ---------------------------------------------------------------- pins keep the invariant

  /** Pins concern nothing but the pin counts. */
  lemma PinChanges(s: State, pinSlots: seq<Option<nat>>, pinCount: map<nat, nat>)
    requires Inv(s) && Pinning(s.(pinSlots := pinSlots, pinCount := pinCount))
    ensures Inv(s.(pinSlots := pinSlots, pinCount := pinCount))
  {
    var s' := s.(pinSlots := pinSlots, pinCount := pinCount);
    PublishingUnaffected(s, s');
    forall t | 0 <= t < |s'.scopes| ensures ScopeOk(s', s'.scopes[t]) {
      PinsInvisible(s, s.scopes[t], pinSlots, pinCount);
    }
  }

  lemma PinsInvisible(s: State, scope: Scope, pinSlots: seq<Option<nat>>, pinCount: map<nat, nat>)
    requires ScopeOk(s, scope)
    ensures ScopeOk(s.(pinSlots := pinSlots, pinCount := pinCount), scope)
  {
  }

  lemma PinKeepsPinning(s: State, r: nat, p: nat)
    requires Pinning(s) && p < |s.pinSlots| && s.pinSlots[p].None? && r in s.heap
    ensures Pinning(ApplyPin(s, r, p))
  {
  }

  lemma UnpinKeepsPinning(s: State, p: nat)
    requires Pinning(s) && p < |s.pinSlots| && s.pinSlots[p].Some?
    ensures Pinning(ApplyUnpin(s, p))
  {
  }

  lemma PinStepKeepsInv(s: State, t: nat, r: nat, p: nat)
    requires Inv(s) && PinEnabled(s, t, r, p)
    ensures Inv(ApplyPin(s, r, p))
  {
    HeldIsAllocated(s, t, r);
    PinKeepsPinning(s, r, p);
    var s' := ApplyPin(s, r, p);
    PinChanges(s, s'.pinSlots, s'.pinCount);
  }

  lemma UnpinStepKeepsInv(s: State, p: nat)
    requires Inv(s) && p < |s.pinSlots| && s.pinSlots[p].Some?
    ensures Inv(ApplyUnpin(s, p))
  {
    UnpinKeepsPinning(s, p);
    var s' := ApplyUnpin(s, p);
    PinChanges(s, s'.pinSlots, s'.pinCount);
  }

  lemma HeldIsAllocated(s: State, t: nat, r: nat)
    requires Inv(s) && t < |s.scopes| && s.scopes[t].Active? && r in s.scopes[t].held
    ensures r in s.heap
  {
    assert ScopeOk(s, s.scopes[t]);
  }

  // ---------------------------------------------------------------- the writer keeps the invariant

  lemma AllocateRecords(s: State, slot: nat, r: nat, record: Record)
    requires Exposure(s) && Retirement(s) && Accounted(s) && s.writer.Idle? && r !in s.heap
    ensures var s' := Allocate(s, slot, r, record); Exposure(s') && Retirement(s') && Accounted(s')
  {
  }

  lemma AllocateWriter(s: State, slot: nat, r: nat, record: Record)
    requires Exposure(s) && Retirement(s) && s.writer.Idle? && slot < |s.slots| && r !in s.heap && record.handle.slot == slot
    requires if s.slots[slot].Some? then record.key == s.heap[s.slots[slot].value].key else record.key !in s.place
    ensures WriterOk(Allocate(s, slot, r, record))
  {
  }

  lemma AllocateTable(s: State, slot: nat, r: nat, record: Record)
    requires Exposure(s) && Table(s) && s.writer.Idle? && r !in s.heap
    ensures Table(Allocate(s, slot, r, record))
  {
    var s' := Allocate(s, slot, r, record);
    assert Indexed(s') == Indexed(s) == s.slots;
  }

  lemma AllocatePinning(s: State, slot: nat, r: nat, record: Record)
    requires Pinning(s) && r !in s.heap
    ensures Pinning(Allocate(s, slot, r, record))
  {
    assert Some(r) !in s.pinSlots;
  }

  lemma AllocateScope(s: State, slot: nat, r: nat, record: Record, scope: Scope)
    requires s.writer.Idle? && r !in s.heap && ScopeOk(s, scope)
    ensures ScopeOk(Allocate(s, slot, r, record), scope)
  {
  }

  lemma BeginPublish(s: State, slot: nat, r: nat, record: Record)
    requires Inv(s) && s.writer.Idle? && slot < |s.slots| && r !in s.heap && record.handle.slot == slot
    requires if s.slots[slot].Some? then record.key == s.heap[s.slots[slot].value].key else record.key !in s.place
    ensures Inv(Allocate(s, slot, r, record))
  {
    AllocateRecords(s, slot, r, record);
    AllocateWriter(s, slot, r, record);
    AllocateTable(s, slot, r, record);
    AllocatePinning(s, slot, r, record);
    forall t | 0 <= t < |s.scopes| ensures ScopeOk(Allocate(s, slot, r, record), s.scopes[t]) {
      AllocateScope(s, slot, r, record, s.scopes[t]);
    }
  }

  /** Steps that change only what the writer is doing. */
  lemma WriterMoves(s: State, writer: Writer)
    requires Inv(s) && !s.writer.Indexing? && !writer.Indexing? && !s.writer.Advancing?
    requires WriterOk(s.(writer := writer))
    requires forall r :: InFlight(s, r) ==> InFlight(s.(writer := writer), r)
    requires forall t :: 0 <= t < |s.scopes| ==> Covered(s.(writer := writer), s.scopes[t])
    ensures Inv(s.(writer := writer))
  {
    hide ScopeOk, Covered, Table, Listed;
    var s' := s.(writer := writer);
    TableFollows(s, writer);
    forall t | 0 <= t < |s'.scopes| ensures ScopeOk(s', s'.scopes[t]) {
      ScopeFollows(s, writer, s.scopes[t]);
    }
  }

  lemma ScopeFollows(s: State, writer: Writer, scope: Scope)
    requires ScopeOk(s, scope) && Covered(s.(writer := writer), scope)
    ensures ScopeOk(s.(writer := writer), scope)
  {
    hide Covered;
  }

  lemma TableFollows(s: State, writer: Writer)
    requires Table(s) && !s.writer.Indexing? && !writer.Indexing?
    ensures Table(s.(writer := writer))
  {
    hide Valid;
    assert Indexed(s.(writer := writer)) == Indexed(s);
  }

  lemma ScanCovers(s: State, scope: Scope)
    requires s.writer.Scanning? && WordOk(s, scope) && Covered(s, scope)
    ensures Covered(s.(writer := AfterScan(s.writer, s.readers)), scope)
  {
  }

  lemma ExchangeStep(s: State)
    requires Inv(s) && s.writer.Exchanging? && s.writer.slot < |s.slots|
    ensures Inv(ApplyExchange(s))
  {
    hide Exposure, Retirement, WriterOk, Table, Accounted, ScopeOk;
    ExchangeRecords(s);
    ExchangeTable(s);
    forall t | 0 <= t < |s.scopes| ensures ScopeOk(ApplyExchange(s), s.scopes[t]) {
      ExchangeScope(s, s.scopes[t]);
    }
  }

  lemma ExchangeTable(s: State)
    requires Table(s) && s.writer.Exchanging? && s.writer.slot < |s.slots|
    ensures Table(ApplyExchange(s))
  {
    hide Valid;
    assert Indexed(ApplyExchange(s)) == Indexed(s) == s.slots;
  }

  lemma ExchangeRecords(s: State)
    requires Exposure(s) && Retirement(s) && WriterOk(s) && Accounted(s) && s.writer.Exchanging? && s.writer.slot < |s.slots|
    ensures var s' := ApplyExchange(s); Exposure(s') && Retirement(s') && WriterOk(s') && Accounted(s')
  {
  }

  lemma ExchangeScope(s: State, scope: Scope)
    requires s.writer.Exchanging? && s.writer.slot < |s.slots| && ScopeOk(s, scope)
    ensures ScopeOk(ApplyExchange(s), scope)
  {
  }

  /** The writer's key determines its cell: the prior record sits there, or the key is new. */
  lemma WriterCell(s: State)
    requires Exposure(s) && WriterOk(s) && Table(s) && s.writer.Indexing?
    ensures WriterKey(s).Some?
    ensures var k := WriterKey(s).value; var prior := s.writer.prior;
      && (prior.Some? ==> k in s.place && s.cells[s.place[k]] == Holds(prior.value, k) && s.heap[prior.value].key == k)
      && (prior.None? ==> k !in s.place)
      && (s.writer.next.Some? ==> s.writer.next.value in s.heap && s.heap[s.writer.next.value].key == k)
  {
    var Indexing(slot, prior, next) := s.writer;
    assert Indexed(s)[slot] == prior;
    if next.Some? {
      assert s.slots[slot] == next && next.value in s.heap;
    }
  }

  lemma UpdateIndexTable(s: State, c: nat)
    requires Exposure(s) && WriterOk(s) && Table(s) && CanUpdateIndex(s, c)
    ensures Table(ApplyUpdateIndex(s, c))
  {
    hide Valid, WriterOk;
    WriterCell(s);
    StoreUpdatesTable(s.cells, s.place, s.hash, WriterKey(s).value, s.writer.next, c);
    UpdatedCellsArePublished(s, c);
    UpdatedSlotsAreIndexed(s, c);
    assert Indexed(ApplyUpdateIndex(s, c)) == s.slots;
  }

  lemma UpdatedCellsArePublished(s: State, c: nat)
    requires Exposure(s) && WriterOk(s) && Table(s) && CanUpdateIndex(s, c)
    ensures var s' := ApplyUpdateIndex(s, c);
      forall d :: 0 <= d < |s'.cells| && s'.cells[d].Holds? && s'.cells[d].record in s'.heap ==>
        var i := s'.heap[s'.cells[d].record].handle.slot; i < |s.slots| && s.slots[i] == Some(s'.cells[d].record)
  {
    var s' := ApplyUpdateIndex(s, c);
    WriterCell(s);
    forall d | 0 <= d < |s'.cells| && s'.cells[d].Holds? && s'.cells[d].record in s'.heap
      ensures var i := s'.heap[s'.cells[d].record].handle.slot; i < |s.slots| && s.slots[i] == Some(s'.cells[d].record)
    {
      if d != c {
        var r := s.cells[d].record;
        assert Indexed(s)[s.heap[r].handle.slot] == Some(r);
      }
    }
  }

  lemma UpdatedSlotsAreIndexed(s: State, c: nat)
    requires Exposure(s) && WriterOk(s) && Table(s) && CanUpdateIndex(s, c)
    ensures var s' := ApplyUpdateIndex(s, c);
      forall i :: 0 <= i < |s.slots| && s.slots[i].Some? && s.slots[i].value in s'.heap ==>
        var j := s'.heap[s.slots[i].value].key; j in s'.place && s'.place[j] < |s'.cells| && s'.cells[s'.place[j]] == Holds(s.slots[i].value, j)
  {
    var s' := ApplyUpdateIndex(s, c);
    var Indexing(slot, prior, next) := s.writer;
    WriterCell(s);
    StoreUpdatesTable(s.cells, s.place, s.hash, WriterKey(s).value, next, c);
    forall i | 0 <= i < |s.slots| && s.slots[i].Some? && s.slots[i].value in s'.heap
      ensures var j := s'.heap[s.slots[i].value].key;
        j in s'.place && s'.place[j] < |s'.cells| && s'.cells[s'.place[j]] == Holds(s.slots[i].value, j)
    {
      if i != slot {
        assert Indexed(s)[i] == s.slots[i];
        assert prior.Some? ==> s.heap[prior.value].handle.slot == slot;
        assert s.heap[s.slots[i].value].key != WriterKey(s).value;
      }
    }
  }

  lemma UpdateIndexRecords(s: State, c: nat)
    requires Exposure(s) && Retirement(s) && WriterOk(s) && Table(s) && Accounted(s) && CanUpdateIndex(s, c)
    ensures var s' := ApplyUpdateIndex(s, c); Exposure(s') && Retirement(s') && WriterOk(s') && Accounted(s')
  {
    hide Exposure, WriterOk, Table, Listed;
    UpdateIndexExposure(s, c);
    UpdateIndexWriter(s, c);
  }

  lemma UpdateIndexExposure(s: State, c: nat)
    requires Exposure(s) && WriterOk(s) && Table(s) && CanUpdateIndex(s, c)
    ensures Exposure(ApplyUpdateIndex(s, c))
  {
    hide Table;
    WriterCell(s);
  }

  /** The index names the prior record no more. */
  lemma UpdateIndexWriter(s: State, c: nat)
    requires Exposure(s) && WriterOk(s) && Table(s) && CanUpdateIndex(s, c)
    ensures WriterOk(ApplyUpdateIndex(s, c))
  {
    WriterCell(s);
  }

  lemma UpdateIndexScope(s: State, c: nat, scope: Scope)
    requires Exposure(s) && WriterOk(s) && Table(s) && CanUpdateIndex(s, c) && ScopeOk(s, scope)
    ensures ScopeOk(ApplyUpdateIndex(s, c), scope)
  {
    var s' := ApplyUpdateIndex(s, c);
    if scope.Active? && (scope.op.Probing? || scope.op.Comparing?) {
      var j, since, present := scope.op.k, scope.op.since, scope.op.present;
      if Steady(s', j, since, present) {
        SteadyKeyStays(s, c, j, since, present);
        assert s.place[j] == s'.place[j];
      }
    }
  }

  /** A store of the writer leaves every steady key in its cell. */
  lemma SteadyKeyStays(s: State, c: nat, j: Key, since: nat, present: bool)
    requires Table(s) && CanUpdateIndex(s, c) && since <= |s.removals|
    requires Steady(ApplyUpdateIndex(s, c), j, since, present)
    ensures Steady(s, j, since, present)
    ensures j in s.place ==> j in ApplyUpdateIndex(s, c).place && ApplyUpdateIndex(s, c).place[j] == s.place[j]
  {
    var s' := ApplyUpdateIndex(s, c);
    var k := WriterKey(s).value;
    if s.writer.next.None? {
      assert s'.removals[since..] == s.removals[since..] + [k];
      assert k in s'.removals[since..];
    }
  }

  lemma UpdateIndexStep(s: State, c: nat)
    requires Inv(s) && CanUpdateIndex(s, c)
    ensures Inv(ApplyUpdateIndex(s, c))
  {
    UpdateIndexTable(s, c);
    UpdateIndexRecords(s, c);
    forall t | 0 <= t < |s.scopes| ensures ScopeOk(ApplyUpdateIndex(s, c), s.scopes[t]) {
      UpdateIndexScope(s, c, s.scopes[t]);
    }
  }

  lemma PushRetiredExposure(s: State)
    requires Exposure(s) && WriterOk(s) && s.writer.Retiring?
    ensures Exposure(ApplyPushRetired(s))
  {
  }

  lemma PushRetiredTable(s: State)
    requires Table(s) && s.writer.Retiring?
    ensures Table(ApplyPushRetired(s))
  {
    hide Valid;
    assert Indexed(ApplyPushRetired(s)) == Indexed(s) == s.slots;
  }

  lemma PushRetiredRecords(s: State)
    requires Exposure(s) && Retirement(s) && WriterOk(s) && Table(s) && Accounted(s) && s.writer.Retiring?
    ensures var s' := ApplyPushRetired(s);
      Exposure(s') && Retirement(s') && WriterOk(s') && Table(s') && Accounted(s')
  {
    hide Exposure, Table, Listed;
    PushRetiredExposure(s);
    PushRetiredTable(s);
    if s.writer.prior.Some? {
      ListedPush(s.retired, s.retiredAt, s.writer.prior.value, s.epoch);
    }
  }

  lemma PushRetiredStep(s: State)
    requires Inv(s) && s.writer.Retiring?
    ensures Inv(ApplyPushRetired(s))
  {
    PushRetiredRecords(s);
    forall t | 0 <= t < |s.scopes| ensures ScopeOk(ApplyPushRetired(s), s.scopes[t]) {
      PushRetiredScope(s, s.scopes[t]);
    }
  }

  lemma PushRetiredScope(s: State, scope: Scope)
    requires s.writer.Retiring? && ScopeOk(s, scope)
    ensures ScopeOk(ApplyPushRetired(s), scope)
  {
    hide FindOk;
    PushRetiredFind(s, scope);
  }

  lemma PushRetiredFind(s: State, scope: Scope)
    requires s.writer.Retiring? && FindOk(s, scope)
    ensures FindOk(ApplyPushRetired(s), scope)
  {
    hide Home;
  }

  lemma AdvanceRecords(s: State)
    requires Exposure(s) && Retirement(s) && Table(s) && Accounted(s) && s.writer.Advancing?
    ensures var s' := ApplyAdvance(s); Exposure(s') && Retirement(s') && WriterOk(s') && Table(s') && Accounted(s')
  {
    assert Indexed(ApplyAdvance(s)) == Indexed(s) == s.slots;
  }

  lemma AdvanceStep(s: State)
    requires Inv(s) && s.writer.Advancing?
    ensures Inv(ApplyAdvance(s))
  {
    AdvanceRecords(s);
    forall t | 0 <= t < |s.scopes| ensures ScopeOk(ApplyAdvance(s), s.scopes[t]) {
      AdvanceScope(s, s.scopes[t]);
    }
  }

  lemma AdvanceScope(s: State, scope: Scope)
    requires s.writer.Advancing? && ScopeOk(s, scope)
    ensures ScopeOk(ApplyAdvance(s), scope)
  {
  }

  // ---------------------------------------------------------------- the collector

  /** Whatever the sweep frees is out of every slot, cell, pin and active scope. */
  lemma FreedIsUnreferenced(s: State, r: nat)
    requires Inv(s) && Frees(s, r)
    ensures r in s.heap && r in s.retiredAt && Unpublished(s, r)
    ensures forall p :: 0 <= p < |s.pinSlots| ==> s.pinSlots[p] != Some(r)
    ensures forall t :: 0 <= t < |s.scopes| && s.scopes[t].Active? ==> r !in s.scopes[t].held
  {
    assert multiset(s.pinSlots)[Some(r)] == 0;
    forall p | 0 <= p < |s.pinSlots| ensures s.pinSlots[p] != Some(r) {
      assert s.pinSlots[p] in multiset(s.pinSlots);
    }
    forall t | 0 <= t < |s.scopes| && s.scopes[t].Active? ensures r !in s.scopes[t].held {
      assert ScopeOk(s, s.scopes[t]);
    }
  }

  lemma SweepScope(s: State, r: nat, scope: Scope)
    requires Frees(s, r) && r in s.retiredAt && ScopeOk(s, scope) && (scope.Active? ==> r !in scope.held)
    ensures ScopeOk(Free(s, r), scope)
  {
  }

  lemma SweepRecords(s: State, r: nat)
    requires Exposure(s) && Retirement(s) && Accounted(s) && Frees(s, r)
    ensures var s' := Free(s, r); Exposure(s') && Retirement(s') && WriterOk(s') && Accounted(s')
  {
    ListedRemove(s.retired, s.retiredAt, s.writer.at);
  }

  lemma SweepTable(s: State, r: nat)
    requires Exposure(s) && Table(s) && Pinning(s) && Frees(s, r) && r in s.retiredAt
    requires forall p :: 0 <= p < |s.pinSlots| ==> s.pinSlots[p] != Some(r)
    ensures Table(Free(s, r)) && Pinning(Free(s, r))
  {
    assert Indexed(Free(s, r)) == Indexed(s) == s.slots;
  }

  lemma SweepFrees(s: State, r: nat)
    requires Inv(s) && Frees(s, r)
    ensures Inv(Free(s, r))
  {
    FreedIsUnreferenced(s, r);
    SweepRecords(s, r);
    SweepTable(s, r);
    forall t | 0 <= t < |s.scopes| ensures ScopeOk(Free(s, r), s.scopes[t]) {
      SweepScope(s, r, s.scopes[t]);
    }
  }

  lemma CollectStepKeepsInv(s: State, c: CollectStep)
    requires Inv(s) && CollectEnabled(s, c)
    ensures Inv(ApplyCollect(s, c))
  {
    hide Inv, Covered;
    if c.Sweep? && s.writer.at < |s.retired| && Frees(s, s.retired[s.writer.at]) {
      SweepFrees(s, s.retired[s.writer.at]);
    } else {
      CollectCovers(s, c);
      WriterMoves(s, ApplyCollect(s, c).writer);
    }
  }

  lemma CollectCovers(s: State, c: CollectStep)
    requires Inv(s) && CollectEnabled(s, c)
    ensures forall t :: 0 <= t < |s.scopes| ==> Covered(s.(writer := ApplyCollect(s, c).writer), s.scopes[t])
  {
    hide Exposure, WriterOk, Table, Accounted, Pinning, Exclusive, HoldsSafely, FindOk;
    forall t | 0 <= t < |s.scopes| ensures Covered(s.(writer := ApplyCollect(s, c).writer), s.scopes[t]) {
      assert ScopeOk(s, s.scopes[t]);
      if c.Scan? {
        ScanCovers(s, s.scopes[t]);
      }
    }
  }

  lemma BeginReplaceStep(s: State, slot: nat, r: nat)
    requires Inv(s) && s.writer.Idle? && slot < |s.slots| && s.slots[slot].Some? && s.slots[slot].value in s.heap && r !in s.heap
    ensures Inv(Allocate(s, slot, r, s.heap[s.slots[slot].value]))
  {
    hide Table, Accounted, Pinning, Exclusive, ScopeOk;
    BeginPublish(s, slot, r, s.heap[s.slots[slot].value]);
  }

  lemma BeginRetireStep(s: State, slot: nat)
    requires Inv(s) && s.writer.Idle? && slot < |s.slots| && s.slots[slot].Some?
    ensures Inv(s.(writer := Exchanging(slot, None)))
  {
    WriterMoves(s, Exchanging(slot, None));
  }

  lemma PublishStepKeepsInv(s: State, p: PublishStep)
    requires Inv(s) && PublishEnabled(s, p)
    ensures Inv(ApplyPublish(s, p))
  {
    hide Inv;
    match p
    case BeginReplace(slot, r) => BeginReplaceStep(s, slot, r);
    case BeginInsert(slot, r, k, h) => BeginPublish(s, slot, r, Record(k, h));
    case BeginRetire(slot) => BeginRetireStep(s, slot);
    case Exchange => ExchangeStep(s);
    case UpdateIndex(c) => UpdateIndexStep(s, c);
    case PushRetired => PushRetiredStep(s);
    case Advance => AdvanceStep(s);
  }

  lemma StepKeepsInv(s: State, a: Action)
    requires Inv(s) && Enabled(s, a)
    ensures Inv(Apply(s, a))
  {
    match a
    case Entry(t, e) => EntryStepKeepsInv(s, t, e);
    case Lookup(t, l) => LookupStepKeepsInv(s, t, l);
    case Pin(t, r, p) => PinStepKeepsInv(s, t, r, p);
    case Unpin(p) => UnpinStepKeepsInv(s, p);
    case Publish(p) => PublishStepKeepsInv(s, p);
    case Collect(c) => CollectStepKeepsInv(s, c);
  }

  // ---------------------------------------------------------------- what every interleaving guarantees

  ghost predicate Legal(s: State, run: seq<Action>)
    decreases |run|
  {
    run == [] || (Enabled(s, run[0]) && Legal(Apply(s, run[0]), run[1..]))
  }

  /** The state at the end of an interleaving. */
  ghost function After(s: State, run: seq<Action>): State
    requires Legal(s, run)
    decreases |run|
  {
    if run == [] then s else After(Apply(s, run[0]), run[1..])
  }

  lemma {:induction false} RunKeepsInv(s: State, run: seq<Action>)
    requires Inv(s) && Legal(s, run)
    ensures Inv(After(s, run))
    decreases |run|
  {
    if run != [] {
      StepKeepsInv(s, run[0]);
      RunKeepsInv(Apply(s, run[0]), run[1..]);
    }
  }

  /** No interleaving ever reads through a freed address: what an active scope has loaded
      and what a pin names is allocated. */
  lemma NothingFreedIsRead(s0: State, run: seq<Action>)
    requires Initial(s0) && Legal(s0, run)
    ensures var s := After(s0, run);
      && !s.fault
      && (forall t, r :: 0 <= t < |s.scopes| && s.scopes[t].Active? && r in s.scopes[t].held ==> r in s.heap)
      && (forall t :: 0 <= t < |s.scopes| && s.scopes[t].Active? && (s.scopes[t].op.Comparing? || s.scopes[t].op.Resolving?) ==>
            s.scopes[t].op.loaded in s.heap)
      && (forall p :: 0 <= p < |s.pinSlots| && s.pinSlots[p].Some? ==> s.pinSlots[p].value in s.heap)
  {
    InitialInv(s0);
    RunKeepsInv(s0, run);
    var s := After(s0, run);
    forall t, r | 0 <= t < |s.scopes| && s.scopes[t].Active? && r in s.scopes[t].held ensures r in s.heap {
      assert ScopeOk(s, s.scopes[t]);
    }
  }

  // ---------------------------------------------------------------- without the recheck

  /** A step of the machine, or a scope that becomes active without looking at the epoch again. */
  datatype Unchecked = Usual(action: Action) | Trusting(t: nat)

  ghost predicate UncheckedEnabled(s: State, a: Unchecked)
  {
    match a
    case Usual(action) => Enabled(s, action)
    case Trusting(t) => t < |s.scopes| && s.scopes[t].Checking?
  }

  ghost function UncheckedApply(s: State, a: Unchecked): State
    requires UncheckedEnabled(s, a)
  {
    match a
    case Usual(action) => Apply(s, action)
    case Trusting(t) => s.(scopes := s.scopes[t := Active(s.scopes[t].reader, s.scopes[t].epoch, {}, NoOp(Nothing))])
  }

  ghost predicate UncheckedLegal(s: State, run: seq<Unchecked>)
    decreases |run|
  {
    run == [] || (UncheckedEnabled(s, run[0]) && UncheckedLegal(UncheckedApply(s, run[0]), run[1..]))
  }

  ghost function UncheckedAfter(s: State, run: seq<Unchecked>): State
    requires UncheckedLegal(s, run)
    decreases |run|
  {
    if run == [] then s else UncheckedAfter(UncheckedApply(s, run[0]), run[1..])
  }

  /** The epoch a scope has announced protects it whether or not it is still the current one: a
      collector that has not seen the announcement has seen the entry, or has the epoch to itself. */
  lemma TrustingKeepsInv(s: State, t: nat)
    requires Inv(s) && t < |s.scopes| && s.scopes[t].Checking?
    ensures Inv(UncheckedApply(s, Trusting(t)))
  {
    var scope := Active(s.scopes[t].reader, s.scopes[t].epoch, {}, NoOp(Nothing));
    assert ScopeOk(s, s.scopes[t]);
    assert ScopeOk(Moved(s, t, scope, s.readers), scope);
    ScopeMoves(s, t, scope, s.readers);
  }

  lemma {:induction false} UncheckedRunKeepsInv(s: State, run: seq<Unchecked>)
    requires Inv(s) && UncheckedLegal(s, run)
    ensures Inv(UncheckedAfter(s, run))
    decreases |run|
  {
    hide Inv, Apply, Enabled;
    if run != [] {
      match run[0] {
        case Usual(action) => StepKeepsInv(s, action);
        case Trusting(t) => TrustingKeepsInv(s, t);
      }
      UncheckedRunKeepsInv(UncheckedApply(s, run[0]), run[1..]);
    }
  }

  /** Readers are as safe when scopes enter without the recheck, in any mixture of the two. */
  lemma NothingFreedIsReadUnchecked(s0: State, run: seq<Unchecked>)
    requires Initial(s0) && UncheckedLegal(s0, run)
    ensures var s := UncheckedAfter(s0, run);
      && !s.fault
      && (forall t, r :: 0 <= t < |s.scopes| && s.scopes[t].Active? && r in s.scopes[t].held ==> r in s.heap)
      && (forall t :: 0 <= t < |s.scopes| && s.scopes[t].Active? && (s.scopes[t].op.Comparing? || s.scopes[t].op.Resolving?) ==>
            s.scopes[t].op.loaded in s.heap)
      && (forall p :: 0 <= p < |s.pinSlots| && s.pinSlots[p].Some? ==> s.pinSlots[p].value in s.heap)
  {
    InitialInv(s0);
    UncheckedRunKeepsInv(s0, run);
    var s := UncheckedAfter(s0, run);
    forall t, r | 0 <= t < |s.scopes| && s.scopes[t].Active? && r in s.scopes[t].held ensures r in s.heap {
      assert ScopeOk(s, s.scopes[t]);
    }
  }

  /** Only leaving the scope gives up what it holds. */
  lemma LookupKeepsHeld(s: State, scope: Scope, l: LookupStep)
    requires LookupEnabled(s, scope, l)
    ensures LookupOf(s, scope, l).Active? && scope.held <= LookupOf(s, scope, l).held
  {
  }

  lemma ApplyKeepsHeld(s: State, a: Action, t: nat)
    requires Enabled(s, a) && a != Entry(t, Leave) && t < |s.scopes| && s.scopes[t].Active?
    ensures var s' := Apply(s, a); t < |s'.scopes| && s'.scopes[t].Active? && s.scopes[t].held <= s'.scopes[t].held
  {
    if a.Lookup? {
      LookupKeepsHeld(s, s.scopes[a.t], a.lookup);
    }
  }

  lemma HeldIsNotFreed(s: State, t: nat, r: nat)
    requires Inv(s) && t < |s.scopes| && s.scopes[t].Active? && r in s.scopes[t].held
    ensures r in s.heap && !Frees(s, r)
  {
    HeldIsAllocated(s, t, r);
    if Frees(s, r) {
      FreedIsUnreferenced(s, r);
    }
  }

  /** A retired record that a scope still holds was retired in or after an epoch that a reader announces. */
  lemma HeldIsAnnounced(s: State, t: nat, r: nat)
    requires Inv(s) && t < |s.scopes| && s.scopes[t].Active? && r in s.scopes[t].held && r in s.retiredAt
    ensures exists i :: 0 <= i < |s.readers| && s.readers[i].At? && s.readers[i].epoch <= s.retiredAt[r]
  {
    hide Exposure, Retirement, WriterOk, Table, Accounted, Pinning, Exclusive, FindOk, Covered;
    assert ScopeOk(s, s.scopes[t]);
    assert s.readers[s.scopes[t].reader] == At(s.scopes[t].epoch);
  }

  lemma PinnedIsNotFreed(s: State, p: nat, r: nat)
    requires Inv(s) && p < |s.pinSlots| && s.pinSlots[p] == Some(r)
    ensures r in s.heap && !Frees(s, r)
  {
    if Frees(s, r) {
      FreedIsUnreferenced(s, r);
    }
  }

  /** A record loaded by a scope stays allocated and unchanged, whatever the writer, the
      collector and the other scopes do, until that scope is left. */
  lemma {:induction false} HeldRecordSurvives(s: State, run: seq<Action>, t: nat, r: nat)
    requires Inv(s) && Legal(s, run) && Entry(t, Leave) !in run
    requires t < |s.scopes| && s.scopes[t].Active? && r in s.scopes[t].held
    ensures r in s.heap && r in After(s, run).heap && After(s, run).heap[r] == s.heap[r]
    decreases |run|
  {
    HeldIsNotFreed(s, t, r);
    if run != [] {
      StepKeepsInv(s, run[0]);
      ApplyKeepsHeld(s, run[0], t);
      HeldRecordSurvives(Apply(s, run[0]), run[1..], t, r);
    }
  }

  lemma PinSlotKept(s: State, a: Action, p: nat, r: nat)
    requires Enabled(s, a) && a != Unpin(p) && p < |s.pinSlots| && s.pinSlots[p] == Some(r) && !Frees(s, r) && r in s.heap
    ensures var s' := Apply(s, a);
      p < |s'.pinSlots| && s'.pinSlots[p] == Some(r) && r in s'.heap && s'.heap[r] == s.heap[r]
  {
  }

  /** A pinned record stays allocated and unchanged until that pin is released, even after
      the scope that pinned it has been left. */
  lemma {:induction false} PinnedRecordSurvives(s: State, run: seq<Action>, p: nat, r: nat)
    requires Inv(s) && Legal(s, run) && Unpin(p) !in run
    requires p < |s.pinSlots| && s.pinSlots[p] == Some(r)
    ensures r in s.heap && r in After(s, run).heap && After(s, run).heap[r] == s.heap[r]
    decreases |run|
  {
    PinnedIsNotFreed(s, p, r);
    if run != [] {
      StepKeepsInv(s, run[0]);
      PinSlotKept(s, run[0], p, r);
      PinnedRecordSurvives(Apply(s, run[0]), run[1..], p, r);
    }
  }

  // ---------------------------------------------------------------- lookups

  lemma StoreKeepsSteady(s: State, c: nat, k: Key, since: nat, present: bool)
    requires Table(s) && CanUpdateIndex(s, c) && Steady(s, k, since, present) && k in ApplyUpdateIndex(s, c).place
    ensures Steady(ApplyUpdateIndex(s, c), k, since, present)
  {
    if s.writer.next.None? {
      assert (s.removals + [WriterKey(s).value])[since..] == s.removals[since..] + [WriterKey(s).value];
    }
  }

  /** A step that leaves the key indexed keeps a lookup of it steady. */
  lemma SteadyWhileIndexed(s: State, a: Action, k: Key, since: nat, present: bool)
    requires Table(s) && Enabled(s, a) && Steady(s, k, since, present) && k in Apply(s, a).place
    ensures Steady(Apply(s, a), k, since, present)
  {
    if a.Publish? && a.publish.UpdateIndex? {
      StoreKeepsSteady(s, a.publish.c, k, since, present);
    }
  }

  /** A steady lookup does not come back empty-handed. */
  lemma SteadyFindDoesNotMiss(s: State, t: nat)
    requires Inv(s) && t < |s.scopes| && LookupEnabled(s, s.scopes[t], FindLoad)
    requires var op := s.scopes[t].op; Steady(s, op.k, op.since, op.present)
    ensures !LookupOf(s, s.scopes[t], FindLoad).op.NoOp?
  {
    assert ScopeOk(s, s.scopes[t]);
    NextProbe(s.cells, s.place, s.hash, s.scopes[t].op.k, s.scopes[t].op.n);
  }

  ghost predicate IndexedThroughout(s: State, run: seq<Action>, k: Key)
    requires Legal(s, run)
    decreases |run|
  {
    k in s.place && (run == [] || IndexedThroughout(Apply(s, run[0]), run[1..], k))
  }

  /** The lookup of k that scope t is in the middle of ends, somewhere in the run, without reporting
      a record of it. */
  ghost predicate Misses(s: State, run: seq<Action>, t: nat, k: Key)
    requires Legal(s, run) && t < |s.scopes|
    decreases |run|
  {
    run != [] && |Apply(s, run[0]).scopes| == |s.scopes| &&
    var s' := Apply(s, run[0]);
    if s'.scopes[t].Active? && (s'.scopes[t].op.Probing? || s'.scopes[t].op.Comparing?) then Misses(s', run[1..], t, k)
    else !(s'.scopes[t].Active? && s'.scopes[t].op.NoOp? && s'.scopes[t].op.answer.Found? && s'.scopes[t].op.answer.k == k)
  }

  predicate LookingFor(s: State, t: nat, k: Key, since: nat, present: bool)
  {
    && t < |s.scopes| && s.scopes[t].Active?
    && (s.scopes[t].op.Probing? || s.scopes[t].op.Comparing?)
    && s.scopes[t].op.k == k && s.scopes[t].op.since == since && s.scopes[t].op.present == present
  }

  /** A steady lookup goes on until its key has been compared successfully. */
  lemma LookupContinues(s: State, a: Action, t: nat, k: Key, since: nat, present: bool)
    requires Inv(s) && Enabled(s, a) && LookingFor(s, t, k, since, present) && Steady(s, k, since, present)
    ensures LookingFor(Apply(s, a), t, k, since, present) ||
            (Apply(s, a).scopes[t].Active? && Apply(s, a).scopes[t].op.NoOp? && Apply(s, a).scopes[t].op.answer.Found?
              && Apply(s, a).scopes[t].op.answer.k == k)
  {
    hide Inv;
    if a == Lookup(t, FindLoad) {
      SteadyFindDoesNotMiss(s, t);
    }
  }

  lemma LookupStepWhileIndexed(s: State, a: Action, t: nat, k: Key, since: nat, present: bool)
    requires Inv(s) && Enabled(s, a) && LookingFor(s, t, k, since, present) && Steady(s, k, since, present)
    requires k in Apply(s, a).place
    ensures Inv(Apply(s, a)) && Steady(Apply(s, a), k, since, present)
    ensures LookingFor(Apply(s, a), t, k, since, present) ||
            (Apply(s, a).scopes[t].Active? && Apply(s, a).scopes[t].op.NoOp? && Apply(s, a).scopes[t].op.answer.Found?
              && Apply(s, a).scopes[t].op.answer.k == k)
  {
    StepKeepsInv(s, a);
    assert Table(s);
    hide Inv, Apply, Enabled, Steady, Table;
    SteadyWhileIndexed(s, a, k, since, present);
    LookupContinues(s, a, t, k, since, present);
  }

  /** A key that stays indexed throughout a lookup is found by it, however the writer
      replaces its record, reuses tombstones and removes other keys in the meantime. */
  lemma {:induction false} IndexedKeyIsFound(s: State, run: seq<Action>, t: nat, k: Key, since: nat, present: bool)
    requires Inv(s) && Legal(s, run) && LookingFor(s, t, k, since, present) && Steady(s, k, since, present)
    requires IndexedThroughout(s, run, k)
    ensures !Misses(s, run, t, k)
    decreases |run|
  {
    hide Inv, Apply, Enabled, Steady;
    if run != [] {
      var s' := Apply(s, run[0]);
      assert k in s'.place;
      LookupStepWhileIndexed(s, run[0], t, k, since, present);
      if LookingFor(s', t, k, since, present) {
        IndexedKeyIsFound(s', run[1..], t, k, since, present);
      }
    }
  }

  lemma BeginFindIsSteady(s: State, t: nat, k: Key)
    requires Inv(s) && Enabled(s, Lookup(t, BeginFind(k))) && k in s.place
    ensures var s' := Apply(s, Lookup(t, BeginFind(k)));
      Inv(s') && LookingFor(s', t, k, |s.removals|, true) && Steady(s', k, |s.removals|, true)
  {
    hide Inv;
    StepKeepsInv(s, Lookup(t, BeginFind(k)));
    assert s.removals[|s.removals|..] == [];
  }

  /** Whatever happened before and whatever happens during it, a lookup of a key that stays
      indexed from its first probe on does not miss. */
  lemma FindOfIndexedKeySucceeds(s0: State, before: seq<Action>, t: nat, k: Key, during: seq<Action>)
    requires Initial(s0) && Legal(s0, before)
    requires var s := After(s0, before);
      && Enabled(s, Lookup(t, BeginFind(k))) && k in s.place
      && Legal(Apply(s, Lookup(t, BeginFind(k))), during)
      && IndexedThroughout(Apply(s, Lookup(t, BeginFind(k))), during, k)
    ensures !Misses(Apply(After(s0, before), Lookup(t, BeginFind(k))), during, t, k)
  {
    InitialInv(s0);
    RunKeepsInv(s0, before);
    var s := After(s0, before);
    BeginFindIsSteady(s, t, k);
    hide Inv, Apply, Steady;
    IndexedKeyIsFound(Apply(s, Lookup(t, BeginFind(k))), during, t, k, |s.removals|, true);
  }

  /** A cell whose record turns out to carry the key was, when it was loaded, what the
      index said about that key. */
  lemma LoadedMatchIsIndexed(s: State, t: nat)
    requires Inv(s) && t < |s.scopes| && LookupEnabled(s, s.scopes[t], FindLoad)
    ensures var op := LookupOf(s, s.scopes[t], FindLoad).op;
      op.Comparing? && op.loaded in s.heap && s.heap[op.loaded].key == op.k ==>
        Placed(s.cells, s.place) && op.k in s.place && View(s.cells, s.place)[op.k] == op.loaded
  {
  }

  // ---------------------------------------------------------------- what a scope reports was so

  /** The index names a record of the key with this handle. */
  ghost predicate IndexedUnder(s: State, k: Key, h: Handle)
  {
    && k in s.place && s.place[k] < |s.cells| && s.cells[s.place[k]].Holds?
    && s.cells[s.place[k]].record in s.heap && s.heap[s.cells[s.place[k]].record] == Record(k, h)
  }

  /** The record published in the handle's slot has this handle. */
  ghost predicate PublishedUnder(s: State, h: Handle, r: nat)
  {
    h.slot < |s.slots| && s.slots[h.slot] == Some(r) && r in s.heap && s.heap[r].handle == h
  }

  /** An answer that was right in a state. */
  ghost predicate Right(s: State, answer: Answer)
  {
    match answer
    case Found(k, h) => IndexedUnder(s, k, h)
    case Resolved(h, r) => PublishedUnder(s, h, r)
    case Stale(h) => forall r :: !PublishedUnder(s, h, r)
    case _ => true
  }

  /** The answer an operation will give by what it has loaded. */
  function Coming(s: State, op: Op): Answer
  {
    match op
    case Comparing(k, _, _, _, r) => if r in s.heap && s.heap[r].key == k then Found(k, s.heap[r].handle) else Nothing
    case Resolving(h, r) => if r in s.heap && s.heap[r].handle == h then Resolved(h, r) else Stale(h)
    case NoOp(answer) => answer
    case Probing(_, _, _, _) => Nothing
  }

  predicate Begins(a: Action, t: nat)
  {
    a.Lookup? && a.t == t && (a.lookup.BeginFind? || a.lookup.ResolveLoad?)
  }

  predicate Loads(a: Action, t: nat)
  {
    a.Lookup? && a.t == t && (a.lookup.FindLoad? || a.lookup.ResolveLoad?)
  }

  /** Keys are answered by loads of index cells, handles by loads of slots. */
  predicate Fits(a: Action, answer: Answer)
  {
    a.Lookup? && match answer
                 case Found(_, _) => a.lookup.FindLoad?
                 case Resolved(h, _) => a.lookup == ResolveLoad(h)
                 case Stale(h) => a.lookup == ResolveLoad(h)
                 case _ => true
  }

  /** The answer was right when the i-th step of the run loaded it, and the scope has begun nothing since. */
  ghost predicate RightAt(s0: State, run: seq<Action>, t: nat, answer: Answer, i: nat)
  {
    && i < |run| && Loads(run[i], t) && Fits(run[i], answer) && (forall j :: i < j < |run| ==> !Begins(run[j], t))
    && Legal(s0, run[..i]) && Right(After(s0, run[..i]), answer)
  }

  lemma {:induction false} OneStepMore(s0: State, run: seq<Action>, a: Action)
    requires Legal(s0, run + [a])
    ensures Legal(s0, run) && Enabled(After(s0, run), a) && After(s0, run + [a]) == Apply(After(s0, run), a)
    decreases |run|
  {
    hide Enabled, Apply;
    if run == [] {
      assert (run + [a])[1..] == [];
    } else {
      assert (run + [a])[1..] == run[1..] + [a];
      OneStepMore(Apply(s0, run[0]), run[1..], a);
    }
  }

  /** What a load will lead to is right in the state it loads from. */
  lemma LoadIsRight(s: State, t: nat, l: LookupStep)
    requires Inv(s) && t < |s.scopes| && LookupEnabled(s, s.scopes[t], l) && (l.FindLoad? || l.ResolveLoad?)
    ensures var coming := Coming(s, LookupOf(s, s.scopes[t], l).op); Right(s, coming) && Fits(Lookup(t, l), coming)
  {
  }

  lemma OwnStepKeepsComing(s: State, t: nat, l: LookupStep)
    requires t < |s.scopes| && LookupEnabled(s, s.scopes[t], l) && !Loads(Lookup(t, l), t)
    ensures var coming := Coming(s, LookupOf(s, s.scopes[t], l).op);
      coming.Nothing? || (coming == Coming(s, s.scopes[t].op) && !Begins(Lookup(t, l), t))
  {
  }

  lemma OthersKeepScope(s: State, a: Action, t: nat)
    requires Enabled(s, a) && t < |s.scopes| == |Apply(s, a).scopes| && !(a.Lookup? && a.t == t) && Apply(s, a).scopes[t].Active?
    ensures Apply(s, a).scopes[t] == s.scopes[t] || Apply(s, a).scopes[t].op == NoOp(Nothing)
  {
    hide LookupOf, CanUpdateIndex, ApplyUpdateIndex;
  }

  lemma LoadedStays(s: State, a: Action, t: nat)
    requires Inv(s) && Enabled(s, a) && t < |s.scopes| && s.scopes[t].Active? && (s.scopes[t].op.Comparing? || s.scopes[t].op.Resolving?)
    ensures var r := s.scopes[t].op.loaded; r in s.heap && r in Apply(s, a).heap && Apply(s, a).heap[r] == s.heap[r]
  {
    assert ScopeOk(s, s.scopes[t]);
    HeldIsNotFreed(s, t, s.scopes[t].op.loaded);
    hide Inv, ScopeOk;
  }

  lemma OwnStepKept(s: State, a: Action, t: nat)
    requires Enabled(s, a) && a.Lookup? && a.t == t && !Loads(a, t)
    requires t < |s.scopes| == |Apply(s, a).scopes| && Apply(s, a).scopes[t].Active?
    ensures var coming := Coming(Apply(s, a), Apply(s, a).scopes[t].op);
      || coming.Nothing? || coming.NotFound?
      || (s.scopes[t].Active? && coming == Coming(s, s.scopes[t].op) && !Begins(a, t))
  {
    hide LookupOf;
    OwnStepKeepsComing(s, t, a.lookup);
  }

  lemma OthersStepKept(s: State, a: Action, t: nat)
    requires Inv(s) && Enabled(s, a) && !(a.Lookup? && a.t == t)
    requires t < |s.scopes| == |Apply(s, a).scopes| && Apply(s, a).scopes[t].Active?
    ensures var coming := Coming(Apply(s, a), Apply(s, a).scopes[t].op);
      || coming.Nothing? || coming.NotFound?
      || (s.scopes[t].Active? && coming == Coming(s, s.scopes[t].op) && !Begins(a, t))
  {
    hide Inv, Apply, Enabled;
    OthersKeepScope(s, a, t);
    if s.scopes[t].Active? && (s.scopes[t].op.Comparing? || s.scopes[t].op.Resolving?) {
      LoadedStays(s, a, t);
    }
  }

  /** Nothing but the scope's own loads changes what it is going to report. */
  lemma ComingKept(s: State, a: Action, t: nat)
    requires Inv(s) && Enabled(s, a) && !Loads(a, t) && t < |s.scopes| == |Apply(s, a).scopes| && Apply(s, a).scopes[t].Active?
    ensures var coming := Coming(Apply(s, a), Apply(s, a).scopes[t].op);
      || coming.Nothing? || coming.NotFound?
      || (s.scopes[t].Active? && coming == Coming(s, s.scopes[t].op) && !Begins(a, t))
  {
    hide *;
    if a.Lookup? && a.t == t {
      OwnStepKept(s, a, t);
    } else {
      OthersStepKept(s, a, t);
    }
  }

  lemma StaysActive(s: State, scope: Scope, l: LookupStep)
    requires LookupEnabled(s, scope, l)
    ensures LookupOf(s, scope, l).Active?
  {
  }

  lemma HeapTellsComing(s: State, s': State, op: Op)
    requires s'.heap == s.heap
    ensures Coming(s', op) == Coming(s, op)
  {
  }

  lemma LoadingIsRight(s: State, a: Action, t: nat)
    requires Inv(s) && Enabled(s, a) && Loads(a, t)
    ensures t < |Apply(s, a).scopes| == |s.scopes|
    ensures Apply(s, a).scopes[t].Active?
    ensures var coming := Coming(Apply(s, a), Apply(s, a).scopes[t].op); Right(s, coming) && Fits(a, coming)
  {
    hide Inv, Right, Fits, LookupOf, Coming, LookupEnabled;
    StaysActive(s, s.scopes[t], a.lookup);
    LoadIsRight(s, t, a.lookup);
    HeapTellsComing(s, Apply(s, a), Apply(s, a).scopes[t].op);
  }

  lemma ScopesStay(s: State, a: Action)
    requires Enabled(s, a)
    ensures |Apply(s, a).scopes| == |s.scopes|
  {
  }

  lemma StillRightAt(s0: State, run: seq<Action>, a: Action, t: nat, answer: Answer, i: nat)
    requires RightAt(s0, run, t, answer, i) && !Begins(a, t)
    ensures RightAt(s0, run + [a], t, answer, i)
  {
    assert (run + [a])[..i] == run[..i];
  }

  /** Whatever a scope reports, or is about to, was right at the moment it loaded it. */
  lemma {:induction false} AnswersComeRight(s0: State, run: seq<Action>, t: nat)
    requires Initial(s0) && Legal(s0, run) && t < |After(s0, run).scopes| && After(s0, run).scopes[t].Active?
    ensures var answer := Coming(After(s0, run), After(s0, run).scopes[t].op);
      answer.Nothing? || answer.NotFound? || exists i :: RightAt(s0, run, t, answer, i)
    decreases |run|
  {
    hide Inv, Enabled, Apply, Coming, Right, RightAt, Begins, Loads, Fits;
    if run != [] {
      var before, a := run[..|run| - 1], run[|run| - 1];
      assert run == before + [a];
      OneStepMore(s0, before, a);
      var s := After(s0, before);
      InitialInv(s0);
      RunKeepsInv(s0, before);
      ScopesStay(s, a);
      var answer := Coming(After(s0, run), After(s0, run).scopes[t].op);
      if Loads(a, t) {
        LoadingIsRight(s, a, t);
        assert run[..|before|] == before;
        JustLoaded(s0, run, t, answer);
      } else {
        ComingKept(s, a, t);
        if !answer.Nothing? && !answer.NotFound? {
          AnswersComeRight(s0, before, t);
          var i :| RightAt(s0, before, t, answer, i);
          StillRightAt(s0, before, a, t, answer, i);
        }
      }
    }
  }

  lemma JustLoaded(s0: State, run: seq<Action>, t: nat, answer: Answer)
    requires run != [] && Loads(run[|run| - 1], t) && Fits(run[|run| - 1], answer) && Legal(s0, run[..|run| - 1]) && Right(After(s0, run[..|run| - 1]), answer)
    ensures RightAt(s0, run, t, answer, |run| - 1)
  {
  }

  /** A record reported for a key was, at a moment within that lookup, the one the index named
      under it: its key is that key, and the handle reported is its own. */
  lemma FoundWasIndexed(s0: State, run: seq<Action>, t: nat, k: Key, h: Handle)
    requires Initial(s0) && Legal(s0, run) && t < |After(s0, run).scopes|
    requires After(s0, run).scopes[t].Active? && After(s0, run).scopes[t].op == NoOp(Found(k, h))
    ensures exists i :: 0 <= i < |run| && run[i] == Lookup(t, FindLoad) && (forall j :: i < j < |run| ==> !Begins(run[j], t))
                     && Legal(s0, run[..i]) && IndexedUnder(After(s0, run[..i]), k, h)
  {
    hide Initial, Enabled, Apply, IndexedUnder;
    AnswersComeRight(s0, run, t);
    var i :| RightAt(s0, run, t, Found(k, h), i);
  }

  /** So a key that is not indexed from the beginning of a lookup on is not found by it, whatever
      other keys share its probe path. */
  lemma AbsentKeyIsNotFound(s0: State, run: seq<Action>, t: nat, k: Key, h: Handle, b: nat)
    requires Initial(s0) && Legal(s0, run) && t < |After(s0, run).scopes| && After(s0, run).scopes[t].Active?
    requires b < |run| && run[b] == Lookup(t, BeginFind(k))
    requires forall i :: b < i < |run| && Legal(s0, run[..i]) ==> k !in After(s0, run[..i]).place
    ensures After(s0, run).scopes[t].op != NoOp(Found(k, h))
  {
    hide Initial, Enabled, Apply;
    if After(s0, run).scopes[t].op == NoOp(Found(k, h)) {
      FoundWasIndexed(s0, run, t, k, h);
    }
  }

  /** A handle that resolves named, at a moment within that call, the record published in its slot;
      one that is reported stale did not. */
  lemma ResolvedWasPublished(s0: State, run: seq<Action>, t: nat, h: Handle, r: nat)
    requires Initial(s0) && Legal(s0, run) && t < |After(s0, run).scopes| && After(s0, run).scopes[t].Active?
    requires After(s0, run).scopes[t].op in {NoOp(Resolved(h, r)), NoOp(Stale(h))}
    ensures exists i :: 0 <= i < |run| && run[i] == Lookup(t, ResolveLoad(h)) && (forall j :: i < j < |run| ==> !Begins(run[j], t))
                     && Legal(s0, run[..i])
                     && if After(s0, run).scopes[t].op.answer.Resolved? then PublishedUnder(After(s0, run[..i]), h, r)
                        else forall q :: !PublishedUnder(After(s0, run[..i]), h, q)
  {
    hide Initial, Enabled, Apply, PublishedUnder;
    AnswersComeRight(s0, run, t);
    var i :| RightAt(s0, run, t, After(s0, run).scopes[t].op.answer, i);
  }

  // ---------------------------------------------------------------- the writer's store always finds its cell

  ghost function SlotOf(s: State, k: Key): (i: nat)
    requires Exposure(s) && Table(s) && k in s.place
    ensures i < |s.slots|
  {
    s.heap[s.cells[s.place[k]].record].handle.slot
  }

  /** Distinct indexed keys sit in distinct slots. */
  lemma SlotDeterminesKey(s: State, j: Key, k: Key)
    requires Exposure(s) && Table(s) && j in s.place && k in s.place && SlotOf(s, j) == SlotOf(s, k)
    ensures j == k
  {
    var i := SlotOf(s, j);
    assert Indexed(s)[i] == Some(s.cells[s.place[j]].record) == Some(s.cells[s.place[k]].record);
  }

  lemma {:induction false} KeysBelowSlot(s: State, n: nat)
    requires Exposure(s) && Table(s) && n <= |s.slots|
    ensures |set k | k in s.place && SlotOf(s, k) < n| <= n
  {
    hide Exposure, Table, SlotOf;
    var keys := set k | k in s.place && SlotOf(s, k) < n;
    if n == 0 {
      assert keys == {};
    } else {
      KeysBelowSlot(s, n - 1);
      var fewer := set k | k in s.place && SlotOf(s, k) < n - 1;
      if k :| k in keys && SlotOf(s, k) == n - 1 {
        forall j | j in keys && j != k ensures j in fewer {
          if SlotOf(s, j) == n - 1 {
            SlotDeterminesKey(s, j, k);
          }
        }
        assert keys <= fewer + {k};
        CardinalityOfSubset(keys, fewer + {k});
      } else {
        assert keys <= fewer;
        CardinalityOfSubset(keys, fewer);
      }
    }
  }

  lemma {:induction false} CardinalityOfSubset<T>(small: set<T>, large: set<T>)
    requires small <= large
    ensures |small| <= |large|
  {
    if small != {} {
      var x :| x in small;
      CardinalityOfSubset(small - {x}, large - {x});
    }
  }

  /** However many keys have come and gone, the writer's next store has a cell to go to: the
      abort behind an exhausted table is never reached. */
  lemma WriterFindsCell(s: State)
    requires Inv(s) && s.writer.Indexing?
    ensures |s.place| <= |s.slots| < |s.cells|
    ensures exists c: nat :: CanUpdateIndex(s, c)
  {
    hide Exposure, Retirement, Pinning, Accounted, ScopeOk;
    WriterCell(s);
    KeysBelowSlot(s, |s.slots|);
    assert (set k | k in s.place && SlotOf(s, k) < |s.slots|) == s.place.Keys;
    var k := WriterKey(s).value;
    SuitableCellExists(s.cells, s.place, s.hash, k);
    var c: nat :| Suitable(s.cells, s.place, Home(s.hash, k, |s.cells|), k, c);
    assert CanUpdateIndex(s, c);
  }

  /** Between publications the index maps a key to exactly the record some slot publishes
      under that key. */
  lemma IndexAgreesWithSlots(s: State, k: Key, r: nat)
    requires Inv(s) && !s.writer.Indexing?
    ensures Placed(s.cells, s.place)
    ensures (k in s.place && View(s.cells, s.place)[k] == r) <==>
            (exists i :: 0 <= i < |s.slots| && s.slots[i] == Some(r) && r in s.heap && s.heap[r].key == k)
  {
    assert Indexed(s) == s.slots;
    if k in s.place && s.cells[s.place[k]].record == r {
      assert s.slots[s.heap[r].handle.slot] == Some(r);
    }
  }

  // ---------------------------------------------------------------- what the collector leaves behind

  /** Every entry of the retired list that the sweep has passed is protected. */
  ghost predicate SweptOk(s: State)
  {
    s.writer.Sweeping? ==>
      s.writer.at <= |s.retired| &&
      forall j :: 0 <= j < s.writer.at ==> Protected(s, s.retired[j], s.writer.oldest)
  }

  lemma FreeKeepsSwept(s: State, r: nat)
    requires Retirement(s) && SweptOk(s) && Frees(s, r)
    ensures SweptOk(Free(s, r))
  {
    var s' := Free(s, r);
    forall j | 0 <= j < s'.writer.at ensures Protected(s', s'.retired[j], s'.writer.oldest) {
      assert s'.retired[j] == s.retired[j] != r;
    }
  }

  lemma CollectKeepsSwept(s: State, c: CollectStep)
    requires Retirement(s) && SweptOk(s) && CollectEnabled(s, c)
    ensures SweptOk(ApplyCollect(s, c))
  {
    if c.Sweep? && s.writer.at < |s.retired| && Frees(s, s.retired[s.writer.at]) {
      FreeKeepsSwept(s, s.retired[s.writer.at]);
    }
  }

  lemma StepKeepsSwept(s: State, a: Action)
    requires Retirement(s) && Enabled(s, a) && SweptOk(s)
    ensures SweptOk(Apply(s, a))
  {
    match a
    case Collect(c) => CollectKeepsSwept(s, c);
    case Publish(p) => assert !ApplyPublish(s, p).writer.Sweeping?;
    case _ =>
  }

  lemma {:induction false} RunKeepsSwept(s: State, run: seq<Action>)
    requires Inv(s) && SweptOk(s) && Legal(s, run)
    ensures SweptOk(After(s, run))
    decreases |run|
  {
    if run != [] {
      StepKeepsInv(s, run[0]);
      StepKeepsSwept(s, run[0]);
      RunKeepsSwept(Apply(s, run[0]), run[1..]);
    }
  }

  /** A sweep that ends before its limit has freed every retired record except those that a
      pin holds or that were retired in or after the oldest epoch it saw announced. */
  lemma CompleteSweepLeavesProtected(s0: State, run: seq<Action>, r: nat)
    requires Initial(s0) && Legal(s0, run)
    requires var s := After(s0, run);
      s.writer.Sweeping? && s.writer.visited < s.writer.limit && ApplyCollect(s, Sweep).writer.Idle? && r in s.retiredAt
    ensures var s := After(s0, run);
      (r in s.pinCount && s.pinCount[r] > 0) || (s.writer.oldest.Some? && s.retiredAt[r] >= s.writer.oldest.value)
  {
    hide *;
    InitialInv(s0);
    InitialSwept(s0);
    RunKeepsInv(s0, run);
    RunKeepsSwept(s0, run);
    SweptIsProtected(After(s0, run), r);
  }

  lemma InitialSwept(s: State)
    requires Initial(s)
    ensures SweptOk(s)
  {
  }

  lemma SweptIsProtected(s: State, r: nat)
    requires Inv(s) && SweptOk(s) && s.writer.Sweeping? && s.writer.visited < s.writer.limit && r in s.retiredAt
    requires ApplyCollect(s, Sweep).writer.Idle?
    ensures (r in s.pinCount && s.pinCount[r] > 0) || (s.writer.oldest.Some? && s.retiredAt[r] >= s.writer.oldest.value)
  {
    hide Exposure, WriterOk, Table, Accounted, Pinning, Exclusive, ScopeOk;
    var j :| 0 <= j < |s.retired| && s.retired[j] == r;
    assert Protected(s, s.retired[j], s.writer.oldest);
  }

  /** The recheck on entry: a scope becomes active only with the current epoch, so it never
      holds back a record retired before it entered. */
  lemma EnteredScopeIsFresh(s: State, t: nat, r: nat)
    requires Inv(s) && t < |s.scopes| && EntryEnabled(s.scopes[t], s.readers, Check)
    requires EntryOf(s.scopes[t], s.readers, s.epoch, Check).0.Active?
    requires r in s.retiredAt && !s.writer.Advancing?
    ensures s.retiredAt[r] < EntryOf(s.scopes[t], s.readers, s.epoch, Check).0.epoch
  {
  }
}
