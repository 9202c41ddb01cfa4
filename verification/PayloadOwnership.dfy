/** Whose the chunk records are: each belongs to the slot that publishes it or waits, once, on the list
    of retired ones until it is freed. */
module PayloadOwnership {
  import opened ChunkAccounts
  import opened ChunkAdoption
  import opened Wrappers

  /** A record that is published no more, and the epoch in which it was retired. */
  datatype Retiree = Retiree(record: Record, epoch: nat)

  function Is(payload: Option<Record>, x: Record): (n: nat)
  {
    if payload == Some(x) then 1 else 0
  }

  /** How many slots publish the record. */
  function Shown(payloads: seq<Option<Record>>, x: Record): (n: nat)
  {
    if payloads == [] then 0 else Is(payloads[0], x) + Shown(payloads[1..], x)
  }

  /** How often it waits to be freed. */
  function Waiting(retired: seq<Retiree>, x: Record): (n: nat)
  {
    if retired == [] then 0 else Is(Some(retired[0].record), x) + Waiting(retired[1..], x)
  }

  /** Every record is published by one slot or waits on the list, and nothing else is. Records with
      the same contents are as many as there are such places. */
  ghost predicate Owned(records: seq<Record>, payloads: seq<Option<Record>>, retired: seq<Retiree>)
  {
    forall x :: multiset(records)[x] == Shown(payloads, x) + Waiting(retired, x)
  }

  /** The latest comes first, and no two were retired in the same epoch. */
  ghost predicate LatestLeads(retired: seq<Retiree>, epoch: nat)
  {
    && (forall k :: 0 <= k < |retired| ==> retired[k].epoch < epoch)
    && (forall j, k :: 0 <= j < k < |retired| ==> retired[k].epoch < retired[j].epoch)
  }

  lemma {:induction false} ShownChange(payloads: seq<Option<Record>>, s: nat, p: Option<Record>, x: Record)
    requires s < |payloads|
    ensures Shown(payloads[s := p], x) + Is(payloads[s], x) == Shown(payloads, x) + Is(p, x)
    ensures Shown(payloads, x) >= Is(payloads[s], x)
  {
    hide Is;
    if s > 0 {
      ShownChange(payloads[1..], s - 1, p, x);
      assert payloads[s := p][1..] == payloads[1..][s - 1 := p];
    } else {
      assert payloads[s := p][1..] == payloads[1..];
    }
  }

  lemma {:induction false} WaitingWithout(retired: seq<Retiree>, k: nat, x: Record)
    requires k < |retired|
    ensures Waiting(retired, x) == Is(Some(retired[k].record), x) + Waiting(retired[..k] + retired[k + 1..], x)
  {
    hide Is;
    if k > 0 {
      WaitingWithout(retired[1..], k - 1, x);
      RestWithout(retired, k);
    } else {
      assert retired[..0] + retired[1..] == retired[1..];
    }
  }

  /** The retired list after a slot has changed. */
  ghost function Retired(payload: Option<Record>, retired: seq<Retiree>, epoch: nat): (retired': seq<Retiree>)
  {
    if payload.Some? then [Retiree(payload.value, epoch)] + retired else retired
  }

  lemma RetiredIsWaiting(payload: Option<Record>, retired: seq<Retiree>, epoch: nat, x: Record)
    ensures Waiting(Retired(payload, retired, epoch), x) == Is(payload, x) + Waiting(retired, x)
  {
    if payload.Some? {
      assert Retired(payload, retired, epoch)[1..] == retired;
    }
  }

  lemma RetiringKeepsOrder(payload: Option<Record>, retired: seq<Retiree>, epoch: nat)
    requires LatestLeads(retired, epoch)
    ensures LatestLeads(Retired(payload, retired, epoch), epoch + 1)
  {
  }

  lemma FreeingKeepsOrder(retired: seq<Retiree>, k: nat, epoch: nat)
    requires LatestLeads(retired, epoch) && k < |retired|
    ensures LatestLeads(retired[..k] + retired[k + 1..], epoch)
  {
    var left := retired[..k] + retired[k + 1..];
    assert forall j :: 0 <= j < |left| ==> left[j] == retired[if j < k then j else j + 1];
  }

  /** A slot publishes a new record; what it published before is retired. */
  lemma ReplacingKeepsOwned(records: seq<Record>, payloads: seq<Option<Record>>, retired: seq<Retiree>, s: nat, record: Record, epoch: nat)
    requires Owned(records, payloads, retired) && s < |payloads|
    ensures Owned(records + [record], payloads[s := Some(record)], Retired(payloads[s], retired, epoch))
  {
    hide Shown, Waiting, Retired;
    forall x ensures multiset(records + [record])[x]
      == Shown(payloads[s := Some(record)], x) + Waiting(Retired(payloads[s], retired, epoch), x)
    {
      ShownChange(payloads, s, Some(record), x);
      RetiredIsWaiting(payloads[s], retired, epoch, x);
    }
  }

  /** A slot publishes nothing any more. */
  lemma WithdrawingKeepsOwned(records: seq<Record>, payloads: seq<Option<Record>>, retired: seq<Retiree>, s: nat, epoch: nat)
    requires Owned(records, payloads, retired) && s < |payloads|
    ensures Owned(records, payloads[s := None], Retired(payloads[s], retired, epoch))
  {
    hide Shown, Waiting, Retired;
    forall x ensures multiset(records)[x] == Shown(payloads[s := None], x) + Waiting(Retired(payloads[s], retired, epoch), x) {
      ShownChange(payloads, s, None, x);
      RetiredIsWaiting(payloads[s], retired, epoch, x);
    }
  }

  lemma OthersWithout(records: seq<Record>, r: nat)
    requires r < |records|
    ensures multiset(records) == multiset(Others(records, r)) + multiset{records[r]}
  {
    assert records == records[..r] + [records[r]] + records[r + 1..];
  }

  /** A waiting record is freed. */
  lemma FreeingKeepsOwned(records: seq<Record>, payloads: seq<Option<Record>>, retired: seq<Retiree>, k: nat, r: nat)
    requires Owned(records, payloads, retired) && k < |retired| && r < |records| && records[r] == retired[k].record
    ensures Owned(Others(records, r), payloads, retired[..k] + retired[k + 1..])
  {
    hide Shown, Waiting, Others;
    OthersWithout(records, r);
    forall x ensures multiset(Others(records, r))[x] == Shown(payloads, x) + Waiting(retired[..k] + retired[k + 1..], x) {
      WaitingWithout(retired, k, x);
    }
  }

  /** A record that is published or waits is one of the store's. */
  lemma PublishedIsRecorded(records: seq<Record>, payloads: seq<Option<Record>>, retired: seq<Retiree>, s: nat)
    requires Owned(records, payloads, retired) && s < |payloads| && payloads[s].Some?
    ensures payloads[s].value in records
  {
    hide Shown, Waiting;
    ShownChange(payloads, s, None, payloads[s].value);
    assert multiset(records)[payloads[s].value] > 0;
  }

  lemma WaitingIsRecorded(records: seq<Record>, payloads: seq<Option<Record>>, retired: seq<Retiree>, k: nat)
    requires Owned(records, payloads, retired) && k < |retired|
    ensures retired[k].record in records
  {
    hide Shown, Waiting;
    WaitingWithout(retired, k, retired[k].record);
    assert multiset(records)[retired[k].record] > 0;
  }

  /** With nothing published and nothing waiting there are no records. */
  lemma {:induction false} NothingShown(payloads: seq<Option<Record>>, x: Record)
    requires forall s :: 0 <= s < |payloads| ==> payloads[s].None?
    ensures Shown(payloads, x) == 0
  {
    if payloads != [] {
      NothingShown(payloads[1..], x);
    }
  }

  lemma NothingIsOwned(payloads: seq<Option<Record>>)
    requires forall s :: 0 <= s < |payloads| ==> payloads[s].None?
    ensures Owned([], payloads, []) && LatestLeads([], 1)
  {
    forall x: Record ensures Shown(payloads, x) == 0 {
      NothingShown(payloads, x);
    }
  }

  // ---------------------------------------------------------------- collection

  /** A reader's epoch or a pin keeps the record. */
  predicate Protected(r: Retiree, oldest: Option<nat>, pinned: set<nat>)
  {
    r.epoch in pinned || (oldest.Some? && r.epoch >= oldest.value)
  }

  /** What is left when the first records of the list have been visited: those that are protected,
      and the ones not visited. */
  function Survivors(retired: seq<Retiree>, visits: nat, oldest: Option<nat>, pinned: set<nat>): (left: seq<Retiree>)
    ensures |left| <= |retired|
  {
    if visits == 0 || retired == [] then retired
    else (if Protected(retired[0], oldest, pinned) then [retired[0]] else []) + Survivors(retired[1..], visits - 1, oldest, pinned)
  }

  /** What was not visited is still there, and of what was visited the pinned records and those
      retired no earlier than the oldest announced epoch. */
  lemma {:induction false} SurvivesExactly(retired: seq<Retiree>, visits: nat, oldest: Option<nat>, pinned: set<nat>, k: nat)
    requires k < |retired| && forall i, j :: 0 <= i < j < |retired| ==> retired[i].epoch != retired[j].epoch
    ensures retired[k] in Survivors(retired, visits, oldest, pinned)
      <==> visits <= k || retired[k].epoch in pinned || (oldest.Some? && oldest.value <= retired[k].epoch)
  {
    if visits > 0 {
      SurvivorsAreOld(retired[1..], visits - 1, oldest, pinned, retired[0]);
      if k > 0 {
        SurvivesExactly(retired[1..], visits - 1, oldest, pinned, k - 1);
      }
    }
  }

  lemma NothingVisited(retired: seq<Retiree>, oldest: Option<nat>, pinned: set<nat>)
    ensures Survivors(retired, 0, oldest, pinned) == retired
  {
  }

  /** Nothing comes onto the list by a collection. */
  lemma {:induction false} SurvivorsAreOld(retired: seq<Retiree>, visits: nat, oldest: Option<nat>, pinned: set<nat>, r: Retiree)
    ensures r in Survivors(retired, visits, oldest, pinned) ==> r in retired
  {
    if visits > 0 && retired != [] {
      SurvivorsAreOld(retired[1..], visits - 1, oldest, pinned, r);
    }
  }

  /** One more record of the list is visited. */
  lemma VisitOne(retired: seq<Retiree>, k: nat, visits: nat, oldest: Option<nat>, pinned: set<nat>)
    requires k < |retired| && visits > 0
    ensures retired[..k] + Survivors(retired[k..], visits, oldest, pinned)
         == if Protected(retired[k], oldest, pinned) then retired[..k + 1] + Survivors(retired[k + 1..], visits - 1, oldest, pinned)
            else retired[..k] + Survivors(retired[k + 1..], visits - 1, oldest, pinned)
    ensures !Protected(retired[k], oldest, pinned) ==>
      var left := retired[..k] + retired[k + 1..]; left[..k] == retired[..k] && left[k..] == retired[k + 1..]
  {
    assert retired[k..][1..] == retired[k + 1..];
    assert retired[..k + 1] == retired[..k] + [retired[k]];
  }

  lemma VisitsEnd(retired: seq<Retiree>, k: nat, visits: nat, oldest: Option<nat>, pinned: set<nat>)
    requires k <= |retired| && (k == |retired| || visits == 0)
    ensures retired[..k] + Survivors(retired[k..], visits, oldest, pinned) == retired
  {
  }
}
