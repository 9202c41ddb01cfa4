/** Slots that are handed out again under the next generation: no handle that was taken back comes
    back until the slot has counted through all of its generations. */
module Generations {
  import opened ResourceTypes
  import opened Wrappers

  /** A slot: the handle it has handed out and not taken back, and the generation it hands out next. */
  datatype Place = Place(held: Option<Handle>, next: nat)

  /** One operation: the slot is left alone, handed out, or taken back. */
  predicate Turned(a: Place, b: Place)
  {
    || b == a
    || (a.held.None? && b.held.Some? && b.held.value.generation == a.next && b.next == NextGeneration(a.next))
    || (a.held.Some? && b == Place(None, a.next))
  }

  /** Of a slot that is handed out, the next generation follows the one it was handed out under. */
  predicate Paired(p: Place)
  {
    && p.next <= UINT32_MAX
    && (p.held.Some? ==> p.held.value.generation <= UINT32_MAX && p.next == NextGeneration(p.held.value.generation))
  }

  ghost predicate History(h: seq<Place>)
  {
    |h| > 0 && Paired(h[0]) && forall n :: 0 <= n < |h| - 1 ==> Turned(h[n], h[n + 1])
  }

  /** The slot has used up its generations and begins again. */
  ghost predicate Wraps(h: seq<Place>, m: nat)
  {
    m < |h| - 1 && h[m].next == UINT32_MAX && h[m + 1].next == 1
  }

  lemma {:induction false} PairedThroughout(h: seq<Place>, n: nat)
    requires History(h) && n < |h|
    ensures Paired(h[n])
  {
    if n > 0 {
      PairedThroughout(h, n - 1);
      assert Turned(h[n - 1], h[n - 1 + 1]);
    }
  }

  /** Without wrapping the generation only grows. */
  lemma {:induction false} GenerationGrows(h: seq<Place>, i: nat, n: nat)
    requires History(h) && i <= n < |h| && forall m :: i <= m < n ==> !Wraps(h, m)
    ensures h[i].next <= h[n].next
  {
    if i < n {
      GenerationGrows(h, i, n - 1);
      PairedThroughout(h, n - 1);
      assert Turned(h[n - 1], h[n - 1 + 1]) && !Wraps(h, n - 1);
    }
  }

  /** The last step at which the slot came to be held under the handle. */
  lemma {:induction false} HandedOutAgain(h: seq<Place>, j: nat, k: nat, x: Handle) returns (m: nat)
    requires History(h) && j <= k < |h| && h[j].held != Some(x) && h[k].held == Some(x)
    ensures j <= m < k && h[m].held != Some(x) && h[m + 1].held == Some(x)
  {
    if h[k - 1].held == Some(x) {
      m := HandedOutAgain(h, j, k - 1, x);
    } else {
      m := k - 1;
    }
  }

  /** A handle that was held, and then not, is held again only after the slot has wrapped. */
  lemma SpentUntilWrapped(h: seq<Place>, i: nat, j: nat, k: nat, x: Handle)
    requires History(h) && i <= j <= k < |h|
    requires h[i].held == Some(x) && h[j].held != Some(x) && h[k].held == Some(x)
    ensures exists m :: i <= m < k && Wraps(h, m)
  {
    var m := HandedOutAgain(h, j, k, x);
    assert Turned(h[m], h[m + 1]);
    PairedThroughout(h, i);
    if forall n :: i <= n < m ==> !Wraps(h, n) {
      GenerationGrows(h, i, m);
      assert Wraps(h, m);
    }
  }

  // ---------------------------------------------------------------- tables of slots

  ghost predicate TableTurned(a: seq<Place>, b: seq<Place>)
  {
    |b| == |a| && forall s :: 0 <= s < |a| ==> Turned(a[s], b[s])
  }

  ghost predicate TableHistory(tables: seq<seq<Place>>)
  {
    && |tables| > 0 && (forall s :: 0 <= s < |tables[0]| ==> Paired(tables[0][s]))
    && forall n :: 0 <= n < |tables| - 1 ==> TableTurned(tables[n], tables[n + 1])
  }

  lemma {:induction false} SameSize(tables: seq<seq<Place>>, n: nat)
    requires TableHistory(tables) && n < |tables|
    ensures |tables[n]| == |tables[0]|
  {
    if n > 0 {
      SameSize(tables, n - 1);
      assert TableTurned(tables[n - 1], tables[n - 1 + 1]);
    }
  }

  lemma SpentInTable(tables: seq<seq<Place>>, s: nat, i: nat, j: nat, k: nat, x: Handle) returns (m: nat)
    requires TableHistory(tables) && i <= j <= k < |tables| && s < |tables[i]|
    requires |tables[i]| == |tables[j]| == |tables[k]|
    requires tables[i][s].held == Some(x) && tables[j][s].held != Some(x) && tables[k][s].held == Some(x)
    ensures i <= m < k && s < |tables[m]| == |tables[m + 1]|
    ensures tables[m][s].next == UINT32_MAX && tables[m + 1][s].next == 1 && Turned(tables[m][s], tables[m + 1][s])
  {
    forall n | 0 <= n < |tables| ensures |tables[n]| == |tables[i]| {
      SameSize(tables, n);
      SameSize(tables, i);
    }
    var h := seq(|tables|, n requires 0 <= n < |tables| => tables[n][s]);
    forall n | 0 <= n < |h| - 1 ensures Turned(h[n], h[n + 1]) {
      assert TableTurned(tables[n], tables[n + 1]);
    }
    SpentUntilWrapped(h, i, j, k, x);
    m :| i <= m < k && Wraps(h, m);
    assert h[m] == tables[m][s] && h[m + 1] == tables[m + 1][s];
  }
}
