/** The reader-side key index: an open-addressed table of atomic words that is probed
    linearly and never shrinks. A cell is never used, a tombstone, or the address of a
    published record; the key of that record never changes while it is indexed, so the
    model keeps it beside the address. The hash function is arbitrary. */
module ReadKeyIndex {
  import opened ResourceTypes
  import opened Wrappers

  datatype Cell = Never | Tombstone | Holds(record: nat, key: Key)

  /** The cell reached after n probes from home, for n < size. */
  function Wrap(home: nat, n: nat, size: nat): (c: nat)
    requires home < size && n < size
    ensures c < size
  {
    if home + n < size then home + n else home + n - size
  }

  /** The number of probes after which cell c is reached from home. */
  function ProbesTo(home: nat, c: nat, size: nat): (n: nat)
    requires home < size && c < size
    ensures n < size && Wrap(home, n, size) == c
    ensures forall m: nat :: m < size && Wrap(home, m, size) == c ==> m == n
  {
    if c >= home then c - home else c + size - home
  }

  function Home(hash: Key -> nat, k: Key, size: nat): (c: nat)
    requires size > 0
    ensures c < size
  {
    hash(k) % size
  }

  /** No cell before the n-th probe from home is unused. */
  ghost predicate Unbroken(cells: seq<Cell>, home: nat, n: nat)
    requires home < |cells| && n <= |cells|
  {
    forall m :: 0 <= m < n ==> !cells[Wrap(home, m, |cells|)].Never?
  }

  /** The map place gives the one cell of every indexed key. */
  ghost predicate Placed(cells: seq<Cell>, place: map<Key, nat>)
  {
    && (forall k :: k in place ==> place[k] < |cells| && cells[place[k]].Holds? && cells[place[k]].key == k)
    && (forall c :: 0 <= c < |cells| && cells[c].Holds? ==> cells[c].key in place && place[cells[c].key] == c)
  }

  /** Every indexed key can be reached by probing from its home. */
  ghost predicate Valid(cells: seq<Cell>, place: map<Key, nat>, hash: Key -> nat)
  {
    && |cells| > 0
    && Placed(cells, place)
    && (forall k :: k in place ==>
          var home := Home(hash, k, |cells|);
          Unbroken(cells, home, ProbesTo(home, place[k], |cells|)))
  }

  /** What the table says: the record indexed for each key. */
  ghost function View(cells: seq<Cell>, place: map<Key, nat>): (view: map<Key, nat>)
    requires Placed(cells, place)
  {
    map k | k in place :: cells[place[k]].record
  }

  // ---------------------------------------------------------------- the writer's probe

  /** The first n probes from home meet records only. */
  ghost predicate Held(cells: seq<Cell>, home: nat, n: nat)
    requires home < |cells| && n <= |cells|
  {
    forall m :: 0 <= m < n ==> cells[Wrap(home, m, |cells|)].Holds?
  }

  /** The probes made so far neither found the key nor left its path, and tomb is the first
      tombstone passed. */
  ghost predicate Passed(cells: seq<Cell>, home: nat, k: Key, n: nat, tomb: Option<nat>)
    requires home < |cells| && n <= |cells|
  {
    && Unbroken(cells, home, n)
    && (forall m :: 0 <= m < n ==> var cell := cells[Wrap(home, m, |cells|)]; !(cell.Holds? && cell.key == k))
    && (tomb.None? ==> Held(cells, home, n))
    && (tomb.Some? ==>
          && tomb.value < |cells| && cells[tomb.value].Tombstone? && ProbesTo(home, tomb.value, |cells|) < n
          && Held(cells, home, ProbesTo(home, tomb.value, |cells|)))
  }

  /** A cell that the writer may give to key k: k's own cell, or a free one on its path. */
  ghost predicate Suitable(cells: seq<Cell>, place: map<Key, nat>, home: nat, k: Key, c: nat)
    requires home < |cells|
  {
    && c < |cells|
    && Unbroken(cells, home, ProbesTo(home, c, |cells|))
    && if k in place then c == place[k] else !cells[c].Holds?
  }

  lemma {:induction false} FullCellsHaveOwnKeys(cells: seq<Cell>, place: map<Key, nat>, n: nat)
    requires Placed(cells, place) && n <= |cells| && forall c :: 0 <= c < n ==> cells[c].Holds?
    ensures |set k | k in place && place[k] < n| == n
  {
    if n == 0 {
      assert (set k | k in place && place[k] < n) == {};
    } else {
      FullCellsHaveOwnKeys(cells, place, n - 1);
      var last := cells[n - 1].key;
      assert (set k | k in place && place[k] < n) == (set k | k in place && place[k] < n - 1) + {last};
    }
  }

  lemma FullTableHasSizeKeys(cells: seq<Cell>, place: map<Key, nat>)
    requires Placed(cells, place) && forall c :: 0 <= c < |cells| ==> cells[c].Holds?
    ensures |place| == |cells|
  {
    FullCellsHaveOwnKeys(cells, place, |cells|);
    assert (set k | k in place && place[k] < |cells|) == place.Keys;
  }

  /** When every cell has been passed, a tombstone was among them unless the table is full. */
  lemma ExhaustedProbeMetTombstone(cells: seq<Cell>, place: map<Key, nat>, home: nat, k: Key, tomb: Option<nat>)
    requires Placed(cells, place) && home < |cells| && Passed(cells, home, k, |cells|, tomb)
    ensures k !in place
    ensures tomb.Some? || |place| == |cells|
    ensures tomb.Some? ==> Suitable(cells, place, home, k, tomb.value) && Held(cells, home, ProbesTo(home, tomb.value, |cells|))
  {
    assert k in place ==> ProbesTo(home, place[k], |cells|) < |cells|;
    if tomb.None? {
      forall c | 0 <= c < |cells| ensures cells[c].Holds? {
        assert ProbesTo(home, c, |cells|) < |cells|;
      }
      FullTableHasSizeKeys(cells, place);
    }
  }

  /** One more probe: the cell is neither unused nor k's. */
  lemma PassOneCell(cells: seq<Cell>, home: nat, k: Key, n: nat, tomb: Option<nat>)
    requires home < |cells| && n < |cells| && Passed(cells, home, k, n, tomb)
    requires var cell := cells[Wrap(home, n, |cells|)]; !cell.Never? && !(cell.Holds? && cell.key == k)
    ensures var c := Wrap(home, n, |cells|);
      Passed(cells, home, k, n + 1, if cells[c].Tombstone? && tomb.None? then Some(c) else tomb)
  {
    assert ProbesTo(home, Wrap(home, n, |cells|), |cells|) == n;
  }

  lemma NothingPassed(cells: seq<Cell>, home: nat, k: Key)
    requires home < |cells|
    ensures Passed(cells, home, k, 0, None)
  {
  }

  lemma OwnCellIsSuitable(cells: seq<Cell>, place: map<Key, nat>, hash: Key -> nat, k: Key, n: nat, tomb: Option<nat>)
    requires Valid(cells, place, hash) && n < |cells| && Passed(cells, Home(hash, k, |cells|), k, n, tomb)
    requires var cell := cells[Wrap(Home(hash, k, |cells|), n, |cells|)]; cell.Holds? && cell.key == k
    ensures k in place && Suitable(cells, place, Home(hash, k, |cells|), k, Wrap(Home(hash, k, |cells|), n, |cells|))
  {
    var home := Home(hash, k, |cells|);
    assert ProbesTo(home, Wrap(home, n, |cells|), |cells|) == n;
  }

  /** An unused cell on the path of k shows that k is not indexed, and it or the first
      tombstone before it is free for k. */
  lemma UnusedCellEndsPath(cells: seq<Cell>, place: map<Key, nat>, hash: Key -> nat, k: Key, n: nat, tomb: Option<nat>)
    requires Valid(cells, place, hash) && n < |cells|
    requires Passed(cells, Home(hash, k, |cells|), k, n, tomb)
    requires cells[Wrap(Home(hash, k, |cells|), n, |cells|)].Never?
    ensures k !in place
    ensures var home := Home(hash, k, |cells|);
      var chosen := if tomb.Some? then tomb.value else Wrap(home, n, |cells|);
      Suitable(cells, place, home, k, chosen) && Held(cells, home, ProbesTo(home, chosen, |cells|))
  {
    var home := Home(hash, k, |cells|);
    assert ProbesTo(home, Wrap(home, n, |cells|), |cells|) == n;
  }

  /** A reader that has probed n cells without passing an indexed key does not meet an
      unused cell next, and passes the key only at the key's own cell. */
  lemma NextProbe(cells: seq<Cell>, place: map<Key, nat>, hash: Key -> nat, k: Key, n: nat)
    requires Valid(cells, place, hash) && n < |cells|
    requires k in place && ProbesTo(Home(hash, k, |cells|), place[k], |cells|) >= n
    ensures var home := Home(hash, k, |cells|); var cell := cells[Wrap(home, n, |cells|)];
      && !cell.Never?
      && (cell.Holds? && cell.key == k <==> ProbesTo(home, place[k], |cells|) == n)
  {
    var home := Home(hash, k, |cells|);
    assert ProbesTo(home, Wrap(home, n, |cells|), |cells|) == n;
    assert Unbroken(cells, home, ProbesTo(home, place[k], |cells|));
  }

  /** A table with room has a suitable cell for any key. */
  lemma SuitableCellExists(cells: seq<Cell>, place: map<Key, nat>, hash: Key -> nat, k: Key)
    requires Valid(cells, place, hash) && (k in place || |place| < |cells|)
    ensures exists c: nat :: Suitable(cells, place, Home(hash, k, |cells|), k, c)
  {
    var home := Home(hash, k, |cells|);
    if k in place {
      assert Suitable(cells, place, home, k, place[k]);
    } else {
      FirstFreeCell(cells, place, home, k, 0);
    }
  }

  lemma {:induction false} FirstFreeCell(cells: seq<Cell>, place: map<Key, nat>, home: nat, k: Key, n: nat)
    requires Placed(cells, place) && home < |cells| && n <= |cells| && |place| < |cells| && k !in place
    requires forall m :: 0 <= m < n ==> cells[Wrap(home, m, |cells|)].Holds?
    ensures exists c: nat :: Suitable(cells, place, home, k, c)
    decreases |cells| - n
  {
    if n == |cells| {
      forall c | 0 <= c < |cells| ensures cells[c].Holds? {
        assert ProbesTo(home, c, |cells|) < n;
      }
      FullTableHasSizeKeys(cells, place);
    } else {
      var c := Wrap(home, n, |cells|);
      if cells[c].Holds? {
        FirstFreeCell(cells, place, home, k, n + 1);
      } else {
        assert ProbesTo(home, c, |cells|) == n;
        assert Suitable(cells, place, home, k, c);
      }
    }
  }

  function Store(cells: seq<Cell>, c: nat, k: Key, record: Option<nat>): (cells': seq<Cell>)
    requires c < |cells|
    ensures |cells'| == |cells|
  {
    cells[c := if record.Some? then Holds(record.value, k) else Tombstone]
  }

  function Replace(place: map<Key, nat>, c: nat, k: Key, record: Option<nat>): map<Key, nat>
  {
    if record.Some? then place[k := c] else place - {k}
  }

  lemma StoreKeepsPlaced(cells: seq<Cell>, place: map<Key, nat>, hash: Key -> nat, k: Key, record: Option<nat>, c: nat)
    requires Valid(cells, place, hash) && Suitable(cells, place, Home(hash, k, |cells|), k, c)
    ensures Placed(Store(cells, c, k, record), Replace(place, c, k, record))
  {
    var cells', place' := Store(cells, c, k, record), Replace(place, c, k, record);
    forall d | 0 <= d < |cells'| && cells'[d].Holds? ensures cells'[d].key in place' && place'[cells'[d].key] == d {
      if d != c {
        assert place[cells[d].key] == d;
      }
    }
  }

  lemma StoreKeepsUnbroken(cells: seq<Cell>, home: nat, n: nat, c: nat, k: Key, record: Option<nat>)
    requires home < |cells| && n <= |cells| && c < |cells| && Unbroken(cells, home, n)
    ensures Unbroken(Store(cells, c, k, record), home, n)
  {
  }

  lemma StoreKeepsValid(cells: seq<Cell>, place: map<Key, nat>, hash: Key -> nat, k: Key, record: Option<nat>, c: nat)
    requires Valid(cells, place, hash) && Suitable(cells, place, Home(hash, k, |cells|), k, c)
    ensures Valid(Store(cells, c, k, record), Replace(place, c, k, record), hash)
  {
    StoreKeepsPlaced(cells, place, hash, k, record, c);
    var place' := Replace(place, c, k, record);
    forall j | j in place'
      ensures var home := Home(hash, j, |cells|);
        Unbroken(Store(cells, c, k, record), home, ProbesTo(home, place'[j], |cells|))
    {
      var home := Home(hash, j, |cells|);
      StoreKeepsUnbroken(cells, home, ProbesTo(home, place'[j], |cells|), c, k, record);
    }
  }

  /** Storing into a suitable cell keeps the table valid, updates it as a map, and moves no
      other key. */
  lemma StoreUpdatesTable(cells: seq<Cell>, place: map<Key, nat>, hash: Key -> nat, k: Key, record: Option<nat>, c: nat)
    requires Valid(cells, place, hash) && Suitable(cells, place, Home(hash, k, |cells|), k, c)
    requires record.None? ==> k in place
    ensures var cells', place' := Store(cells, c, k, record), Replace(place, c, k, record);
      && Valid(cells', place', hash)
      && View(cells', place') == (if record.Some? then View(cells, place)[k := record.value] else View(cells, place) - {k})
      && (forall j :: j in place && j in place' ==> place'[j] == place[j])
  {
    StoreKeepsValid(cells, place, hash, k, record, c);
    ViewAfterStore(cells, place, k, record, c);
  }

  lemma ViewAfterStore(cells: seq<Cell>, place: map<Key, nat>, k: Key, record: Option<nat>, c: nat)
    requires Placed(cells, place) && c < |cells| && (k in place ==> place[k] == c) && (k !in place ==> !cells[c].Holds?)
    requires Placed(Store(cells, c, k, record), Replace(place, c, k, record))
    ensures var view, view' := View(cells, place), View(Store(cells, c, k, record), Replace(place, c, k, record));
      view' == if record.Some? then view[k := record.value] else view - {k}
    ensures var place' := Replace(place, c, k, record); forall j :: j in place && j in place' ==> place'[j] == place[j]
  {
    var cells' := Store(cells, c, k, record);
    forall j | j in place && j != k ensures cells'[place[j]] == cells[place[j]] {
      assert cells[place[j]].key == j;
    }
  }

  lemma ViewSize(cells: seq<Cell>, place: map<Key, nat>)
    requires Placed(cells, place)
    ensures |View(cells, place)| == |place|
  {
    assert View(cells, place).Keys == place.Keys;
  }

  // ---------------------------------------------------------------- the table as the writer and a quiet reader use it

  class Index {
    const cells: array<Cell>
    const hash: Key -> nat
    ghost var place: map<Key, nat>

    ghost predicate ValidTable()
      reads this, cells
    {
      Valid(cells[..], place, hash)
    }

    ghost function Map(): map<Key, nat>
      reads this, cells
      requires ValidTable()
    {
      View(cells[..], place)
    }

    constructor (capacity: nat, hash: Key -> nat)
      requires capacity > 0
      ensures ValidTable() && fresh(cells) && Map() == map[] && cells.Length == capacity && this.hash == hash
    {
      this.hash := hash;
      place := map[];
      cells := new Cell[capacity];
      new;
      for c := 0 to capacity
        invariant place == map[] && forall d :: 0 <= d < c ==> cells[d] == Never
      {
        cells[c] := Never;
      }
    }

    /** Find the cell that the writer stores into for key k. */
    method Locate(k: Key, publishing: bool) returns (target: nat)
      requires ValidTable()
      requires k in place || (publishing && |place| < cells.Length)
      ensures Suitable(cells[..], place, Home(hash, k, cells.Length), k, target)
      ensures var home := Home(hash, k, cells.Length);
        k !in place ==> Held(cells[..], home, ProbesTo(home, target, cells.Length))
    {
      hide Passed, Held, Suitable, Placed, Unbroken;
      var size := cells.Length;
      var c: nat := hash(k) % size;
      ghost var home: nat := c;
      var tomb: Option<nat> := None;
      var n := 0;
      NothingPassed(cells[..], home, k);
      while n < size
        invariant 0 <= n <= size
        invariant n < size ==> c == Wrap(home, n, size)
        invariant Passed(cells[..], home, k, n, tomb)
      {
        var cell := cells[c];
        if cell.Holds? && cell.key == k {
          OwnCellIsSuitable(cells[..], place, hash, k, n, tomb);
          return c;
        }
        if cell.Never? {
          UnusedCellEndsPath(cells[..], place, hash, k, n, tomb);
          return if tomb.Some? then tomb.value else c;
        }
        PassOneCell(cells[..], home, k, n, tomb);
        if cell.Tombstone? && tomb.None? {
          tomb := Some(c);
        }
        c := if c + 1 == size then 0 else c + 1;
        n := n + 1;
      }
      ExhaustedProbeMetTombstone(cells[..], place, home, k, tomb);
      return tomb.value;
    }

    /** Index the published record of key k, or remove k when there is none. */
    method Update(k: Key, published: Option<nat>)
      requires ValidTable()
      requires k in Map() || (published.Some? && |Map()| < cells.Length)
      modifies this, cells
      ensures ValidTable()
      ensures Map() == if published.Some? then old(Map())[k := published.value] else old(Map()) - {k}
      ensures forall j :: j in old(place) && j in place ==> place[j] == old(place)[j]
    {
      ViewSize(cells[..], place);
      var c := Locate(k, published.Some?);
      StoreUpdatesTable(cells[..], place, hash, k, published, c);
      ghost var table := Store(cells[..], c, k, published);
      cells[c] := if published.Some? then Holds(published.value, k) else Tombstone;
      place := Replace(place, c, k, published);
      assert cells[..] == table;
    }

    /** A lookup without a concurrent writer answers exactly as the map does. */
    method Find(k: Key) returns (record: Option<nat>)
      requires ValidTable()
      ensures record == if k in Map() then Some(Map()[k]) else None
    {
      var size := cells.Length;
      var c: nat := hash(k) % size;
      ghost var home: nat := c;
      var n := 0;
      while n < size
        invariant 0 <= n <= size
        invariant n < size ==> c == Wrap(home, n, size)
        invariant k in place ==> ProbesTo(home, place[k], size) >= n
      {
        var cell := cells[c];
        if cell.Never? {
          return None;
        }
        if cell.Holds? && cell.key == k {
          return Some(cell.record);
        }
        assert ProbesTo(home, c, size) == n;
        c := if c + 1 == size then 0 else c + 1;
        n := n + 1;
      }
      return None;
    }
  }
}
