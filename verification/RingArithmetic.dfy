/** Positions of a ring: a counter value p uses cell p % n. */
module RingArithmetic {

  lemma MulMonotone(n: nat, a: int, b: int)
    ensures a <= b ==> n * a <= n * b
  {
  }

  lemma DivModUnique(x: nat, n: nat, q: nat, r: nat)
    requires r < n && x == n * q + r
    ensures x / n == q && x % n == r
  {
    assert x == n * (x / n) + x % n;
    MulMonotone(n, x / n + 1, q);
    MulMonotone(n, q + 1, x / n);
  }

  /** Two counter values that use the same cell are a whole ring apart. */
  lemma SameCellApart(a: nat, b: nat, n: nat)
    requires n > 0 && a % n == b % n && a < b
    ensures a + n <= b
  {
    assert a == n * (a / n) + a % n && b == n * (b / n) + b % n;
    MulMonotone(n, b / n, a / n);
    MulMonotone(n, a / n + 1, b / n);
  }

  lemma NeighbourCells(p: nat, n: nat)
    requires n >= 2
    ensures (p + 1) % n != p % n
    ensures (p + n) % n == p % n
  {
    if (p + 1) % n == p % n {
      SameCellApart(p, p + 1, n);
    }
    DivModUnique(p + n, n, p / n + 1, p % n);
  }
}
