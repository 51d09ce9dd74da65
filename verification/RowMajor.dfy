/** Row-major positions: row i, column k of a table with w columns. */
module RowMajor {

  function Flat(i: nat, k: nat, w: nat): nat {
    i * w + k
  }

  lemma ProductMonotone(a: nat, b: nat, w: nat)
    requires a <= b
    ensures a * w <= b * w
  {
  }

  lemma FlatBound(i: nat, k: nat, w: nat, n: nat)
    requires i < n && k < w
    ensures Flat(i, k, w) < n * w
  {
    ProductMonotone(i + 1, n, w);
  }

  lemma FlatOrder(i: nat, j: nat, w: nat)
    requires i < j
    ensures i * w + w <= j * w
  {
    ProductMonotone(i + 1, j, w);
  }

  lemma FlatInjective(i: nat, k: nat, i': nat, k': nat, w: nat)
    requires k < w && k' < w && Flat(i, k, w) == Flat(i', k', w)
    ensures i == i' && k == k'
  {
    if i < i' {
      FlatOrder(i, i', w);
    } else if i' < i {
      FlatOrder(i', i, w);
    }
  }

  /** Every position below n * w has a row below n and a column below w. */
  lemma FlatIdInRange(r: nat, n: nat, w: nat)
    requires w > 0 && r < n * w
    ensures r / w < n && r % w < w && Flat(r / w, r % w, w) == r
  {
    if r / w >= n {
      ProductMonotone(n, r / w, w);
    }
  }

  /** Rows and columns are recovered from positions. */
  lemma FlatParts(i: nat, k: nat, w: nat)
    requires k < w
    ensures Flat(i, k, w) / w == i && Flat(i, k, w) % w == k
  {
    FlatBound(i, k, w, i + 1);
    FlatIdInRange(Flat(i, k, w), i + 1, w);
    FlatInjective(i, k, Flat(i, k, w) / w, Flat(i, k, w) % w, w);
  }

  /** The row and the column of a position. */
  function RowOf(r: nat, w: nat): nat
    requires w > 0
  {
    r / w
  }

  function ColumnOf(r: nat, w: nat): (k: nat)
    requires w > 0
    ensures k < w
  {
    r % w
  }

  lemma PositionOf(r: nat, n: nat, w: nat)
    requires w > 0 && r < n * w
    ensures RowOf(r, w) < n && Flat(RowOf(r, w), ColumnOf(r, w), w) == r
  {
    FlatIdInRange(r, n, w);
  }

  lemma FlatPosition(i: nat, k: nat, w: nat, n: nat)
    requires i < n && k < w
    ensures Flat(i, k, w) < n * w && RowOf(Flat(i, k, w), w) == i && ColumnOf(Flat(i, k, w), w) == k
  {
    FlatBound(i, k, w, n);
    FlatParts(i, k, w);
  }
}
