/** Positions in a table of equally long rows laid out one after another.

    `Row(k, n)` is `k * n`; it is written as repeated addition so that address arithmetic with two
    variable factors stays linear for the verifier. */
module Rows {

  function Row(k: nat, n: nat): (r: nat)
  {
    if k == 0 then 0 else Row(k - 1, n) + n
  }

  lemma {:induction false} RowIsProduct(k: nat, n: nat)
    ensures Row(k, n) == k * n
  {
    if k > 0 {
      RowIsProduct(k - 1, n);
      assert k * n == (k - 1) * n + n;
    }
  }

  lemma {:induction false} RowMonotone(a: nat, b: nat, n: nat)
    requires a < b
    ensures Row(a, n) + n <= Row(b, n)
  {
    if a < b - 1 {
      RowMonotone(a, b - 1, n);
    }
  }

  /** Cells of different rows never coincide. */
  lemma RowsDistinct(a: nat, i: nat, b: nat, j: nat, n: nat)
    requires i < n && j < n
    ensures Row(a, n) + i == Row(b, n) + j ==> a == b && i == j
  {
    if a < b {
      RowMonotone(a, b, n);
    } else if b < a {
      RowMonotone(b, a, n);
    }
  }

  /** Division by the row length finds row and column. */
  lemma Locate(p: nat, n: nat)
    requires n > 0
    ensures p % n < n && p == Row(p / n, n) + p % n
  {
    RowIsProduct(p / n, n);
    assert p == p / n * n + p % n;
  }

  lemma LocateBelow(p: nat, n: nat, k: nat)
    requires n > 0 && p < Row(k, n)
    ensures p / n < k && p % n < n && p == Row(p / n, n) + p % n
  {
    Locate(p, n);
    if k < p / n {
      RowMonotone(k, p / n, n);
    }
  }

  /** The row of position `p`: `p / n`. */
  function RowOf(p: nat, n: nat): (q: nat)
    requires n > 0
    ensures Row(q, n) <= p < Row(q, n) + n
  {
    Locate(p, n);
    p / n
  }

  /** The column of position `p`: `p % n`. */
  function ColumnOf(p: nat, n: nat): (r: nat)
    requires n > 0
    ensures r < n && p == Row(RowOf(p, n), n) + r
  {
    Locate(p, n);
    p % n
  }

  lemma {:induction false} RowSum(a: nat, b: nat, n: nat)
    ensures Row(a + b, n) == Row(a, n) + Row(b, n)
  {
    if b > 0 {
      RowSum(a, b - 1, n);
    }
  }

  /** How many rows `x` cells fill, the last perhaps in part: `x` divided by `n`, rounded up. */
  function CeilRows(x: nat, n: nat): (r: nat)
    requires n > 0
    ensures x <= Row(r, n) && (r > 0 ==> Row(r - 1, n) < x)
  {
    var r := (x + n - 1) / n;
    Locate(x + n - 1, n);
    r
  }
}
