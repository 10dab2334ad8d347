/** How `camera::render` splits the image's rows among its workers
    (Camera.h:31-35). Heights and worker counts are non-negative here, so C++'s
    truncating `/` and Dafny's Euclidean `/` agree. */
module Partition {

  import opened Arith

  /** Rows given to each worker but the last. */
  function RowsPerThread(imageHeight: nat, numThreads: nat): nat
    requires numThreads >= 1
  {
    imageHeight / numThreads
  }

  function StartRow(imageHeight: nat, numThreads: nat, i: nat): nat
    requires numThreads >= 1
  {
    i * RowsPerThread(imageHeight, numThreads)
  }

  /** One past the last row of worker `i`; the last worker runs to the bottom. */
  function EndRow(imageHeight: nat, numThreads: nat, i: nat): nat
    requires numThreads >= 1 && i < numThreads
  {
    if i == numThreads - 1 then imageHeight else (i + 1) * RowsPerThread(imageHeight, numThreads)
  }

  lemma StartRowMonotone(h: nat, n: nat, a: nat, b: nat)
    requires n >= 1 && a <= b
    ensures StartRow(h, n, a) <= StartRow(h, n, b)
  {
    MulMonotone(a, b, RowsPerThread(h, n));
  }

  /** The ranges are contiguous, ordered, and cover [0, imageHeight). */
  lemma RangesTile(h: nat, n: nat)
    requires n >= 1
    ensures StartRow(h, n, 0) == 0
    ensures EndRow(h, n, n - 1) == h
    ensures forall i :: 0 <= i < n - 1 ==> EndRow(h, n, i) == StartRow(h, n, i + 1)
    ensures forall i :: 0 <= i < n ==> StartRow(h, n, i) <= EndRow(h, n, i)
  {
  }

  /** Every worker but the last gets `imageHeight / numThreads` rows; the last
      also takes the remainder. */
  lemma RangeSizes(h: nat, n: nat)
    requires n >= 1
    ensures forall i :: 0 <= i < n - 1 ==> EndRow(h, n, i) - StartRow(h, n, i) == h / n
    ensures EndRow(h, n, n - 1) - StartRow(h, n, n - 1) == h / n + h % n
  {
    var q := RowsPerThread(h, n);
    assert h == n * q + h % n;
    assert (n - 1) * q == n * q - q;
  }

  /** The worker that renders `row`. */
  function Owner(h: nat, n: nat, row: nat): (w: nat)
    requires n >= 1 && row < h
    ensures w < n
    ensures StartRow(h, n, w) <= row < EndRow(h, n, w)
  {
    var q := RowsPerThread(h, n);
    if q == 0 then
      n - 1
    else if row / q >= n - 1 then
      MulMonotone(n - 1, row / q, q);
      DivBracket(row, q);
      n - 1
    else
      DivBracket(row, q);
      row / q
  }

  /** Every row belongs to exactly one worker. */
  lemma RowHasOneOwner(h: nat, n: nat, row: nat, i: nat)
    requires n >= 1 && row < h && i < n
    ensures StartRow(h, n, i) <= row < EndRow(h, n, i) <==> i == Owner(h, n, row)
  {
    var w := Owner(h, n, row);
    if StartRow(h, n, i) <= row < EndRow(h, n, i) {
      if i < w {
        assert EndRow(h, n, i) == StartRow(h, n, i + 1);
        StartRowMonotone(h, n, i + 1, w);
        assert false;
      } else if w < i {
        assert EndRow(h, n, w) == StartRow(h, n, w + 1);
        StartRowMonotone(h, n, w + 1, i);
        assert false;
      }
    }
  }

  /** With more workers than rows, all but the last get nothing and the last
      gets every row. */
  lemma MoreThreadsThanRows(h: nat, n: nat)
    requires n > h && n >= 1
    ensures forall i :: 0 <= i < n - 1 ==> StartRow(h, n, i) == EndRow(h, n, i) == 0
    ensures StartRow(h, n, n - 1) == 0 && EndRow(h, n, n - 1) == h
  {
    assert RowsPerThread(h, n) == 0;
  }

  /** Ten rows on three workers: [0, 3), [3, 6), [6, 10). */
  lemma TenRowsThreeThreads()
    ensures StartRow(10, 3, 0) == 0 && EndRow(10, 3, 0) == 3
    ensures StartRow(10, 3, 1) == 3 && EndRow(10, 3, 1) == 6
    ensures StartRow(10, 3, 2) == 6 && EndRow(10, 3, 2) == 10
  {
  }
}
