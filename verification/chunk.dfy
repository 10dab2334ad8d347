/** One worker's share of the image, `camera::render_chunk` (Camera.h:53-66):
    every pixel of rows [startRow, endRow) goes to its slot of the worker's
    buffer. */
module Chunk {

  import opened Arith

  import opened Vectors
  import opened Raster

  /** Slots of the chunk's pixels lie in the buffer sized at Camera.h:36. */
  lemma SlotInBuffer(width: nat, startRow: int, endRow: int, i: int, j: int)
    requires startRow <= j < endRow && 0 <= i < width
    ensures 0 <= Slot(width, startRow, i, j) < width * (endRow - startRow)
  {
    assert (j - startRow) * width + width == (j - startRow + 1) * width;
    MulMonotone(j - startRow + 1, endRow - startRow, width);
  }

  /** Distinct pixels have distinct slots. */
  lemma SlotInjective(width: nat, startRow: int, i1: int, j1: int, i2: int, j2: int)
    requires 0 <= i1 < width && 0 <= i2 < width
    requires Slot(width, startRow, i1, j1) == Slot(width, startRow, i2, j2)
    ensures i1 == i2 && j1 == j2
  {
    assert (j1 - startRow + 1) * width == (j1 - startRow) * width + width;
    assert (j2 - startRow + 1) * width == (j2 - startRow) * width + width;
    MulCancelLess(j1 - startRow, j2 - startRow + 1, width);
    MulCancelLess(j2 - startRow, j1 - startRow + 1, width);
  }

  /** Every slot of the buffer is the slot of some pixel of the chunk. */
  lemma SlotSurjective(width: nat, startRow: int, endRow: int, k: int)
    requires 0 <= k < width * (endRow - startRow)
    ensures width > 0
    ensures startRow <= startRow + k / width < endRow && 0 <= k % width < width
    ensures Slot(width, startRow, k % width, startRow + k / width) == k
  {
    ProductPositive(width, endRow - startRow);
    DivBelow(k, width, endRow - startRow);
    var q := k / width;
    DivBracket(k, width);
    assert Slot(width, startRow, k % width, startRow + q) == q * width + k % width;
  }

  /** The slots 0, 1, ..., n - 1 in increasing order. */
  function Upto(n: nat): (r: seq<int>)
    ensures |r| == n && forall k :: 0 <= k < n ==> r[k] == k
  {
    seq(n, k => k)
  }

  lemma UptoSucc(n: nat)
    ensures Upto(n) + [n] == Upto(n + 1)
  {
  }

  /** The inner loop of `render_chunk`: fills row `j`, whose first slot is
      `base`, appending each slot it writes to the ghost log; rows
      [startRow, j) already written stay as they are. */
  method FillRow(buffer: array<Color>, width: nat, startRow: int, j: int, pixelColor: (int, int) -> Color,
                 ghost base: nat, ghost log: seq<int>)
    returns (ghost log': seq<int>)
    requires startRow <= j && base == (j - startRow) * width && base + width <= buffer.Length
    requires buffer[..base] == Rows(width, startRow, j, pixelColor)
    requires log == Upto(base)
    modifies buffer
    ensures buffer[..base + width] == Rows(width, startRow, j + 1, pixelColor)
    ensures log' == Upto(base + width)
  {
    log' := log;
    var i := 0;
    while i < width
      invariant 0 <= i <= width
      invariant buffer[..base] == old(buffer[..base])
      invariant buffer[base..base + i] == Row(width, j, pixelColor)[..i]
      invariant log' == Upto(base + i)
    {
      var slot := Slot(width, startRow, i, j);
      buffer[slot] := pixelColor(i, j);
      UptoSucc(base + i);
      log' := log' + [slot];
      i := i + 1;
    }
    assert buffer[..base + width] == Rows(width, startRow, j + 1, pixelColor) by {
      assert buffer[..base + width] == buffer[..base] + buffer[base..base + width];
    }
  }

  /** The outer loop of `render_chunk`: fills rows [startRow, endRow) of a
      buffer that holds exactly those rows. */
  method FillRows(buffer: array<Color>, width: nat, startRow: nat, endRow: nat, pixelColor: (int, int) -> Color)
    returns (ghost writeLog: seq<int>)
    requires startRow <= endRow && buffer.Length == width * (endRow - startRow)
    modifies buffer
    ensures buffer[..] == Rows(width, startRow, endRow, pixelColor)
    ensures writeLog == Upto(buffer.Length)
  {
    writeLog := [];
    ghost var base := 0;
    TimesIsProduct(endRow - startRow, width);
    var j := startRow;
    while j < endRow
      invariant startRow <= j <= endRow
      invariant base == Times(j - startRow, width)
      invariant base + Times(endRow - j, width) == buffer.Length
      invariant buffer[..base] == Rows(width, startRow, j, pixelColor)
      invariant writeLog == Upto(base)
    {
      assert base == (j - startRow) * width by {
        TimesIsProduct(j - startRow, width);
      }
      writeLog := FillRow(buffer, width, startRow, j, pixelColor, base, writeLog);
      base := base + width;
      j := j + 1;
    }
    assert buffer[..] == buffer[..base];
  }

  /** `render_chunk` on a buffer sized as at Camera.h:36: the output is rows
      [startRow, endRow) in row-major order, so slot
      `(j - startRow) * width + i` holds pixel (i, j) (`Raster.RowsIndex`).
      `writeLog` lists the slots in the order they are written: each slot
      exactly once, in order. */
  method RenderChunk(width: nat, startRow: nat, endRow: nat, pixelColor: (int, int) -> Color)
    returns (output: seq<Color>, ghost writeLog: seq<int>)
    requires startRow <= endRow
    ensures output == Rows(width, startRow, endRow, pixelColor)
    ensures |output| == width * (endRow - startRow)
    ensures writeLog == Upto(|output|)
  {
    var buffer := new Color[width * (endRow - startRow)](_ => Black);
    writeLog := FillRows(buffer, width, startRow, endRow, pixelColor);
    output := buffer[..];
  }
}
