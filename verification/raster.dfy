/** Reference layout of pixel buffers: rows of `width` pixels, top to bottom,
    left to right within a row. */
module Raster {

  import opened Vectors

  function Row(width: nat, j: int, pixelColor: (int, int) -> Color): seq<Color> {
    seq(width, i => pixelColor(i, j))
  }

  /** The offset of pixel (i, j) in a row-major buffer `width` pixels wide. */
  function Offset(width: nat, i: int, j: int): int {
    j * width + i
  }

  /** The offset of pixel (i, j) in a buffer whose first row is `startRow`. */
  function Slot(width: nat, startRow: int, i: int, j: int): int {
    Offset(width, i, j - startRow)
  }

  /** Rows `a` up to (not including) `b`, each row left to right. */
  function Rows(width: nat, a: int, b: int, pixelColor: (int, int) -> Color): seq<Color>
    decreases b - a
  {
    if b <= a then [] else Rows(width, a, b - 1, pixelColor) + Row(width, b - 1, pixelColor)
  }

  lemma {:induction false} RowsLength(width: nat, a: int, b: int, pixelColor: (int, int) -> Color)
    requires a <= b
    ensures |Rows(width, a, b, pixelColor)| == width * (b - a)
    decreases b - a
  {
    if a < b {
      RowsLength(width, a, b - 1, pixelColor);
    }
  }

  /** Pixel (i, j) sits at offset `Slot(width, a, i, j)` of rows `a` to `b`. */
  lemma {:induction false} RowsIndex(width: nat, a: int, b: int, pixelColor: (int, int) -> Color, i: int, j: int)
    requires a <= j < b && 0 <= i < width
    ensures 0 <= Slot(width, a, i, j) < |Rows(width, a, b, pixelColor)|
    ensures Rows(width, a, b, pixelColor)[Slot(width, a, i, j)] == pixelColor(i, j)
    decreases b - a
  {
    var front := Rows(width, a, b - 1, pixelColor);
    RowsLength(width, a, b - 1, pixelColor);
    RowsLength(width, a, b, pixelColor);
    if j == b - 1 {
      assert Slot(width, a, i, j) == |front| + i;
    } else {
      RowsIndex(width, a, b - 1, pixelColor, i, j);
    }
  }

  /** Rows `a` to `m` followed by rows `m` to `b` are rows `a` to `b`. */
  lemma {:induction false} RowsAppend(width: nat, a: int, m: int, b: int, pixelColor: (int, int) -> Color)
    requires a <= m <= b
    ensures Rows(width, a, m, pixelColor) + Rows(width, m, b, pixelColor) == Rows(width, a, b, pixelColor)
    decreases b - m
  {
    if m < b {
      RowsAppend(width, a, m, b - 1, pixelColor);
    }
  }

  /** The whole image's buffer is in row-major order: pixel (i, j) sits at
      `Offset(width, i, j)`, that is `j * width + i`. */
  lemma RowMajorIndexAt(width: nat, height: nat, pixelColor: (int, int) -> Color, i: int, j: int)
    requires 0 <= j < height && 0 <= i < width
    ensures 0 <= Offset(width, i, j) < |Rows(width, 0, height, pixelColor)|
    ensures Rows(width, 0, height, pixelColor)[Offset(width, i, j)] == pixelColor(i, j)
  {
    RowsIndex(width, 0, height, pixelColor, i, j);
    assert Slot(width, 0, i, j) == Offset(width, i, j);
  }
}
