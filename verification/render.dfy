/** `camera::render` (Camera.h:22-51) without its threads and file output:
    the image is split into row ranges, each range is rendered into its own
    buffer, and the buffers are concatenated in worker order. */
module Render {

  import opened Vectors
  import opened Raster
  import opened Partition
  import opened Chunk
  import Camera

  /** The worker buffers concatenated in worker order. */
  function Flatten(parts: seq<seq<Color>>): seq<Color> {
    if |parts| == 0 then [] else Flatten(parts[..|parts| - 1]) + parts[|parts| - 1]
  }

  /** What worker `i`'s buffer holds once it has finished: its own rows,
      row-major. */
  function WorkerOutputs(width: nat, height: nat, numThreads: nat, pixelColor: (int, int) -> Color): (parts: seq<seq<Color>>)
    requires numThreads >= 1
    ensures |parts| == numThreads
  {
    seq(numThreads, i requires 0 <= i < numThreads =>
      Rows(width, StartRow(height, numThreads, i), EndRow(height, numThreads, i), pixelColor))
  }

  lemma {:induction false} PrefixReassembles(width: nat, height: nat, numThreads: nat, pixelColor: (int, int) -> Color, m: nat)
    requires 1 <= m <= numThreads
    ensures Flatten(WorkerOutputs(width, height, numThreads, pixelColor)[..m])
            == Rows(width, 0, EndRow(height, numThreads, m - 1), pixelColor)
  {
    RangesTile(height, numThreads);
    var parts := WorkerOutputs(width, height, numThreads, pixelColor);
    if m == 1 {
      assert parts[..1][..0] == [];
    } else {
      PrefixReassembles(width, height, numThreads, pixelColor, m - 1);
      assert parts[..m][..m - 1] == parts[..m - 1];
      RowsAppend(width, 0, StartRow(height, numThreads, m - 1), EndRow(height, numThreads, m - 1), pixelColor);
    }
  }

  /** Concatenating the workers' buffers in worker order gives the whole
      image in row-major order. */
  lemma WorkerOutputsReassemble(width: nat, height: nat, numThreads: nat, pixelColor: (int, int) -> Color)
    requires numThreads >= 1
    ensures Flatten(WorkerOutputs(width, height, numThreads, pixelColor)) == Rows(width, 0, height, pixelColor)
  {
    var parts := WorkerOutputs(width, height, numThreads, pixelColor);
    PrefixReassembles(width, height, numThreads, pixelColor, numThreads);
    RangesTile(height, numThreads);
    assert parts[..numThreads] == parts;
  }

  /** The worker loop (Camera.h:31-42), run one worker after another: worker
      `i` renders rows [StartRow, EndRow) into a buffer of its own. */
  method RenderChunks(width: nat, height: nat, numThreads: int, pixelColor: (int, int) -> Color)
    returns (partialOutputs: seq<seq<Color>>)
    requires numThreads >= 1
    ensures partialOutputs == WorkerOutputs(width, height, numThreads, pixelColor)
  {
    var rowsPerThread := height / numThreads;
    ghost var expected := WorkerOutputs(width, height, numThreads, pixelColor);
    partialOutputs := [];
    var i := 0;
    while i < numThreads
      invariant 0 <= i <= numThreads
      invariant partialOutputs == expected[..i]
    {
      var startRow := i * rowsPerThread;
      var endRow := if i == numThreads - 1 then height else (i + 1) * rowsPerThread;
      assert startRow == StartRow(height, numThreads, i) && endRow == EndRow(height, numThreads, i);
      assert startRow <= endRow by {
        RangesTile(height, numThreads);
      }
      var chunk;
      ghost var writeLog;
      chunk, writeLog := RenderChunk(width, startRow, endRow, pixelColor);
      partialOutputs := partialOutputs + [chunk];
      assert partialOutputs == expected[..i + 1];
      i := i + 1;
    }
    assert partialOutputs == expected;
  }

  /** The output loop (Camera.h:44-48): every buffer's pixels, buffer after
      buffer. */
  method Concatenate(parts: seq<seq<Color>>) returns (image: seq<Color>)
    ensures image == Flatten(parts)
  {
    image := [];
    var k := 0;
    while k < |parts|
      invariant 0 <= k <= |parts|
      invariant image == Flatten(parts[..k])
    {
      assert parts[..k + 1][..k] == parts[..k];
      image := image + parts[k];
      k := k + 1;
    }
    assert parts[..k] == parts;
  }

  /** Renders an image of `width` columns: the height comes from the width and
      aspect ratio, `pixelColor` gives each pixel's unscaled colour, and the
      image lists the pixels in the order they are written out, which is the
      row-major image `Rows(width, 0, height, pixelColor)` whatever the number
      of threads (so pixel (i, j) is at `Offset(width, i, j)`, see
      `Raster.RowMajorIndexAt`). */
  method Render(width: nat, aspectRatio: real, numThreads: int, pixelColor: (int, int) -> Color)
    returns (height: nat, partialOutputs: seq<seq<Color>>, image: seq<Color>)
    requires aspectRatio != 0.0 && numThreads >= 1
    ensures image == Rows(width, 0, height, pixelColor)
    ensures height == Camera.InitImageHeight(width, aspectRatio)
    ensures |image| == width * height
    ensures partialOutputs == WorkerOutputs(width, height, numThreads, pixelColor)
  {
    height := Camera.InitImageHeight(width, aspectRatio);
    partialOutputs := RenderChunks(width, height, numThreads, pixelColor);
    image := Concatenate(partialOutputs);
    WorkerOutputsReassemble(width, height, numThreads, pixelColor);
    RowsLength(width, 0, height, pixelColor);
  }
}
