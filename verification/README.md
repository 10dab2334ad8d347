# OneRayTracer camera core, modelled in Dafny

OneRayTracer is a small multi-threaded path tracer. Its `camera` class
(`Camera.h`) owns the image loop, and this project models the discrete part of
that loop:

- **Image height** (`initialize`). `image_width / aspect_ratio` is truncated
  toward zero and then clamped to at least 1.
- **Row partitioning** (`render`). Thread `i` of `num_threads` gets rows
  `[i * (H / n), (i + 1) * (H / n))`, and the last thread also takes the
  remainder `H % n`.
- **Chunk rendering** (`render_chunk`). Every pixel `(i, j)` of a worker's rows
  is written to slot `(j - start_row) * image_width + i` of that worker's buffer.
- **Reassembly** (`render`). The workers' buffers are concatenated in thread
  order into the row-major image.
- **Ray generation** (`get_ray`). The ray starts at the camera centre when
  `defocus_angle <= 0`, and at a point of the defocus disk otherwise.
- **Path recursion** (`ray_color`). The colour is black at depth `<= 0` and
  black when the material absorbs. After a scatter it is the attenuation
  times the colour one level deeper. On a miss it is the white-to-blue sky
  gradient.

Modules:

| module | file | what it holds |
|---|---|---|
| `Wrappers` | wrappers.dfy | `Option` |
| `Arith` | arith.dfy | small integer lemmas (products, division) and `Times`, a product by repeated addition |
| `Vectors` | vectors.dfy | `vec3` over exact reals, colour constants, bounds on colours |
| `Shading` | shading.dfy | `ray_color` and an independent path-based reference for it |
| `Camera` | camera.dfy | the image-height clamp, `get_ray`, and the per-pixel sample sum |
| `Partition` | partition.dfy | the row ranges of the threads |
| `Raster` | raster.dfy | the reference row-major image `Rows` and the slot index |
| `Chunk` | chunk.dfy | `render_chunk` as a loop over an array |
| `Render` | render.dfy | `render` with its worker outputs and their concatenation |

The world is a `Shading.Scene` made of three function values:

- `hit` stands for `hittable::hit`.
- `scatter` stands for `material::scatter`.
- `unitVector` stands for `unit_vector`.

Randomness (`sample_square`, `random_in_unit_disk`) becomes a `jitter`
function from `(i, j, sample)` to the two random offsets. The colour of one
pixel, which `render_chunk` computes through `get_ray` and `ray_color`, is the
parameter `pixelColor` in `Chunk` and `Render`. `Camera.PixelColor` and
`Camera.AccumulatePixel` show how it is built.

## Model

| member | source | states |
|---|---|---|
| `Camera.TruncToInt` | Camera.h:80 | `int(x)` truncates toward zero: for `x >= 0` the result is the largest integer not above `x`, and for `x < 0` it is the smallest integer not below `x` |
| `Camera.InitImageHeight` | Camera.h:80-81 | the image height is at least 1 and equals `max(1, floor(width / aspect_ratio))` (the clamp also covers negative quotients) |
| `Camera.GetRay` | Camera.h:114-122 | with `defocus_angle <= 0` the ray starts at the camera centre; otherwise it starts at the defocus-disk sample; either way it points from its origin to the jittered pixel sample |
| `Camera.FocusOffIgnoresLens` | Camera.h:118 | with `defocus_angle <= 0` the disk sample has no effect on the ray, whose origin is the centre |
| `Camera.AccumulatePixel` | Camera.h:57-61 | the sample loop adds up `ray_color` of `samples_per_pixel` rays, one `get_ray` per sample |
| `Camera.SampleSumInScaledSky` | Camera.h:57-61 | when every sample is a sky colour, the sum of `n` samples lies on the segment between `n` times the two gradient endpoints |
| `Camera.EmptySceneSamplesAreSky` | Camera.h:58-60 | in a scene with no geometry every sample's colour is a sky colour |
| `Camera.EmptyScenePixelIsSky` | Camera.h:46 | in a scene with no geometry, scaling the pixel by `pixel_samples_scale = 1 / samples_per_pixel` gives a colour on the white-to-sky-blue segment: each channel lies between its white and sky-blue values, and red and green keep the segment's ratio |
| `Shading.Background` | Camera.h:146-148 | the miss colour is white for a ray pointing straight down and sky blue for one pointing straight up; for any unit direction it lies on the segment between them (each channel between its white and sky-blue values, red and green in the segment's ratio) |
| `Shading.GradientHeight` | Camera.h:146-148 | conversely, every colour on that segment is the background of some unit direction's height in `[-1, 1]` |
| `Shading.BackgroundInjective` | Camera.h:147-148 | different heights give different background colours |
| `Shading.RayColorStructure` | Camera.h:132-149 | `ray_color` is black at depth `<= 0`, the sky on a miss, black when the material absorbs, and attenuation times `ray_color(scattered, depth - 1)` on a scatter |
| `Shading.Trace` | Camera.h:132-149 | a path of depth `d` has at most `max(d, 0)` bounces, and it is cut off by the depth limit exactly when it has that many |
| `Shading.RayColorIsPathColor` | Camera.h:132-149 | `ray_color` equals the colour of the traced path: the product of its attenuations times its ending colour (sky, or black for absorption or cut-off) |
| `Shading.MissShowsSky` | Camera.h:146-148 | when the ray hits nothing at positive depth, `ray_color` is the background of its unit direction and lies on the white-to-sky-blue segment |
| `Shading.EmptySceneShowsSky` | Camera.h:138-148 | in a scene with no geometry every ray of positive depth shows the sky |
| `Shading.RayColorInUnitCube` | Camera.h:141-143 | when every attenuation lies in `[0,1]^3`, every `ray_color` does too |
| `Vectors.UnitComponentBounded` | Camera.h:146-147 | the `y` component of a unit vector lies in `[-1, 1]`, and the blend factor `a = 0.5 * (y + 1)` lies in `[0, 1]` |
| `Partition.StartRowMonotone` | Camera.h:34 | later threads start at later or equal rows |
| `Partition.RangesTile` | Camera.h:31-35 | the first range starts at row 0 and the last ends at `image_height`; each range ends where the next begins, and no range is inverted |
| `Partition.RangeSizes` | Camera.h:31-35 | every range but the last has `H / n` rows; the last has `H / n + H % n` |
| `Partition.Owner` | Camera.h:33-35 | every row of the image lies in the range of some thread |
| `Partition.RowHasOneOwner` | Camera.h:33-35 | a row lies in the range of thread `i` if and only if `i` is its owner, so no row is rendered twice |
| `Partition.MoreThreadsThanRows` | Camera.h:31-35 | with more threads than rows, every thread but the last gets an empty range and the last renders the whole image |
| `Partition.TenRowsThreeThreads` | Camera.h:31-35 | 10 rows on 3 threads give `[0,3)`, `[3,6)` and `[6,10)` |
| `Raster.RowsLength` | Camera.h:36 | the rows `[a, b)` hold `image_width * (b - a)` pixels, the size each worker's buffer gets |
| `Raster.RowsIndex` | Camera.h:62 | pixel `(i, j)` of rows `[a, b)` sits at slot `(j - a) * image_width + i` |
| `Raster.RowsAppend` | Camera.h:44-45 | rows `[a, m)` followed by rows `[m, b)` are rows `[a, b)` |
| `Raster.RowMajorIndexAt` | Camera.h:44-48 | in the whole image written out in row-major order, pixel `(i, j)` is at `j * image_width + i` |
| `Chunk.SlotInBuffer` | Camera.h:62 | the slot written for every pixel of the chunk lies inside the buffer sized at line 36 |
| `Chunk.SlotInjective` | Camera.h:62 | two pixels of a chunk with the same slot are the same pixel |
| `Chunk.SlotSurjective` | Camera.h:62 | every slot of the buffer is written for some pixel of the chunk |
| `Chunk.FillRow` | Camera.h:56-63 | the inner loop fills one row and leaves earlier rows unchanged, writing its slots once each, in increasing order |
| `Chunk.FillRows` | Camera.h:54-64 | the outer loop fills the buffer with rows `[start_row, end_row)` in row-major order, writing every slot exactly once, in increasing order |
| `Chunk.RenderChunk` | Camera.h:53-66 | the worker's output is its rows `[start_row, end_row)` in row-major order and has `image_width * (end_row - start_row)` pixels; every slot is written exactly once, in increasing order |
| `Render.PrefixReassembles` | Camera.h:44-48 | the outputs of the first `m` threads together are the rows from 0 up to where thread `m - 1` stops |
| `Render.WorkerOutputsReassemble` | Camera.h:44-48 | the outputs of all threads, concatenated in thread order, are the whole image in row-major order |
| `Render.RenderChunks` | Camera.h:31-42 | each thread renders its own range: entry `i` of the partial outputs is rows `[start_row_i, end_row_i)` |
| `Render.Concatenate` | Camera.h:44-48 | the image is the partial outputs concatenated in thread order |
| `Render.Render` | Camera.h:22-51 | whatever the number of threads, the pixels written out are the whole image in row-major order, `image_width * image_height` of them; the height is the clamped height of `initialize`, and the partial outputs are the threads' row ranges |

## Left out

- Threads and `join` (Camera.h:37-42) are not modelled. The workers write disjoint buffers, so the model runs them one after another in thread order.
- File output is left out: the `image.ppm` stream, the `P3` header, `write_color`, and the `clog`/`cout` progress messages (Camera.h:25-26, 46, 50, 55, 65).
- Only the `pixel_samples_scale` factor (line 46) of the pixel written at line 46 is modelled, in `Camera.EmptyScenePixelIsSky`. Gamma correction and clamping in `write_color` are not part of this model.
- The floating-point geometry of `initialize` (Camera.h:83-110) is left out: `tan`, `cross`, `unit_vector`, and the viewport and defocus vectors. `Camera.View` takes its results as given fields.
- Floating point is modelled as exact reals, so IEEE rounding is not modelled.
- `random_double`, `sample_square` and `random_in_unit_disk` (Camera.h:115, 124-131) become the `jitter` parameter.
- `hittable`, `material` and `unit_vector` are not part of this model. They are the oracles of `Shading.Scene`, and the hit record is an opaque type `H`.
- Camera.InitImageHeight: requires `aspect_ratio != 0`. The source's division then gives an infinite or NaN double, and converting that to `int` is undefined behaviour. A quotient outside the `int` range is not modelled for the same reason.
- Render.Render: requires `num_threads >= 1`. A zero count divides by zero at Camera.h:31. A negative count fails earlier, at Camera.h:28-29: `std::vector` converts it to a huge `size_t` and throws. The same holds for Render.RenderChunks.
- Render.Render: takes `image_width` as a natural number. With a negative width the source's `resize` at line 36 would be asked for a huge size and throw.
- Render.Render: does not model 32-bit overflow of `i * rows_per_thread` or `image_width * (end_row - start_row)`. The model's integers are unbounded.
- Chunk.RenderChunk: allocates and returns its buffer rather than filling the vector that `render` resized at line 36. The buffer has the same size and the same contents.
- Shading.RayColorInUnitCube: holds only for materials whose attenuations lie in `[0,1]^3`. The concrete materials are not part of this model.
- Shading.EmptySceneShowsSky, Shading.RayColorInUnitCube and Camera.EmptyScenePixelIsSky assume that `unit_vector` returns a unit vector for every direction (`Shading.NormalisesToUnit`). That includes the zero vector, where the source's normalisation is undefined.
- Shading.RayColorStructure: the base case is the code's `depth <= 0` test (Camera.h:133). `render_chunk` passes `max_depth` (line 60), and each recursive call lowers a positive depth by one (line 142). So when `max_depth >= 0`, the only non-positive depth `ray_color` sees is 0; a negative `max_depth` gives black at once, as the model does.
