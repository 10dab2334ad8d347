/** The camera's discrete glue: the image-height clamp of `initialize`
    (Camera.h:80-81), ray generation in `get_ray` (Camera.h:114-131) and the
    per-pixel sample sum of `render_chunk` (Camera.h:57-61). The floating-point
    viewport geometry of `initialize` and the random sampling are not part of
    this model: their results arrive as values and as a jitter function. */
module Camera {

  import opened Vectors
  import opened Shading

  /** C++'s conversion of a double to `int`, which truncates toward zero. */
  function TruncToInt(x: real): (n: int)
    ensures 0.0 <= x ==> n as real <= x < n as real + 1.0
    ensures x < 0.0 ==> n as real - 1.0 < x <= n as real
  {
    if x >= 0.0 then x.Floor else -((-x).Floor)
  }

  function Max(a: int, b: int): int {
    if a < b then b else a
  }

  /** The image height `initialize` derives from the width and aspect ratio. */
  function InitImageHeight(imageWidth: int, aspectRatio: real): (h: int)
    requires aspectRatio != 0.0
    ensures h >= 1
    ensures h == Max(1, (imageWidth as real / aspectRatio).Floor)
  {
    var h := TruncToInt(imageWidth as real / aspectRatio);
    if h < 1 then 1 else h
  }

  /** The derived camera state `get_ray` reads. */
  datatype View = View(
    center: Point,
    pixel00: Point,
    pixelDeltaU: Vec3,
    pixelDeltaV: Vec3,
    defocusAngle: real,
    defocusDiskU: Vec3,
    defocusDiskV: Vec3)

  /** The random draws behind one sample: the `sample_square` offset within the
      pixel and the `random_in_unit_disk` point on the lens. */
  datatype Jitter = Jitter(offset: (real, real), disk: (real, real))

  /** The point on the viewport a sample of pixel (i, j) passes through. */
  function PixelSample(v: View, i: int, j: int, offset: (real, real)): Point {
    Add(Add(v.pixel00, Scale(i as real + offset.0, v.pixelDeltaU)),
        Scale(j as real + offset.1, v.pixelDeltaV))
  }

  function DefocusDiskSample(v: View, p: (real, real)): Point {
    Add(Add(v.center, Scale(p.0, v.defocusDiskU)), Scale(p.1, v.defocusDiskV))
  }

  function GetRay(v: View, i: int, j: int, jitter: Jitter): (r: Ray)
    ensures v.defocusAngle <= 0.0 ==> r.origin == v.center
    ensures v.defocusAngle > 0.0 ==> r.origin == DefocusDiskSample(v, jitter.disk)
    ensures Add(r.origin, r.direction) == PixelSample(v, i, j, jitter.offset)
  {
    var pixelSample := PixelSample(v, i, j, jitter.offset);
    var origin := if v.defocusAngle <= 0.0 then v.center else DefocusDiskSample(v, jitter.disk);
    Ray(origin, Sub(pixelSample, origin))
  }

  /** With depth of field off the lens sample is irrelevant: every sample of a
      pixel with the same offset is the same ray from the centre. */
  lemma FocusOffIgnoresLens(v: View, i: int, j: int, a: Jitter, b: Jitter)
    requires v.defocusAngle <= 0.0 && a.offset == b.offset
    ensures GetRay(v, i, j, a) == GetRay(v, i, j, b)
    ensures GetRay(v, i, j, a).origin == v.center
  {
  }

  /** Everything one pixel's colour depends on. */
  datatype Shader<!H> = Shader(
    view: View,
    scene: Scene<H>,
    samplesPerPixel: int,
    maxDepth: int,
    jitter: (int, int, int) -> Jitter)

  /** Colour of sample `s` of pixel (i, j). */
  function SampleColor<H>(c: Shader<H>, i: int, j: int, s: int): Color {
    RayColor(GetRay(c.view, i, j, c.jitter(i, j, s)), c.maxDepth, c.scene)
  }

  /** Sum of the first `n` samples of pixel (i, j). */
  function SampleSum<H>(c: Shader<H>, i: int, j: int, n: int): Color
    decreases n
  {
    if n <= 0 then Black else Add(SampleSum(c, i, j, n - 1), SampleColor(c, i, j, n - 1))
  }

  /** The unscaled colour `render_chunk` stores for pixel (i, j). */
  function PixelColor<H>(c: Shader<H>, i: int, j: int): Color {
    SampleSum(c, i, j, c.samplesPerPixel)
  }

  method AccumulatePixel<H>(c: Shader<H>, i: int, j: int) returns (pixel: Color)
    ensures pixel == PixelColor(c, i, j)
  {
    pixel := Black;
    var sample := 0;
    while sample < c.samplesPerPixel
      invariant sample == 0 || sample <= c.samplesPerPixel
      invariant pixel == SampleSum(c, i, j, sample)
    {
      var r := GetRay(c.view, i, j, c.jitter(i, j, sample));
      pixel := Add(pixel, RayColor(r, c.maxDepth, c.scene));
      sample := sample + 1;
    }
  }

  lemma {:induction false} SampleSumInScaledSky<H>(c: Shader<H>, i: int, j: int, n: nat)
    requires forall s :: 0 <= s < n ==> InSkyGradient(SampleColor(c, i, j, s))
    ensures InScaledSkyGradient(SampleSum(c, i, j, n), n as real)
  {
    if n > 0 {
      SampleSumInScaledSky(c, i, j, n - 1);
    }
  }

  lemma EmptySceneSamplesAreSky<H>(c: Shader<H>, i: int, j: int, n: nat)
    requires HasNoGeometry(c.scene) && NormalisesToUnit(c.scene) && c.maxDepth >= 1
    ensures forall s :: 0 <= s < n ==> InSkyGradient(SampleColor(c, i, j, s))
  {
    forall s | 0 <= s < n
      ensures InSkyGradient(SampleColor(c, i, j, s))
    {
      EmptySceneShowsSky(GetRay(c.view, i, j, c.jitter(i, j, s)), c.maxDepth, c.scene);
    }
  }

  /** In a scene with no geometry, each pixel scaled by `pixel_samples_scale`
      is a colour of the sky gradient, whatever the jitter. */
  lemma EmptyScenePixelIsSky<H>(c: Shader<H>, i: int, j: int)
    requires HasNoGeometry(c.scene) && NormalisesToUnit(c.scene)
    requires c.samplesPerPixel >= 1 && c.maxDepth >= 1
    ensures InSkyGradient(Scale(1.0 / c.samplesPerPixel as real, PixelColor(c, i, j)))
  {
    EmptySceneSamplesAreSky(c, i, j, c.samplesPerPixel);
    SampleSumInScaledSky(c, i, j, c.samplesPerPixel);
    ScaledSkyAverage(PixelColor(c, i, j), c.samplesPerPixel as real);
  }
}
