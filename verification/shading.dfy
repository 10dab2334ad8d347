/** The recursive light-transport evaluation `camera::ray_color` (Camera.h:132-149).
    The scene, its materials and the vector library's normalisation are not part
    of this model; they reach the shading code as function values. */
module Shading {

  import opened Wrappers
  import opened Vectors

  datatype Ray = Ray(origin: Point, direction: Vec3)

  datatype Bound = Finite(value: real) | Infinity

  /** The range of parametric distances at which a hit is accepted. */
  datatype Interval = Interval(min: real, max: Bound)

  /** The range `ray_color` hands to the scene: hits nearer than 0.001 are
      ignored, so a scattered ray does not re-hit its own surface, and there
      is no far bound. */
  const ShadingRange: Interval := Interval(0.001, Infinity)

  /** An outgoing ray together with the attenuation the surface applies to it. */
  datatype Scattered = Scattered(attenuation: Color, ray: Ray)

  /** What shading consumes: the scene's `hit` (yielding a hit record of type
      `H`), the material dispatch `scatter` on that record (`None` is absorption),
      and `unit_vector`. */
  datatype Scene<!H> = Scene(
    hit: (Ray, Interval) -> Option<H>,
    scatter: (Ray, H) -> Option<Scattered>,
    unitVector: Vec3 -> Vec3)

  /** The background seen by a ray that misses everything: a blend from white
      (looking down) to sky blue (looking up), by the unit direction's height. */
  function Background(unitY: real): (c: Color)
    ensures unitY == -1.0 ==> c == White
    ensures unitY == 1.0 ==> c == SkyBlue
    ensures -1.0 <= unitY <= 1.0 ==> InSkyGradient(c)
  {
    var a := 0.5 * (unitY + 1.0);
    Add(Scale(1.0 - a, White), Scale(a, SkyBlue))
  }

  /** The converse of `Background`'s gradient clause: the height of the unit
      direction whose background is the sky-gradient colour `c`. */
  function GradientHeight(c: Color): (unitY: real)
    requires InSkyGradient(c)
    ensures -1.0 <= unitY <= 1.0 && Background(unitY) == c
  {
    3.0 - 4.0 * c.x
  }

  /** Distinct heights show distinct background colours. */
  lemma BackgroundInjective(y1: real, y2: real)
    requires Background(y1) == Background(y2)
    ensures y1 == y2
  {
  }

  function RayColor<H>(r: Ray, depth: int, scene: Scene<H>): Color
    decreases depth
  {
    if depth <= 0 then Black
    else
      match scene.hit(r, ShadingRange)
      case None => Background(scene.unitVector(r.direction).y)
      case Some(rec) =>
        match scene.scatter(r, rec)
        case None => Black
        case Some(s) => Mul(s.attenuation, RayColor(s.ray, depth - 1, scene))
  }

  /** The four outcomes of one `ray_color` call. */
  lemma RayColorStructure<H>(r: Ray, depth: int, scene: Scene<H>)
    ensures depth <= 0 ==> RayColor(r, depth, scene) == Black
    ensures depth > 0 && scene.hit(r, ShadingRange).None? ==>
      RayColor(r, depth, scene) == Background(scene.unitVector(r.direction).y)
    ensures depth > 0 && scene.hit(r, ShadingRange).Some?
            && scene.scatter(r, scene.hit(r, ShadingRange).value).None? ==>
      RayColor(r, depth, scene) == Black
    ensures depth > 0 && scene.hit(r, ShadingRange).Some?
            && scene.scatter(r, scene.hit(r, ShadingRange).value).Some? ==>
      var s := scene.scatter(r, scene.hit(r, ShadingRange).value).value;
      RayColor(r, depth, scene) == Mul(s.attenuation, RayColor(s.ray, depth - 1, scene))
  {
  }

  /** How a light path ends: it leaves the scene (seeing the background at the
      given unit-direction height), a surface absorbs it, or the depth runs out. */
  datatype Ending = Escaped(unitY: real) | Absorbed | Truncated

  /** The attenuations met along a path, in order, and how it ends. */
  datatype Path = Path(attenuations: seq<Color>, end: Ending)

  function Cap(depth: int): nat {
    if depth <= 0 then 0 else depth
  }

  /** The path `ray_color` follows from `r` with `depth` bounces left. */
  function Trace<H>(r: Ray, depth: int, scene: Scene<H>): (p: Path)
    decreases depth
    ensures |p.attenuations| <= Cap(depth)
    ensures p.end.Truncated? <==> |p.attenuations| == Cap(depth)
  {
    if depth <= 0 then Path([], Truncated)
    else
      match scene.hit(r, ShadingRange)
      case None => Path([], Escaped(scene.unitVector(r.direction).y))
      case Some(rec) =>
        match scene.scatter(r, rec)
        case None => Path([], Absorbed)
        case Some(s) =>
          var rest := Trace(s.ray, depth - 1, scene);
          Path([s.attenuation] + rest.attenuations, rest.end)
  }

  /** Product of a sequence of attenuations. */
  function Throughput(attenuations: seq<Color>): Color {
    if |attenuations| == 0 then White
    else Mul(attenuations[0], Throughput(attenuations[1..]))
  }

  function EndColor(e: Ending): Color {
    match e
    case Escaped(y) => Background(y)
    case Absorbed => Black
    case Truncated => Black
  }

  /** Colour carried back along a path: its attenuations applied to the colour
      at its end. */
  function PathColor(p: Path): Color {
    Mul(Throughput(p.attenuations), EndColor(p.end))
  }

  /** `ray_color` is the colour of the path it follows. */
  lemma {:induction false} RayColorIsPathColor<H>(r: Ray, depth: int, scene: Scene<H>)
    ensures RayColor(r, depth, scene) == PathColor(Trace(r, depth, scene))
    decreases depth
  {
    if depth > 0 {
      match scene.hit(r, ShadingRange)
      case None =>
      case Some(rec) =>
        match scene.scatter(r, rec)
        case None =>
        case Some(s) =>
          var rest := Trace(s.ray, depth - 1, scene);
          RayColorIsPathColor(s.ray, depth - 1, scene);
          var atts := [s.attenuation] + rest.attenuations;
          assert atts[1..] == rest.attenuations;
          MulAssociative(s.attenuation, Throughput(rest.attenuations), EndColor(rest.end));
    }
  }

  ghost predicate AttenuationsInUnitCube<H(!new)>(scene: Scene<H>) {
    forall r, rec :: scene.scatter(r, rec).Some? ==> InUnitCube(scene.scatter(r, rec).value.attenuation)
  }

  ghost predicate NormalisesToUnit<H>(scene: Scene<H>) {
    forall d :: IsUnit(scene.unitVector(d))
  }

  ghost predicate HasNoGeometry<H>(scene: Scene<H>) {
    forall r, range :: scene.hit(r, range).None?
  }

  /** A ray that misses everything shows a colour of the sky gradient. */
  lemma MissShowsSky<H>(r: Ray, depth: int, scene: Scene<H>)
    requires depth > 0 && scene.hit(r, ShadingRange).None?
    requires IsUnit(scene.unitVector(r.direction))
    ensures RayColor(r, depth, scene) == Background(scene.unitVector(r.direction).y)
    ensures InSkyGradient(RayColor(r, depth, scene))
  {
    UnitComponentBounded(scene.unitVector(r.direction));
  }

  /** In a scene with no geometry every ray with depth left shows the sky. */
  lemma EmptySceneShowsSky<H>(r: Ray, depth: int, scene: Scene<H>)
    requires HasNoGeometry(scene) && NormalisesToUnit(scene)
    requires depth > 0
    ensures RayColor(r, depth, scene) == Background(scene.unitVector(r.direction).y)
    ensures InSkyGradient(RayColor(r, depth, scene))
  {
    assert scene.hit(r, ShadingRange).None?;
    MissShowsSky(r, depth, scene);
  }

  /** When no surface amplifies light, no ray's colour leaves the unit cube. */
  lemma {:induction false} RayColorInUnitCube<H(!new)>(r: Ray, depth: int, scene: Scene<H>)
    requires AttenuationsInUnitCube(scene) && NormalisesToUnit(scene)
    ensures InUnitCube(RayColor(r, depth, scene))
    decreases depth
  {
    if depth > 0 {
      match scene.hit(r, ShadingRange)
      case None =>
        MissShowsSky(r, depth, scene);
      case Some(rec) =>
        match scene.scatter(r, rec)
        case None =>
        case Some(s) =>
          RayColorInUnitCube(s.ray, depth - 1, scene);
          MulInUnitCube(s.attenuation, RayColor(s.ray, depth - 1, scene));
    }
  }
}
