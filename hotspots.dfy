/**
 * The panorama hotspot engine's shared rules, written once for both of its
 * copies (the `usePanorama` hook and the `ShowroomService` class): the
 * camera and orbit-control set-up, where each marker's frame and image go,
 * the pointer-to-NDC map, and how a ray-hit list is read.
 *
 * Ray casting itself belongs to three.js; here a hit list is an input, the
 * `Intersection`s three.js returns for the marker surfaces, nearest first.
 */
module Hotspots {
  import opened Options
  import opened Dom
  import opened MarkerData

  datatype Vec2 = Vec2(x: real, y: real)
  datatype Vec3 = Vec3(x: real, y: real, z: real)

  // ---------------------------------------------------------------- camera

  /** Radius of the inward-facing panorama sphere. */
  const SphereRadius: real := 1000.0

  datatype PerspectiveCamera = PerspectiveCamera(
    fov: real, aspect: real, near: real, far: real, position: Vec3)

  /** `window.innerWidth / window.innerHeight`. */
  function AspectOf(v: Viewport): (a: real)
    requires v.HasArea()
    ensures a > 0.0 && a * v.innerHeight == v.innerWidth
  {
    v.innerWidth / v.innerHeight
  }

  /** The camera both copies build: fov 75, clip planes 0.1 and 2000, nudged off the origin. */
  function NewCamera(v: Viewport): (c: PerspectiveCamera)
    requires v.HasArea()
    ensures c.aspect * v.innerHeight == v.innerWidth
    ensures c.fov == 75.0 && c.near == 0.1 && c.far == 2000.0
    ensures c.position == Vec3(0.0, 0.0, 0.01) && c.position != Vec3(0.0, 0.0, 0.0)
  {
    PerspectiveCamera(75.0, AspectOf(v), 0.1, 2000.0, Vec3(0.0, 0.0, 0.01))
  }

  /** Two reals whose product is non-negative and whose sum is positive are both non-negative. */
  lemma ProductNonNegative(a: real, b: real)
    requires a * b >= 0.0 && a + b > 0.0
    ensures a >= 0.0 && b >= 0.0
  {
  }

  /** Squared distance between two points. */
  function DistanceSq(a: Vec3, b: Vec3): real {
    (a.x - b.x) * (a.x - b.x) + (a.y - b.y) * (a.y - b.y) + (a.z - b.z) * (a.z - b.z)
  }

  /**
   * Every point `p` of the panorama sphere lies between the clip planes:
   * seen from the camera, which is only `position.z` off the centre, `p` is
   * farther than `near` and nearer than `far` (compared squared).
   */
  lemma SphereInsideClipPlanes(v: Viewport, p: Vec3)
    requires v.HasArea()
    requires DistanceSq(p, Vec3(0.0, 0.0, 0.0)) == SphereRadius * SphereRadius
    ensures var c := NewCamera(v);
      c.position.x == 0.0 && c.position.y == 0.0 && c.position.z > 0.0
      && c.near < SphereRadius - c.position.z
      && SphereRadius + c.position.z < c.far
      && c.near * c.near < DistanceSq(p, c.position) < c.far * c.far
  {
    var z := p.z;
    assert p.x * p.x + p.y * p.y + z * z == 1000000.0;
    assert z * z <= 1000000.0 by {
      assert p.x * p.x >= 0.0 && p.y * p.y >= 0.0;
    }
    assert (1000.0 - z) * (1000.0 + z) >= 0.0;
    assert -1000.0 <= z <= 1000.0 by {
      ProductNonNegative(1000.0 - z, 1000.0 + z);
    }
    assert DistanceSq(p, Vec3(0.0, 0.0, 0.01)) == 1000000.0 - 0.02 * z + 0.0001;
  }

  /** The camera after `onWindowResize`: only the aspect changes, to the new `W/H`. */
  function Resized(c: PerspectiveCamera, v: Viewport): (r: PerspectiveCamera)
    requires v.HasArea()
    ensures r.aspect * v.innerHeight == v.innerWidth
    ensures r.fov == c.fov && r.near == c.near && r.far == c.far && r.position == c.position
  {
    c.(aspect := AspectOf(v))
  }

  /** After any run of resizes the aspect is the last window's `W/H`: nothing accumulates. */
  lemma {:induction false} ResizesKeepLast(c: PerspectiveCamera, vs: seq<Viewport>)
    requires |vs| > 0 && forall k :: 0 <= k < |vs| ==> vs[k].HasArea()
    ensures ResizedAll(c, vs) == c.(aspect := AspectOf(vs[|vs| - 1]))
    decreases |vs|
  {
    if |vs| > 1 {
      ResizesKeepLast(c, vs[..|vs| - 1]);
    }
  }

  /** The camera after each of a sequence of resize events, in order. */
  function ResizedAll(c: PerspectiveCamera, vs: seq<Viewport>): PerspectiveCamera
    requires forall k :: 0 <= k < |vs| ==> vs[k].HasArea()
    decreases |vs|
  {
    if vs == [] then c else Resized(ResizedAll(c, vs[..|vs| - 1]), vs[|vs| - 1])
  }

  // ------------------------------------------------------- orbit controls

  datatype OrbitControls = OrbitControls(
    enabled: bool,
    rotateSpeed: real,
    target: Vec3,
    enableZoom: bool,
    enablePan: bool,
    enableDamping: bool)

  /** The state three.js gives a freshly constructed `OrbitControls`. */
  const DefaultOrbitControls: OrbitControls :=
    OrbitControls(true, 1.0, Vec3(0.0, 0.0, 0.0), true, true, false)

  /**
   * The set-up both copies apply after construction: rotation inverted at
   * half speed, target (1, 0, 1), zoom and pan off, damping on.
   */
  function Configure(c: OrbitControls): (r: OrbitControls)
    ensures r.enabled == c.enabled
    ensures !r.enableZoom && !r.enablePan && r.enableDamping
    ensures r.target == Vec3(1.0, 0.0, 1.0) && r.target != Vec3(0.0, 0.0, 0.0)
    ensures 2.0 * r.rotateSpeed == -c.rotateSpeed
  {
    c.(rotateSpeed := c.rotateSpeed * -0.5, target := Vec3(1.0, 0.0, 1.0),
       enableZoom := false, enablePan := false, enableDamping := true)
  }

  /**
   * Configured from three.js' defaults, the controls start enabled and turn
   * the view the opposite way to a default drag, at half its speed.
   */
  lemma ConfiguredDefaults()
    ensures var r := Configure(DefaultOrbitControls);
      r.enabled && r.rotateSpeed < 0.0
      && -r.rotateSpeed == DefaultOrbitControls.rotateSpeed / 2.0
  {
  }

  // ------------------------------------------------------------ placement

  /** A picture-frame box, 180 x 180 x 20, at a world position. */
  datatype FrameMesh = FrameMesh(size: Vec3, position: Vec3)

  /**
   * A marker's image plane, 160 x 160 and double-sided, carrying its marker
   * (`userData.markerData`), the index of the frame it is a child of, and
   * its position and scale relative to that frame.
   */
  datatype ImageSurface = ImageSurface(
    markerData: BlindboxMarker,
    frame: nat,
    size: Vec2,
    doubleSided: bool,
    position: Vec3,
    scale: Vec3)

  const FrameSize: Vec3 := Vec3(180.0, 180.0, 20.0)
  const ImageSize: Vec2 := Vec2(160.0, 160.0)

  /** Where the frame of the marker at list index `i` goes. */
  function FramePosition(i: nat): Vec3 {
    Vec3(220.0 - (i as real) * 200.0, 100.0, 500.0)
  }

  /**
   * Frames share one height and depth and step 200 units along -x per
   * index from x = 220: a later marker is strictly further along -x, and
   * two frames coincide only for the same index.
   */
  lemma FramesStrictlyDecreasing(i: nat, j: nat)
    ensures FramePosition(0).x == 220.0
    ensures FramePosition(i).y == FramePosition(j).y == 100.0
    ensures FramePosition(i).z == FramePosition(j).z == 500.0
    ensures FramePosition(i).x - FramePosition(i + 1).x == 200.0
    ensures i < j <==> FramePosition(i).x > FramePosition(j).x
    ensures FramePosition(i) == FramePosition(j) <==> i == j
  {
  }

  function FrameAt(i: nat): FrameMesh {
    FrameMesh(FrameSize, FramePosition(i))
  }

  /** The image of marker `m`, child of frame `i`: 11 units before its face, mirrored in x. */
  function ImageFor(m: BlindboxMarker, i: nat): ImageSurface {
    ImageSurface(m, i, ImageSize, true, Vec3(0.0, 0.0, -11.0), Vec3(-1.0, 1.0, 1.0))
  }

  /**
   * The state the placement loop leaves: one frame and one image per
   * marker, in marker order, image `i` tagged with marker `i` and a child of
   * frame `i`.
   */
  ghost predicate Placed(markers: seq<BlindboxMarker>, frames: seq<FrameMesh>, group: seq<ImageSurface>) {
    |frames| == |markers| && |group| == |markers|
    && (forall i :: 0 <= i < |markers| ==> frames[i] == FrameAt(i))
    && (forall i :: 0 <= i < |markers| ==> group[i] == ImageFor(markers[i], i))
  }

  /** World position of an image: the frame is neither rotated nor scaled, so it is a sum. */
  function WorldPosition(f: FrameMesh, img: ImageSurface): Vec3 {
    Vec3(f.position.x + img.position.x, f.position.y + img.position.y, f.position.z + img.position.z)
  }

  /**
   * After placement there is one surface per marker and no two coincide:
   * each carries its own marker and hangs on its own frame, frames sit at
   * pairwise different positions, and every surface's marker is an input
   * marker.
   */
  lemma PlacedSurfacesDistinct(markers: seq<BlindboxMarker>, frames: seq<FrameMesh>,
                                 group: seq<ImageSurface>)
    requires Placed(markers, frames, group)
    ensures |group| == |markers|
    ensures forall i, j :: 0 <= i < j < |group| ==> group[i] != group[j]
    ensures forall i, j :: 0 <= i < j < |frames| ==> frames[i].position.x > frames[j].position.x
    ensures forall s :: s in group ==> s.markerData in markers && s.frame < |frames|
  {
  }

  /**
   * Each image sits just in front of its frame's near face (the face towards
   * the camera at the origin), so the two never z-fight, and is mirrored
   * left to right.
   */
  lemma ImageInFrontOfFrame(markers: seq<BlindboxMarker>, frames: seq<FrameMesh>,
                            group: seq<ImageSurface>, i: nat)
    requires Placed(markers, frames, group) && i < |group|
    ensures var img := group[i]; var f := frames[img.frame];
      var w := WorldPosition(f, img);
      0.0 < w.z < f.position.z - f.size.z / 2.0
      && w.x == f.position.x && w.y == f.position.y
      && img.scale.x == -1.0 && img.doubleSided
  {
  }

  // ----------------------------------------------------------------- NDC

  /**
   * A pointer's normalized device coordinates; the y axis is flipped to
   * point up. The pixel is recoverable from the result.
   */
  function ToNdc(e: PointerEvent, v: Viewport): (p: Vec2)
    requires v.HasArea()
    ensures FromNdc(p, v) == e
  {
    Vec2((e.clientX / v.innerWidth) * 2.0 - 1.0, -(e.clientY / v.innerHeight) * 2.0 + 1.0)
  }

  /** The window pixel an NDC point comes from. */
  function FromNdc(p: Vec2, v: Viewport): PointerEvent
    requires v.HasArea()
  {
    PointerEvent((p.x + 1.0) / 2.0 * v.innerWidth, (1.0 - p.y) / 2.0 * v.innerHeight)
  }

  /** The NDC map is a bijection between window pixels and the plane. */
  lemma NdcRoundTrip(e: PointerEvent, p: Vec2, v: Viewport)
    requires v.HasArea()
    ensures FromNdc(ToNdc(e, v), v) == e
    ensures ToNdc(FromNdc(p, v), v) == p
  {
  }

  /**
   * The window maps exactly onto the NDC square: a pointer is inside the
   * window on an axis iff its NDC coordinate on that axis is in [-1, 1].
   * The top-left corner goes to (-1, 1) and the bottom-right to (1, -1).
   */
  lemma NdcInSquareIffInWindow(e: PointerEvent, v: Viewport)
    requires v.HasArea()
    ensures -1.0 <= ToNdc(e, v).x <= 1.0 <==> 0.0 <= e.clientX <= v.innerWidth
    ensures -1.0 <= ToNdc(e, v).y <= 1.0 <==> 0.0 <= e.clientY <= v.innerHeight
    ensures ToNdc(PointerEvent(0.0, 0.0), v) == Vec2(-1.0, 1.0)
    ensures ToNdc(PointerEvent(v.innerWidth, v.innerHeight), v) == Vec2(1.0, -1.0)
  {
    var w, h := v.innerWidth, v.innerHeight;
    DivMonotone(e.clientX, 0.0, w);
    DivMonotone(w, e.clientX, w);
    DivMonotone(e.clientY, 0.0, h);
    DivMonotone(h, e.clientY, h);
    assert w / w == 1.0 && h / h == 1.0 && 0.0 / w == 0.0 && 0.0 / h == 0.0;
  }

  /**
   * NDC x grows with `clientX`, and NDC y shrinks as `clientY` grows: the
   * vertical axis is inverted.
   */
  lemma NdcOrientation(e1: PointerEvent, e2: PointerEvent, v: Viewport)
    requires v.HasArea()
    ensures e1.clientX < e2.clientX <==> ToNdc(e1, v).x < ToNdc(e2, v).x
    ensures e1.clientY < e2.clientY <==> ToNdc(e1, v).y > ToNdc(e2, v).y
  {
  }

  /** Dividing by a positive number keeps strict order, both ways. */
  lemma DivMonotone(a: real, b: real, d: real)
    requires d > 0.0
    ensures a < b <==> a / d < b / d
  {
  }

  // -------------------------------------------------------------- picking

  /** One ray hit as three.js reports it: the distance along the ray and the surface hit (`intersect.object`). */
  datatype Intersection = Intersection(distance: real, surface: ImageSurface)

  /** three.js returns hits sorted by distance, nearest first. */
  ghost predicate SortedByDistance(hits: seq<Intersection>) {
    forall k :: 0 <= k < |hits| - 1 ==> hits[k].distance <= hits[k + 1].distance
  }

  /** The hits of a ray cast against the markers group are among its surfaces. */
  ghost predicate HitsAmong(hits: seq<Intersection>, group: seq<ImageSurface>) {
    forall k :: 0 <= k < |hits| ==> hits[k].surface in group
  }

  /** What a ray-hit list delivers to a click: the first hit's marker, if any. */
  function PickedMarker(hits: seq<Intersection>): (m: Option<BlindboxMarker>)
    ensures m.Some? <==> |hits| > 0
    ensures m.Some? ==> m.value == hits[0].surface.markerData
  {
    if |hits| > 0 then Some(hits[0].surface.markerData) else None
  }

  /** The hover cursor for a ray-hit list. */
  function CursorFor(hits: seq<Intersection>): (c: Cursor)
    ensures c == Pointer <==> |hits| > 0
    ensures c == Grab <==> |hits| == 0
  {
    if |hits| > 0 then Pointer else Grab
  }

  /** In a distance-sorted list the first hit is at least as near as every other. */
  lemma {:induction false} FirstHitIsNearest(hits: seq<Intersection>)
    requires |hits| > 0 && SortedByDistance(hits)
    ensures forall k :: 0 <= k < |hits| ==> hits[0].distance <= hits[k].distance
    decreases |hits|
  {
    if |hits| > 1 {
      FirstHitIsNearest(hits[..|hits| - 1]);
      assert hits[|hits| - 2].distance <= hits[|hits| - 1].distance;
    }
  }

  /**
   * Picking from a cast against placed surfaces: a marker is picked iff
   * something was hit, and then it is an input marker, carried by the
   * nearest hit.
   */
  lemma PickedIsNearestMarker(markers: seq<BlindboxMarker>, frames: seq<FrameMesh>,
                              group: seq<ImageSurface>, hits: seq<Intersection>)
    requires Placed(markers, frames, group)
    requires HitsAmong(hits, group) && SortedByDistance(hits)
    ensures PickedMarker(hits).Some? <==> |hits| > 0
    ensures PickedMarker(hits).Some? ==>
      PickedMarker(hits).value in markers
      && exists k :: 0 <= k < |hits| && hits[k].surface.markerData == PickedMarker(hits).value
                     && forall j :: 0 <= j < |hits| ==> hits[k].distance <= hits[j].distance
  {
    if |hits| > 0 {
      FirstHitIsNearest(hits);
      PlacedSurfacesDistinct(markers, frames, group);
      assert hits[0].surface in group;
    }
  }

  /**
   * With no markers there is nothing to hit: no click is ever delivered and
   * the hover cursor never becomes the pointer.
   */
  lemma NoMarkersNoPicks(frames: seq<FrameMesh>, group: seq<ImageSurface>, hits: seq<Intersection>)
    requires Placed([], frames, group) && HitsAmong(hits, group)
    ensures PickedMarker(hits) == None && CursorFor(hits) == Grab
  {
  }
}
