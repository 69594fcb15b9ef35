/**
 * The `usePanorama` hook: a one-shot effect that builds the panorama scene
 * on a canvas and registers pointer and resize handlers that close over
 * what it built. The closure's state is the `PanoramaScene` object; the
 * hook's own state is its initialised ref and its `markerId` state.
 */
module Hooks {
  import opened Options
  import opened Dom
  import opened MarkerData
  import opened Hotspots
  import opened Utils

  /** What one run of the effect creates and its handlers share. */
  class PanoramaScene {
    const canvas: Canvas
    var camera: PerspectiveCamera
    var controls: OrbitControls
    /** The frame meshes added to the scene, in marker order. */
    const frames: seq<FrameMesh>
    /** The image surfaces the ray caster is pointed at. */
    const markersGroup: seq<ImageSurface>
    var pointer: Vec2
    var rendererSize: Viewport
    /** The hook's `markerId` as it was when the effect ran: the handlers read this one. */
    const observedMarkerId: Option<string>

    constructor (canvas: Canvas, camera: PerspectiveCamera, controls: OrbitControls,
                 frames: seq<FrameMesh>, markersGroup: seq<ImageSurface>,
                 rendererSize: Viewport, observedMarkerId: Option<string>)
      ensures this.canvas == canvas && this.camera == camera && this.controls == controls
      ensures this.frames == frames && this.markersGroup == markersGroup
      ensures this.pointer == Vec2(0.0, 0.0) && this.rendererSize == rendererSize
      ensures this.observedMarkerId == observedMarkerId
    {
      this.canvas := canvas;
      this.camera := camera;
      this.controls := controls;
      this.frames := frames;
      this.markersGroup := markersGroup;
      this.pointer := Vec2(0.0, 0.0);
      this.rendererSize := rendererSize;
      this.observedMarkerId := observedMarkerId;
    }
  }

  /**
   * The effect's `forEach` over the markers: a frame at `220 - 200 i` per
   * marker, and an image tagged with the marker as that frame's child,
   * pushed onto the local `markersGroup`.
   */
  method PlaceMarkers(markers: seq<BlindboxMarker>) returns (frames: seq<FrameMesh>, markersGroup: seq<ImageSurface>)
    ensures Placed(markers, frames, markersGroup)
  {
    frames, markersGroup := [], [];
    var i := 0;
    while i < |markers|
      invariant 0 <= i <= |markers|
      invariant Placed(markers[..i], frames, markersGroup)
    {
      var frameMesh := FrameMesh(FrameSize, Vec3(220.0 - (i as real) * 200.0, 100.0, 500.0));
      var imageMesh := ImageSurface(markers[i], i, ImageSize, true, Vec3(0.0, 0.0, -11.0), Vec3(-1.0, 1.0, 1.0));
      frames := frames + [frameMesh];
      markersGroup := markersGroup + [imageMesh];
      i := i + 1;
    }
    assert markers[..i] == markers;
  }

  class PanoramaHook {
    /** `isInitializedRef.current`. */
    var isInitialized: bool
    /** The hook's `markerId` state. */
    var markerId: Option<string>
    /** The scene the effect built; null until it has run to completion. */
    var scene: PanoramaScene?
    /** How many scenes the effect has built for this hook. */
    ghost var scenesBuilt: nat

    /** The initialised flag is set exactly when one scene has been built. */
    ghost predicate Valid()
      reads this
    {
      (isInitialized <==> scene != null)
      && scenesBuilt == (if isInitialized then 1 else 0)
    }

    /** Mounting: the ref starts false and `markerId` undefined. */
    constructor ()
      ensures Valid() && !isInitialized && markerId == None && scene == null
    {
      isInitialized := false;
      markerId := None;
      scene := null;
      scenesBuilt := 0;
    }

    /**
     * The effect body. Without a canvas, or once initialised, it does
     * nothing; otherwise it builds the camera, the frames and images, the
     * configured orbit controls, and sets the initialised flag.
     */
    method Effect(canvas: Canvas?, v: Viewport, markers: seq<BlindboxMarker>)
      requires Valid() && v.HasArea()
      modifies this
      ensures Valid()
      ensures canvas == null || old(isInitialized) ==> unchanged(this)
      ensures canvas != null && !old(isInitialized) ==>
        isInitialized && fresh(scene) && scene.canvas == canvas
        && Placed(markers, scene.frames, scene.markersGroup)
        && scene.camera == NewCamera(v)
        && scene.controls == Configure(DefaultOrbitControls)
        && scene.rendererSize == v
        && scene.observedMarkerId == markerId
      ensures markerId == old(markerId)
    {
      if canvas == null || isInitialized {
        return;
      }
      var camera := PerspectiveCamera(75.0, v.innerWidth / v.innerHeight, 0.1, 2000.0, Vec3(0.0, 0.0, 0.01));
      var frames, markersGroup := PlaceMarkers(markers);
      var controls := DefaultOrbitControls;
      controls := controls.(rotateSpeed := controls.rotateSpeed * -0.5);
      controls := controls.(target := Vec3(1.0, 0.0, 1.0));
      controls := controls.(enableZoom := false);
      controls := controls.(enablePan := false);
      controls := controls.(enableDamping := true);
      scene := new PanoramaScene(canvas, camera, controls, frames, markersGroup, v, markerId);
      scenesBuilt := scenesBuilt + 1;
      isInitialized := true;
    }

    /** `onWindowResize`: the camera takes the new window's aspect and the renderer its size. */
    method OnWindowResize(v: Viewport)
      requires Valid() && scene != null && v.HasArea()
      modifies scene`camera, scene`rendererSize
      ensures scene.camera == Resized(old(scene.camera), v) && scene.rendererSize == v
    {
      scene.camera := scene.camera.(aspect := v.innerWidth / v.innerHeight);
      scene.rendererSize := v;
    }

    /** `onPointerMove`: the cursor shows whether a marker is under the pointer; nothing else changes. */
    method OnPointerMove(e: PointerEvent, v: Viewport, hits: seq<Intersection>)
      requires Valid() && scene != null && v.HasArea()
      requires HitsAmong(hits, scene.markersGroup) && SortedByDistance(hits)
      modifies scene`pointer, scene.canvas`cursor
      ensures scene.pointer == ToNdc(e, v)
      ensures scene.canvas.cursor == CursorFor(hits)
    {
      scene.pointer := Vec2((e.clientX / v.innerWidth) * 2.0 - 1.0, -(e.clientY / v.innerHeight) * 2.0 + 1.0);
      if |hits| > 0 {
        scene.canvas.cursor := Pointer;
      } else {
        scene.canvas.cursor := Grab;
      }
    }

    /**
     * `onPointerDown` as written: a hit while the marker id the handler
     * sees is falsy disables the controls and records the nearest hit's
     * marker id; anything else enables the controls. The id it sees is the
     * one captured when the effect ran, not the current state.
     */
    method OnPointerDown(e: PointerEvent, v: Viewport, hits: seq<Intersection>)
      requires Valid() && scene != null && v.HasArea()
      requires HitsAmong(hits, scene.markersGroup) && SortedByDistance(hits)
      modifies this`markerId, scene`pointer, scene`controls
      ensures scene.pointer == ToNdc(e, v)
      ensures scene.controls == old(scene.controls).(enabled := scene.controls.enabled)
      ensures |hits| > 0 && !Truthy(scene.observedMarkerId) ==>
        !scene.controls.enabled && markerId == Some(hits[0].surface.markerData.id)
      ensures !(|hits| > 0 && !Truthy(scene.observedMarkerId)) ==>
        scene.controls.enabled && markerId == old(markerId)
    {
      scene.pointer := Vec2((e.clientX / v.innerWidth) * 2.0 - 1.0, -(e.clientY / v.innerHeight) * 2.0 + 1.0);
      if |hits| > 0 && !Truthy(scene.observedMarkerId) {
        var intersect := hits[0];
        scene.controls := scene.controls.(enabled := false);
        markerId := Some(intersect.surface.markerData.id);
      } else {
        scene.controls := scene.controls.(enabled := true);
      }
    }

    /**
     * `onPointerDown` with the lock read from the current `markerId`: a hit
     * is taken only while no marker is open, so an open marker's id is never
     * replaced by another pick. Only the id is kept: the `else` branch still
     * re-enables the controls while that marker is open.
     */
    method OnPointerDownLive(e: PointerEvent, v: Viewport, hits: seq<Intersection>)
      requires Valid() && scene != null && v.HasArea()
      requires HitsAmong(hits, scene.markersGroup) && SortedByDistance(hits)
      modifies this`markerId, scene`pointer, scene`controls
      ensures scene.pointer == ToNdc(e, v)
      ensures scene.controls == old(scene.controls).(enabled := scene.controls.enabled)
      ensures |hits| > 0 && !Truthy(old(markerId)) ==>
        !scene.controls.enabled && markerId == Some(hits[0].surface.markerData.id)
      ensures !(|hits| > 0 && !Truthy(old(markerId))) ==>
        scene.controls.enabled && markerId == old(markerId)
      ensures Truthy(old(markerId)) ==> markerId == old(markerId)
    {
      scene.pointer := Vec2((e.clientX / v.innerWidth) * 2.0 - 1.0, -(e.clientY / v.innerHeight) * 2.0 + 1.0);
      if |hits| > 0 && !Truthy(markerId) {
        var intersect := hits[0];
        scene.controls := scene.controls.(enabled := false);
        markerId := Some(intersect.surface.markerData.id);
      } else {
        scene.controls := scene.controls.(enabled := true);
      }
    }
  }

  /**
   * As written, the lock never engages: after mounting, the effect captures
   * `markerId` while it is still undefined, so a pick of marker 1 made while
   * marker 0 is open still goes through and replaces it.
   */
  method SecondPickReplacesOpenMarker(canvas: Canvas, v: Viewport, markers: seq<BlindboxMarker>, e: PointerEvent)
    returns (first: Option<string>, second: Option<string>)
    requires v.HasArea() && |markers| >= 2
    ensures first == Some(markers[0].id) && second == Some(markers[1].id)
  {
    var hook := new PanoramaHook();
    hook.Effect(canvas, v, markers);
    var scene := hook.scene;
    hook.OnPointerDown(e, v, [Intersection(1.0, scene.markersGroup[0])]);
    first := hook.markerId;
    hook.OnPointerDown(e, v, [Intersection(1.0, scene.markersGroup[1])]);
    second := hook.markerId;
  }

  /**
   * With the lock read from the current state, the same two picks leave
   * the first marker open.
   */
  method SecondPickIgnoredWhileOpen(canvas: Canvas, v: Viewport, markers: seq<BlindboxMarker>, e: PointerEvent)
    returns (first: Option<string>, second: Option<string>)
    requires v.HasArea() && |markers| >= 2 && markers[0].id != ""
    ensures first == Some(markers[0].id) && second == first
  {
    var hook := new PanoramaHook();
    hook.Effect(canvas, v, markers);
    var scene := hook.scene;
    hook.OnPointerDownLive(e, v, [Intersection(1.0, scene.markersGroup[0])]);
    first := hook.markerId;
    hook.OnPointerDownLive(e, v, [Intersection(1.0, scene.markersGroup[1])]);
    second := hook.markerId;
  }

  /**
   * On the static list, which holds one marker, the as-written lock shows
   * only in the controls: a second click on the open marker disables the
   * camera again, and the id stays the drawn one.
   */
  method RepeatPickOnStaticList(randomId: string, canvas: Canvas, v: Viewport, e: PointerEvent)
    returns (id: Option<string>, enabled: bool)
    requires v.HasArea()
    ensures id == Some(randomId) && !enabled
  {
    var hook := new PanoramaHook();
    hook.Effect(canvas, v, BlindboxMarkers(randomId));
    var scene := hook.scene;
    hook.OnPointerDown(e, v, [Intersection(1.0, scene.markersGroup[0])]);
    hook.OnPointerDown(e, v, [Intersection(1.0, scene.markersGroup[0])]);
    id := hook.markerId;
    enabled := scene.controls.enabled;
  }

  /**
   * With the lock read from the current state, the same two clicks keep the
   * drawn id and the second one re-enables the camera, unless the drawn id
   * is empty and so never locks.
   */
  method RepeatPickOnStaticListLive(randomId: string, canvas: Canvas, v: Viewport, e: PointerEvent)
    returns (id: Option<string>, enabled: bool)
    requires v.HasArea()
    ensures id == Some(randomId)
    ensures enabled <==> randomId != ""
  {
    var hook := new PanoramaHook();
    hook.Effect(canvas, v, BlindboxMarkers(randomId));
    var scene := hook.scene;
    hook.OnPointerDownLive(e, v, [Intersection(1.0, scene.markersGroup[0])]);
    hook.OnPointerDownLive(e, v, [Intersection(1.0, scene.markersGroup[0])]);
    id := hook.markerId;
    enabled := scene.controls.enabled;
  }

  /**
   * Running the effect again on a hook that is already initialised builds
   * nothing: the scene the first run built is the one that stays.
   */
  method EffectTwiceBuildsOnce(canvas: Canvas, v: Viewport, markers: seq<BlindboxMarker>)
    returns (first: PanoramaScene?, second: PanoramaScene?)
    requires v.HasArea()
    ensures first != null && first == second
    ensures |second.markersGroup| == |markers|
  {
    var hook := new PanoramaHook();
    hook.Effect(canvas, v, markers);
    first := hook.scene;
    hook.Effect(canvas, v, markers);
    second := hook.scene;
  }
}
