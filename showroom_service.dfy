/**
 * `ShowroomService`, the class the live showroom builds: its constructor
 * assembles the scene and appends one image surface per marker to its
 * `markersGroup` field; its handlers update the cursor, forward clicks and
 * follow window resizes.
 *
 * The `clickMarker` callback is the caller's code: `OnPointerDown` returns
 * the marker it hands to that callback, `None` when it does not call it.
 */
module ShowroomLib {
  import opened Options
  import opened Dom
  import opened MarkerData
  import opened Hotspots

  class ShowroomService {
    const canvas: Canvas
    /** The panorama image the inward-facing sphere is textured with. */
    const panoramaImageUrl: string
    var camera: PerspectiveCamera
    /** The frame meshes added to the scene, in marker order. */
    var frames: seq<FrameMesh>
    /** The image surfaces the ray caster is pointed at. */
    var markersGroup: seq<ImageSurface>
    var controls: OrbitControls
    var pointer: Vec2
    var rendererSize: Viewport

    /**
     * Builds the camera, one frame and one tagged image per marker, in
     * order, and the configured orbit controls.
     */
    constructor (canvas: Canvas, panoramaImageUrl: string, markers: seq<BlindboxMarker>, v: Viewport)
      requires v.HasArea()
      ensures this.canvas == canvas && this.panoramaImageUrl == panoramaImageUrl
      ensures Placed(markers, frames, markersGroup)
      ensures camera == NewCamera(v) && rendererSize == v
      ensures controls == Configure(DefaultOrbitControls)
      ensures pointer == Vec2(0.0, 0.0)
    {
      this.canvas := canvas;
      this.panoramaImageUrl := panoramaImageUrl;
      this.camera := PerspectiveCamera(75.0, v.innerWidth / v.innerHeight, 0.1, 2000.0, Vec3(0.0, 0.0, 0.01));
      this.rendererSize := v;
      this.frames, this.markersGroup := [], [];
      new;
      var i := 0;
      while i < |markers|
        invariant 0 <= i <= |markers|
        invariant Placed(markers[..i], frames, markersGroup)
        modifies this`frames, this`markersGroup
      {
        var frameMesh := FrameMesh(FrameSize, Vec3(220.0 - (i as real) * 200.0, 100.0, 500.0));
        frames := frames + [frameMesh];
        var imageMesh := ImageSurface(markers[i], i, ImageSize, true, Vec3(0.0, 0.0, -11.0), Vec3(-1.0, 1.0, 1.0));
        markersGroup := markersGroup + [imageMesh];
        i := i + 1;
      }
      assert markers[..i] == markers;
      controls := DefaultOrbitControls;
      controls := controls.(rotateSpeed := controls.rotateSpeed * -0.5);
      controls := controls.(target := Vec3(1.0, 0.0, 1.0));
      controls := controls.(enableZoom := false);
      controls := controls.(enablePan := false);
      controls := controls.(enableDamping := true);
      pointer := Vec2(0.0, 0.0);
    }

    /** `onWindowResize`: the camera takes the new window's aspect and the renderer its size. */
    method OnWindowResize(v: Viewport)
      requires v.HasArea()
      modifies this`camera, this`rendererSize
      ensures camera == Resized(old(camera), v) && rendererSize == v
    {
      camera := camera.(aspect := v.innerWidth / v.innerHeight);
      rendererSize := v;
    }

    /** `onPointerMove`: the cursor shows whether a marker is under the pointer; nothing else changes. */
    method OnPointerMove(e: PointerEvent, v: Viewport, hits: seq<Intersection>)
      requires v.HasArea()
      requires HitsAmong(hits, markersGroup) && SortedByDistance(hits)
      modifies this`pointer, canvas`cursor
      ensures pointer == ToNdc(e, v)
      ensures canvas.cursor == CursorFor(hits)
    {
      pointer := Vec2((e.clientX / v.innerWidth) * 2.0 - 1.0, -(e.clientY / v.innerHeight) * 2.0 + 1.0);
      if |hits| > 0 {
        canvas.cursor := Pointer;
      } else {
        canvas.cursor := Grab;
      }
    }

    /**
     * `onPointerDown`: with a hit, `clickMarker` is called once with the
     * nearest hit's marker; with none it is not called. The orbit controls
     * are left as they are.
     */
    method OnPointerDown(e: PointerEvent, v: Viewport, hits: seq<Intersection>)
      returns (clicked: Option<BlindboxMarker>)
      requires v.HasArea()
      requires HitsAmong(hits, markersGroup) && SortedByDistance(hits)
      modifies this`pointer
      ensures pointer == ToNdc(e, v)
      ensures clicked.Some? <==> |hits| > 0
      ensures clicked.Some? ==> clicked.value == hits[0].surface.markerData
                                && forall k :: 0 <= k < |hits| ==> hits[0].distance <= hits[k].distance
    {
      pointer := Vec2((e.clientX / v.innerWidth) * 2.0 - 1.0, -(e.clientY / v.innerHeight) * 2.0 + 1.0);
      clicked := None;
      if |hits| > 0 {
        var intersect := hits[0];
        FirstHitIsNearest(hits);
        clicked := Some(intersect.surface.markerData);
      }
    }
  }
}
