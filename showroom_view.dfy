/**
 * The `Showroom` component: its canvas ref callback `initShowroom` builds
 * one `ShowroomService` over the static marker list, guarded by the
 * `hasInit` ref, and the service's click callback hands the picked marker
 * to the parent's `setCurrentMarker`.
 */
module ShowroomView {
  import opened Options
  import opened Dom
  import opened MarkerData
  import opened Hotspots
  import opened ShowroomLib

  class Showroom {
    /** `blindboxMarkers`, the static marker list. */
    const markers: seq<BlindboxMarker>
    /** The imported panorama image. */
    const panoramaImage: string
    /** `hasInit.current`. */
    var hasInit: bool
    /** The service `initShowroom` built, null until then. */
    var service: ShowroomService?
    /** The parent's `currentMarker` state, written through `setCurrentMarker`. */
    var currentMarker: Option<BlindboxMarker>
    /** How many services `initShowroom` has built for this component. */
    ghost var servicesBuilt: nat

    /** The guard is set exactly when one service over the static markers has been built. */
    ghost predicate Valid()
      reads this, service
    {
      (hasInit <==> service != null)
      && servicesBuilt == (if hasInit then 1 else 0)
      && (service != null ==> Placed(markers, service.frames, service.markersGroup))
    }

    /** Mounting over the static list, whose marker id is the one drawn at load time. */
    constructor (randomId: string, panoramaImage: string)
      ensures Valid() && !hasInit && service == null && currentMarker == None
      ensures markers == BlindboxMarkers(randomId) && this.panoramaImage == panoramaImage
    {
      markers := BlindboxMarkers(randomId);
      this.panoramaImage := panoramaImage;
      hasInit := false;
      service := null;
      currentMarker := None;
      servicesBuilt := 0;
    }

    /**
     * `initShowroom`: the first call builds the service over the static
     * markers and sets the guard; every later call returns at once.
     */
    method InitShowroom(canvas: Canvas, v: Viewport)
      requires Valid() && v.HasArea()
      modifies this
      ensures Valid()
      ensures old(hasInit) ==> unchanged(this)
      ensures !old(hasInit) ==>
        hasInit && fresh(service) && service.canvas == canvas && service.panoramaImageUrl == panoramaImage
        && service.camera == NewCamera(v) && currentMarker == old(currentMarker)
    {
      if hasInit {
        return;
      }
      service := new ShowroomService(canvas, panoramaImage, markers, v);
      servicesBuilt := servicesBuilt + 1;
      hasInit := true;
    }

    /** The click callback: the picked marker goes to `setCurrentMarker` unchanged. */
    method SetCurrentMarker(marker: BlindboxMarker)
      modifies this`currentMarker
      ensures currentMarker == Some(marker)
    {
      currentMarker := Some(marker);
    }

    /**
     * A pointer-down on the canvas of a built showroom: the service's
     * handler picks, and a pick becomes the parent's current marker; a miss
     * leaves the current marker alone.
     */
    method PointerDown(e: PointerEvent, v: Viewport, hits: seq<Intersection>)
      requires Valid() && service != null && v.HasArea()
      requires HitsAmong(hits, service.markersGroup) && SortedByDistance(hits)
      modifies this`currentMarker, service`pointer
      ensures Valid()
      ensures currentMarker == if |hits| > 0 then PickedMarker(hits) else old(currentMarker)
      ensures |hits| > 0 ==> currentMarker.Some? && currentMarker.value in markers
    {
      var clicked := service.OnPointerDown(e, v, hits);
      if clicked.Some? {
        SetCurrentMarker(clicked.value);
      }
      PickedIsNearestMarker(markers, service.frames, service.markersGroup, hits);
    }
  }

  /**
   * Calling `initShowroom` twice builds one service: the second call keeps
   * the first service, which holds one surface per static marker.
   */
  method InitTwiceBuildsOnce(randomId: string, image: string, canvas: Canvas, v: Viewport)
    returns (first: ShowroomService?, second: ShowroomService?)
    requires v.HasArea()
    ensures first != null && first == second
    ensures |second.markersGroup| == 1 && second.markersGroup[0].markerData.id == randomId
  {
    var view := new Showroom(randomId, image);
    view.InitShowroom(canvas, v);
    first := view.service;
    view.InitShowroom(canvas, v);
    second := view.service;
  }
}
