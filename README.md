# NFT showroom: panorama hotspot engine

A Dafny model of the hotspot engine of a 360° panorama showroom. Picture
frames hang in the panorama, one per NFT blind-box marker. Clicking a
frame's image opens that marker's minting flow.

The engine exists twice in the repository:

- the `usePanorama` React hook, whose one-shot effect builds the scene on a
  canvas;
- the `ShowroomService` class, which the live `Showroom` component
  constructs once, behind its `hasInit` ref.

Both copies do the same things:

- build a camera with fov 75, clip planes 0.1 and 2000, sitting at z = 0.01
  inside a radius-1000 sphere;
- place one frame per marker at `(220 - 200 i, 100, 500)`;
- hang a mirrored image of the marker on each frame, tagged with that
  marker, and collect the images in a `markersGroup`;
- configure orbit controls: rotation inverted at half speed, target
  (1, 0, 1), zoom and pan off, damping on;
- map pointer pixels to normalized device coordinates (NDC);
- react to ray hits against `markersGroup`.

On pointer-move, both set the cursor to "pointer" over a hit and to "grab"
otherwise. They differ on pointer-down:

- The hook disables the controls and records the nearest hit's marker id,
  but only while the `markerId` it sees is falsy. Otherwise it re-enables
  the controls.
- The class calls its `clickMarker` callback with the nearest hit's marker,
  and never touches the controls. Unlike the hook, the class neither
  disables the controls on a hit nor re-enables them on a miss; the model
  follows the class.

Two URL helpers are modelled too. `transformIpfsToPinataUrl` rewrites an
IPFS URI to `/ipfs/<last segment>`. `getOpenseaTestnetUrl` builds an
OpenSea testnet account or asset link.

How the model is laid out:

- `options.dfy` holds `Option`, the TypeScript `T | undefined`.
- `marker_data.dfy` holds the marker record and the static list.
- `dom.dfy` holds the window size, the pointer event, the cursor and the
  canvas.
- `utils.dfy` holds the URL helpers. `Split`/`Join` model JavaScript's
  `split`/`join`, and `Last` models `pop`.
- `hotspots.dfy` holds the rules both copies share: camera, controls,
  placement, NDC and reading a hit list.
- `hooks.dfy` holds the hook. `PanoramaScene` is the state the effect's
  closure captures.
- `showroom_service.dfy` holds the service class.
- `showroom_view.dfy` holds the `Showroom` component.

Ray casting belongs to three.js. A hit list is therefore an input: the
`Intersection`s three.js returns for `markersGroup`, sorted nearest first.
Every handler requires that its hits are surfaces of its own
`markersGroup`. The window size (`window.innerWidth`/`innerHeight`) is a
`Viewport` parameter with positive sides. Geometry is over `real`. The
`clickMarker` callback is modelled by `ShowroomService.OnPointerDown`
returning the marker it passes to the callback, or `None` when it makes no
call. Mesh objects are values: an image records the index of the frame it
is a child of, and `markersGroup[i]` stands for the same object as the
child of frame `i`.

## Model

| member | source | states |
|---|---|---|
| `Utils.Split` | src/utils/index.ts:9 | `split` always yields at least one piece, even for the empty string |
| `Utils.SplitPiecesFree` | src/utils/index.ts:9 | no piece of a split contains the separator |
| `Utils.JoinSplit` | src/utils/index.ts:9 | joining the pieces of a split with the separator gives back the string |
| `Utils.SplitJoin` | src/utils/index.ts:9 | splitting separator-free pieces joined by the separator gives back exactly those pieces |
| `Utils.LastSegment` | src/utils/index.ts:9 | `split("/").pop()` never contains a slash; `LastSegmentFacts` pins it down as the longest slash-free suffix |
| `Utils.LastSegmentFacts` | src/utils/index.ts:9 | `split("/").pop()` has no slash and is a suffix of the input; it is the whole input iff the input has no slash, and otherwise a slash precedes it |
| `Utils.TransformIpfsToPinataUrl` | src/utils/index.ts:3-10 | the result is "" iff the URI is undefined or empty; otherwise it is "/ipfs/" followed by a slash-free suffix of the URI |
| `Utils.TransformKeepsBareName` | src/utils/index.ts:9 | a non-empty URI without a slash becomes "/ipfs/" + the URI |
| `Utils.TransformDropsDirectories` | src/utils/index.ts:9 | a URI `dir/name` becomes "/ipfs/name", whatever `dir` is |
| `Utils.TransformIdempotent` | src/utils/index.ts:3-10 | transforming a transformed URL changes nothing: `t(t(u)) == t(u)` for every input |
| `Utils.GetOpenseaTestnetUrl` | src/utils/index.ts:12-22 | every link starts with "https://testnets.opensea.io/"; with a truthy NFT id it ends in "/" + id, and without one the rest of the link is the address |
| `Utils.OpenseaUrlSegments` | src/utils/index.ts:16-21 | for a slash-free address and id, splitting the link on "/" gives back exactly the scheme, host, ["assets",] address [, id] it was built from |
| `MarkerData.BlindboxMarkers` | src/service/markerData.ts:15-25 | the static list holds one "blindbox" marker with the drawn id |
| `Hotspots.AspectOf` | src/lib/showroomService.ts:26 | the aspect is positive and aspect × height = width |
| `Hotspots.NewCamera` | src/lib/showroomService.ts:24-30 | the camera has fov 75, near 0.1, far 2000, aspect W/H, and sits at (0, 0, 0.01), off the origin |
| `Hotspots.SphereInsideClipPlanes` | src/lib/showroomService.ts:24-41 | the camera sits 0.01 off the centre on the z axis, with near < 1000 − 0.01 and 1000 + 0.01 < far; every point at distance 1000 from the centre is farther from the camera than the near plane and nearer than the far plane (distances compared squared) |
| `Hotspots.Resized` | src/lib/showroomService.ts:106-110 | a resize sets the aspect to the new W/H and keeps fov, clip planes and position |
| `Hotspots.ResizesKeepLast` | src/lib/showroomService.ts:106-112 | after any non-empty run of resizes the camera is the original one with the last window's aspect: nothing accumulates |
| `Hotspots.Configure` | src/lib/showroomService.ts:99-104 | the configured controls have zoom and pan off, damping on, target (1, 0, 1) and the rotate speed negated and halved; `enabled` is untouched |
| `Hotspots.ConfiguredDefaults` | src/hooks/usePanorama.ts:99-104 | configured from three.js' defaults, the controls start enabled with rotate speed -0.5: the opposite direction, at half speed |
| `Hotspots.FramesStrictlyDecreasing` | src/hooks/usePanorama.ts:76-78 | frames share y = 100 and z = 500, start at x = 220 and step 200 along -x; x strictly decreases with the index, and two frames coincide iff they have the same index |
| `Hotspots.PlacedSurfacesDistinct` | src/lib/showroomService.ts:72-94 | after placement there are as many surfaces as markers, pairwise distinct, at strictly decreasing x, each carrying an input marker and hanging on an existing frame |
| `Hotspots.ImageInFrontOfFrame` | src/lib/showroomService.ts:89-92 | each image is centred on its own frame, mirrored in x, double-sided, and just in front of the frame's face towards the camera |
| `Hotspots.ToNdc` | src/hooks/usePanorama.ts:120-123 | the NDC point of a pointer determines the pointer: `FromNdc` maps it back; `NdcRoundTrip`, `NdcInSquareIffInWindow` and `NdcOrientation` state the rest |
| `Hotspots.NdcRoundTrip` | src/lib/showroomService.ts:121-124 | the NDC map is a bijection: mapping back to pixels restores the pointer, and mapping an NDC point to pixels and back restores it |
| `Hotspots.NdcInSquareIffInWindow` | src/hooks/usePanorama.ts:120-123 | an NDC coordinate is in [-1, 1] iff the pointer is inside the window on that axis; the top-left corner maps to (-1, 1) and the bottom-right to (1, -1) |
| `Hotspots.NdcOrientation` | src/hooks/usePanorama.ts:141-144 | NDC x increases with `clientX`, NDC y decreases as `clientY` increases (y inverted), both as iff |
| `Hotspots.PickedMarker` | src/lib/showroomService.ts:150-152 | a marker is delivered iff there is a hit, and it is the marker tagged on hit 0 (`intersects[0].object.userData.markerData`); `PickedIsNearestMarker` shows that hit is a nearest one and the marker an input marker |
| `Hotspots.CursorFor` | src/lib/showroomService.ts:130-138 | the cursor is "pointer" iff the hit list is non-empty and "grab" iff it is empty |
| `Hotspots.FirstHitIsNearest` | src/lib/showroomService.ts:148-151 | in a distance-sorted hit list, hit 0 is at least as near as every hit |
| `Hotspots.PickedIsNearestMarker` | src/lib/showroomService.ts:148-153 | over placed surfaces, a marker is picked iff there is a hit, and the picked marker is an input marker carried by a nearest hit |
| `Hotspots.NoMarkersNoPicks` | src/lib/showroomService.ts:128-153 | with no markers, no click is ever delivered and the cursor is never "pointer" |
| `Hooks.PlaceMarkers` | src/hooks/usePanorama.ts:70-94 | the loop leaves one frame per marker at `(220 - 200 i, 100, 500)` and one image per marker in `markersGroup`, in marker order, image i tagged with marker i and a child of frame i |
| `Hooks.PanoramaHook.constructor` | src/hooks/usePanorama.ts:9-10 | a mounted hook starts uninitialised, with no scene and an undefined `markerId` |
| `Hooks.PanoramaHook.Effect` | src/hooks/usePanorama.ts:14-175 | without a canvas, or once initialised, the effect changes nothing; otherwise it builds one scene (camera, placed markers, configured controls), captures the current `markerId`, and sets the flag |
| `Hooks.PanoramaHook.OnWindowResize` | src/hooks/usePanorama.ts:106-110 | the camera takes the new W/H aspect and the renderer the new size |
| `Hooks.PanoramaHook.OnPointerMove` | src/hooks/usePanorama.ts:119-138 | the pointer becomes the event's NDC point and the cursor follows `CursorFor`: "pointer" iff there is a hit, "grab" iff none; nothing else changes |
| `Hooks.PanoramaHook.OnPointerDown` | src/hooks/usePanorama.ts:140-157 | with a hit and a falsy captured `markerId`, the controls are disabled and `markerId` becomes hit 0's marker id; in every other case the controls are enabled and `markerId` is untouched; nothing else about the controls changes |
| `Hooks.PanoramaHook.OnPointerDownLive` | src/hooks/usePanorama.ts:150-156 | the same decision read from the current `markerId`: while a marker is open its id is never replaced; as in the source's `else` branch, such a click still re-enables the controls |
| `Hooks.SecondPickReplacesOpenMarker` | src/hooks/usePanorama.ts:148-156 | as written, picking marker 1 while marker 0 is open replaces `markerId` with marker 1's id |
| `Hooks.SecondPickIgnoredWhileOpen` | src/hooks/usePanorama.ts:148-156 | with the live lock, the same second pick leaves marker 0's id in place |
| `Hooks.RepeatPickOnStaticList` | src/hooks/usePanorama.ts:148-156 | on the hook's one-marker static list, a second click on the open marker keeps the drawn id and disables the camera again |
| `Hooks.RepeatPickOnStaticListLive` | src/hooks/usePanorama.ts:148-156 | with the live lock, the same two clicks keep the drawn id and the second re-enables the camera, exactly when the drawn id is non-empty |
| `Hooks.EffectTwiceBuildsOnce` | src/hooks/usePanorama.ts:15-17 | running the effect twice keeps the first scene, with one surface per marker |
| `ShowroomLib.ShowroomService.constructor` | src/lib/showroomService.ts:14-104 | the service holds the camera, one frame and one tagged image per marker in order in `markersGroup`, and the configured controls |
| `ShowroomLib.ShowroomService.OnWindowResize` | src/lib/showroomService.ts:106-110 | the camera takes the new W/H aspect and the renderer the new size; nothing else changes |
| `ShowroomLib.ShowroomService.OnPointerMove` | src/lib/showroomService.ts:120-139 | the pointer becomes the event's NDC point and the cursor follows `CursorFor`: "pointer" iff there is a hit, "grab" iff none |
| `ShowroomLib.ShowroomService.OnPointerDown` | src/lib/showroomService.ts:140-154 | `clickMarker` is called (once) iff there is a hit, with the nearest hit's marker; the controls and everything but the pointer are untouched |
| `ShowroomView.Showroom.constructor` | src/components/Showroom/index.tsx:13 | a mounted component has `hasInit` false and no service, and its markers are the static list built from the drawn id |
| `ShowroomView.Showroom.InitShowroom` | src/components/Showroom/index.tsx:15-26 | the first call builds exactly one service over the static markers and sets `hasInit`; any later call changes nothing |
| `ShowroomView.Showroom.SetCurrentMarker` | src/components/Showroom/index.tsx:21-23 | the picked marker reaches `setCurrentMarker` unchanged |
| `ShowroomView.Showroom.PointerDown` | src/components/Showroom/index.tsx:17-24 | a click with a hit on a built showroom makes the nearest hit's marker current, and that marker is always a static marker; a miss leaves the current marker as it was |
| `ShowroomView.InitTwiceBuildsOnce` | src/components/Showroom/index.tsx:16 | calling `initShowroom` twice yields one service, holding the one surface of the static list, tagged with the drawn id |

## Findings

| source | as written | input that shows it | evidently intended | confidence | as-written member | corrected member |
|---|---|---|---|---|---|---|
| src/hooks/usePanorama.ts:150 | the pointer-down lock tests the `markerId` captured when the effect ran; the effect runs once, while `markerId` is still undefined, so the lock never engages | on the hook's static list (one marker, non-empty drawn id): mount, run the effect, click the marker, then click it again while it is open; the second click takes the hit branch and disables the camera again. On a list widened to two markers, a click on marker 1 while marker 0 is open replaces the open id | a click while a marker is open does not take the hit branch, so the check reads the current `markerId`; on the static list the only visible difference is the controls: the second click re-enables the camera, and the id is kept either way | not executed | `Hooks.PanoramaHook.OnPointerDown`, shown by `Hooks.RepeatPickOnStaticList` and, on two markers, `Hooks.SecondPickReplacesOpenMarker` | `Hooks.PanoramaHook.OnPointerDownLive`, shown by `Hooks.RepeatPickOnStaticListLive` and, on two markers, `Hooks.SecondPickIgnoredWhileOpen` |

The hook model keeps the as-written handler as `PanoramaHook.OnPointerDown`,
because that is what the hook does. `OnPointerDownLive` sits beside it and
states the intended rule. The live app uses `ShowroomService`, which has no
lock at all.

## Left out

- Ray casting (`Raycaster.setFromCamera`, `intersectObjects`) is a three.js call with floating-point geometry. Its result is an input hit list.
- Orbit-control rotation and damping (`OrbitControls.update`) are three.js internals. So the rule that drags move the camera only while the controls are enabled is not modelled. Only the configuration and the `enabled` flag are.
- The render loop `animate` / `requestAnimationFrame` is an endless self-rescheduling loop driven by the display.
- Registering the window and canvas listeners is plumbing. A handler method may be called only once its scene exists.
- Renderer creation and pixel ratio, the panorama sphere's geometry and `scale(-1, 1, 1)`, the lights, and texture, DDS and material loading are rendering set-up with no logic. The model keeps only the sphere radius and the panorama image name.
- IEEE arithmetic is not modelled: NDC and aspect are over `real`, and a zero-sized window (which gives Infinity or NaN) is excluded by `Viewport.HasArea`.
- `Hooks.PanoramaHook.Effect`: the hook always iterates the module-level static list, which holds one marker; the model takes the marker list as a parameter, so it also covers lists the hook never sees. The scenarios over `BlindboxMarkers(randomId)` are the hook's actual case.
- `randomString` depends on `Math.random`. The static marker list takes its id as a parameter.
- `console.log` calls are not modelled.
- `Hotspots.DefaultOrbitControls` is three.js' initial state for new controls (enabled, rotate speed 1, target at the origin, zoom and pan on, damping off). The OrbitControls source is not part of this model.
- React's asynchronous state update is not modelled. `setMarkerId` and `setCurrentMarker` take effect at once.
- The App's popup close (`setCurrentMarker(null)`) is not part of this model, because it is outside the engine.
