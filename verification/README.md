# Projection toggle of the alternativer scene viewer

The viewer shows a GLTF model of a town hall and projects looping videos onto
some of its surfaces. Each projected surface gets an *overlay*. An overlay is a
second mesh that shares the surface's geometry, draws the video texture and
starts hidden. On-screen buttons each name a video file. Clicking the button of
the file being projected turns the projection off. Any other click switches the
video element to that file and turns the projection on.

This project models that toggle in Dafny:

- `projection.dfy`, module `Projection`. The toggle's state is a value
  (`State`: the overlay list, `projectionActive`, `activeVideo`, and the video
  element's `src`, `currentTime` and paused flag). A click and a model load are
  functions of the old state (`AfterClick`, `AfterLoad`). Any interleaving of
  the two is a run over a list of events (`Run`). Next to these are the
  invariant every reachable state keeps (`Coherent`) and the lemmas about
  toggling, switching, traversal order and event order.
- `viewer.dfy`, module `Viewer`. Class `Projector` holds the same state in
  fields that its methods overwrite, as the page script does with its
  module-level variables. `Click` and `AddOverlaysFromModel` are proved to
  leave the object in exactly the state `AfterClick` and `AfterLoad` compute.
  The overlay-visibility loop and the traversal loop carry their own
  invariants.

The model load is asynchronous, so clicks and the load can come in any order.
The model does not assume that every overlay is visible whenever the projection
is on. That does not hold: overlays created after a click stay hidden until the
next click (`LateOverlaysStayHidden`). What does hold in every reachable state
is the other direction: no overlay is visible while the projection is off.

## Model

| member | source | states |
|---|---|---|
| `Projection.Initial` | src/main.js:57-63 | The start state has no projection, no recorded file and no overlays, and it already satisfies the invariant (`Coherent`), with `/videos/projection1.mp4` preloaded. |
| `Viewer.Projector.constructor` | src/main.js:84-86 | The variables start as an empty overlay list, `projectionActive` false and `activeVideo` null; the video element holds the preloaded file at position 0. |
| `Projection.IsOverlayTarget` | src/main.js:100-109 | A child gets an overlay exactly when it is a mesh whose material name is one of the five projected names; non-meshes and meshes without a material name are skipped. |
| `Projection.HiddenOverlays` | src/main.js:99-115 | Every overlay created by a traversal is hidden and belongs to a qualifying child of that traversal, and there are at most as many overlays as children. |
| `Projection.HiddenOverlaysAppend` | src/main.js:99-114 | Overlays come out in traversal order: traversing `a` then `b` creates `a`'s overlays followed by `b`'s. |
| `Projection.HiddenOverlaysExact` | src/main.js:100-114 | Each qualifying child gets exactly one hidden overlay per occurrence, and a child that does not qualify gets none. |
| `Projection.OverlayMeshesSkipped` | src/main.js:69-78 | A mesh carrying the projection material, whose name is empty, is not an overlay target. The overlays attached during the walk are therefore skipped when the walk reaches them. |
| `Projection.AfterLoad` | src/main.js:110-114 | A load appends exactly `HiddenOverlays(children)`, all hidden, after the existing overlays. It leaves the existing ones and every other variable as they were, and keeps the invariant. |
| `Viewer.Projector.AddOverlaysFromModel` | src/main.js:99-116 | The traversal loop leaves the object in the state `AfterLoad` gives for the old state, and it keeps `Valid`. |
| `Projection.WithVisibility` | src/main.js:143 | Setting every overlay's visibility keeps the list's length, order and hosts, and gives each overlay the new visibility. This is the `forEach` of both branches: hiding at line 143 and showing at line 156. |
| `Viewer.Projector.SetAllVisible` | src/main.js:156 | The `forEach` loop sets the visibility of every overlay in place and changes nothing else. It serves both branches: showing at line 156 and hiding at line 143. |
| `Projection.AfterClick` | src/main.js:139-159 | After any click, the projection is on unless the clicked file was the one projected. The overlay count and hosts are unchanged, every overlay's visibility equals the new `projectionActive`, the position is 0, and the invariant holds whatever the old state was. |
| `Viewer.Projector.Click` | src/main.js:135-160 | The click handler leaves the object in the state `AfterClick` gives for the old state, and it keeps `Valid`. |
| `Projection.ClickOff` | src/main.js:139-147 | Clicking the projected file again clears `projectionActive` and `activeVideo`, pauses the video and rewinds it to 0 without changing its `src`, and hides every overlay. |
| `Projection.ClickOn` | src/main.js:150-159 | Any other click makes the clicked file active, sets the source to `"/videos/" + file`, plays it, shows every overlay, and adds or removes none. |
| `Projection.ClickTwiceToggles` | src/main.js:139-159 | From an inactive state, two clicks on the same button give an inactive state again. Every overlay is hidden, with its host unchanged, and the video is paused at 0 on that button's file. |
| `Projection.RunKeepsCoherent` | src/main.js:84-86 | Any sequence of clicks and model loads keeps three facts true. `projectionActive` holds exactly when `activeVideo` is set. The active file is the one the video plays. No overlay is visible while the projection is off. |
| `Projection.ReachableCoherent` | src/main.js:84-86 | Every state reachable from the start state satisfies that invariant. |
| `Projection.LateOverlaysStayHidden` | src/main.js:110-114 | A click may switch the projection on, or over to another file, before the model loads. After the load the projection is still on. Every overlay that existed at the click is shown, and every overlay the load creates is hidden. So if the model has a projected surface, some overlay is hidden while the projection is on. |
| `Projection.LoadClickOrder` | src/main.js:99-159 | A load and a click in either order give the same state, except for the visibility of the overlays that the load creates while the projection is on. |

## Left out

- Scene, camera, renderer, tone mapping, lights and the HDRI environment (src/main.js:9-52). These are calls into three.js with floating-point settings and have no toggle state.
- The GLTF and HDR loaders and the model's scale, rotation and position (src/main.js:38-44, 88-97). Loading is asynchronous library I/O, so the model takes the loaded nodes as a parameter, in the order three.js's `traverse` visits them (depth first, parent first). That order is assumed, not modelled. `traverse` also visits the overlays that `child.add(overlay)` (src/main.js:113) attaches during the same walk. Those overlays are meshes with the projection material (src/main.js:69-78), which has no name, so the name is the empty string and the filter skips them. Leaving them out of `children` therefore changes nothing.
- `Viewer.Projector.AddOverlaysFromModel`: the overlay is a separate object attached under its child with render order 1 and the video material (src/main.js:110-113). The model records only the child it belongs to and its visibility. `material?.name` is `None` when the material or its name is missing, including a multi-material array.
- Video playback: `play`, `pause` and `load` become the `paused` flag and a reset of `currentTime` to 0. `load()` (src/main.js:153) restarts the element from position 0, so the "on" branch also leaves `currentTime` at 0 even though the handler never writes it. The position moving forward during playback is not modelled. `currentTime` is a whole number here, though the browser uses a floating-point number of seconds. A rejected `play()` promise is not modelled.
- The video texture and the projection material (src/main.js:65-78). These are rendering objects with no toggle state.
- The DOM wiring is not modelled: the start screen, `querySelectorAll` and reading `dataset.video` (src/main.js:122-136). `file` is any string. A button without the attribute would give `undefined`, which would then be used as the text `undefined`; this model does not cover that case.
- The resize handler and the animation loop (src/main.js:166-178). They only redraw and have no toggle state.
