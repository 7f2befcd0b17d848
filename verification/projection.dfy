/** The projection toggle of the scene viewer, as values.

    The viewer keeps three module-level variables (the overlay meshes, whether
    a projection is active, and which video file is active) and one video
    element whose source and playback position it overwrites. This module
    gives that state as a datatype, the two operations that change it (a
    button click and the model-load traversal) as functions of the old state,
    and the properties those operations keep. The class in module Viewer
    does the same work step by step and is proved against these functions. */
module Projection {

  datatype Option<T> = None | Some(value: T)

  /** A node of the loaded model as the traversal sees it: whether it is a
      mesh, and the name of its material when it has one. */
  datatype Child = Child(isMesh: bool, materialName: Option<string>)

  /** An overlay mesh: the child it was created for (it shares that child's
      geometry and hangs under it) and whether it is drawn. */
  datatype Overlay = Overlay(host: Child, visible: bool)

  /** The materials whose surfaces receive a video overlay. */
  const ProjectedMaterials: set<string> :=
    {"Old Brick", "Medieval Stone Roof", "Rococo Bronze", "Wood", "Material.008"}

  /** Directory the button files are served from. */
  const VideoDir: string := "/videos/"

  /** The source the video element is given before any click. */
  const PreloadedSrc: string := "/videos/projection1.mp4"

  /** Everything the toggle reads or writes. `videoSrc`, `currentTime` and
      `paused` are the video element's; the rest are the module's variables. */
  datatype State = State(
    overlays: seq<Overlay>,
    projectionActive: bool,
    activeVideo: Option<string>,
    videoSrc: string,
    currentTime: nat,
    paused: bool)

  /** A user or loader event, in the order the event loop delivers them. */
  datatype Event = ButtonClicked(file: string) | ModelLoaded(children: seq<Child>)

  // ---------------------------------------------------------------------
  // Invariant
  // ---------------------------------------------------------------------

  /** What every reachable state satisfies: a projection is active exactly
      when a file is recorded, the recorded file is the one the video element
      plays, and no overlay is drawn while the projection is off. */
  ghost predicate Coherent(s: State)
  {
    && (s.projectionActive <==> s.activeVideo.Some?)
    && (s.activeVideo.Some? ==> s.videoSrc == VideoDir + s.activeVideo.value)
    && (forall i :: 0 <= i < |s.overlays| && s.overlays[i].visible ==> s.projectionActive)
  }

  /** The state once the page script has run and before the model arrives:
      no overlays, projection off, the first video preloaded and autoplaying
      from the start. */
  function Initial(): (s: State)
    ensures Coherent(s)
    ensures !s.projectionActive && s.overlays == []
  {
    State([], false, None, PreloadedSrc, 0, false)
  }

  // ---------------------------------------------------------------------
  // Overlay creation (the traverse callback)
  // ---------------------------------------------------------------------

  /** Whether the traversal gives this child an overlay: it must be a mesh
      and its material must carry one of the five projected names. */
  predicate IsOverlayTarget(c: Child)
    ensures IsOverlayTarget(c) <==>
      c.isMesh && c.materialName.Some? && c.materialName.value in ProjectedMaterials
  {
    if !c.isMesh then false
    else match c.materialName
      case None => false
      case Some(name) =>
        name == "Old Brick" ||
        name == "Medieval Stone Roof" ||
        name == "Rococo Bronze" ||
        name == "Wood" ||
        name == "Material.008"
  }

  /** The overlays one traversal creates, in visiting order. */
  function HiddenOverlays(children: seq<Child>): (r: seq<Overlay>)
    ensures |r| <= |children|
    ensures forall o :: o in r ==> !o.visible && IsOverlayTarget(o.host) && o.host in children
    decreases |children|
  {
    if children == [] then []
    else
      var first := if IsOverlayTarget(children[0]) then [Overlay(children[0], false)] else [];
      first + HiddenOverlays(children[1..])
  }

  /** Traversing two runs of children one after the other creates the
      overlays of the first run followed by those of the second: overlays
      come out in visiting order. */
  lemma {:induction false} HiddenOverlaysAppend(a: seq<Child>, b: seq<Child>)
    ensures HiddenOverlays(a + b) == HiddenOverlays(a) + HiddenOverlays(b)
    decreases |a|
  {
    if a == [] {
      assert a + b == b;
    } else {
      assert (a + b)[0] == a[0];
      assert (a + b)[1..] == a[1..] + b;
      HiddenOverlaysAppend(a[1..], b);
    }
  }

  /** Each child that qualifies gets exactly one hidden overlay per
      occurrence, and nothing else gets one. */
  lemma {:induction false} HiddenOverlaysExact(children: seq<Child>, c: Child)
    ensures multiset(HiddenOverlays(children))[Overlay(c, false)] ==
      if IsOverlayTarget(c) then multiset(children)[c] else 0
    decreases |children|
  {
    if children != [] {
      HiddenOverlaysExact(children[1..], c);
      assert children == [children[0]] + children[1..];
      assert multiset(children) == multiset([children[0]]) + multiset(children[1..]);
    }
  }

  /** The overlays a traversal attaches are visited by that same traversal;
      they are meshes whose material (the unnamed projection material) has
      the empty name, so they never get overlays of their own. */
  lemma OverlayMeshesSkipped()
    ensures !IsOverlayTarget(Child(true, Some("")))
  {
  }

  /** Model loading: the new overlays are appended behind the existing ones,
      which stay as they were, and nothing else changes. */
  function AfterLoad(s: State, children: seq<Child>): (r: State)
    ensures r == s.(overlays := r.overlays)
    ensures |s.overlays| <= |r.overlays| && r.overlays[..|s.overlays|] == s.overlays
    ensures r.overlays[|s.overlays|..] == HiddenOverlays(children)
    ensures forall i :: |s.overlays| <= i < |r.overlays| ==> !r.overlays[i].visible
    ensures Coherent(s) ==> Coherent(r)
  {
    var r := s.(overlays := s.overlays + HiddenOverlays(children));
    assert forall i :: |s.overlays| <= i < |r.overlays| ==> r.overlays[i] in HiddenOverlays(children);
    r
  }

  // ---------------------------------------------------------------------
  // Button click
  // ---------------------------------------------------------------------

  /** Every overlay with its visibility set to `v` (the forEach of the click
      handler); the hosts and the order are untouched. */
  function WithVisibility(os: seq<Overlay>, v: bool): (r: seq<Overlay>)
    ensures |r| == |os|
    ensures forall i :: 0 <= i < |os| ==> r[i].host == os[i].host && r[i].visible == v
    decreases |os|
  {
    if os == [] then [] else [os[0].(visible := v)] + WithVisibility(os[1..], v)
  }

  /** Whether a click on `file` turns the projection off: only when that
      very file is the one being projected. */
  predicate TurnsOff(s: State, file: string)
  {
    s.projectionActive && s.activeVideo == Some(file)
  }

  /** A click on the button for `file`. Clicking the projected file again
      pauses and rewinds the video and hides every overlay; any other click
      loads `/videos/<file>`, plays it and shows every overlay. */
  function AfterClick(s: State, file: string): (r: State)
    ensures Coherent(r)
    ensures r.projectionActive <==> !TurnsOff(s, file)
    ensures |r.overlays| == |s.overlays|
    ensures forall i :: 0 <= i < |r.overlays| ==>
      r.overlays[i].host == s.overlays[i].host && r.overlays[i].visible == r.projectionActive
    ensures r.currentTime == 0
  {
    if TurnsOff(s, file) then
      s.(paused := true, currentTime := 0,
         overlays := WithVisibility(s.overlays, false),
         projectionActive := false, activeVideo := None)
    else
      // pause, new source, load (which rewinds), play
      s.(paused := false, videoSrc := VideoDir + file, currentTime := 0,
         overlays := WithVisibility(s.overlays, true),
         projectionActive := true, activeVideo := Some(file))
  }

  /** Turning off: the projection and the recorded file are cleared, the video
      is paused at position 0 and keeps its source, and all overlays are hidden. */
  lemma ClickOff(s: State, file: string)
    requires s.projectionActive && s.activeVideo == Some(file)
    ensures var r := AfterClick(s, file);
      && !r.projectionActive && r.activeVideo == None
      && r.paused && r.currentTime == 0 && r.videoSrc == s.videoSrc
      && forall i :: 0 <= i < |r.overlays| ==> !r.overlays[i].visible
  {
  }

  /** Turning on or switching: the clicked file becomes active, the video
      element plays `/videos/<file>`, and every overlay is shown without any
      being added or removed. */
  lemma ClickOn(s: State, file: string)
    requires !s.projectionActive || s.activeVideo != Some(file)
    ensures var r := AfterClick(s, file);
      && r.projectionActive && r.activeVideo == Some(file)
      && r.videoSrc == "/videos/" + file && !r.paused
      && |r.overlays| == |s.overlays|
      && forall i :: 0 <= i < |r.overlays| ==> r.overlays[i].visible
  {
  }

  /** From an inactive state, two clicks on the same button come back to an
      inactive state: nothing recorded, every overlay hidden, the video
      paused at the start of that button's file. */
  lemma ClickTwiceToggles(s: State, file: string)
    requires !s.projectionActive
    ensures var r := AfterClick(AfterClick(s, file), file);
      && !r.projectionActive && r.activeVideo == None
      && r.paused && r.currentTime == 0 && r.videoSrc == VideoDir + file
      && |r.overlays| == |s.overlays|
      && forall i :: 0 <= i < |r.overlays| ==>
           r.overlays[i] == Overlay(s.overlays[i].host, false)
  {
  }

  // ---------------------------------------------------------------------
  // Interleavings
  // ---------------------------------------------------------------------

  /** One event handled by its handler. */
  function Step(s: State, e: Event): (r: State)
  {
    match e
    case ButtonClicked(file) => AfterClick(s, file)
    case ModelLoaded(children) => AfterLoad(s, children)
  }

  /** The state after the events are handled one after another. */
  function Run(s: State, events: seq<Event>): (r: State)
    decreases |events|
  {
    if events == [] then s else Run(Step(s, events[0]), events[1..])
  }

  /** Whatever order clicks and model loads arrive in, a coherent state
      stays coherent. */
  lemma {:induction false} RunKeepsCoherent(s: State, events: seq<Event>)
    requires Coherent(s)
    ensures Coherent(Run(s, events))
    decreases |events|
  {
    if events != [] {
      RunKeepsCoherent(Step(s, events[0]), events[1..]);
    }
  }

  /** Every state the page can reach from its start is coherent. */
  lemma ReachableCoherent(events: seq<Event>)
    ensures Coherent(Run(Initial(), events))
  {
    RunKeepsCoherent(Initial(), events);
  }

  /** A model load that arrives after a click switched the projection on
      (or over to another file) leaves it on: the overlays that existed at
      the click stay shown, and every overlay the load creates is hidden.
      So whenever the model has a projected surface, the projection is on
      while part of it is not drawn. */
  lemma LateOverlaysStayHidden(s: State, file: string, children: seq<Child>)
    requires !TurnsOff(s, file)
    ensures var r := AfterLoad(AfterClick(s, file), children);
      && r.projectionActive
      && |r.overlays| == |s.overlays| + |HiddenOverlays(children)|
      && (forall i :: 0 <= i < |s.overlays| ==> r.overlays[i].visible)
      && (forall i :: |s.overlays| <= i < |r.overlays| ==> !r.overlays[i].visible)
    ensures (exists c :: c in children && IsOverlayTarget(c)) ==>
      var r := AfterLoad(AfterClick(s, file), children);
      exists i :: 0 <= i < |r.overlays| && !r.overlays[i].visible
  {
    var t := AfterClick(s, file);
    var r := AfterLoad(t, children);
    if c :| c in children && IsOverlayTarget(c) {
      HiddenOverlaysExact(children, c);
      assert Overlay(c, false) in HiddenOverlays(children);
      var k :| 0 <= k < |HiddenOverlays(children)| && HiddenOverlays(children)[k] == Overlay(c, false);
      assert !r.overlays[|t.overlays| + k].visible;
    }
  }

  /** A load and a click give the same state in either order, except for
      the visibility of the overlays the load creates: shown when the click
      comes second and switches on, hidden when the load comes second. */
  lemma LoadClickOrder(s: State, file: string, children: seq<Child>)
    ensures var lc := AfterClick(AfterLoad(s, children), file);
            var cl := AfterLoad(AfterClick(s, file), children);
      && lc == cl.(overlays := lc.overlays)
      && |lc.overlays| == |cl.overlays|
      && forall i :: 0 <= i < |lc.overlays| ==>
           && lc.overlays[i].host == cl.overlays[i].host
           && (i < |s.overlays| || !lc.projectionActive ==> lc.overlays[i] == cl.overlays[i])
  {
  }
}
