/** The viewer's toggle state as the page script holds it: variables that
    the click handler and the model-load callback overwrite in place. Each
    method is proved to leave the object in the state the matching function
    of module Projection computes, so the lemmas proved there apply to it. */
module Viewer {
  import opened Projection

  class Projector {
    var overlays: seq<Overlay>
    var projectionActive: bool
    var activeVideo: Option<string>
    // the video element
    var videoSrc: string
    var currentTime: nat
    var paused: bool

    /** The object's fields as a value of the specification. */
    function Snapshot(): (s: State)
      reads this
    {
      State(overlays, projectionActive, activeVideo, videoSrc, currentTime, paused)
    }

    ghost predicate Valid()
      reads this
    {
      Coherent(Snapshot())
    }

    /** Page start: the video element is created with the first file and
        autoplays; no overlay exists yet and no projection is active. */
    constructor ()
      ensures Snapshot() == Initial()
      ensures Valid()
    {
      overlays := [];
      projectionActive := false;
      activeVideo := None;
      videoSrc := PreloadedSrc;
      currentTime := 0;
      paused := false;
    }

    /** Sets the visibility of every overlay in turn, as the handler's
        forEach does; only the overlay list changes. */
    method SetAllVisible(v: bool)
      modifies this
      ensures overlays == WithVisibility(old(overlays), v)
      ensures Snapshot() == old(Snapshot()).(overlays := overlays)
    {
      var i := 0;
      while i < |overlays|
        invariant 0 <= i <= |overlays| == |old(overlays)|
        invariant forall k :: 0 <= k < i ==> overlays[k] == old(overlays)[k].(visible := v)
        invariant forall k :: i <= k < |overlays| ==> overlays[k] == old(overlays)[k]
        invariant Snapshot() == old(Snapshot()).(overlays := overlays)
      {
        overlays := overlays[i := overlays[i].(visible := v)];
        i := i + 1;
      }
      ghost var w := WithVisibility(old(overlays), v);
      assert forall k :: 0 <= k < |w| ==> w[k] == old(overlays)[k].(visible := v);
    }

    /** The handler of a video button whose data attribute names `file`. */
    method Click(file: string)
      modifies this
      ensures Snapshot() == AfterClick(old(Snapshot()), file)
      ensures old(Valid()) ==> Valid()
    {
      if projectionActive && activeVideo == Some(file) {
        paused := true;
        currentTime := 0;
        SetAllVisible(false);
        projectionActive := false;
        activeVideo := None;
        return;
      }
      paused := true;
      videoSrc := VideoDir + file;
      currentTime := 0;  // load() restarts the element at position 0
      paused := false;
      SetAllVisible(true);
      projectionActive := true;
      activeVideo := Some(file);
    }

    /** The model-load callback: visits the model's nodes in traversal order
        and gives each qualifying mesh a hidden overlay, appended to the list. */
    method AddOverlaysFromModel(children: seq<Child>)
      modifies this
      ensures Snapshot() == AfterLoad(old(Snapshot()), children)
      ensures old(Valid()) ==> Valid()
    {
      var i := 0;
      while i < |children|
        invariant 0 <= i <= |children|
        invariant Snapshot() == old(Snapshot()).(overlays := old(overlays) + HiddenOverlays(children[..i]))
      {
        var child := children[i];
        if child.isMesh {
          var name := child.materialName;
          if name.Some? && name.value in ProjectedMaterials {
            overlays := overlays + [Overlay(child, false)];
          }
        }
        assert children[..i + 1] == children[..i] + [child];
        HiddenOverlaysAppend(children[..i], [child]);
        i := i + 1;
      }
      assert children[..i] == children;
    }
  }
}
