/**
 * `ShaperState` of src/lib.rs: one rendering state and one sound engine, and the event
 * step that runs window maintenance, then audio maintenance, then the shaper's own
 * reaction to a left press (a circle and an audio node at the cursor).
 */
module Shaper {
  import opened Wrappers
  import opened Geometry
  import opened Circles
  import opened ShaperWave
  import opened Events
  import opened RealMath
  import Rendering
  import Audio

  datatype ShaperState = ShaperState(render: Rendering.RenderState, audio: Audio.AudioState)

  predicate Valid(st: ShaperState)
  {
    Rendering.Valid(st.render) && Audio.Valid(st.audio)
  }

  /** `ShaperState::new` over the states `run` builds: a fresh renderer and a device-less engine. */
  function New(size: Size): (st: ShaperState)
    requires size.width > 0 && size.height > 0
    ensures Valid(st)
    ensures st.render.circles == [] && st.audio.device.None?
    ensures st.audio == Audio.New() && st.render == Rendering.New(size)
  {
    ShaperState(Rendering.New(size), Audio.New())
  }

  /** The wave position a click at clip x produces: clip [-1, 1] onto wave [0, 1]. */
  function WavePosOfClip(clipX: real): (r: real)
    ensures 2.0 * r - 1.0 == clipX
    ensures -1.0 <= clipX <= 1.0 ==> 0.0 <= r <= 1.0
  {
    (clipX + 1.0) / 2.0
  }

  lemma WavePosOfClipMapsRange(a: real, b: real)
    ensures WavePosOfClip(-1.0) == 0.0 && WavePosOfClip(1.0) == 1.0
    ensures a <= b ==> WavePosOfClip(a) <= WavePosOfClip(b)
    ensures -1.0 <= a <= 1.0 ==> 0.0 <= WavePosOfClip(a) <= 1.0
  {
  }

  /** Through the cursor-to-clip map, the wave position is the cursor's fraction of the width. */
  lemma WavePosIsCursorFraction(cursor: Point, size: Size)
    requires size.width > 0 && size.height > 0
    ensures WavePosOfClip(CursorClipLocation(cursor, size).x) == cursor.x / size.width as real
  {
  }

  /**
   * `handle_shaper_events`: on a left press, add a circle at the cursor's clip position
   * and, unconditionally, an audio node at wave position (x + 1) / 2 with amplitude y.
   */
  function HandleShaperEvents(st: ShaperState, ev: Event): (r: ShaperState)
    requires Valid(st)
    ensures Valid(r)
    ensures !IsLeftPress(ev) ==> r == st
    ensures IsLeftPress(ev) ==>
              var clip := CursorClipLocation(st.render.cursorPos, st.render.size);
              && r.render == st.render.(circles := AddCircleAtClipLocation(st.render.circles, st.render.clipToWorld, clip))
              && r.audio == Audio.AddNode(st.audio, WavePosOfClip(clip.x), clip.y)
  {
    if IsLeftPress(ev) then
      var newNodeLoc := Rendering.CursorClip(st.render);
      var render := Rendering.AddCircleAtClip(st.render, newNodeLoc);
      var audio := Audio.AddNode(st.audio, WavePosOfClip(newNodeLoc.x), newNodeLoc.y);
      ShaperState(render, audio)
    else
      st
  }

  /**
   * `handle_event`: window maintenance, then audio maintenance (which may open the
   * device; `opening` is what the platform would hand back), then the shaper events.
   */
  function HandleEvent(st: ShaperState, ev: Event, opening: Option<Audio.DeviceToken>): (r: ShaperState)
    requires Valid(st)
    ensures Valid(r)
    ensures r.audio.wavelenSamples == st.audio.wavelenSamples && r.audio.frameBufOffset == st.audio.frameBufOffset
    ensures !IsLeftPress(ev) ==> r.audio == st.audio && r.render.circles == st.render.circles
    ensures !IsLeftPress(ev) ==> r.render == Rendering.HandleWindowMaintenanceEvents(st.render, ev)
    ensures IsLeftPress(ev) ==>
              var clip := CursorClipLocation(st.render.cursorPos, st.render.size);
              && r.render == st.render.(circles := AddCircleAtClipLocation(st.render.circles, st.render.clipToWorld, clip))
              && r.audio == Audio.AddNode(Audio.HandleAudioMaintenanceEvents(st.audio, ev, opening), WavePosOfClip(clip.x), clip.y)
  {
    var afterWindow := st.(render := Rendering.HandleWindowMaintenanceEvents(st.render, ev));
    var afterAudio := afterWindow.(audio := Audio.HandleAudioMaintenanceEvents(afterWindow.audio, ev, opening));
    HandleShaperEvents(afterAudio, ev)
  }

  /**
   * A left press binds the device when none was bound and opening succeeds, keeps the
   * bound one otherwise, and adds the node at the cursor's fraction of the width with
   * the clip y as amplitude.
   */
  lemma LeftPressStep(st: ShaperState, opening: Option<Audio.DeviceToken>)
    requires Valid(st)
    ensures var r := HandleEvent(st, Window(MouseInput(Left, Pressed)), opening);
            var clip := CursorClipLocation(st.render.cursorPos, st.render.size);
            && r.audio.device == (if st.audio.device.None? then opening else st.audio.device)
            && r.audio.wave == AddNodeToWave(st.audio.wave, st.render.cursorPos.x / st.render.size.width as real, clip.y)
            && r.render.cursorPos == st.render.cursorPos && r.render.size == st.render.size
  {
    WavePosIsCursorFraction(st.render.cursorPos, st.render.size);
  }

  /** A click on an existing circle leaves the circle list alone. */
  lemma ClickOnCircleKeepsCircles(st: ShaperState, opening: Option<Audio.DeviceToken>, j: nat)
    requires Valid(st) && j < |st.render.circles|
    requires var clip := CursorClipLocation(st.render.cursorPos, st.render.size);
             var world := DotProduct(st.render.clipToWorld, clip);
             Within(st.render.circles[j], Point(world.x, world.y))
    ensures HandleEvent(st, Window(MouseInput(Left, Pressed)), opening).render.circles == st.render.circles
  {
  }

  /**
   * The two lists can drift apart: a click inside the window that lands on an existing
   * circle leaves the circle list as it was but still adds an audio node.
   */
  lemma ClickOnCircleStillAddsNode(st: ShaperState, opening: Option<Audio.DeviceToken>, j: nat)
    requires Valid(st) && j < |st.render.circles|
    requires 0.0 <= st.render.cursorPos.x < st.render.size.width as real
    requires var clip := CursorClipLocation(st.render.cursorPos, st.render.size);
             var world := DotProduct(st.render.clipToWorld, clip);
             Within(st.render.circles[j], Point(world.x, world.y))
    ensures var r := HandleEvent(st, Window(MouseInput(Left, Pressed)), opening);
            r.render.circles == st.render.circles && |r.audio.wave| == |st.audio.wave| + 1
  {
    ClickOnCircleKeepsCircles(st, opening, j);
    LeftPressInsideGrowsWave(st, opening);
  }

  /** A left press with the cursor inside the window always adds an audio node. */
  lemma LeftPressInsideGrowsWave(st: ShaperState, opening: Option<Audio.DeviceToken>)
    requires Valid(st)
    requires 0.0 <= st.render.cursorPos.x < st.render.size.width as real
    ensures |HandleEvent(st, Window(MouseInput(Left, Pressed)), opening).audio.wave| == |st.audio.wave| + 1
  {
    LeftPressStep(st, opening);
    var clip := CursorClipLocation(st.render.cursorPos, st.render.size);
    QuotientBelowOne(st.render.cursorPos.x, st.render.size.width as real);
    Audio.AddBelowEndGrows(st.audio, st.render.cursorPos.x / st.render.size.width as real, clip.y);
  }
}
