/**
 * The logic-bearing part of `rendering::State` in src/rendering.rs: window size,
 * cursor, the clip/world transforms, the circle list, the static vertex and index
 * tables, `resize`, and `handle_window_maintenance_events`. GPU objects are left out.
 */
module Rendering {
  import opened Geometry
  import opened Circles
  import opened Events

  datatype Vertex = Vertex(position: Vec3, color: Vec3)

  /** `VERTICES`: the background quad, then the wave card quad. */
  const Vertices: seq<Vertex> := [
    Vertex(Vec3(1.0, 1.0, 1.0), Vec3(1.0, 0.0, 0.0)),
    Vertex(Vec3(-1.0, 1.0, 1.0), Vec3(0.0, 0.0, 0.0)),
    Vertex(Vec3(1.0, -1.0, 1.0), Vec3(1.0, 1.0, 0.0)),
    Vertex(Vec3(-1.0, -1.0, 1.0), Vec3(0.0, 1.0, 0.0)),
    Vertex(Vec3(1.0, 0.5, 1.0), Vec3(1.0, 0.0, 0.0)),
    Vertex(Vec3(0.0, 0.5, 1.0), Vec3(0.0, 0.0, 0.0)),
    Vertex(Vec3(1.0, -0.5, 1.0), Vec3(1.0, 1.0, 0.0)),
    Vertex(Vec3(0.0, -0.5, 1.0), Vec3(0.0, 1.0, 0.0))
  ]

  /** `CIRCLE_START_OFFSET`: where the wave card's vertices begin. */
  const CircleStartOffset: nat := 4

  /** `TRI_INDEX_BUFFER`: two background triangles, then two wave card triangles. */
  const TriIndexBuffer: seq<nat> := [
    2, 0, 1,
    2, 1, 3,
    2 + CircleStartOffset, 1 + CircleStartOffset, 3 + CircleStartOffset,
    2 + CircleStartOffset, 0 + CircleStartOffset, 1 + CircleStartOffset
  ]

  /** The background draw covers indices [0, 6). */
  const BackgroundIndexCount: nat := 6

  /** The index tables agree: every index names a vertex and fits a `u16`, and both draw ranges lie inside the buffer. */
  lemma IndexBufferIsConsistent()
    ensures |Vertices| == 8
    ensures forall k :: 0 <= k < |TriIndexBuffer| ==> TriIndexBuffer[k] < |Vertices| && TriIndexBuffer[k] < 0x1_0000
    ensures BackgroundIndexCount <= |TriIndexBuffer| && |TriIndexBuffer| % 3 == 0
  {
  }

  datatype RenderState = RenderState(
    size: Size,
    cursorPos: Point,
    aspectRatio: real,
    worldScale: real,
    clipToWorld: Mat4,
    numTriIndices: nat,
    circles: seq<CircleInstance>)

  /**
   * What every reachable state satisfies: a non-zero size, transforms built from the
   * aspect ratio and world scale, all of `TRI_INDEX_BUFFER` to draw, circles strictly
   * sorted by x and linked in a cycle once there are two of them.
   */
  predicate Valid(st: RenderState)
  {
    && st.size.width > 0 && st.size.height > 0
    && st.aspectRatio * st.worldScale != 0.0
    && st.clipToWorld == ClipToWorld(st.aspectRatio, st.worldScale)
    && st.numTriIndices == |TriIndexBuffer|
    && StrictlySortedX(st.circles)
    && (|st.circles| <= 1 || CyclicLinked(st.circles))
  }

  /**
   * The non-GPU part of `State::new`: aspect ratio height/width, world scale 0.1,
   * cursor at (0, 0), no circles.
   */
  function New(size: Size): (st: RenderState)
    requires size.width > 0 && size.height > 0
    ensures Valid(st)
    ensures st.circles == [] && st.cursorPos == Point(0.0, 0.0) && st.size == size
    ensures st.aspectRatio == size.height as real / size.width as real && st.worldScale == WorldScale
  {
    var aspectRatio := size.height as real / size.width as real;
    RenderState(size, Point(0.0, 0.0), aspectRatio, WorldScale, ClipToWorld(aspectRatio, WorldScale),
                |TriIndexBuffer|, [])
  }

  /** `resize`: takes the new size only when both sides are non-zero. */
  function Resize(st: RenderState, newSize: Size): (r: RenderState)
    ensures r.size == newSize <==> (newSize.width > 0 && newSize.height > 0) || st.size == newSize
    ensures newSize.width > 0 && newSize.height > 0 ==> r == st.(size := newSize)
    ensures !(newSize.width > 0 && newSize.height > 0) ==> r == st
    ensures Valid(st) ==> Valid(r)
  {
    if newSize.width > 0 && newSize.height > 0 then st.(size := newSize) else st
  }

  lemma ResizeIsIdempotent(st: RenderState, newSize: Size)
    ensures Resize(Resize(st, newSize), newSize) == Resize(st, newSize)
  {
  }

  /**
   * `handle_window_maintenance_events` for the one window: a cursor move is recorded,
   * resizes and scale-factor changes go through `resize`, everything else (including
   * mouse buttons and redraws) leaves the state alone.
   */
  function HandleWindowMaintenanceEvents(st: RenderState, ev: Event): (r: RenderState)
    ensures ev.Window? && ev.event.CursorMoved? ==> r == st.(cursorPos := Point(ev.event.x, ev.event.y))
    ensures ev.Window? && ev.event.Resized? ==> r == Resize(st, Size(ev.event.width, ev.event.height))
    ensures ev.Window? && ev.event.ScaleFactorChanged? ==> r == Resize(st, Size(ev.event.newWidth, ev.event.newHeight))
    ensures !(ev.Window? && (ev.event.CursorMoved? || ev.event.Resized? || ev.event.ScaleFactorChanged?)) ==> r == st
    ensures r.circles == st.circles
    ensures Valid(st) ==> Valid(r)
  {
    match ev
    case Window(CursorMoved(x, y)) => st.(cursorPos := Point(x, y))
    case Window(Resized(w, h)) => Resize(st, Size(w, h))
    case Window(ScaleFactorChanged(w, h)) => Resize(st, Size(w, h))
    case _ => st
  }

  /** `get_cursor_clip_location` on the state's cursor and size. */
  function CursorClip(st: RenderState): (r: Vec4)
    requires Valid(st)
    ensures r.z == 0.0 && r.w == 1.0
    ensures CursorOfClip(r, st.size) == st.cursorPos
  {
    CursorClipLocation(st.cursorPos, st.size)
  }

  /** `add_circle_at_clip_location` on the state: only the circle list changes, and stays valid. */
  function AddCircleAtClip(st: RenderState, clip: Vec4): (r: RenderState)
    requires Valid(st)
    ensures Valid(r)
    ensures r == st.(circles := AddCircleAtClipLocation(st.circles, st.clipToWorld, clip))
  {
    var world := DotProduct(st.clipToWorld, clip);
    InsertKeepsCyclicLinks(st.circles, Vec3(world.x, world.y, world.z), ClickScale);
    st.(circles := AddCircleAtClipLocation(st.circles, st.clipToWorld, clip))
  }
}
