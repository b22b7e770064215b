/**
 * The coordinate maps of src/rendering.rs: pixel cursor to clip space
 * (`get_cursor_clip_location`), the column-major `dot_product`, and the diagonal
 * world/clip transforms built in `State::new`.
 */
module Geometry {

  /** A window size in physical pixels (`PhysicalSize<u32>`). */
  datatype Size = Size(width: nat, height: nat)

  /** A cursor position in pixels, measured from the window's top-left corner. */
  datatype Point = Point(x: real, y: real)

  datatype Vec3 = Vec3(x: real, y: real, z: real)

  datatype Vec4 = Vec4(x: real, y: real, z: real, w: real)

  /**
   * A 4x4 matrix stored as four COLUMNS, the way WGSL reads `[[f32; 4]; 4]`:
   * `transform_matrix[i]` is column `i`.
   */
  datatype Mat4 = Mat4(c0: Vec4, c1: Vec4, c2: Vec4, c3: Vec4)

  function Column(m: Mat4, i: nat): Vec4
    requires i < 4
  {
    if i == 0 then m.c0 else if i == 1 then m.c1 else if i == 2 then m.c2 else m.c3
  }

  /** The i-th standard basis vector. */
  function Unit(i: nat): Vec4
    requires i < 4
  {
    Vec4(if i == 0 then 1.0 else 0.0, if i == 1 then 1.0 else 0.0,
         if i == 2 then 1.0 else 0.0, if i == 3 then 1.0 else 0.0)
  }

  /**
   * `dot_product`: matrix times vector, entry `j` summing row `j` over the columns.
   * Read column-major, this is the combination of the columns weighted by `v`.
   */
  function DotProduct(m: Mat4, v: Vec4): (r: Vec4)
    ensures v == Unit(0) ==> r == m.c0
    ensures v == Unit(1) ==> r == m.c1
    ensures v == Unit(2) ==> r == m.c2
    ensures v == Unit(3) ==> r == m.c3
  {
    Vec4(m.c0.x * v.x + m.c1.x * v.y + m.c2.x * v.z + m.c3.x * v.w,
         m.c0.y * v.x + m.c1.y * v.y + m.c2.y * v.z + m.c3.y * v.w,
         m.c0.z * v.x + m.c1.z * v.y + m.c2.z * v.z + m.c3.z * v.w,
         m.c0.w * v.x + m.c1.w * v.y + m.c2.w * v.z + m.c3.w * v.w)
  }

  /** Column-major reading: applying the matrix to basis vector i yields column i. */
  lemma DotProductPicksColumn(m: Mat4, i: nat)
    requires i < 4
    ensures DotProduct(m, Unit(i)) == Column(m, i)
  {
  }

  function Diagonal(a: real, b: real, c: real, d: real): Mat4
  {
    Mat4(Vec4(a, 0.0, 0.0, 0.0), Vec4(0.0, b, 0.0, 0.0), Vec4(0.0, 0.0, c, 0.0), Vec4(0.0, 0.0, 0.0, d))
  }

  /** A diagonal matrix scales each component independently. */
  lemma DiagonalScales(a: real, b: real, c: real, d: real, v: Vec4)
    ensures DotProduct(Diagonal(a, b, c, d), v) == Vec4(a * v.x, b * v.y, c * v.z, d * v.w)
  {
  }

  /** The world scale `State::new` uses. */
  const WorldScale: real := 0.1

  /** `world_to_clip_transfm`: scales x by `aspect * scale` and y by `scale`. */
  function WorldToClip(aspectRatio: real, worldScale: real): (r: Mat4)
    ensures r.c0.x == aspectRatio * r.c1.y && r.c1.y == worldScale && r.c2.z == 1.0 && r.c3.w == 1.0
    ensures r.c0.y == r.c0.z == r.c0.w == r.c1.x == r.c1.z == r.c1.w == 0.0
    ensures r.c2.x == r.c2.y == r.c2.w == r.c3.x == r.c3.y == r.c3.z == 0.0
  {
    Diagonal(aspectRatio * worldScale, worldScale, 1.0, 1.0)
  }

  /** `clip_to_world_transform`: the reciprocal diagonal. */
  function ClipToWorld(aspectRatio: real, worldScale: real): (r: Mat4)
    requires aspectRatio * worldScale != 0.0
    ensures r.c0.x * (aspectRatio * worldScale) == 1.0 && r.c1.y * worldScale == 1.0 && r.c2.z == 1.0 && r.c3.w == 1.0
    ensures r.c0.y == r.c0.z == r.c0.w == r.c1.x == r.c1.z == r.c1.w == 0.0
    ensures r.c2.x == r.c2.y == r.c2.w == r.c3.x == r.c3.y == r.c3.z == 0.0
  {
    assert worldScale != 0.0;
    Diagonal(1.0 / (aspectRatio * worldScale), 1.0 / worldScale, 1.0, 1.0)
  }

  /** The two transforms undo each other, in both orders. */
  lemma TransformsAreInverse(aspectRatio: real, worldScale: real, v: Vec4)
    requires aspectRatio * worldScale != 0.0
    ensures DotProduct(ClipToWorld(aspectRatio, worldScale), DotProduct(WorldToClip(aspectRatio, worldScale), v)) == v
    ensures DotProduct(WorldToClip(aspectRatio, worldScale), DotProduct(ClipToWorld(aspectRatio, worldScale), v)) == v
  {
    var a := aspectRatio * worldScale;
    assert worldScale != 0.0;
    assert (1.0 / a) * (a * v.x) == v.x;
    assert (1.0 / worldScale) * (worldScale * v.y) == v.y;
    assert a * ((1.0 / a) * v.x) == v.x;
    assert worldScale * ((1.0 / worldScale) * v.y) == v.y;
  }

  /**
   * `get_cursor_clip_location`: pixel x in [0, width] to clip x in [-1, 1] and pixel y
   * in [0, height] to clip y in [1, -1] (clip y points up); z = 0 and w = 1.
   */
  function CursorClipLocation(cursor: Point, size: Size): (r: Vec4)
    requires size.width > 0 && size.height > 0
    ensures r.z == 0.0 && r.w == 1.0
    ensures CursorOfClip(r, size) == cursor
  {
    var clipX := ((cursor.x / size.width as real) - 0.5) * 2.0;
    var clipY := ((cursor.y / size.height as real) - 0.5) * -2.0;
    Vec4(clipX, clipY, 0.0, 1.0)
  }

  /** The inverse map: a clip-space position back to the pixel it came from. */
  function CursorOfClip(clip: Vec4, size: Size): Point
  {
    Point((clip.x / 2.0 + 0.5) * size.width as real, (clip.y / -2.0 + 0.5) * size.height as real)
  }

  lemma MulDivCancel(a: real, w: real)
    requires w != 0.0
    ensures a * w / w == a
  {
    assert a * w / w == a * (w / w);
  }

  /** Clip to pixel and back is the identity on the x/y plane. */
  lemma ClipRoundTrip(clip: Vec4, size: Size)
    requires size.width > 0 && size.height > 0
    ensures var r := CursorClipLocation(CursorOfClip(clip, size), size);
            r.x == clip.x && r.y == clip.y
  {
    var w := size.width as real;
    var h := size.height as real;
    MulDivCancel(clip.x / 2.0 + 0.5, w);
    MulDivCancel(clip.y / -2.0 + 0.5, h);
  }

  /** The corners: left edge to -1, right edge to +1, top edge to +1, bottom edge to -1. */
  lemma ClipCorners(size: Size)
    requires size.width > 0 && size.height > 0
    ensures CursorClipLocation(Point(0.0, 0.0), size).x == -1.0
    ensures CursorClipLocation(Point(size.width as real, 0.0), size).x == 1.0
    ensures CursorClipLocation(Point(0.0, 0.0), size).y == 1.0
    ensures CursorClipLocation(Point(0.0, size.height as real), size).y == -1.0
  {
    assert size.width as real / size.width as real == 1.0;
    assert size.height as real / size.height as real == 1.0;
  }

  /** A cursor inside the window lands inside the clip square. */
  lemma ClipInsideWindow(cursor: Point, size: Size)
    requires size.width > 0 && size.height > 0
    requires 0.0 <= cursor.x <= size.width as real && 0.0 <= cursor.y <= size.height as real
    ensures var r := CursorClipLocation(cursor, size);
            -1.0 <= r.x <= 1.0 && -1.0 <= r.y <= 1.0
  {
    var w := size.width as real;
    var h := size.height as real;
    assert 0.0 <= cursor.x / w <= 1.0 by { assert cursor.x / w * w == cursor.x; }
    assert 0.0 <= cursor.y / h <= 1.0 by { assert cursor.y / h * h == cursor.y; }
  }
}
