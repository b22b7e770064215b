/**
 * The visual node list of src/rendering.rs: `CircleInstance` records kept strictly
 * increasing by x, each carrying the position of its cyclic right neighbour, with the
 * binary-search insert `add_circle_instance`, the hit test `circle_at_location`,
 * `expand_circle` and their composition `add_circle_at_clip_location`.
 */
module Circles {
  import opened Wrappers
  import opened Geometry

  datatype CircleInstance = CircleInstance(position: Vec3, rightNbrPos: Vec3, scale: real)

  /** Strictly increasing by `position[0]`: the order `binary_search_by` relies on. */
  predicate StrictlySortedX(cs: seq<CircleInstance>)
  {
    forall i, j :: 0 <= i < j < |cs| ==> cs[i].position.x < cs[j].position.x
  }

  /** Some circle sits at exactly this x. */
  predicate HasX(cs: seq<CircleInstance>, x: real)
  {
    exists j :: 0 <= j < |cs| && cs[j].position.x == x
  }

  /** The index after `j` around a cycle of length n. */
  function Next(j: nat, n: nat): nat
    requires j < n
  {
    if j + 1 == n then 0 else j + 1
  }

  /** The index before `j` around a cycle of length n. */
  function Prev(j: nat, n: nat): nat
    requires j < n
  {
    if j == 0 then n - 1 else j - 1
  }

  /** `add_circle_instance`'s modular forms `(j + 1) % n` and `(j + n - 1) % n` are Next and Prev. */
  lemma ModuloNeighbours(j: nat, n: nat)
    requires j < n
    ensures (j + 1) % n == Next(j, n)
    ensures (j + n - 1) % n == Prev(j, n)
  {
    if j + 1 == n {
      ModOfShifted(j + 1, n);
    } else {
      ModOfSmall(j + 1, n);
    }
    if j == 0 {
      ModOfSmall(j + n - 1, n);
    } else {
      ModOfShifted(j + n - 1, n);
    }
  }

  lemma ModOfSmall(a: nat, n: nat)
    requires a < n
    ensures a % n == a
  {
  }

  lemma ModOfShifted(a: nat, n: nat)
    requires 0 < n <= a < 2 * n
    ensures a % n == a - n
  {
    assert a == 1 * n + (a - n);
  }

  /** Every circle's `right_nbr_pos` is the position of the next circle round the cycle. */
  predicate CyclicLinked(cs: seq<CircleInstance>)
  {
    forall j :: 0 <= j < |cs| ==> cs[j].rightNbrPos == cs[Next(j, |cs|)].position
  }

  /** The outcome of `binary_search_by`: `Ok(index)` or `Err(insertion point)`. */
  datatype SearchResult = Found(index: nat) | Missing(insertAt: nat)

  /** Binary search of the window [lo, hi); everything left of it is below x, right of it above. */
  function SearchFrom(cs: seq<CircleInstance>, x: real, lo: nat, hi: nat): (r: SearchResult)
    requires StrictlySortedX(cs) && lo <= hi <= |cs|
    requires forall j :: 0 <= j < lo ==> cs[j].position.x < x
    requires forall j :: hi <= j < |cs| ==> x < cs[j].position.x
    ensures r.Found? ==> r.index < |cs| && cs[r.index].position.x == x
    ensures r.Missing? ==> r.insertAt <= |cs|
    ensures r.Missing? ==> forall j :: 0 <= j < r.insertAt ==> cs[j].position.x < x
    ensures r.Missing? ==> forall j :: r.insertAt <= j < |cs| ==> x < cs[j].position.x
    decreases hi - lo
  {
    if lo == hi then Missing(lo)
    else
      var mid := lo + (hi - lo) / 2;
      if cs[mid].position.x < x then SearchFrom(cs, x, mid + 1, hi)
      else if x < cs[mid].position.x then SearchFrom(cs, x, lo, mid)
      else Found(mid)
  }

  /** `binary_search_by` on x with `total_cmp`, over a strictly sorted list. */
  function BinarySearchX(cs: seq<CircleInstance>, x: real): (r: SearchResult)
    requires StrictlySortedX(cs)
    ensures r.Found? <==> HasX(cs, x)
    ensures r.Found? ==> r.index < |cs| && cs[r.index].position.x == x
    ensures r.Missing? ==> r.insertAt <= |cs|
    ensures r.Missing? ==> forall j :: 0 <= j < r.insertAt ==> cs[j].position.x < x
    ensures r.Missing? ==> forall j :: r.insertAt <= j < |cs| ==> x < cs[j].position.x
  {
    SearchFrom(cs, x, 0, |cs|)
  }

  /** Position and scale of a circle: everything but its neighbour link. */
  predicate SameAnchor(a: CircleInstance, b: CircleInstance)
  {
    a.position == b.position && a.scale == b.scale
  }

  /**
   * `r` is `cs` with the circle (pos, scale) inserted at index k: the other circles
   * keep their order, positions and scales; the new circle links to its successor and
   * its predecessor now links to it; every other link is as before.
   */
  predicate InsertedAt(cs: seq<CircleInstance>, r: seq<CircleInstance>, k: nat, pos: Vec3, scale: real)
  {
    && |r| == |cs| + 1
    && k < |r|
    && r[k].position == pos && r[k].scale == scale
    && (forall j :: 0 <= j < k ==> SameAnchor(r[j], cs[j]))
    && (forall j :: k < j < |r| ==> SameAnchor(r[j], cs[j - 1]))
    && r[k].rightNbrPos == r[Next(k, |r|)].position
    && r[Prev(k, |r|)].rightNbrPos == pos
    && (forall j :: 0 <= j < k && j != Prev(k, |r|) ==> r[j].rightNbrPos == cs[j].rightNbrPos)
    && (forall j :: k < j < |r| && j != Prev(k, |r|) ==> r[j].rightNbrPos == cs[j - 1].rightNbrPos)
  }

  /**
   * `add_circle_instance`: pushes onto an empty list; otherwise inserts at the binary
   * search's miss index and relinks, or leaves the list alone on an exact x match.
   */
  function AddCircleInstance(cs: seq<CircleInstance>, pos: Vec3, scale: real): (r: seq<CircleInstance>)
    requires StrictlySortedX(cs)
    ensures StrictlySortedX(r)
    ensures |cs| == 0 ==> r == [CircleInstance(pos, Vec3(pos.x, 0.0, 0.0), scale)]
    ensures HasX(cs, pos.x) ==> r == cs
    ensures |cs| > 0 && !HasX(cs, pos.x) ==> exists k :: InsertedAt(cs, r, k, pos, scale)
  {
    var newCircle := CircleInstance(pos, Vec3(pos.x, 0.0, 0.0), scale);
    if |cs| == 0 then
      [newCircle]
    else
      match BinarySearchX(cs, pos.x)
      case Found(_) => cs
      case Missing(index) =>
        var inserted := cs[..index] + [newCircle] + cs[index..];
        var n := |inserted|;
        ModuloNeighbours(index, n);
        var linked := inserted[index := inserted[index].(rightNbrPos := inserted[(index + 1) % n].position)];
        var r := linked[(index + n - 1) % n := linked[(index + n - 1) % n].(rightNbrPos := linked[index].position)];
        InsertionFacts(cs, newCircle, index, inserted, linked, r);
        r
  }

  /** What the insert-and-relink steps of `add_circle_instance` establish. */
  lemma InsertionFacts(cs: seq<CircleInstance>, c: CircleInstance, k: nat,
                       inserted: seq<CircleInstance>, linked: seq<CircleInstance>, r: seq<CircleInstance>)
    requires StrictlySortedX(cs) && 0 < |cs| && k <= |cs|
    requires forall j :: 0 <= j < k ==> cs[j].position.x < c.position.x
    requires forall j :: k <= j < |cs| ==> c.position.x < cs[j].position.x
    requires inserted == cs[..k] + [c] + cs[k..]
    requires linked == inserted[k := inserted[k].(rightNbrPos := inserted[Next(k, |inserted|)].position)]
    requires r == linked[Prev(k, |inserted|) := linked[Prev(k, |inserted|)].(rightNbrPos := linked[k].position)]
    ensures StrictlySortedX(r)
    ensures InsertedAt(cs, r, k, c.position, c.scale)
  {
    SpliceShape(cs, c, k, inserted);
    SplicedIsSorted(cs, c, k, inserted);
    RelinkKeepsAnchors(inserted, linked, r, k);
    forall i, j | 0 <= i < j < |r|
      ensures r[i].position.x < r[j].position.x
    {
      assert inserted[i].position.x < inserted[j].position.x;
    }
  }

  /** Where each circle sits in `cs[..k] + [c] + cs[k..]`. */
  lemma SpliceShape(cs: seq<CircleInstance>, c: CircleInstance, k: nat, inserted: seq<CircleInstance>)
    requires k <= |cs| && inserted == cs[..k] + [c] + cs[k..]
    ensures |inserted| == |cs| + 1 && inserted[k] == c
    ensures forall j :: 0 <= j < k ==> inserted[j] == cs[j]
    ensures forall j :: k < j < |inserted| ==> inserted[j] == cs[j - 1]
  {
  }

  lemma SplicedIsSorted(cs: seq<CircleInstance>, c: CircleInstance, k: nat, inserted: seq<CircleInstance>)
    requires StrictlySortedX(cs) && k <= |cs|
    requires forall j :: 0 <= j < k ==> cs[j].position.x < c.position.x
    requires forall j :: k <= j < |cs| ==> c.position.x < cs[j].position.x
    requires |inserted| == |cs| + 1 && inserted[k] == c
    requires forall j :: 0 <= j < k ==> inserted[j] == cs[j]
    requires forall j :: k < j < |inserted| ==> inserted[j] == cs[j - 1]
    ensures StrictlySortedX(inserted)
  {
    forall i, j | 0 <= i < j < |inserted|
      ensures inserted[i].position.x < inserted[j].position.x
    {
      if j < k {
        assert inserted[i] == cs[i] && inserted[j] == cs[j];
      } else if i > k {
        assert inserted[i] == cs[i - 1] && inserted[j] == cs[j - 1];
      } else if i == k {
        assert inserted[j] == cs[j - 1];
      } else if j == k {
        assert inserted[i] == cs[i];
      } else {
        assert inserted[i] == cs[i] && inserted[j] == cs[j - 1];
      }
    }
  }

  /** The two relinking writes change links only: positions and scales stay put. */
  lemma RelinkKeepsAnchors(inserted: seq<CircleInstance>, linked: seq<CircleInstance>, r: seq<CircleInstance>, k: nat)
    requires 2 <= |inserted| && k < |inserted|
    requires linked == inserted[k := inserted[k].(rightNbrPos := inserted[Next(k, |inserted|)].position)]
    requires r == linked[Prev(k, |inserted|) := linked[Prev(k, |inserted|)].(rightNbrPos := linked[k].position)]
    ensures |r| == |inserted|
    ensures forall j :: 0 <= j < |r| ==> SameAnchor(r[j], inserted[j])
    ensures r[k].rightNbrPos == inserted[Next(k, |r|)].position
    ensures r[Prev(k, |r|)].rightNbrPos == inserted[k].position
    ensures forall j :: 0 <= j < |r| && j != k && j != Prev(k, |r|) ==> r[j] == inserted[j]
  {
  }

  /** The neighbour links form a cycle after every insert that leaves two or more circles. */
  lemma InsertKeepsCyclicLinks(cs: seq<CircleInstance>, pos: Vec3, scale: real)
    requires StrictlySortedX(cs)
    requires |cs| <= 1 || CyclicLinked(cs)
    ensures var r := AddCircleInstance(cs, pos, scale);
            |r| <= 1 || CyclicLinked(r)
  {
    var r := AddCircleInstance(cs, pos, scale);
    if |cs| > 0 && !HasX(cs, pos.x) {
      var k :| InsertedAt(cs, r, k, pos, scale);
      InsertedIsCyclicLinked(cs, r, k, pos, scale);
    }
  }

  /** An insert into a non-empty cyclically linked list yields a cyclically linked list. */
  lemma InsertedIsCyclicLinked(cs: seq<CircleInstance>, r: seq<CircleInstance>, k: nat, pos: Vec3, scale: real)
    requires |cs| >= 1 && (|cs| == 1 || CyclicLinked(cs))
    requires InsertedAt(cs, r, k, pos, scale)
    ensures CyclicLinked(r)
  {
    forall j | 0 <= j < |r|
      ensures r[j].rightNbrPos == r[Next(j, |r|)].position
    {
      LinkAt(cs, r, k, pos, scale, j);
    }
  }

  /** After an insert at k, circle j links to its cyclic successor. */
  lemma LinkAt(cs: seq<CircleInstance>, r: seq<CircleInstance>, k: nat, pos: Vec3, scale: real, j: nat)
    requires |cs| >= 1 && (|cs| == 1 || CyclicLinked(cs))
    requires InsertedAt(cs, r, k, pos, scale) && j < |r|
    ensures r[j].rightNbrPos == r[Next(j, |r|)].position
  {
    if j == k {
      assert r[k].rightNbrPos == r[Next(k, |r|)].position;
    } else if j == Prev(k, |r|) {
      LinkIntoNew(cs, r, k, pos, scale, j);
    } else if j < k {
      LinkBefore(cs, r, k, pos, scale, j);
    } else if k < j {
      LinkAfter(cs, r, k, pos, scale, j);
    }
  }

  /** The new circle's predecessor links to the new circle. */
  lemma LinkIntoNew(cs: seq<CircleInstance>, r: seq<CircleInstance>, k: nat, pos: Vec3, scale: real, j: nat)
    requires InsertedAt(cs, r, k, pos, scale) && j == Prev(k, |r|)
    ensures r[j].rightNbrPos == r[Next(j, |r|)].position
  {
    assert Next(j, |r|) == k;
  }

  /** An untouched link left of the new circle still names its old successor. */
  lemma LinkBefore(cs: seq<CircleInstance>, r: seq<CircleInstance>, k: nat, pos: Vec3, scale: real, j: nat)
    requires |cs| >= 1 && (|cs| == 1 || CyclicLinked(cs))
    requires InsertedAt(cs, r, k, pos, scale) && j < k && j != Prev(k, |r|)
    ensures r[j].rightNbrPos == r[Next(j, |r|)].position
  {
    assert j + 1 < k;
    assert r[j].rightNbrPos == cs[j].rightNbrPos;
    assert cs[j].rightNbrPos == cs[j + 1].position;
    assert SameAnchor(r[j + 1], cs[j + 1]);
  }

  /** An untouched link right of the new circle still names its old successor. */
  lemma LinkAfter(cs: seq<CircleInstance>, r: seq<CircleInstance>, k: nat, pos: Vec3, scale: real, j: nat)
    requires |cs| >= 1 && (|cs| == 1 || CyclicLinked(cs))
    requires InsertedAt(cs, r, k, pos, scale) && k < j < |r| && j != Prev(k, |r|)
    ensures r[j].rightNbrPos == r[Next(j, |r|)].position
  {
    assert |cs| >= 2;
    assert r[j].rightNbrPos == cs[j - 1].rightNbrPos;
    assert cs[j - 1].rightNbrPos == cs[Next(j - 1, |cs|)].position;
    if j + 1 < |r| {
      assert SameAnchor(r[j + 1], cs[j]);
    } else {
      assert SameAnchor(r[0], cs[0]);
    }
  }

  /** Squared Euclidean distance between a circle's centre and a 2-D point. */
  function DistanceSquared(c: CircleInstance, target: Point): real
  {
    var dx := c.position.x - target.x;
    var dy := c.position.y - target.y;
    dx * dx + dy * dy
  }

  /** The point lies strictly inside the circle: distance below the scale (the radius). */
  predicate Within(c: CircleInstance, target: Point)
  {
    0.0 < c.scale && DistanceSquared(c, target) < c.scale * c.scale
  }

  function Abs(x: real): real { if x < 0.0 then -x else x }

  /**
   * The test `circle_at_location` runs on one circle: the bounding-box prefilter, then
   * `sqrt(dx² + dy²) < scale`, which over the reals is `scale > 0 && dx² + dy² < scale²`.
   */
  function Hits(c: CircleInstance, target: Point): (b: bool)
    ensures b <==> Within(c, target)
  {
    var dx := c.position.x - target.x;
    var dy := c.position.y - target.y;
    PrefilterIsSound(c, target);
    && !(Abs(dx) > c.scale || Abs(dy) > c.scale)
    && 0.0 < c.scale && dx * dx + dy * dy < c.scale * c.scale
  }

  /** The prefilter never rules out a circle the distance test would accept. */
  lemma PrefilterIsSound(c: CircleInstance, target: Point)
    ensures Within(c, target) ==> Abs(c.position.x - target.x) <= c.scale && Abs(c.position.y - target.y) <= c.scale
  {
    var dx := c.position.x - target.x;
    var dy := c.position.y - target.y;
    if Within(c, target) {
      assert Abs(dx) * Abs(dx) == dx * dx && Abs(dy) * Abs(dy) == dy * dy;
      SquareBelow(Abs(dx), c.scale, dy * dy);
      SquareBelow(Abs(dy), c.scale, dx * dx);
    }
  }

  /** a² + rest < s² with rest >= 0 puts the non-negative a below s. */
  lemma SquareBelow(a: real, s: real, rest: real)
    requires 0.0 <= a && 0.0 < s && 0.0 <= rest
    requires a * a + rest < s * s
    ensures a <= s
  {
    assert (a - s) * (a + s) == a * a - s * s;
    assert (a - s) * (a + s) < 0.0;
  }

  /** The loop of `circle_at_location` from index i on: the first hit, if any. */
  function CircleAtLocationFrom(cs: seq<CircleInstance>, target: Point, i: nat): (r: Option<nat>)
    requires i <= |cs|
    ensures r.Some? ==> i <= r.value < |cs| && Within(cs[r.value], target)
    ensures r.Some? ==> forall j :: i <= j < r.value ==> !Within(cs[j], target)
    ensures r.None? ==> forall j :: i <= j < |cs| ==> !Within(cs[j], target)
    decreases |cs| - i
  {
    if i == |cs| then None
    else
      if Hits(cs[i], target) then Some(i) else CircleAtLocationFrom(cs, target, i + 1)
  }

  /**
   * `circle_at_location`: the lowest index whose circle contains the point, or None
   * when no circle does.
   */
  function CircleAtLocation(cs: seq<CircleInstance>, target: Point): (r: Option<nat>)
    ensures r.Some? ==> r.value < |cs| && Within(cs[r.value], target)
    ensures r.Some? ==> forall j :: 0 <= j < r.value ==> !Within(cs[j], target)
    ensures r.None? <==> forall j :: 0 <= j < |cs| ==> !Within(cs[j], target)
  {
    CircleAtLocationFrom(cs, target, 0)
  }

  /** `expand_circle`: a stub that reports failure for every index, in range or not. */
  function ExpandCircle(cs: seq<CircleInstance>, index: nat): (r: Outcome<string>)
    ensures r == Fail("index out of bounds")
  {
    if index < |cs| then Fail("index out of bounds") else Fail("index out of bounds")
  }

  /** Scale given to every circle a click creates. */
  const ClickScale: real := 1.0

  /**
   * `add_circle_at_clip_location`: maps the clip position to world space; a click on an
   * existing circle goes to `expand_circle` (and changes nothing), otherwise a circle of
   * scale 1 is inserted there.
   */
  function AddCircleAtClipLocation(cs: seq<CircleInstance>, clipToWorld: Mat4, clip: Vec4): (r: seq<CircleInstance>)
    requires StrictlySortedX(cs)
    ensures StrictlySortedX(r)
    ensures var world := DotProduct(clipToWorld, clip);
            (exists j :: 0 <= j < |cs| && Within(cs[j], Point(world.x, world.y))) ==> r == cs
    ensures var world := DotProduct(clipToWorld, clip);
            (forall j :: 0 <= j < |cs| ==> !Within(cs[j], Point(world.x, world.y))) ==>
              r == AddCircleInstance(cs, Vec3(world.x, world.y, world.z), ClickScale)
    ensures |r| == |cs| || |r| == |cs| + 1
  {
    var world := DotProduct(clipToWorld, clip);
    match CircleAtLocation(cs, Point(world.x, world.y))
    case Some(index) =>
      (match ExpandCircle(cs, index)
       case Fail(_) => cs
       case Pass => cs)
    case None =>
      var r := AddCircleInstance(cs, Vec3(world.x, world.y, world.z), ClickScale);
      assert |r| == |cs| || |r| == |cs| + 1 by {
        if |cs| > 0 && !HasX(cs, world.x) {
          var k :| InsertedAt(cs, r, k, Vec3(world.x, world.y, world.z), ClickScale);
        }
      }
      r
  }
}
