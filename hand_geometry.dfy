/**
 * Crop-window geometry of the per-hand monitor views drawn by `predictWebcam`
 * in components/HandDetector.tsx: the pixel-space bounding box of a hand, the
 * square padded crop window centred on it, and the remap of the hand's
 * landmarks into mirrored, crop-relative, size-normalised coordinates.
 *
 * All coordinates are real numbers (floating-point rounding is not modelled);
 * the video's width and height are parameters.
 */
module HandGeometry {

  /** One landmark as the inference engine reports it: x and y as fractions
      of the frame's width and height, z a depth value passed through. */
  datatype Landmark = Landmark(x: real, y: real, z: real)

  /** The ordered landmarks of one detected hand. */
  type Hand = seq<Landmark>

  /** The values of minX, minY, maxX and maxY after the bounding-box loop. */
  datatype Box = Box(minX: real, minY: real, maxX: real, maxY: real)

  /** A square crop window of the frame: origin (sx, sy), side size, in pixels. */
  datatype Crop = Crop(sx: real, sy: real, size: real)

  /** The fixed margin put around a hand's bounding box, in pixels. */
  const Padding: real := 50.0

  /** Math.max of two numbers. */
  function Max(a: real, b: real): (m: real)
    ensures m >= a && m >= b && (m == a || m == b)
  {
    if a >= b then a else b
  }

  // ---------------------------------------------------------------------------
  // Bounding box
  // ---------------------------------------------------------------------------

  /** A landmark scaled to frame pixels. */
  datatype Point = Point(x: real, y: real)

  /** The pixel coordinates of the hand's landmarks, in order. */
  function Pixels(hand: Hand, w: real, h: real): (ps: seq<Point>)
    ensures |ps| == |hand|
    ensures forall i :: 0 <= i < |hand| ==> ps[i] == Point(hand[i].x * w, hand[i].y * h)
  {
    seq(|hand|, i requires 0 <= i < |hand| => Point(hand[i].x * w, hand[i].y * h))
  }

  /** The box the loop starts from: minX and minY at the frame's width and
      height, maxX and maxY at zero. */
  function InitialBox(w: real, h: real): (b: Box)
  {
    Box(w, h, 0.0, 0.0)
  }

  /** One iteration of the loop: each bound moves only when the landmark's
      pixel coordinate lies strictly beyond it. */
  function Widen(b: Box, p: Point): (r: Box)
    ensures r.minX <= b.minX && r.minY <= b.minY && b.maxX <= r.maxX && b.maxY <= r.maxY
    ensures r.minX <= p.x <= r.maxX && r.minY <= p.y <= r.maxY
    ensures (r.minX == b.minX || r.minX == p.x) && (r.minY == b.minY || r.minY == p.y)
    ensures (r.maxX == b.maxX || r.maxX == p.x) && (r.maxY == b.maxY || r.maxY == p.y)
  {
    Box(if p.x < b.minX then p.x else b.minX,
        if p.y < b.minY then p.y else b.minY,
        if p.x > b.maxX then p.x else b.maxX,
        if p.y > b.maxY then p.y else b.maxY)
  }

  /** The box the loop leaves after visiting the pixel points `ps` in order,
      starting from `start`. */
  function Sweep(start: Box, ps: seq<Point>): (b: Box)
    decreases |ps|
  {
    if ps == [] then start
    else Widen(Sweep(start, ps[..|ps| - 1]), ps[|ps| - 1])
  }

  /** The box the loop computes for a hand in a w-by-h frame. */
  function BoxOf(hand: Hand, w: real, h: real): (b: Box)
  {
    Sweep(InitialBox(w, h), Pixels(hand, w, h))
  }

  /** Every point lies inside the swept box, and the box only grows. */
  lemma {:induction false} SweepContains(start: Box, ps: seq<Point>)
    ensures var b := Sweep(start, ps);
      b.minX <= start.minX && b.minY <= start.minY &&
      start.maxX <= b.maxX && start.maxY <= b.maxY &&
      forall i :: 0 <= i < |ps| ==>
        b.minX <= ps[i].x <= b.maxX && b.minY <= ps[i].y <= b.maxY
    decreases |ps|
  {
    if ps != [] {
      var front := ps[..|ps| - 1];
      SweepContains(start, front);
      assert forall i :: 0 <= i < |front| ==> front[i] == ps[i];
    }
  }

  /** Each bound of the swept box is its starting value or a coordinate of
      one of the points. */
  lemma {:induction false} SweepAttained(start: Box, ps: seq<Point>)
    ensures var b := Sweep(start, ps);
      (b.minX == start.minX || exists i :: 0 <= i < |ps| && ps[i].x == b.minX) &&
      (b.minY == start.minY || exists i :: 0 <= i < |ps| && ps[i].y == b.minY) &&
      (b.maxX == start.maxX || exists i :: 0 <= i < |ps| && ps[i].x == b.maxX) &&
      (b.maxY == start.maxY || exists i :: 0 <= i < |ps| && ps[i].y == b.maxY)
    decreases |ps|
  {
    if ps != [] {
      var front := ps[..|ps| - 1];
      SweepAttained(start, front);
      assert forall i :: 0 <= i < |front| ==> front[i] == ps[i];
    }
  }

  /** Every landmark of the hand lies inside the box, and the box never
      shrinks past its starting values. */
  lemma BoxOfContains(hand: Hand, w: real, h: real)
    ensures var b := BoxOf(hand, w, h);
      b.minX <= w && b.minY <= h && 0.0 <= b.maxX && 0.0 <= b.maxY &&
      forall i :: 0 <= i < |hand| ==>
        b.minX <= hand[i].x * w <= b.maxX && b.minY <= hand[i].y * h <= b.maxY
  {
    SweepContains(InitialBox(w, h), Pixels(hand, w, h));
  }

  /** Each bound is either its starting value or the scaled coordinate of some
      landmark: together with BoxOfContains, the box is exactly the extent of
      the landmarks joined with the starting values. */
  lemma BoxOfAttained(hand: Hand, w: real, h: real)
    ensures var b := BoxOf(hand, w, h);
      (b.minX == w || exists i :: 0 <= i < |hand| && hand[i].x * w == b.minX) &&
      (b.minY == h || exists i :: 0 <= i < |hand| && hand[i].y * h == b.minY) &&
      (b.maxX == 0.0 || exists i :: 0 <= i < |hand| && hand[i].x * w == b.maxX) &&
      (b.maxY == 0.0 || exists i :: 0 <= i < |hand| && hand[i].y * h == b.maxY)
  {
    SweepAttained(InitialBox(w, h), Pixels(hand, w, h));
  }

  /** A non-empty hand gives a well-ordered box. */
  lemma BoxOfOrdered(hand: Hand, w: real, h: real)
    requires |hand| > 0
    ensures var b := BoxOf(hand, w, h); b.minX <= b.maxX && b.minY <= b.maxY
  {
  }

  /** For landmarks inside the frame (normalised coordinates in [0, 1]) the
      box lies inside the frame. */
  lemma BoxOfInFrame(hand: Hand, w: real, h: real)
    requires 0.0 <= w && 0.0 <= h
    requires forall i :: 0 <= i < |hand| ==>
      0.0 <= hand[i].x <= 1.0 && 0.0 <= hand[i].y <= 1.0
    ensures var b := BoxOf(hand, w, h);
      0.0 <= b.minX && b.maxX <= w && 0.0 <= b.minY && b.maxY <= h
  {
    BoxOfAttained(hand, w, h);
    forall i | 0 <= i < |hand|
      ensures 0.0 <= hand[i].x * w <= w && 0.0 <= hand[i].y * h <= h
    {
      ScaleInFrame(hand[i].x, w);
      ScaleInFrame(hand[i].y, h);
    }
  }

  /** A fraction in [0, 1] of a non-negative extent lies in [0, extent]. */
  lemma ScaleInFrame(f: real, extent: real)
    requires 0.0 <= f <= 1.0 && 0.0 <= extent
    ensures 0.0 <= f * extent <= extent
  {
  }

  /** The bounding-box loop, as the component runs it: four running bounds,
      updated landmark by landmark. */
  method BoundingBox(hand: Hand, w: real, h: real)
    returns (minX: real, minY: real, maxX: real, maxY: real)
    ensures Box(minX, minY, maxX, maxY) == BoxOf(hand, w, h)
    ensures forall i :: 0 <= i < |hand| ==>
      minX <= hand[i].x * w <= maxX && minY <= hand[i].y * h <= maxY
    ensures |hand| > 0 ==> minX <= maxX && minY <= maxY
  {
    ghost var ps := Pixels(hand, w, h);
    minX, minY, maxX, maxY := w, h, 0.0, 0.0;
    for k := 0 to |hand|
      invariant Box(minX, minY, maxX, maxY) == Sweep(InitialBox(w, h), ps[..k])
      invariant forall i :: 0 <= i < k ==>
        minX <= ps[i].x <= maxX && minY <= ps[i].y <= maxY
    {
      assert ps[..k + 1][..k] == ps[..k];
      var x := hand[k].x * w;
      var y := hand[k].y * h;
      assert Point(x, y) == ps[k];
      if x < minX { minX := x; }
      if x > maxX { maxX := x; }
      if y < minY { minY := y; }
      if y > maxY { maxY := y; }
    }
    assert ps[..|hand|] == ps;
    if |hand| > 0 {
      assert minX <= ps[0].x <= maxX;
    }
  }

  // ---------------------------------------------------------------------------
  // Square crop window
  // ---------------------------------------------------------------------------

  /** The crop window for a box: the box is padded on every side, the window
      is a square as large as the larger padded side, centred on the box, and
      its origin is clamped to be non-negative.  Nothing clamps it on the
      right or bottom: the window may extend past the frame there. */
  function CropOf(b: Box): (c: Crop)
    // the window's side is the larger padded side of the box
    ensures c.size >= b.maxX - b.minX + 2.0 * Padding
    ensures c.size >= b.maxY - b.minY + 2.0 * Padding
    ensures c.size == b.maxX - b.minX + 2.0 * Padding || c.size == b.maxY - b.minY + 2.0 * Padding
    ensures b.minX <= b.maxX && b.minY <= b.maxY ==> c.size >= 2.0 * Padding
    // the origin is never negative
    ensures c.sx >= 0.0 && c.sy >= 0.0
    // the window is centred on the box unless that would put its origin below zero
    ensures b.minX + b.maxX >= c.size ==> 2.0 * c.sx + c.size == b.minX + b.maxX
    ensures b.minX + b.maxX < c.size ==> c.sx == 0.0
    ensures b.minY + b.maxY >= c.size ==> 2.0 * c.sy + c.size == b.minY + b.maxY
    ensures b.minY + b.maxY < c.size ==> c.sy == 0.0
    // the window covers the padded box, except where it is cut at zero
    ensures c.sx + c.size >= b.maxX + Padding && c.sy + c.size >= b.maxY + Padding
    ensures c.sx == 0.0 || c.sx <= b.minX - Padding
    ensures c.sy == 0.0 || c.sy <= b.minY - Padding
  {
    var bboxWidth := b.maxX - b.minX + 2.0 * Padding;
    var bboxHeight := b.maxY - b.minY + 2.0 * Padding;
    var size := Max(bboxWidth, bboxHeight);
    var centerX := b.minX + (b.maxX - b.minX) / 2.0;
    var centerY := b.minY + (b.maxY - b.minY) / 2.0;
    Crop(Max(0.0, centerX - size / 2.0), Max(0.0, centerY - size / 2.0), size)
  }

  /** Every landmark of the hand lies at least Padding inside the window,
      except towards a top or left edge where the origin is zero. */
  predicate Covers(c: Crop, hand: Hand, w: real, h: real)
  {
    forall i :: 0 <= i < |hand| ==>
      hand[i].x * w + Padding <= c.sx + c.size && hand[i].y * h + Padding <= c.sy + c.size &&
      (c.sx == 0.0 || c.sx + Padding <= hand[i].x * w) &&
      (c.sy == 0.0 || c.sy + Padding <= hand[i].y * h)
  }

  /** The crop window of a (non-empty) hand: every landmark lies at least
      Padding inside the window, except towards an edge where the origin was
      clamped to zero. */
  function MonitorCrop(hand: Hand, w: real, h: real): (c: Crop)
    requires |hand| > 0
    ensures c.size >= 2.0 * Padding
    ensures c.sx >= 0.0 && c.sy >= 0.0
    ensures Covers(c, hand, w, h)
    ensures c == CropOf(BoxOf(hand, w, h))
  {
    BoxOfContains(hand, w, h);
    BoxOfOrdered(hand, w, h);
    CropOf(BoxOf(hand, w, h))
  }

  // ---------------------------------------------------------------------------
  // Landmark remap
  // ---------------------------------------------------------------------------

  /** A landmark in the monitor view's coordinates: relative to the crop
      origin, divided by the window's side, and mirrored horizontally. */
  function Remap(lm: Landmark, c: Crop, w: real, h: real): (r: Landmark)
    requires c.size != 0.0
    ensures r.z == lm.z
    ensures lm.x * w == c.sx + (1.0 - r.x) * c.size
    ensures lm.y * h == c.sy + r.y * c.size
  {
    var relativeX := lm.x * w - c.sx;
    var relativeY := lm.y * h - c.sy;
    Landmark(1.0 - relativeX / c.size, relativeY / c.size, lm.z)
  }

  /** The inverse of Remap: from monitor coordinates back to frame fractions. */
  function Unremap(r: Landmark, c: Crop, w: real, h: real): (lm: Landmark)
    requires w != 0.0 && h != 0.0
  {
    Landmark((c.sx + (1.0 - r.x) * c.size) / w, (c.sy + r.y * c.size) / h, r.z)
  }

  /** Remap and Unremap are inverse bijections for a non-degenerate window
      and frame. */
  lemma RemapRoundTrip(lm: Landmark, r: Landmark, c: Crop, w: real, h: real)
    requires c.size != 0.0 && w != 0.0 && h != 0.0
    ensures Unremap(Remap(lm, c, w, h), c, w, h) == lm
    ensures Remap(Unremap(r, c, w, h), c, w, h) == r
  {
  }

  /** The remap applied to every landmark of a hand, in order. */
  function RemapHand(hand: Hand, c: Crop, w: real, h: real): (r: seq<Landmark>)
    requires c.size != 0.0
    ensures |r| == |hand|
    ensures forall i :: 0 <= i < |hand| ==>
      r[i].z == hand[i].z &&
      hand[i].x * w == c.sx + (1.0 - r[i].x) * c.size &&
      hand[i].y * h == c.sy + r[i].y * c.size
  {
    seq(|hand|, i requires 0 <= i < |hand| => Remap(hand[i], c, w, h))
  }

  /** The remapped hand determines the original one: applying Unremap to
      each remapped landmark gives back the hand. */
  lemma RemapHandRoundTrip(hand: Hand, c: Crop, w: real, h: real)
    requires c.size != 0.0 && w != 0.0 && h != 0.0
    ensures var r := RemapHand(hand, c, w, h);
      forall i :: 0 <= i < |hand| ==> Unremap(r[i], c, w, h) == hand[i]
  {
  }

  /** The monitor coordinates of a hand's own landmarks lie in [0, 1]: the
      far sides always, the near sides whenever the landmark is not to the
      left of or above the frame (where the clamped origin cannot reach it). */
  lemma RemapWithinMonitor(hand: Hand, w: real, h: real)
    requires |hand| > 0
    requires 0.0 <= w && 0.0 <= h
    ensures var r := RemapHand(hand, MonitorCrop(hand, w, h), w, h);
      forall i :: 0 <= i < |hand| ==>
        0.0 <= r[i].x && r[i].y <= 1.0 &&
        (0.0 <= hand[i].x ==> r[i].x <= 1.0) &&
        (0.0 <= hand[i].y ==> 0.0 <= r[i].y)
  {
    RemapWithinCrop(hand, MonitorCrop(hand, w, h), w, h);
  }

  /** RemapWithinMonitor for any positive window that covers the hand. */
  lemma RemapWithinCrop(hand: Hand, c: Crop, w: real, h: real)
    requires c.size > 0.0 && Covers(c, hand, w, h)
    requires 0.0 <= w && 0.0 <= h
    ensures var r := RemapHand(hand, c, w, h);
      forall i :: 0 <= i < |hand| ==>
        0.0 <= r[i].x && r[i].y <= 1.0 &&
        (0.0 <= hand[i].x ==> r[i].x <= 1.0) &&
        (0.0 <= hand[i].y ==> 0.0 <= r[i].y)
  {
  }
}
