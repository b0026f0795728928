/**
 `Camera::new`: the view that keeps every camera-tracked actor on screen.
 It folds the tracked actors' positions into a bounding box, widens the box
 by a fixed margin, and picks the largest scale at which the widened box
 fits the play area (the screen minus a 288-pixel panel on each side),
 centred on it. With no tracked actor it falls back to a default view.

 `has_camera` and `get_pos` are parameters over the actor type `A`.
 */
module Framing {

  datatype Option<T> = None | Some(value: T)

  /** A world-space rectangle; `left <= right` and `top <= bottom` for every box built here. */
  datatype Box = Box(left: real, top: real, right: real, bottom: real)

  /** Screen position of the world origin's offset (`left`, `top`) and the world-to-screen scale. */
  datatype Camera = Camera(left: real, top: real, scale: real)

  /** World units added around the tracked actors on every side. */
  const MARGIN: real := 360.0
  /** Width of the side panel left free on each side of the play area. */
  const PANEL: real := 288.0
  const SCREEN_WIDTH: real := 1920.0 - PANEL * 2.0
  const SCREEN_HEIGHT: real := 1080.0
  /** The view when nothing is tracked; its scale is the unit `TSUI`, i.e. 1. */
  const DEFAULT_CAMERA: Camera := Camera(0.0, 0.0, 1.0)

  predicate WellFormed(b: Box) {
    b.left <= b.right && b.top <= b.bottom
  }

  predicate Contains(b: Box, p: (real, real)) {
    b.left <= p.0 <= b.right && b.top <= p.1 <= b.bottom
  }

  /**
   One iteration of the bounding-box loop. `None` stands for the game's
   infinite starting bounds, which the first tracked position replaces on
   all four sides.
   */
  function Grow(box: Option<Box>, p: (real, real)): (r: Box)
    ensures Contains(r, p)
    ensures box.None? || WellFormed(box.value) ==> WellFormed(r)
    ensures forall q :: box.Some? && Contains(box.value, q) ==> Contains(r, q)
  {
    match box
    case None => Box(p.0, p.1, p.0, p.1)
    case Some(b) =>
      Box(if p.0 < b.left then p.0 else b.left,
          if p.1 < b.top then p.1 else b.top,
          if p.0 > b.right then p.0 else b.right,
          if p.1 > b.bottom then p.1 else b.bottom)
  }

  /** The bounding box of the positions of the camera-tracked actors, if there are any. */
  function TrackedBox<A>(hasCamera: A -> bool, pos: A -> (real, real), ships: seq<A>): (r: Option<Box>)
    ensures r.None? <==> forall k :: 0 <= k < |ships| ==> !hasCamera(ships[k])
    ensures r.Some? ==> WellFormed(r.value)
    ensures r.Some? ==> forall k :: 0 <= k < |ships| && hasCamera(ships[k]) ==> Contains(r.value, pos(ships[k]))
    decreases |ships|
  {
    if |ships| == 0 then None
    else
      var prev := TrackedBox(hasCamera, pos, ships[..|ships| - 1]);
      var last := ships[|ships| - 1];
      if hasCamera(last) then Some(Grow(prev, pos(last))) else prev
  }

  /** Each side of the box is the coordinate of some tracked actor: the box is the tightest one. */
  lemma {:induction false} TrackedBoxTight<A>(hasCamera: A -> bool, pos: A -> (real, real), ships: seq<A>)
    requires TrackedBox(hasCamera, pos, ships).Some?
    ensures var b := TrackedBox(hasCamera, pos, ships).value;
            && (exists k :: 0 <= k < |ships| && hasCamera(ships[k]) && pos(ships[k]).0 == b.left)
            && (exists k :: 0 <= k < |ships| && hasCamera(ships[k]) && pos(ships[k]).1 == b.top)
            && (exists k :: 0 <= k < |ships| && hasCamera(ships[k]) && pos(ships[k]).0 == b.right)
            && (exists k :: 0 <= k < |ships| && hasCamera(ships[k]) && pos(ships[k]).1 == b.bottom)
    decreases |ships|
  {
    var n := |ships| - 1;
    var init := ships[..n];
    var prev := TrackedBox(hasCamera, pos, init);
    var b := TrackedBox(hasCamera, pos, ships).value;
    if prev.Some? {
      TrackedBoxTight(hasCamera, pos, init);
      var pb := prev.value;
      var kl :| 0 <= kl < |init| && hasCamera(init[kl]) && pos(init[kl]).0 == pb.left;
      var kt :| 0 <= kt < |init| && hasCamera(init[kt]) && pos(init[kt]).1 == pb.top;
      var kr :| 0 <= kr < |init| && hasCamera(init[kr]) && pos(init[kr]).0 == pb.right;
      var kb :| 0 <= kb < |init| && hasCamera(init[kb]) && pos(init[kb]).1 == pb.bottom;
      assert init[kl] == ships[kl] && init[kt] == ships[kt] && init[kr] == ships[kr] && init[kb] == ships[kb];
      if hasCamera(ships[n]) {
        assert b.left == pb.left || b.left == pos(ships[n]).0;
        assert b.top == pb.top || b.top == pos(ships[n]).1;
        assert b.right == pb.right || b.right == pos(ships[n]).0;
        assert b.bottom == pb.bottom || b.bottom == pos(ships[n]).1;
      }
    } else {
      assert b == Grow(None, pos(ships[n]));
    }
  }

  /** Frame a non-empty bounding box: widen it by the margin, fit it and centre it. */
  function FrameBox(b: Box): (c: Camera)
    requires WellFormed(b)
    ensures 0.0 < c.scale
  {
    var left := b.left - MARGIN;
    var top := b.top - MARGIN;
    var right := b.right + MARGIN;
    var bottom := b.bottom + MARGIN;
    var scalex := SCREEN_WIDTH / (right - left);
    var scaley := SCREEN_HEIGHT / (bottom - top);
    var scale := if scalex < scaley then scalex else scaley;
    var x := (left + right) * 0.5 * scale - PANEL;
    var y := (top + bottom) * 0.5 * scale;
    Camera(x - SCREEN_WIDTH * 0.5, y - SCREEN_HEIGHT * 0.5, scale)
  }

  /** `Camera::new` over the actor list. */
  function NewCamera<A>(hasCamera: A -> bool, pos: A -> (real, real), ships: seq<A>): (c: Camera)
    ensures 0.0 < c.scale
    ensures (forall k :: 0 <= k < |ships| ==> !hasCamera(ships[k])) ==> c == DEFAULT_CAMERA
  {
    match TrackedBox(hasCamera, pos, ships)
    case None => DEFAULT_CAMERA
    case Some(b) => FrameBox(b)
  }

  /**
   Where a world point lands on screen under the camera convention
   screen = world * scale - left, the one the starfield plane with paralax
   1.0 uses for its stars.
   */
  function ScreenX(c: Camera, x: real): real {
    x * c.scale - c.left
  }

  function ScreenY(c: Camera, y: real): real {
    y * c.scale - c.top
  }

  /**
   A world point maps inside the play area, at least the margin (in
   screen pixels, `MARGIN * scale`) away from each of its edges.
   */
  predicate InPlayArea(c: Camera, p: (real, real)) {
    && PANEL + MARGIN * c.scale <= ScreenX(c, p.0) <= PANEL + SCREEN_WIDTH - MARGIN * c.scale
    && MARGIN * c.scale <= ScreenY(c, p.1) <= SCREEN_HEIGHT - MARGIN * c.scale
  }

  /**
   The scale is the largest at which the widened box fits the play area:
   the box fits in both directions and fills it exactly in at least one.
   */
  lemma FrameBoxFits(b: Box)
    requires WellFormed(b)
    ensures FrameBox(b).scale * (b.right - b.left + 2.0 * MARGIN) <= SCREEN_WIDTH
    ensures FrameBox(b).scale * (b.bottom - b.top + 2.0 * MARGIN) <= SCREEN_HEIGHT
    ensures || FrameBox(b).scale * (b.right - b.left + 2.0 * MARGIN) == SCREEN_WIDTH
            || FrameBox(b).scale * (b.bottom - b.top + 2.0 * MARGIN) == SCREEN_HEIGHT
  {
    var w := b.right - b.left + 2.0 * MARGIN;
    var h := b.bottom - b.top + 2.0 * MARGIN;
    assert (b.right + MARGIN) - (b.left - MARGIN) == w;
    assert (b.bottom + MARGIN) - (b.top - MARGIN) == h;
    MinOfQuotients(SCREEN_WIDTH, w, SCREEN_HEIGHT, h);
  }

  lemma MinOfQuotients(p: real, w: real, q: real, h: real)
    requires 0.0 < w && 0.0 < h
    ensures var s := if p / w < q / h then p / w else q / h;
            && s * w <= p && s * h <= q && (s * w == p || s * h == q)
  {
    var sx := p / w;
    var sy := q / h;
    assert sx * w == p && sy * h == q;
    if sx < sy {
      assert (sy - sx) * h > 0.0;
    } else {
      assert (sx - sy) * w >= 0.0;
    }
  }

  /** The centre of the tracked box maps to the centre of the screen, (960, 540). */
  lemma FrameBoxCentres(b: Box)
    requires WellFormed(b)
    ensures ScreenX(FrameBox(b), (b.left + b.right) / 2.0) == PANEL + SCREEN_WIDTH / 2.0
    ensures ScreenY(FrameBox(b), (b.top + b.bottom) / 2.0) == SCREEN_HEIGHT / 2.0
  {
    assert ((b.left - MARGIN) + (b.right + MARGIN)) * 0.5 == (b.left + b.right) / 2.0;
    assert ((b.top - MARGIN) + (b.bottom + MARGIN)) * 0.5 == (b.top + b.bottom) / 2.0;
  }

  /** Every camera-tracked position maps inside the play area, clear of its edges by the margin. */
  lemma CameraShowsTracked<A>(hasCamera: A -> bool, pos: A -> (real, real), ships: seq<A>, k: nat)
    requires k < |ships| && hasCamera(ships[k])
    ensures InPlayArea(NewCamera(hasCamera, pos, ships), pos(ships[k]))
  {
    FrameBoxShows(TrackedBox(hasCamera, pos, ships).value, pos(ships[k]));
  }

  lemma FrameBoxShows(b: Box, p: (real, real))
    requires WellFormed(b) && Contains(b, p)
    ensures InPlayArea(FrameBox(b), p)
  {
    FrameBoxFits(b);
    FrameBoxCentres(b);
    FittedShows(b, FrameBox(b), p);
  }

  /** Any camera that fits and centres the widened box shows every point of the box. */
  lemma FittedShows(b: Box, c: Camera, p: (real, real))
    requires Contains(b, p) && 0.0 < c.scale
    requires c.scale * (b.right - b.left + 2.0 * MARGIN) <= SCREEN_WIDTH
    requires c.scale * (b.bottom - b.top + 2.0 * MARGIN) <= SCREEN_HEIGHT
    requires ScreenX(c, (b.left + b.right) / 2.0) == PANEL + SCREEN_WIDTH / 2.0
    requires ScreenY(c, (b.top + b.bottom) / 2.0) == SCREEN_HEIGHT / 2.0
    ensures InPlayArea(c, p)
  {
    FrameBoxShowsX(b, c, p.0);
    FrameBoxShowsY(b, c, p.1);
  }

  lemma FrameBoxShowsX(b: Box, c: Camera, x: real)
    requires 0.0 < c.scale && b.left <= x <= b.right
    requires c.scale * (b.right - b.left + 2.0 * MARGIN) <= SCREEN_WIDTH
    requires ScreenX(c, (b.left + b.right) / 2.0) == PANEL + SCREEN_WIDTH / 2.0
    ensures PANEL + MARGIN * c.scale <= ScreenX(c, x) <= PANEL + SCREEN_WIDTH - MARGIN * c.scale
  {
    OnScreen(c.scale, b.left, b.right, x, ScreenX(c, (b.left + b.right) / 2.0), SCREEN_WIDTH, c.left);
  }

  lemma FrameBoxShowsY(b: Box, c: Camera, y: real)
    requires 0.0 < c.scale && b.top <= y <= b.bottom
    requires c.scale * (b.bottom - b.top + 2.0 * MARGIN) <= SCREEN_HEIGHT
    requires ScreenY(c, (b.top + b.bottom) / 2.0) == SCREEN_HEIGHT / 2.0
    ensures MARGIN * c.scale <= ScreenY(c, y) <= SCREEN_HEIGHT - MARGIN * c.scale
  {
    OnScreen(c.scale, b.top, b.bottom, y, ScreenY(c, (b.top + b.bottom) / 2.0), SCREEN_HEIGHT, c.top);
  }

  /**
   One axis of `CameraShowsTracked`: a point between `lo` and `hi`, whose
   widened span scaled by `s` fits in `size`, lands within `size / 2 - MARGIN * s`
   of where the span's centre lands.
   */
  lemma OnScreen(s: real, lo: real, hi: real, x: real, centre: real, size: real, offset: real)
    requires 0.0 < s && lo <= x <= hi
    requires s * (hi - lo + 2.0 * MARGIN) <= size
    requires centre == (lo + hi) / 2.0 * s - offset
    ensures centre - size / 2.0 + MARGIN * s <= x * s - offset <= centre + size / 2.0 - MARGIN * s
  {
    assert x * s - offset == centre + (x - (lo + hi) / 2.0) * s;
    assert (x - lo) * s >= 0.0;
    assert (hi - x) * s >= 0.0;
  }
}
