/** Popup placement (the xdg_positioner interface of the xdg-shell protocol) at a scale of 1:
    where a popup goes beside its anchor rectangle, and how it is flipped, slid and resized to
    stay inside an output. */
module Positioners {
  import opened Common

  datatype AnchorGravity = Center | Top | Bottom | Left | Right | TopLeft | BottomLeft | TopRight | BottomRight

  datatype Adjustment = Adjustment(flip: bool, slide: bool, resize: bool)

  datatype Positioner = Positioner(
    width: int, height: int,
    anchorX: int, anchorY: int, anchorWidth: int, anchorHeight: int,
    anchor: AnchorGravity, gravity: AnchorGravity,
    adjustX: Adjustment, adjustY: Adjustment,
    offsetX: int, offsetY: int)

  datatype Rect = Rect(x: int, y: int, width: int, height: int)

  /** Sizes that the setters have not refused. */
  predicate Valid(p: Positioner) {
    p.width >= 1 && p.height >= 1 && p.anchorWidth >= 1 && p.anchorHeight >= 1
  }

  predicate Leftward(g: AnchorGravity) { g.Left? || g.TopLeft? || g.BottomLeft? }

  predicate Rightward(g: AnchorGravity) { g.Right? || g.TopRight? || g.BottomRight? }

  predicate Upward(g: AnchorGravity) { g.Top? || g.TopLeft? || g.TopRight? }

  predicate Downward(g: AnchorGravity) { g.Bottom? || g.BottomLeft? || g.BottomRight? }

  function CalculatePosition(p: Positioner): (int, int) {
    var anchorY :=
      if Upward(p.anchor) then p.anchorY
      else if Downward(p.anchor) then p.anchorY + p.anchorHeight
      else p.anchorY + p.anchorHeight / 2;
    var anchorX :=
      if Leftward(p.anchor) then p.anchorX
      else if Rightward(p.anchor) then p.anchorX + p.anchorWidth
      else p.anchorX + p.anchorWidth / 2;
    var backY := if Upward(p.gravity) then p.height else if Downward(p.gravity) then 0 else p.height / 2;
    var backX := if Leftward(p.gravity) then p.width else if Rightward(p.gravity) then 0 else p.width / 2;
    (p.offsetX + anchorX - backX, p.offsetY + anchorY - backY)
  }

  function MirrorX(g: AnchorGravity): AnchorGravity {
    match g
    case Left => Right
    case TopLeft => TopRight
    case BottomLeft => BottomRight
    case Right => Left
    case TopRight => TopLeft
    case BottomRight => BottomLeft
    case _ => g
  }

  function MirrorY(g: AnchorGravity): AnchorGravity {
    match g
    case Top => Bottom
    case TopLeft => BottomLeft
    case TopRight => BottomRight
    case Bottom => Top
    case BottomLeft => TopLeft
    case BottomRight => TopRight
    case _ => g
  }

  // ----- one axis -----

  /** The stretch of w from x lies within the stretch of cw from cx. */
  predicate Fits(x: int, w: int, cx: int, cw: int) {
    cx <= x && x + w - 1 <= cx + cw - 1
  }

  /** TrySlideX and TrySlideY, where backward says that the gravity is towards lower
      coordinates. */
  function TrySlide(backward: bool, x: int, w: int, cx: int, cw: int): int {
    var cx1, x1 := cx + cw - 1, x + w - 1;
    if Fits(x, w, cx, cw) then x
    else if backward then
      if x < cx then cx else if x1 > cx1 then x - (x1 - cx1) else x
    else
      if x1 > cx1 then x - (x1 - cx1) else if x < cx then cx else x
  }

  function TryFlipX(p: Positioner, x: int, w: int, cx: int, cw: int, offset: int): int {
    var flipped := p.(gravity := MirrorX(p.gravity), anchor := MirrorX(p.anchor));
    var x' := CalculatePosition(flipped).0 + offset;
    if Fits(x, w, cx, cw) || flipped == p || !Fits(x', w, cx, cw) then x else x'
  }

  function TryFlipY(p: Positioner, y: int, h: int, cy: int, ch: int, offset: int): int {
    var flipped := p.(gravity := MirrorY(p.gravity), anchor := MirrorY(p.anchor));
    var y' := CalculatePosition(flipped).1 + offset;
    if Fits(y, h, cy, ch) || flipped == p || !Fits(y', h, cy, ch) then y else y'
  }

  /** TryResizeX and TryResizeY.  The width is measured from where the popup was. */
  function TryResize(x: int, w: int, cx: int, cw: int): (int, int) {
    var x1, cx1 := x + w - 1, cx + cw - 1;
    var w' := Min(cx1, x1) - x + 1;
    if Fits(x, w, cx, cw) || w' <= 0 then (x, w) else (Max(cx, x), w')
  }

  /** What is left of an axis after a flip to x. */
  function SlideAndResize(a: Adjustment, backward: bool, x: int, w: int, cx: int, cw: int): (int, int) {
    var x' := if a.slide then TrySlide(backward, x, w, cx, cw) else x;
    if a.resize then TryResize(x', w, cx, cw) else (x', w)
  }

  function AdjustX(p: Positioner, x: int, c: Rect, offset: int): (int, int) {
    var x' := if p.adjustX.flip then TryFlipX(p, x + offset, p.width, c.x, c.width, offset) else x + offset;
    var (pos, w) := SlideAndResize(p.adjustX, Leftward(p.gravity), x', p.width, c.x, c.width);
    (pos - offset, w)
  }

  function AdjustY(p: Positioner, y: int, c: Rect, offset: int): (int, int) {
    var y' := if p.adjustY.flip then TryFlipY(p, y + offset, p.height, c.y, c.height, offset) else y + offset;
    var (pos, h) := SlideAndResize(p.adjustY, Upward(p.gravity), y', p.height, c.y, c.height);
    (pos - offset, h)
  }

  // ----- outputs -----

  predicate Inside(r: Rect, x: int, y: int) {
    r.x <= x <= r.x + r.width - 1 && r.y <= y <= r.y + r.height - 1
  }

  /** The first output that the point is in. */
  function OutputAt(outputs: seq<Rect>, x: int, y: int): (r: Option<Rect>)
    ensures r.None? <==> forall c :: c in outputs ==> !Inside(c, x, y)
    ensures r.Some? ==> r.value in outputs && Inside(r.value, x, y)
  {
    if outputs == [] then None
    else if Inside(outputs[0], x, y) then Some(outputs[0])
    else
      assert forall c :: c in outputs ==> c == outputs[0] || c in outputs[1..];
      OutputAt(outputs[1..], x, y)
  }

  method GetOutputAt(outputs: seq<Rect>, x: int, y: int) returns (found: Option<Rect>)
    ensures found == OutputAt(outputs, x, y)
  {
    var i := 0;
    while i < |outputs|
      invariant 0 <= i <= |outputs|
      invariant OutputAt(outputs, x, y) == OutputAt(outputs[i..], x, y)
    {
      if Inside(outputs[i], x, y) {
        return Some(outputs[i]);
      }
      i := i + 1;
    }
    return None;
  }

  // ----- adjusting -----

  predicate Idle(a: Adjustment) {
    !a.flip && !a.slide && !a.resize
  }

  /** The output in which the popup is to be kept. */
  function PlacedIn(p: Positioner, outputs: seq<Rect>, offX: int, offY: int): Option<Rect> {
    OutputAt(outputs, offX + CalculatePosition(p).0, offY + CalculatePosition(p).1)
  }

  /** Where the popup goes, relative to the parent at (offX, offY), and how large it becomes. */
  function Geometry(p: Positioner, outputs: seq<Rect>, offX: int, offY: int): Rect {
    var (x, y) := CalculatePosition(p);
    match PlacedIn(p, outputs, offX, offY)
    case None => Rect(x, y, p.width, p.height)
    case Some(c) =>
      var (x', w), (y', h) := AdjustX(p, x, c, offX), AdjustY(p, y, c, offY);
      Rect(x', y', w, h)
  }

  method ApplyConstraintAdjustment(p: Positioner, outputs: seq<Rect>, offX: int, offY: int)
    returns (x: int, y: int, width: int, height: int)
    ensures Rect(x, y, width, height) == Geometry(p, outputs, offX, offY)
  {
    var position := CalculatePosition(p);
    x, y, width, height := position.0, position.1, p.width, p.height;
    if Idle(p.adjustX) && Idle(p.adjustY) {
      return;
    }
    var output := GetOutputAt(outputs, offX + x, offY + y);
    if output.Some? {
      x, y, width, height := Adjust(p, output.value, x, y, offX, offY);
    }
  }

  /** The steps for the two axes take turns. */
  method Adjust(p: Positioner, c: Rect, x0: int, y0: int, offX: int, offY: int)
    returns (x: int, y: int, width: int, height: int)
    ensures (x, width) == AdjustX(p, x0, c, offX)
    ensures (y, height) == AdjustY(p, y0, c, offY)
  {
    x, y, width, height := x0, y0, p.width, p.height;
    if p.adjustX.flip {
      x := TryFlipX(p, x + offX, width, c.x, c.width, offX) - offX;
    }
    if p.adjustY.flip {
      y := TryFlipY(p, y + offY, height, c.y, c.height, offY) - offY;
    }
    if p.adjustX.slide {
      x := TrySlide(Leftward(p.gravity), x + offX, width, c.x, c.width) - offX;
    }
    if p.adjustY.slide {
      y := TrySlide(Upward(p.gravity), y + offY, height, c.y, c.height) - offY;
    }
    if p.adjustX.resize {
      x, width := TryResizeAt(x, width, c.x, c.width, offX);
    }
    if p.adjustY.resize {
      y, height := TryResizeAt(y, height, c.y, c.height, offY);
    }
  }

  method TryResizeAt(x: int, w: int, cx: int, cw: int, offset: int) returns (x': int, w': int)
    ensures (x' + offset, w') == TryResize(x + offset, w, cx, cw)
  {
    var at, x1, cx1 := x + offset, x + offset + w - 1, cx + cw - 1;
    x', w' := x, w;
    if at >= cx && x1 <= cx1 {
      return;
    }
    var resultX, resultWidth := Max(cx, at) - offset, Min(cx1, x1) - (x + offset) + 1;
    if resultWidth <= 0 {
      return;
    }
    x', w' := resultX, resultWidth;
  }

  // ----- what the adjustments achieve -----

  function Abs(x: int): int { if x < 0 then -x else x }

  /** Sliding succeeds exactly for what is not larger than the output, and moves it no further
      than needed. */
  lemma SlideIsLeast(backward: bool, x: int, w: int, cx: int, cw: int)
    ensures Fits(TrySlide(backward, x, w, cx, cw), w, cx, cw) <==> w <= cw
    ensures forall z :: Fits(z, w, cx, cw) ==> Abs(TrySlide(backward, x, w, cx, cw) - x) <= Abs(z - x)
  {
  }

  predicate Covers(x: int, w: int, z: int) {
    x <= z < x + w
  }

  /** Resizing what starts in the output leaves exactly the part of it that is in the output. */
  lemma ResizeIsIntersection(x: int, w: int, cx: int, cw: int)
    requires w >= 1 && cx <= x < cx + cw
    ensures var (x', w') := TryResize(x, w, cx, cw);
      && w' >= 1
      && forall z :: Covers(x', w', z) <==> Covers(x, w, z) && Covers(cx, cw, z)
  {
  }

  /** A popup that fits stays where it is. */
  lemma FittingIsUnchanged(p: Positioner, x: int, y: int, c: Rect, offX: int, offY: int)
    ensures Fits(x + offX, p.width, c.x, c.width) ==> AdjustX(p, x, c, offX) == (x, p.width)
    ensures Fits(y + offY, p.height, c.y, c.height) ==> AdjustY(p, y, c, offY) == (y, p.height)
  {
  }

  /** The opposite of the popup fits. */
  predicate FlipFitsX(p: Positioner, c: Rect, offset: int) {
    var q := p.(gravity := MirrorX(p.gravity), anchor := MirrorX(p.anchor));
    Fits(CalculatePosition(q).0 + offset, p.width, c.x, c.width)
  }

  predicate FlipFitsY(p: Positioner, c: Rect, offset: int) {
    var q := p.(gravity := MirrorY(p.gravity), anchor := MirrorY(p.anchor));
    Fits(CalculatePosition(q).1 + offset, p.height, c.y, c.height)
  }

  /** Of what starts in the output, sliding and resizing make fit whatever fits already, can be
      slid because it is not too large, or is resized without having been slid; what is slid
      although it is too large is not made to fit by resizing it. */
  lemma SlideAndResizeIff(a: Adjustment, backward: bool, x: int, w: int, cx: int, cw: int)
    requires w >= 1 && cx <= x < cx + cw
    ensures var (x', w') := SlideAndResize(a, backward, x, w, cx, cw);
      && 1 <= w' <= w
      && (Fits(x', w', cx, cw) <==> Fits(x, w, cx, cw) || (if a.slide then w <= cw else a.resize))
  {
    SlideIsLeast(backward, x, w, cx, cw);
    ResizeIsIntersection(x, w, cx, cw);
  }

  /** A popup of 200 pixels on an output of 100 keeps its width if it is slid before it is resized. */
  lemma SlidIsNotResized()
    ensures var a := Adjustment(false, true, true);
      SlideAndResize(a, false, 5, 200, 0, 100) == (0, 200) && !Fits(0, 200, 0, 100)
      && SlideAndResize(a.(slide := false), false, 5, 200, 0, 100) == (5, 95) && Fits(5, 95, 0, 100)
  {
    assert TrySlide(false, 5, 200, 0, 100) == -100;
  }

  /** What has to hold for the popup to end within the output c on the X axis. */
  predicate CanFitX(p: Positioner, c: Rect, offset: int) {
    || Fits(CalculatePosition(p).0 + offset, p.width, c.x, c.width)
    || (p.adjustX.flip && FlipFitsX(p, c, offset))
    || (if p.adjustX.slide then p.width <= c.width else p.adjustX.resize)
  }

  predicate CanFitY(p: Positioner, c: Rect, offset: int) {
    || Fits(CalculatePosition(p).1 + offset, p.height, c.y, c.height)
    || (p.adjustY.flip && FlipFitsY(p, c, offset))
    || (if p.adjustY.slide then p.height <= c.height else p.adjustY.resize)
  }

  lemma FitsIffX(p: Positioner, c: Rect, offX: int, offY: int)
    requires Valid(p) && Inside(c, CalculatePosition(p).0 + offX, CalculatePosition(p).1 + offY)
    ensures var (x, w) := AdjustX(p, CalculatePosition(p).0, c, offX);
      1 <= w <= p.width && (Fits(x + offX, w, c.x, c.width) <==> CanFitX(p, c, offX))
  {
    var x := CalculatePosition(p).0 + offX;
    var x' := if p.adjustX.flip then TryFlipX(p, x, p.width, c.x, c.width, offX) else x;
    SlideAndResizeIff(p.adjustX, Leftward(p.gravity), x', p.width, c.x, c.width);
  }

  lemma FitsIffY(p: Positioner, c: Rect, offX: int, offY: int)
    requires Valid(p) && Inside(c, CalculatePosition(p).0 + offX, CalculatePosition(p).1 + offY)
    ensures var (y, h) := AdjustY(p, CalculatePosition(p).1, c, offY);
      1 <= h <= p.height && (Fits(y + offY, h, c.y, c.height) <==> CanFitY(p, c, offY))
  {
    var y := CalculatePosition(p).1 + offY;
    var y' := if p.adjustY.flip then TryFlipY(p, y, p.height, c.y, c.height, offY) else y;
    SlideAndResizeIff(p.adjustY, Upward(p.gravity), y', p.height, c.y, c.height);
  }

  /** A popup that is placed in an output ends within that output on an axis if and only if it
      fits there, flipping it makes it fit, or it is slid and not too large, or it is resized and
      not slid. */
  lemma EndsWithinOutputIff(p: Positioner, outputs: seq<Rect>, offX: int, offY: int, c: Rect)
    requires Valid(p) && PlacedIn(p, outputs, offX, offY) == Some(c)
    ensures var g := Geometry(p, outputs, offX, offY);
      && 1 <= g.width <= p.width && 1 <= g.height <= p.height
      && (Fits(g.x + offX, g.width, c.x, c.width) <==> CanFitX(p, c, offX))
      && (Fits(g.y + offY, g.height, c.y, c.height) <==> CanFitY(p, c, offY))
  {
    FitsIffX(p, c, offX, offY);
    FitsIffY(p, c, offX, offY);
  }

  /** Whether the anchor or the gravity picks a side of the axis, and so can be flipped. */
  predicate SidedX(g: AnchorGravity) { Leftward(g) || Rightward(g) }

  predicate SidedY(g: AnchorGravity) { Upward(g) || Downward(g) }

  /** Flipping takes the popup to its mirror image about the middle of the anchor rectangle,
      but for the offset, which is not mirrored, and a half pixel for each of the anchor and the
      gravity that picks no side.  Twice the middle of the two places adds up to that of the
      rectangle. */
  lemma FlipMirrorsX(p: Positioner)
    requires Valid(p)
    ensures var q := p.(gravity := MirrorX(p.gravity), anchor := MirrorX(p.anchor));
      CalculatePosition(p).0 + CalculatePosition(q).0 + p.width ==
        2 * (p.offsetX + p.anchorX) + p.anchorWidth
        - (if SidedX(p.anchor) then 0 else p.anchorWidth % 2) + (if SidedX(p.gravity) then 0 else p.width % 2)
  {
  }

  lemma FlipMirrorsY(p: Positioner)
    requires Valid(p)
    ensures var q := p.(gravity := MirrorY(p.gravity), anchor := MirrorY(p.anchor));
      CalculatePosition(p).1 + CalculatePosition(q).1 + p.height ==
        2 * (p.offsetY + p.anchorY) + p.anchorHeight
        - (if SidedY(p.anchor) then 0 else p.anchorHeight % 2) + (if SidedY(p.gravity) then 0 else p.height % 2)
  {
  }

  /** The popup lies on the side of the anchor point that the gravity names, and around it if the
      gravity names none; the anchor point is on the edge of the rectangle that the anchor names,
      or inside. */
  lemma LiesAtAnchor(p: Positioner)
    requires Valid(p)
    ensures exists ax, ay :: AnchoredAt(p, ax, ay)
  {
    var ax := p.offsetX + p.anchorX +
      if Leftward(p.anchor) then 0 else if Rightward(p.anchor) then p.anchorWidth else p.anchorWidth / 2;
    var ay := p.offsetY + p.anchorY +
      if Upward(p.anchor) then 0 else if Downward(p.anchor) then p.anchorHeight else p.anchorHeight / 2;
    assert AnchoredAt(p, ax, ay);
  }

  ghost predicate AnchoredAt(p: Positioner, ax: int, ay: int) {
    && AtEdge(Leftward(p.anchor), Rightward(p.anchor), p.offsetX + p.anchorX, p.anchorWidth, ax)
    && AtEdge(Upward(p.anchor), Downward(p.anchor), p.offsetY + p.anchorY, p.anchorHeight, ay)
    && AtEdge(Rightward(p.gravity), Leftward(p.gravity), CalculatePosition(p).0, p.width, ax)
    && AtEdge(Downward(p.gravity), Upward(p.gravity), CalculatePosition(p).1, p.height, ay)
  }

  /** The point is at the start or the end of the stretch of w from x, or else in the middle. */
  ghost predicate AtEdge(start: bool, end: bool, x: int, w: int, at: int) {
    if start then at == x else if end then at == x + w else at - x <= x + w - at <= at - x + 1
  }

  /** A flip leaves the other axis alone, and flipping again undoes it. */
  lemma FlipIsInvolution(p: Positioner)
    ensures var q := p.(gravity := MirrorX(p.gravity), anchor := MirrorX(p.anchor));
      && CalculatePosition(q).1 == CalculatePosition(p).1
      && q.(gravity := MirrorX(q.gravity), anchor := MirrorX(q.anchor)) == p
    ensures var q := p.(gravity := MirrorY(p.gravity), anchor := MirrorY(p.anchor));
      && CalculatePosition(q).0 == CalculatePosition(p).0
      && q.(gravity := MirrorY(q.gravity), anchor := MirrorY(q.anchor)) == p
  {
  }

  // ----- where the popup goes -----

  function MirroredX(p: Positioner): Positioner {
    p.(gravity := MirrorX(p.gravity), anchor := MirrorX(p.anchor))
  }

  function MirroredY(p: Positioner): Positioner {
    p.(gravity := MirrorY(p.gravity), anchor := MirrorY(p.anchor))
  }

  /** What becomes on one axis of a popup of w at x, the mirror image of which is at m: it stays if it
      fits; else it is flipped if that makes it fit; else, if it may slide, its end goes to the end of
      the output, or, where it may be resized too but is too large, its start to the start; and else,
      if it may be resized, it is cut off at the end of the output. */
  function Settle(a: Adjustment, x: int, m: int, w: int, cx: int, cw: int): (int, int) {
    if Fits(x, w, cx, cw) then (x, w)
    else if a.flip && Fits(m, w, cx, cw) then (m, w)
    else if a.slide then (if a.resize && w > cw then cx else cx + cw - w, w)
    else if a.resize then (x, cx + cw - x)
    else (x, w)
  }

  /** What is slid moves no further than it has to in order to fit, or, if it is too large, to reach
      the end of the output; what is resized keeps just the part that is in the output. */
  lemma SettleMeans(a: Adjustment, x: int, m: int, w: int, cx: int, cw: int)
    requires w >= 1 && cx <= x < cx + cw && !Fits(x, w, cx, cw) && !(a.flip && Fits(m, w, cx, cw))
    ensures var (x', w') := Settle(a, x, m, w, cx, cw);
      && (a.slide ==> w' == w && forall z :: Fits(z, w, cx, cw) ==> Abs(x' - x) <= Abs(z - x))
      && (a.slide && w <= cw ==> Fits(x', w, cx, cw))
      && (!a.slide && a.resize ==>
            w' >= 1 && forall z :: Covers(x', w', z) <==> Covers(x, w, z) && Covers(cx, cw, z))
  {
  }

  lemma AdjustIsX(p: Positioner, c: Rect, offX: int)
    requires Valid(p) && c.x <= CalculatePosition(p).0 + offX < c.x + c.width
    ensures var x, m := CalculatePosition(p).0 + offX, CalculatePosition(MirroredX(p)).0 + offX;
      var (at, w) := Settle(p.adjustX, x, m, p.width, c.x, c.width);
      AdjustX(p, CalculatePosition(p).0, c, offX) == (at - offX, w)
  {
    hide CalculatePosition, MirrorX;
  }

  lemma AdjustIsY(p: Positioner, c: Rect, offY: int)
    requires Valid(p) && c.y <= CalculatePosition(p).1 + offY < c.y + c.height
    ensures var y, m := CalculatePosition(p).1 + offY, CalculatePosition(MirroredY(p)).1 + offY;
      var (at, h) := Settle(p.adjustY, y, m, p.height, c.y, c.height);
      AdjustY(p, CalculatePosition(p).1, c, offY) == (at - offY, h)
  {
    hide CalculatePosition, MirrorY;
  }

  /** Where a popup goes, and how large it becomes: on each axis it settles in the output that its
      unadjusted place is in, and without one it is left as it is. */
  lemma GeometryIs(p: Positioner, outputs: seq<Rect>, offX: int, offY: int)
    requires Valid(p)
    ensures var (x, y), g := CalculatePosition(p), Geometry(p, outputs, offX, offY);
      match PlacedIn(p, outputs, offX, offY)
      case None => g == Rect(x, y, p.width, p.height)
      case Some(c) =>
        var mx, my := CalculatePosition(MirroredX(p)).0, CalculatePosition(MirroredY(p)).1;
        && (g.x + offX, g.width) == Settle(p.adjustX, x + offX, mx + offX, p.width, c.x, c.width)
        && (g.y + offY, g.height) == Settle(p.adjustY, y + offY, my + offY, p.height, c.y, c.height)
  {
    var o := PlacedIn(p, outputs, offX, offY);
    if o.Some? {
      AdjustIsX(p, o.value, offX);
      AdjustIsY(p, o.value, offY);
    }
  }

  /** A popup that may be flipped and slid, and is to the right of an anchor at the right end of the
      output, goes to the left of the anchor. */
  lemma FlipsBeforeSliding()
    ensures var p := Positioner(100, 20, 900, 0, 50, 20, Right, Right, Adjustment(true, true, false),
                                Adjustment(false, false, false), 0, 0);
      Geometry(p, [Rect(0, 0, 1000, 800)], 0, 0) == Rect(800, 0, 100, 20)
  {
  }
}
