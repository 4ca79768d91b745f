/** The geometry of pointer barriers: regions, lines with open and closed edges, and the
    meaning of a barrier.  An edge flag is true when the edge is closed. */
module BarrierGeometry {

  datatype Box = Box(x1: int, y1: int, x2: int, y2: int)

  datatype Line = Line(x1: int, y1: int, x2: int, y2: int,
                       top: bool, left: bool, bottom: bool, right: bool)

  type Points = iset<(int, int)>

  /** The half-open rectangle [x1, x2) by [y1, y2). */
  ghost function Rect(x1: int, y1: int, x2: int, y2: int): Points {
    iset x, y | x1 <= x < x2 && y1 <= y < y2 :: (x, y)
  }

  ghost function BoxPoints(b: Box): Points {
    Rect(b.x1, b.y1, b.x2, b.y2)
  }

  ghost function LinePoints(l: Line): Points {
    Rect(l.x1, l.y1, l.x2, l.y2)
  }

  ghost function RegionPoints(boxes: seq<Box>): Points {
    iset p, i: nat | i < |boxes| && p in BoxPoints(boxes[i]) :: p
  }

  ghost function LinesPoints(lines: seq<Line>): Points {
    iset p, i: nat | i < |lines| && p in LinePoints(lines[i]) :: p
  }

  /** Box b may come directly after box a: to its right in the same band, or in a band
      that starts at or below the end of a's band. */
  ghost predicate Follows(a: Box, b: Box) {
    || (a.y1 == b.y1 && a.y2 == b.y2 && a.x2 <= b.x1)
    || a.y2 <= b.y1
  }

  /** The order in which pixman and the X server keep the rectangles of a region. */
  ghost predicate Banded(boxes: seq<Box>) {
    && (forall i :: 0 <= i < |boxes| ==> boxes[i].x1 < boxes[i].x2 && boxes[i].y1 < boxes[i].y2)
    && (forall i :: 0 < i < |boxes| ==> Follows(boxes[i - 1], boxes[i]))
  }

  /** A closed edge has nothing of the region just across it; an open one has only region
      just across it. */
  ghost predicate Side(closed: bool, region: Points, across: Points) {
    if closed then across !! region else across <= region
  }

  ghost predicate TopOK(l: Line, region: Points) {
    Side(l.top, region, Rect(l.x1, l.y1 - 1, l.x2, l.y1))
  }

  ghost predicate LeftOK(l: Line, region: Points) {
    Side(l.left, region, Rect(l.x1 - 1, l.y1, l.x1, l.y2))
  }

  ghost predicate BottomOK(l: Line, region: Points) {
    Side(l.bottom, region, Rect(l.x1, l.y2, l.x2, l.y2 + 1))
  }

  ghost predicate RightOK(l: Line, region: Points) {
    Side(l.right, region, Rect(l.x2, l.y1, l.x2 + 1, l.y2))
  }

  ghost predicate EdgesOK(l: Line, region: Points) {
    TopOK(l, region) && LeftOK(l, region) && BottomOK(l, region) && RightOK(l, region)
  }

  ghost predicate Proper(l: Line) {
    l.x1 < l.x2 && l.y1 < l.y2
  }

  /** Lines stand in banded order, which also keeps them apart from each other. */
  ghost predicate LineFollows(a: Line, b: Line) {
    || (a.y1 == b.y1 && a.y2 == b.y2 && a.x2 <= b.x1)
    || a.y2 <= b.y1
  }

  ghost predicate Ordered(lines: seq<Line>) {
    && (forall i :: 0 <= i < |lines| ==> Proper(lines[i]))
    && (forall i, j :: 0 <= i < j < |lines| ==> LineFollows(lines[i], lines[j]))
  }

  /** What a pointer barrier around a region is: rectangles that partition the region, every
      edge of which is closed or open as the region demands. */
  ghost predicate IsBarrier(lines: seq<Line>, region: Points) {
    && Ordered(lines)
    && LinesPoints(lines) == region
    && (forall i :: 0 <= i < |lines| ==> EdgesOK(lines[i], region))
  }

  datatype Direction = Up | Leftward | Down | Rightward

  function Step(p: (int, int), d: Direction): (int, int) {
    match d
    case Up => (p.0, p.1 - 1)
    case Leftward => (p.0 - 1, p.1)
    case Down => (p.0, p.1 + 1)
    case Rightward => (p.0 + 1, p.1)
  }

  /** A one-pixel step from inside l in direction d passes over a closed edge of l. */
  predicate CrossesClosed(l: Line, p: (int, int), d: Direction) {
    match d
    case Up => p.1 == l.y1 && l.top
    case Leftward => p.0 == l.x1 && l.left
    case Down => p.1 == l.y2 - 1 && l.bottom
    case Rightward => p.0 == l.x2 - 1 && l.right
  }

  lemma FollowingLinesAreApart(a: Line, b: Line, p: (int, int))
    requires LineFollows(a, b)
    ensures p in LinePoints(a) ==> p !in LinePoints(b)
  {
  }

  /** The lines of a barrier cover every point of the region exactly once, and no other. */
  lemma PartitionsRegion(lines: seq<Line>, region: Points, p: (int, int))
    requires IsBarrier(lines, region)
    ensures p in region <==> exists i :: 0 <= i < |lines| && p in LinePoints(lines[i])
    ensures forall i, j :: 0 <= i < j < |lines| && p in LinePoints(lines[i]) ==> p !in LinePoints(lines[j])
  {
    forall i, j | 0 <= i < j < |lines| && p in LinePoints(lines[i])
      ensures p !in LinePoints(lines[j])
    {
      FollowingLinesAreApart(lines[i], lines[j], p);
    }
    assert p in LinesPoints(lines) <==> exists i: nat :: i < |lines| && p in LinePoints(lines[i]);
  }

  /** The purpose of a barrier: a one-pixel step crosses a closed edge exactly when it
      leaves the region. */
  lemma ClosedEdgesConfine(lines: seq<Line>, region: Points, i: nat, p: (int, int), d: Direction)
    requires IsBarrier(lines, region)
    requires i < |lines| && p in LinePoints(lines[i])
    ensures CrossesClosed(lines[i], p, d) <==> Step(p, d) !in region
  {
    var l := lines[i];
    var q := Step(p, d);
    assert EdgesOK(l, region);
    if q in LinePoints(l) {
      assert q in LinesPoints(lines);
    } else {
      match d
      case Up => assert q in Rect(l.x1, l.y1 - 1, l.x2, l.y1);
      case Leftward => assert q in Rect(l.x1 - 1, l.y1, l.x1, l.y2);
      case Down => assert q in Rect(l.x1, l.y2, l.x2, l.y2 + 1);
      case Rightward => assert q in Rect(l.x2, l.y1, l.x2 + 1, l.y2);
    }
  }
}
