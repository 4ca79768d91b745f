/** What the barrier computation produces, as functions on sequences of lines.  The lines made
    so far fall into those of finished bands (done), those of the band just above (above),
    and those of the band being filled (cur). */
module BarrierSpec {
  import opened Common
  import opened BarrierGeometry

  /** Lines of one band, from left to right. */
  ghost predicate Row(ls: seq<Line>) {
    && (forall i :: 0 <= i < |ls| ==> Proper(ls[i]))
    && (forall i, j :: 0 <= i < j < |ls| ==>
          ls[i].y1 == ls[j].y1 && ls[i].y2 == ls[j].y2 && ls[i].x2 <= ls[j].x1)
  }

  /** The parts of t left of x and right of x; the edges between them are open. */
  function LeftPart(t: Line, x: int): Line { t.(x2 := x, right := false) }
  function RightPart(t: Line, x: int): Line { t.(x1 := x, left := false) }

  /** The two lines share a column. */
  predicate Overlap(s: Line, t: Line) {
    s.x1 < t.x2 && t.x1 < s.x2
  }

  /** One more than the index of the last of the first n lines that overlaps m, or 0. */
  function LastOverlap(above: seq<Line>, m: Line, n: nat): (r: nat)
    requires n <= |above|
    ensures r <= n
    ensures r > 0 ==> Overlap(above[r - 1], m)
    ensures forall k :: r <= k < n ==> !Overlap(above[k], m)
  {
    if n == 0 then 0
    else if Overlap(above[n - 1], m) then n
    else LastOverlap(above, m, n - 1)
  }

  /** The first and the last column, exclusive, that t shares with m. */
  function From(t: Line, m: Line): int { Max(t.x1, m.x1) }
  function Upto(t: Line, m: Line): int { Min(t.x2, m.x2) }

  /** t split so that the columns it shares with m are a line of their own, the bottom of
      which is open. */
  function Window(t: Line, m: Line): (r: seq<Line>)
    requires Overlap(t, m)
  {
    var a, b := From(t, m), Upto(t, m);
    var rest := if t.x1 < a then RightPart(t, a) else t;
    var mid := if b < t.x2 then LeftPart(rest, b) else rest;
    (if t.x1 < a then [LeftPart(t, a)] else [])
    + [mid.(bottom := false)]
    + (if b < t.x2 then [RightPart(rest, b)] else [])
  }

  function OpenAbove(above: seq<Line>, i: nat, m: Line): seq<Line>
    requires i < |above| && Overlap(above[i], m)
  {
    above[..i] + Window(above[i], m) + above[i + 1..]
  }

  /** The part of m that starts below t; its top is open below t and closed to the right. */
  function OpenBelow(t: Line, m: Line): seq<Line>
    requires Overlap(t, m)
  {
    var a, b := From(t, m), Upto(t, m);
    var rest := if m.x1 < a then RightPart(m, a) else m;
    var mid := if b < m.x2 then LeftPart(rest, b) else rest;
    [mid.(top := false)] + (if b < m.x2 then [RightPart(rest, b).(top := true)] else [])
  }

  datatype Cut = Cut(above: seq<Line>, pieces: seq<Line>)

  /** Opens the edges between m and the band above it: the rightmost overlap is made a line
      of its own on both sides, and what is left of it in m is treated in the same way. */
  function Resolve(above: seq<Line>, m: Line): Cut
    decreases m.x2 - m.x1
  {
    var n := LastOverlap(above, m, |above|);
    if n == 0 then
      Cut(above, [m.(top := true)])
    else
      var t := above[n - 1];
      var above' := OpenAbove(above, n - 1, m);
      if m.x1 < From(t, m) then
        var r := Resolve(above', LeftPart(m, From(t, m)));
        Cut(r.above, r.pieces + OpenBelow(t, m))
      else
        Cut(above', OpenBelow(t, m))
  }

  datatype Bands = Bands(done: seq<Line>, above: seq<Line>, cur: seq<Line>) {
    function Flat(): seq<Line> { done + above + cur }
  }

  function NewLine(b: Box, top: bool): Line {
    Line(b.x1, b.y1, b.x2, b.y2, top, true, true, true)
  }

  function Last(ls: seq<Line>): Line
    requires ls != []
  {
    ls[|ls| - 1]
  }

  /** Puts m at the end of the current band, the other lines of which are mid. */
  function Place(done: seq<Line>, above: seq<Line>, mid: seq<Line>, m: Line): Bands {
    if above == [] || Last(above).y2 != m.y1 then
      Bands(done, above, mid + [m.(top := true)])
    else
      var r := Resolve(above, m);
      Bands(done, r.above, mid + r.pieces)
  }

  /** A box that continues the last line widens it; one of a new band starts that band. */
  function AddBox(s: Bands, b: Box): Bands {
    if s.cur == [] then
      Bands([], [], [NewLine(b, true)])
    else
      var last := Last(s.cur);
      if last.y1 != b.y1 then
        Place(s.done + s.above, s.cur, [], NewLine(b, false))
      else if last.x2 == b.x1 then
        Place(s.done, s.above, s.cur[..|s.cur| - 1], last.(x2 := b.x2))
      else
        Place(s.done, s.above, s.cur, NewLine(b, false))
  }

  function AddBoxes(boxes: seq<Box>): Bands {
    if boxes == [] then Bands([], [], [])
    else AddBox(AddBoxes(boxes[..|boxes| - 1]), boxes[|boxes| - 1])
  }
}
