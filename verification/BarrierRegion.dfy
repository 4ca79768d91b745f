/** From rows of columns to the plane: adding a box to a barrier gives a barrier around the
    larger region. */
module BarrierRegion {
  import opened BarrierGeometry
  import opened BarrierSpec
  import opened BarrierProofs

  ghost predicate AllEdges(ls: seq<Line>, region: Points) {
    forall i :: 0 <= i < |ls| ==> EdgesOK(ls[i], region)
  }

  /** Every line of ls ends at or above row y. */
  ghost predicate EndBy(ls: seq<Line>, y: int) {
    forall i :: 0 <= i < |ls| ==> ls[i].y2 <= y
  }

  lemma EndByPoints(ls: seq<Line>, y: int, p: (int, int))
    requires EndBy(ls, y) && p in LinesPoints(ls)
    ensures p.1 < y
  {
    var i: nat :| i < |ls| && p in LinePoints(ls[i]);
  }

  /** How the lines stand to each other once some boxes have been added. */
  ghost predicate Shape(s: Bands) {
    && Ordered(s.done) && Row(s.above) && Row(s.cur)
    && (s.above != [] ==> EndBy(s.done, s.above[0].y1))
    && (s.cur != [] ==> EndBy(s.above, s.cur[0].y1))
    && (s.above == [] ==> s.done == []) && (s.cur == [] ==> s.above == [])
    && (forall i :: 0 <= i < |s.cur| ==> s.cur[i].bottom)
    && (s.cur != [] ==> Last(s.cur).right)
  }

  /** What holds of the lines once boxes covering the region have been added. */
  ghost predicate Inv(s: Bands, region: Points) {
    && Shape(s)
    && LinesPoints(s.Flat()) == region
    && AllEdges(s.done, region) && AllEdges(s.above, region) && AllEdges(s.cur, region)
  }

  lemma InvIsBarrier(s: Bands, region: Points)
    requires Inv(s, region)
    ensures IsBarrier(s.Flat(), region)
  {
    var ls := s.Flat();
    forall i | 0 <= i < |ls|
      ensures Proper(ls[i]) && EdgesOK(ls[i], region)
    {
      if i < |s.done| {
        assert ls[i] == s.done[i];
      } else if i < |s.done + s.above| {
        assert ls[i] == s.above[i - |s.done|];
      } else {
        assert ls[i] == s.cur[i - |s.done + s.above|];
      }
    }
  }

  lemma LinesPointsConcat(a: seq<Line>, b: seq<Line>)
    ensures LinesPoints(a + b) == LinesPoints(a) + LinesPoints(b)
  {
    forall p | p in LinesPoints(a) + LinesPoints(b)
      ensures p in LinesPoints(a + b)
    {
      if p in LinesPoints(a) {
        var i: nat :| i < |a| && p in LinePoints(a[i]);
        assert p in LinePoints((a + b)[i]);
      } else {
        var i: nat :| i < |b| && p in LinePoints(b[i]);
        assert p in LinePoints((a + b)[|a| + i]);
      }
    }
  }

  lemma FlatPoints(s: Bands)
    ensures LinesPoints(s.Flat()) == LinesPoints(s.done) + LinesPoints(s.above) + LinesPoints(s.cur)
  {
    LinesPointsConcat(s.done, s.above);
    LinesPointsConcat(s.done + s.above, s.cur);
  }

  lemma InRow(ls: seq<Line>, p: (int, int))
    requires Row(ls)
    ensures p in LinesPoints(ls) <==> ls != [] && p.0 in RowCols(ls) && ls[0].y1 <= p.1 < ls[0].y2
  {
    if p in LinesPoints(ls) {
      var i: nat :| i < |ls| && p in LinePoints(ls[i]);
      assert p.0 in Cols(ls[i]);
    }
    if ls != [] && p.0 in RowCols(ls) && ls[0].y1 <= p.1 < ls[0].y2 {
      var i: nat :| i < |ls| && p.0 in Cols(ls[i]);
      assert p in LinePoints(ls[i]);
    }
  }

  lemma SideFrame(closed: bool, region: Points, more: Points, across: Points)
    requires Side(closed, region, across) && across * more <= region
    ensures Side(closed, region + more, across)
  {
  }

  /** Lines that end above m keep their edges when m is added, except for bottoms. */
  lemma HigherFrame(l: Line, m: Line, region: Points)
    requires Proper(l) && l.y2 <= m.y1 && EdgesOK(l, region)
    ensures var region' := region + LinePoints(m);
      TopOK(l, region') && LeftOK(l, region') && RightOK(l, region') && (l.y2 < m.y1 ==> BottomOK(l, region'))
  {
    var more := LinePoints(m);
    SideFrame(l.top, region, more, Rect(l.x1, l.y1 - 1, l.x2, l.y1));
    SideFrame(l.left, region, more, Rect(l.x1 - 1, l.y1, l.x1, l.y2));
    SideFrame(l.right, region, more, Rect(l.x2, l.y1, l.x2 + 1, l.y2));
    if l.y2 < m.y1 {
      SideFrame(l.bottom, region, more, Rect(l.x1, l.y2, l.x2, l.y2 + 1));
    }
  }

  /** Lines of m's own band to the left of m keep their edges, provided that m leaves a gap
      or that its first column was in the region before. */
  lemma BesideFrame(l: Line, m: Line, region: Points)
    requires Proper(l) && l.y1 == m.y1 && l.y2 == m.y2 && l.x2 <= m.x1 && EdgesOK(l, region)
    requires l.x2 < m.x1 || Rect(m.x1, m.y1, m.x1 + 1, m.y2) <= region
    ensures EdgesOK(l, region + LinePoints(m))
  {
    var more := LinePoints(m);
    SideFrame(l.top, region, more, Rect(l.x1, l.y1 - 1, l.x2, l.y1));
    SideFrame(l.left, region, more, Rect(l.x1 - 1, l.y1, l.x1, l.y2));
    SideFrame(l.right, region, more, Rect(l.x2, l.y1, l.x2 + 1, l.y2));
    SideFrame(l.bottom, region, more, Rect(l.x1, l.y2, l.x2, l.y2 + 1));
  }

  /** A part of a line has correct tops and sides when the whole line has. */
  lemma PartSides(s: Line, l: Line, region: Points)
    requires Proper(l) && PartOf(s, l) && LinePoints(l) <= region
    requires LeftOK(l, region) && RightOK(l, region)
    ensures LeftOK(s, region) && RightOK(s, region)
  {
    if s.x1 == l.x1 {
      assert Rect(s.x1 - 1, s.y1, s.x1, s.y2) == Rect(l.x1 - 1, l.y1, l.x1, l.y2);
    } else {
      assert Rect(s.x1 - 1, s.y1, s.x1, s.y2) <= LinePoints(l);
    }
    if s.x2 == l.x2 {
      assert Rect(s.x2, s.y1, s.x2 + 1, s.y2) == Rect(l.x2, l.y1, l.x2 + 1, l.y2);
    } else {
      assert Rect(s.x2, s.y1, s.x2 + 1, s.y2) <= LinePoints(l);
    }
  }

  lemma PartTop(s: Line, l: Line, region: Points)
    requires Proper(l) && PartOf(s, l) && s.top == l.top && TopOK(l, region)
    ensures TopOK(s, region)
  {
    assert Rect(s.x1, s.y1 - 1, s.x2, s.y1) <= Rect(l.x1, l.y1 - 1, l.x2, l.y1);
  }

  /** What must hold when m is about to be placed: region lies between the lines without m
      and the lines with m, since a widened m was partly there before. */
  ghost predicate Ready(done: seq<Line>, above: seq<Line>, mid: seq<Line>, m: Line, region: Points) {
    && Ordered(done) && Row(above) && Row(mid) && Proper(m)
    && (above != [] ==> EndBy(done, above[0].y1)) && EndBy(above, m.y1)
    && (above == [] ==> done == [])
    && (forall i :: 0 <= i < |mid| ==>
          mid[i].y1 == m.y1 && mid[i].y2 == m.y2 && mid[i].x2 <= m.x1 && mid[i].bottom
          && (mid[i].x2 < m.x1 || Rect(m.x1, m.y1, m.x1 + 1, m.y2) <= region))
    && Others(done, above, mid) <= region <= Others(done, above, mid) + LinePoints(m)
    && AllEdges(done, region) && AllEdges(above, region) && AllEdges(mid, region)
    && LeftOK(m, region + LinePoints(m)) && m.right && m.bottom
  }

  ghost function Others(done: seq<Line>, above: seq<Line>, mid: seq<Line>): Points {
    LinesPoints(done) + LinesPoints(above) + LinesPoints(mid)
  }

  /** The columns of a row of the region. */
  ghost function RegionRow(region: Points, y: int): Columns {
    iset x | (x, y) in region
  }

  lemma FaceIsBottom(l: Line, region: Points)
    requires Proper(l)
    ensures Facing(l.bottom, RegionRow(region, l.y2), Cols(l)) <==> BottomOK(l, region)
  {
    forall x
      ensures x in Cols(l) <==> (x, l.y2) in Rect(l.x1, l.y2, l.x2, l.y2 + 1)
    {
    }
  }

  lemma FaceIsTop(l: Line, region: Points)
    requires Proper(l)
    ensures Facing(l.top, RegionRow(region, l.y1 - 1), Cols(l)) <==> TopOK(l, region)
  {
    var r := Rect(l.x1, l.y1 - 1, l.x2, l.y1);
    forall p
      ensures p in r <==> p.0 in Cols(l) && p.1 == l.y1 - 1
    {
    }
    forall x
      ensures x in Cols(l) <==> (x, l.y1 - 1) in r
    {
    }
  }

  lemma OthersUpperRow(done: seq<Line>, above: seq<Line>, mid: seq<Line>, m: Line, region: Points)
    requires Ready(done, above, mid, m, region)
    ensures RegionRow(region + LinePoints(m), m.y1 - 1)
         == if above != [] && Last(above).y2 == m.y1 then RowCols(above) else iset{}
  {
    var y := m.y1 - 1;
    forall x
      ensures (x, y) in region + LinePoints(m)
         <==> above != [] && Last(above).y2 == m.y1 && x in RowCols(above)
    {
      InRow(above, (x, y));
      InRow(mid, (x, y));
      assert (x, y) !in LinesPoints(mid);
      if above != [] {
        assert above[0].y2 == Last(above).y2 <= m.y1;
        if (x, y) in LinesPoints(done) {
          EndByPoints(done, above[0].y1, (x, y));
        }
      }
    }
  }

  /** Nothing of the region lies below or to the right of m. */
  lemma NothingBeyond(done: seq<Line>, above: seq<Line>, mid: seq<Line>, m: Line, region: Points, p: (int, int))
    requires Ready(done, above, mid, m, region)
    requires p in region + LinePoints(m)
    ensures p.1 < m.y2 && (p.1 >= m.y1 ==> p.0 < m.x2)
  {
    if p in LinesPoints(mid) {
      var i: nat :| i < |mid| && p in LinePoints(mid[i]);
      assert mid[i].x2 <= m.x1;
    } else if p in LinesPoints(above) {
      EndByPoints(above, m.y1, p);
    } else if p in LinesPoints(done) {
      EndByPoints(done, above[0].y1, p);
      assert above[0].y1 < above[0].y2 <= m.y1;
    }
  }

  lemma NothingRight(done: seq<Line>, above: seq<Line>, mid: seq<Line>, m: Line, region: Points)
    requires Ready(done, above, mid, m, region)
    ensures LeftOK(m, region + LinePoints(m)) && RightOK(m, region + LinePoints(m))
    ensures Proper(m) && m.bottom && LinePoints(m) <= region + LinePoints(m)
    ensures forall p :: p in region + LinePoints(m) ==> p.1 < m.y2
  {
    forall p | p in region + LinePoints(m)
      ensures p.1 < m.y2 && (p.1 >= m.y1 ==> p.0 < m.x2)
    {
      NothingBeyond(done, above, mid, m, region, p);
    }
  }

  /** A piece of m has correct edges if m has correct sides and nothing lies below it. */
  lemma PieceEdges(p: Line, m: Line, region: Points, face: iset<int>)
    requires Proper(m) && PartOf(p, m) && p.bottom && LinePoints(m) <= region
    requires LeftOK(m, region) && RightOK(m, region)
    requires forall q :: q in region ==> q.1 < m.y2
    requires face == RegionRow(region, m.y1 - 1) && Facing(p.top, face, Cols(p))
    ensures EdgesOK(p, region)
  {
    PartSides(p, m, region);
    FaceIsTop(p, region);
    assert BottomOK(p, region);
  }

  lemma PiecesEdges(done: seq<Line>, above: seq<Line>, mid: seq<Line>, m: Line, region: Points, ps: seq<Line>)
    requires Ready(done, above, mid, m, region)
    requires PiecesOK(ps, m, RegionRow(region + LinePoints(m), m.y1 - 1))
    ensures AllEdges(ps, region + LinePoints(m))
  {
    NothingRight(done, above, mid, m, region);
    hide Ready, RegionRow, LeftOK, RightOK, Facing, EdgesOK, LinePoints;
    forall i | 0 <= i < |ps|
      ensures EdgesOK(ps[i], region + LinePoints(m))
    {
      PieceEdges(ps[i], m, region + LinePoints(m), RegionRow(region + LinePoints(m), m.y1 - 1));
    }
  }

  lemma AboveEdges(done: seq<Line>, above: seq<Line>, mid: seq<Line>, m: Line, region: Points, above': seq<Line>)
    requires Ready(done, above, mid, m, region) && above != [] && Last(above).y2 == m.y1
    requires Row(above') && Divides(above, above')
    requires BottomsFace(above', RegionRow(region, m.y1) + Cols(m))
    ensures AllEdges(above', region + LinePoints(m))
  {
    var region' := region + LinePoints(m);
    forall j | 0 <= j < |above'|
      ensures EdgesOK(above'[j], region')
    {
      var s := above'[j];
      assert HasParent(above, s);
      var i :| 0 <= i < |above| && PartOf(s, above[i]) && s.top == above[i].top;
      assert above[i].y2 == m.y1;
      HigherFrame(above[i], m, region);
      assert LinePoints(above[i]) <= LinesPoints(above);
      PartSides(s, above[i], region');
      PartTop(s, above[i], region');
      FaceIsBottom(s, region');
      RowPlus(region, m);
    }
  }

  lemma RowPlus(region: Points, m: Line)
    requires Proper(m)
    ensures RegionRow(region + LinePoints(m), m.y1) == RegionRow(region, m.y1) + Cols(m)
  {
    forall x
      ensures (x, m.y1) in region + LinePoints(m) <==> x in RegionRow(region, m.y1) + Cols(m)
    {
      assert (x, m.y1) in LinePoints(m) <==> x in Cols(m);
    }
  }

  // ----- placing a line, and adding boxes -----

  lemma FirstColumn(ls: seq<Line>)
    requires Row(ls)
    ensures ls != [] ==> ls[0].x1 in RowCols(ls)
  {
    if ls != [] {
      assert ls[0].x1 in Cols(ls[0]);
    }
  }

  lemma RowPoints(ls: seq<Line>, ls': seq<Line>)
    requires Row(ls) && Row(ls') && RowCols(ls) == RowCols(ls') && Divides(ls, ls')
    ensures LinesPoints(ls) == LinesPoints(ls') && |ls| > 0 <==> |ls'| > 0
    ensures ls' != [] ==> ls'[0].y1 == ls[0].y1 && ls'[0].y2 == ls[0].y2
  {
    FirstColumn(ls);
    FirstColumn(ls');
    if ls' != [] {
      assert HasParent(ls, ls'[0]);
    }
    forall p
      ensures p in LinesPoints(ls) <==> p in LinesPoints(ls')
    {
      InRow(ls, p);
      InRow(ls', p);
    }
  }

  lemma MidEdges(mid: seq<Line>, m: Line, region: Points)
    requires Row(mid) && Proper(m) && AllEdges(mid, region)
    requires forall i :: 0 <= i < |mid| ==>
               mid[i].y1 == m.y1 && mid[i].y2 == m.y2 && mid[i].x2 <= m.x1
               && (mid[i].x2 < m.x1 || Rect(m.x1, m.y1, m.x1 + 1, m.y2) <= region)
    ensures AllEdges(mid, region + LinePoints(m))
  {
    forall i | 0 <= i < |mid|
      ensures EdgesOK(mid[i], region + LinePoints(m))
    {
      BesideFrame(mid[i], m, region);
    }
  }

  lemma HigherEdges(ls: seq<Line>, m: Line, region: Points)
    requires AllEdges(ls, region)
    requires forall i :: 0 <= i < |ls| ==> Proper(ls[i]) && ls[i].y2 < m.y1
    ensures AllEdges(ls, region + LinePoints(m))
  {
    forall i | 0 <= i < |ls|
      ensures EdgesOK(ls[i], region + LinePoints(m))
    {
      HigherFrame(ls[i], m, region);
    }
  }

  lemma AboveFaces(above: seq<Line>, region: Points, y: int)
    requires Row(above) && AllEdges(above, region)
    requires forall i :: 0 <= i < |above| ==> above[i].y2 == y
    ensures BottomsFace(above, RegionRow(region, y))
  {
    forall i | 0 <= i < |above|
      ensures Facing(above[i].bottom, RegionRow(region, y), Cols(above[i]))
    {
      assert EdgesOK(above[i], region);
      FaceIsBottom(above[i], region);
    }
  }

  /** What Place does to the band above. */
  lemma PlaceAbove(done: seq<Line>, above: seq<Line>, mid: seq<Line>, m: Line, region: Points)
    requires Ready(done, above, mid, m, region)
    ensures var above' := Place(done, above, mid, m).above;
      && Row(above') && AllEdges(above', region + LinePoints(m)) && EndBy(above', m.y1)
      && LinesPoints(above') == LinesPoints(above)
      && (above' == [] <==> above == [])
      && (above != [] ==> above'[0].y1 == above[0].y1)
  {
    if above != [] && Last(above).y2 == m.y1 {
      var above' := Resolve(above, m).above;
      ResolveDivides(above, m);
      AboveFaces(above, region, m.y1);
      ResolveBottoms(above, m, RegionRow(region, m.y1));
      AboveEdges(done, above, mid, m, region, above');
      RowPoints(above, above');
      forall i | 0 <= i < |above'|
        ensures above'[i].y2 <= m.y1
      {
        assert HasParent(above, above'[i]);
      }
    } else {
      HigherEdges(above, m, region);
    }
  }

  /** What Place adds to the current band. */
  lemma PlaceCur(done: seq<Line>, above: seq<Line>, mid: seq<Line>, m: Line, region: Points)
    requires Ready(done, above, mid, m, region)
    ensures var ps := if above == [] || Last(above).y2 != m.y1 then [m.(top := true)] else Resolve(above, m).pieces;
      && Place(done, above, mid, m).cur == mid + ps
      && Chain(ps, m) && AllEdges(ps, region + LinePoints(m))
      && (forall i :: 0 <= i < |ps| ==> ps[i].bottom == m.bottom)
  {
    OthersUpperRow(done, above, mid, m, region);
    if above != [] && Last(above).y2 == m.y1 {
      ResolvePieces(above, m);
      PiecesEdges(done, above, mid, m, region, Resolve(above, m).pieces);
    } else {
      assert PartOf(m.(top := true), m);
      PiecesEdges(done, above, mid, m, region, [m.(top := true)]);
    }
  }

  lemma DoneHigher(done: seq<Line>, above: seq<Line>, mid: seq<Line>, m: Line, region: Points)
    requires Ready(done, above, mid, m, region)
    ensures AllEdges(done, region + LinePoints(m))
  {
    if above != [] {
      assert above[0].y1 < above[0].y2 <= m.y1;
      HigherEdges(done, m, region);
    }
  }

  /** Placing m extends the barrier from region to region and m. */
  lemma PlaceOK(done: seq<Line>, above: seq<Line>, mid: seq<Line>, m: Line, region: Points)
    requires Ready(done, above, mid, m, region)
    ensures Inv(Place(done, above, mid, m), region + LinePoints(m))
  {
    var s := Place(done, above, mid, m);
    PlaceAbove(done, above, mid, m, region);
    PlaceCur(done, above, mid, m, region);
    DoneHigher(done, above, mid, m, region);
    MidEdges(mid, m, region);
    CurEdges(mid, s.cur[|mid|..], region + LinePoints(m));
    PlaceShape(done, above, mid, m, region);
    PlacePoints(s, mid, m);
  }

  lemma CurEdges(mid: seq<Line>, ps: seq<Line>, region: Points)
    requires AllEdges(mid, region) && AllEdges(ps, region)
    ensures AllEdges(mid + ps, region)
  {
  }

  lemma PlaceShape(done: seq<Line>, above: seq<Line>, mid: seq<Line>, m: Line, region: Points)
    requires Ready(done, above, mid, m, region)
    ensures Shape(Place(done, above, mid, m))
  {
    var s := Place(done, above, mid, m);
    PlaceAbove(done, above, mid, m, region);
    PlaceCur(done, above, mid, m, region);
    PlaceRow(mid, s.cur[|mid|..], m);
  }

  lemma PlacePoints(s: Bands, mid: seq<Line>, m: Line)
    requires |s.cur| >= |mid| && s.cur[..|mid|] == mid && Proper(m) && Chain(s.cur[|mid|..], m)
    ensures LinesPoints(s.Flat()) == Others(s.done, s.above, mid) + LinePoints(m)
  {
    var ps := s.cur[|mid|..];
    assert s.cur == mid + ps;
    FlatPoints(s);
    LinesPointsConcat(mid, ps);
    PiecesPoints(ps, m);
  }

  lemma PiecesPoints(ps: seq<Line>, m: Line)
    requires Proper(m) && Chain(ps, m)
    ensures LinesPoints(ps) == LinePoints(m)
  {
    ChainIsRow(ps, m);
    assert PartOf(ps[0], m);
    forall p
      ensures p in LinesPoints(ps) <==> p in LinePoints(m)
    {
      InRow(ps, p);
    }
  }

  lemma PlaceRow(mid: seq<Line>, ps: seq<Line>, m: Line)
    requires Row(mid) && Proper(m) && Chain(ps, m) && m.right
    requires forall i :: 0 <= i < |ps| ==> ps[i].bottom == m.bottom
    requires forall i :: 0 <= i < |mid| ==> mid[i].y1 == m.y1 && mid[i].y2 == m.y2 && mid[i].x2 <= m.x1
    requires m.bottom && forall i :: 0 <= i < |mid| ==> mid[i].bottom
    ensures Row(mid + ps) && Last(mid + ps).right && (mid + ps)[0].y1 == m.y1
    ensures forall i :: 0 <= i < |mid + ps| ==> (mid + ps)[i].bottom
  {
    ChainIsRow(ps, m);
    assert PartOf(ps[0], m) && PartOf(Last(ps), m);
    forall i, j | 0 <= i < |mid| && 0 <= j < |ps|
      ensures mid[i].y1 == ps[j].y1 && mid[i].y2 == ps[j].y2 && mid[i].x2 <= ps[j].x1
    {
      assert PartOf(ps[j], m);
    }
    RowConcat(mid, ps);
  }

  /** Box b may be added next. */
  ghost predicate Next(s: Bands, b: Box) {
    && b.x1 < b.x2 && b.y1 < b.y2
    && (s.cur != [] ==>
          var l := Last(s.cur);
          (l.y1 == b.y1 && l.y2 == b.y2 && l.x2 <= b.x1) || l.y2 <= b.y1)
  }

  lemma AddBoxOK(s: Bands, b: Box, region: Points)
    requires Inv(s, region) && Next(s, b)
    ensures Inv(AddBox(s, b), region + BoxPoints(b))
  {
    if s.cur == [] {
      AddBoxFirst(s, b, region);
    } else if Last(s.cur).y1 != b.y1 {
      AddBoxNewBand(s, b, region);
    } else if Last(s.cur).x2 == b.x1 {
      AddBoxWiden(s, b, region);
    } else {
      AddBoxSameBand(s, b, region);
    }
  }

  lemma FirstReady(m: Line)
    requires Proper(m) && m.left && m.right && m.bottom
    ensures Ready([], [], [], m, iset{})
  {
    assert LinesPoints([]) == iset{};
    assert Rect(m.x1 - 1, m.y1, m.x1, m.y2) !! LinePoints(m);
    assert LeftOK(m, iset{} + LinePoints(m));
  }

  lemma NothingYet(s: Bands, region: Points)
    requires Inv(s, region) && s.cur == []
    ensures region == iset{}
  {
    FlatPoints(s);
  }

  lemma FirstPlaced(s: Bands, b: Box)
    requires s.cur == []
    ensures AddBox(s, b) == Place([], [], [], NewLine(b, true))
  {
  }

  lemma AddBoxFirst(s: Bands, b: Box, region: Points)
    requires Inv(s, region) && Next(s, b) && s.cur == []
    ensures Inv(AddBox(s, b), region + BoxPoints(b))
  {
    var m := NewLine(b, true);
    NothingYet(s, region);
    FirstPlaced(s, b);
    hide Inv, AddBox, Place, LinesPoints;
    FirstReady(m);
    hide Ready;
    PlaceOK([], [], [], m, iset{});
  }

  /** What is placed last reaches to the right edge of m. */
  lemma PlaceLast(done: seq<Line>, above: seq<Line>, mid: seq<Line>, m: Line)
    requires Row(above) && Proper(m)
    ensures var r := Place(done, above, mid, m);
      r.cur != [] && Last(r.cur).x2 == m.x2 && Last(r.cur).y1 == m.y1 && Last(r.cur).y2 == m.y2
  {
    ResolvePieces(above, m);
    var ps := Resolve(above, m).pieces;
    assert PartOf(Last(ps), m);
    hide Resolve, Row, TopsFace;
  }

  /** The last line made for b reaches to b's right edge. */
  lemma AddBoxLast(s: Bands, b: Box)
    requires Row(s.above) && Row(s.cur) && Next(s, b)
    ensures Reaches(AddBox(s, b), b)
  {
    if s.cur != [] {
      var last := Last(s.cur);
      assert Proper(last);
      hide Place, Row;
      PlaceLast(s.done + s.above, s.cur, [], NewLine(b, false));
      PlaceLast(s.done, s.above, s.cur, NewLine(b, false));
      if last.y1 == b.y1 && last.x2 == b.x1 {
        PlaceLast(s.done, s.above, s.cur[..|s.cur| - 1], last.(x2 := b.x2));
      }
    }
  }

  lemma NewBandReady(s: Bands, b: Box, region: Points, m: Line, done: seq<Line>)
    requires Inv(s, region) && Next(s, b) && s.cur != [] && Last(s.cur).y1 != b.y1
    requires m == NewLine(b, false) && done == s.done + s.above
    ensures Ready(done, s.cur, [], m, region)
  {
    assert Last(s.cur).y2 <= b.y1;
    LinesPointsConcat(s.done, s.above);
    FlatPoints(s);
    forall p | p in region
      ensures p.1 < b.y1
    {
      InvEnds(s, region, p);
    }
    assert LeftOK(m, region + LinePoints(m));
    DoneOrdered(s.done, s.above);
    assert EndBy(done, s.cur[0].y1) by {
      if s.above != [] { assert s.above[0].y1 < s.above[0].y2 <= s.cur[0].y1; }
    }
  }

  lemma AddBoxNewBand(s: Bands, b: Box, region: Points)
    requires Inv(s, region) && Next(s, b) && s.cur != [] && Last(s.cur).y1 != b.y1
    ensures Inv(AddBox(s, b), region + BoxPoints(b))
  {
    hide Inv, Place, LinesPoints, Ready;
    var m, done := NewLine(b, false), s.done + s.above;
    NewBandReady(s, b, region, m, done);
    PlaceOK(done, s.cur, [], m, region);
  }

  lemma DoneOrdered(done: seq<Line>, above: seq<Line>)
    requires Ordered(done) && Row(above) && (above != [] ==> EndBy(done, above[0].y1))
    ensures Ordered(done + above)
  {
    var ls := done + above;
    forall i, j | 0 <= i < j < |ls|
      ensures LineFollows(ls[i], ls[j])
    {
      if i < |done| <= j {
        assert ls[i].y2 <= above[0].y1 == above[j - |done|].y1;
      } else if j < |done| {
        assert LineFollows(done[i], done[j]);
      }
    }
  }

  /** The whole region ends at the bottom of the current band, and its last row of lines
      ends with the last line. */
  lemma InvEnds(s: Bands, region: Points, p: (int, int))
    requires Inv(s, region) && s.cur != [] && p in region
    ensures p.1 < Last(s.cur).y2 && (p.1 >= Last(s.cur).y1 ==> p in LinesPoints(s.cur) && p.0 < Last(s.cur).x2)
  {
    FlatPoints(s);
    assert s.cur[0].y1 == Last(s.cur).y1;
    if p in LinesPoints(s.cur) {
      var i: nat :| i < |s.cur| && p in LinePoints(s.cur[i]);
      assert s.cur[i].x2 <= Last(s.cur).x2;
    } else if p in LinesPoints(s.above) {
      EndByPoints(s.above, s.cur[0].y1, p);
    } else {
      EndByPoints(s.done, s.above[0].y1, p);
      assert s.above[0].y1 < s.above[0].y2 <= s.cur[0].y1;
    }
  }

  lemma BandParts(s: Bands, region: Points)
    requires Inv(s, region) && s.cur != []
    ensures Ordered(s.done) && Row(s.above) && Row(s.cur)
    ensures (s.above != [] ==> EndBy(s.done, s.above[0].y1)) && EndBy(s.above, Last(s.cur).y1)
    ensures (s.above == [] ==> s.done == []) && (forall i :: 0 <= i < |s.cur| ==> s.cur[i].bottom)
    ensures AllEdges(s.done, region) && AllEdges(s.above, region) && AllEdges(s.cur, region)
    ensures var last := Last(s.cur); Proper(last) && last.right && last.bottom
  {
    assert s.cur[0].y1 == Last(s.cur).y1;
    hide AllEdges, Ordered, EndBy;
  }

  lemma RowEnds(ls: seq<Line>)
    requires Row(ls) && ls != []
    ensures var last := Last(ls);
      forall i :: 0 <= i < |ls| ==> ls[i].y1 == last.y1 && ls[i].y2 == last.y2 && ls[i].x2 <= last.x2
  {
    forall i | 0 <= i < |ls|
      ensures ls[i].y1 == Last(ls).y1 && ls[i].y2 == Last(ls).y2 && ls[i].x2 <= Last(ls).x2
    {
      assert i == |ls| - 1 || ls[i].x2 <= Last(ls).x1;
    }
  }

  /** A line right of everything in its rows has nothing to its left. */
  lemma NewLineLeft(m: Line, region: Points, x: int)
    requires Proper(m) && m.left && x < m.x1 && forall p :: p in region && p.1 >= m.y1 ==> p.0 < x
    ensures LeftOK(m, region + LinePoints(m))
  {
  }

  lemma SameBandReady(s: Bands, b: Box, region: Points, m: Line)
    requires Inv(s, region) && Next(s, b) && s.cur != [] && m == NewLine(b, false)
    requires Last(s.cur).y1 == b.y1 && Last(s.cur).x2 != b.x1
    ensures Ready(s.done, s.above, s.cur, m, region)
  {
    var last := Last(s.cur);
    FlatPoints(s);
    assert Others(s.done, s.above, s.cur) == region;
    BandParts(s, region);
    hide Inv, Row, Ordered, AllEdges, EndBy, Others, LinesPoints, LeftOK, LinePoints, Rect;
    assert last.x2 < b.x1 && last.y2 == b.y2;
    RowEnds(s.cur);
    forall p | p in region
      ensures p.1 >= b.y1 ==> p.0 < last.x2
    {
      InvEnds(s, region, p);
    }
    NewLineLeft(m, region, last.x2);
  }

  lemma AddBoxSameBand(s: Bands, b: Box, region: Points)
    requires Inv(s, region) && Next(s, b) && s.cur != []
    requires Last(s.cur).y1 == b.y1 && Last(s.cur).x2 != b.x1
    ensures Inv(AddBox(s, b), region + BoxPoints(b))
  {
    hide Inv, Place, LinesPoints, Ready;
    var m := NewLine(b, false);
    SameBandReady(s, b, region, m);
    PlaceOK(s.done, s.above, s.cur, m, region);
  }

  lemma WidenPoints(mid: seq<Line>, last: Line, b: Box)
    requires last.y1 == b.y1 && last.y2 == b.y2 && last.x1 < last.x2 == b.x1 < b.x2
    ensures LinesPoints(mid + [last]) == LinesPoints(mid) + LinePoints(last)
    ensures LinePoints(last.(x2 := b.x2)) == LinePoints(last) + BoxPoints(b)
  {
    LinesPointsConcat(mid, [last]);
    assert LinesPoints([last]) == LinePoints(last) by {
      assert [last][0] == last;
    }
  }

  lemma AddBoxWiden(s: Bands, b: Box, region: Points)
    requires Inv(s, region) && Next(s, b) && s.cur != []
    requires Last(s.cur).y1 == b.y1 && Last(s.cur).x2 == b.x1
    ensures Inv(AddBox(s, b), region + BoxPoints(b))
  {
    var last, mid := Last(s.cur), s.cur[..|s.cur| - 1];
    var m := last.(x2 := b.x2);
    FlatPoints(s);
    assert s.cur == mid + [last];
    WidenPoints(mid, last, b);
    assert region + LinePoints(m) == region + BoxPoints(b);
    assert Rect(m.x1, m.y1, m.x1 + 1, m.y2) <= LinePoints(last);
    assert EdgesOK(last, region);
    SideFrame(last.left, region, LinePoints(m), Rect(m.x1 - 1, m.y1, m.x1, m.y2));
    assert LeftOK(m, region + LinePoints(m));
    WidenReady(s, b, region);
    PlaceOK(s.done, s.above, mid, m, region);
  }

  lemma WidenReady(s: Bands, b: Box, region: Points)
    requires Inv(s, region) && Next(s, b) && s.cur != []
    requires Last(s.cur).y1 == b.y1 && Last(s.cur).x2 == b.x1
    requires var m := Last(s.cur).(x2 := b.x2);
      && Rect(m.x1, m.y1, m.x1 + 1, m.y2) <= region
      && LeftOK(m, region + LinePoints(m))
      && Others(s.done, s.above, s.cur[..|s.cur| - 1]) <= region
      && region <= Others(s.done, s.above, s.cur[..|s.cur| - 1]) + LinePoints(m)
    ensures Ready(s.done, s.above, s.cur[..|s.cur| - 1], Last(s.cur).(x2 := b.x2), region)
  {
    hide Inv, Row, Ordered, AllEdges, EndBy, Others, LinesPoints, LeftOK, LinePoints, Rect;
    BandParts(s, region);
    AllButLast(s.cur, region);
  }

  lemma AllButLast(ls: seq<Line>, region: Points)
    requires Row(ls) && ls != [] && AllEdges(ls, region) && forall i :: 0 <= i < |ls| ==> ls[i].bottom
    ensures var mid, last := ls[..|ls| - 1], Last(ls);
      && Row(mid) && AllEdges(mid, region)
      && forall i :: 0 <= i < |mid| ==>
           mid[i].y1 == last.y1 && mid[i].y2 == last.y2 && mid[i].x2 <= last.x1 && mid[i].bottom
  {
    hide EdgesOK;
    var mid := ls[..|ls| - 1];
    forall i | 0 <= i < |mid|
      ensures mid[i] == ls[i]
    {
    }
  }

  lemma RegionPointsSnoc(boxes: seq<Box>, b: Box)
    ensures RegionPoints(boxes + [b]) == RegionPoints(boxes) + BoxPoints(b)
  {
    var all := boxes + [b];
    forall p | p in RegionPoints(boxes) + BoxPoints(b)
      ensures p in RegionPoints(all)
    {
      if p in BoxPoints(b) {
        assert p in BoxPoints(all[|boxes|]);
      } else {
        var i: nat :| i < |boxes| && p in BoxPoints(boxes[i]);
        assert p in BoxPoints(all[i]);
      }
    }
  }

  lemma NextAfter(s: Bands, boxes: seq<Box>)
    requires Banded(boxes) && |boxes| > 0
    requires |boxes| == 1 ==> s.cur == []
    requires |boxes| > 1 ==> Reaches(s, boxes[|boxes| - 2])
    ensures Next(s, boxes[|boxes| - 1])
  {
    if |boxes| > 1 {
      assert Follows(boxes[|boxes| - 2], boxes[|boxes| - 1]);
    }
  }

  lemma NoBoxes()
    ensures Inv(AddBoxes([]), RegionPoints([]))
  {
    assert AddBoxes([]).Flat() == [];
    assert LinesPoints([]) == RegionPoints([]);
  }

  lemma BandedFront(boxes: seq<Box>)
    requires Banded(boxes) && boxes != []
    ensures Banded(boxes[..|boxes| - 1])
  {
    var front := boxes[..|boxes| - 1];
    forall i | 0 < i < |front|
      ensures Follows(front[i - 1], front[i])
    {
      assert Follows(boxes[i - 1], boxes[i]);
    }
  }

  /** For every banded region, the lines computed are a barrier around it. */
  lemma {:induction false} AddBoxesOK(boxes: seq<Box>)
    requires Banded(boxes)
    ensures Inv(AddBoxes(boxes), RegionPoints(boxes))
    ensures if boxes == [] then AddBoxes(boxes).cur == [] else Reaches(AddBoxes(boxes), boxes[|boxes| - 1])
  {
    if boxes == [] {
      NoBoxes();
    } else {
      var front, b := boxes[..|boxes| - 1], boxes[|boxes| - 1];
      var s := AddBoxes(front);
      BandedFront(boxes);
      hide Inv, Next, Reaches, Banded, Follows, RegionPoints, BoxPoints, AddBox;
      AddBoxesOK(front);
      AddBoxNext(s, front, boxes, b);
    }
  }

  lemma AddBoxNext(s: Bands, front: seq<Box>, boxes: seq<Box>, b: Box)
    requires Banded(boxes) && boxes == front + [b] && Inv(s, RegionPoints(front))
    requires if front == [] then s.cur == [] else Reaches(s, front[|front| - 1])
    ensures Inv(AddBox(s, b), RegionPoints(boxes)) && Reaches(AddBox(s, b), b)
  {
    NextAfter(s, boxes);
    BandsAreRows(s, RegionPoints(front));
    hide Inv, Next, Reaches, Banded, Row, RegionPoints, BoxPoints, AddBox;
    AddBoxOK(s, b, RegionPoints(front));
    AddBoxLast(s, b);
    RegionPointsSnoc(front, b);
  }

  lemma BandsAreRows(s: Bands, region: Points)
    requires Inv(s, region)
    ensures Row(s.above) && Row(s.cur)
  {
  }

  /** The last line ends where box b does. */
  ghost predicate Reaches(s: Bands, b: Box) {
    s.cur != [] && Last(s.cur).x2 == b.x2 && Last(s.cur).y1 == b.y1 && Last(s.cur).y2 == b.y2
  }
}
