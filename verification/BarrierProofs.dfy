/** Why the lines of AddBoxes are a barrier around the region. */
module BarrierProofs {
  import opened BarrierGeometry
  import opened BarrierSpec

  // ----- one row of lines against the row above it -----

  type Columns = iset<int>

  ghost predicate Within(x: int, x1: int, x2: int) {
    x1 <= x < x2
  }

  ghost function Span(x1: int, x2: int): Columns {
    iset x | Within(x, x1, x2)
  }

  ghost function Cols(l: Line): Columns {
    Span(l.x1, l.x2)
  }

  ghost function RowCols(ls: seq<Line>): Columns {
    iset x, i: nat | i < |ls| && x in Cols(ls[i]) :: x
  }

  /** The closed or open edge of a line along the given columns agrees with what is there. */
  ghost predicate Facing(closed: bool, others: Columns, mine: Columns) {
    if closed then mine !! others else mine <= others
  }

  ghost predicate BottomsFace(ls: seq<Line>, others: Columns) {
    forall i :: 0 <= i < |ls| ==> Facing(ls[i].bottom, others, Cols(ls[i]))
  }

  ghost predicate TopsFace(ls: seq<Line>, others: Columns) {
    forall i :: 0 <= i < |ls| ==> Facing(ls[i].top, others, Cols(ls[i]))
  }

  /** s is a part of l: it keeps the outer edges it shares with l and has open inner ones. */
  ghost predicate PartOf(s: Line, l: Line) {
    && l.x1 <= s.x1 < s.x2 <= l.x2 && s.y1 == l.y1 && s.y2 == l.y2
    && s.left == (l.left && s.x1 == l.x1)
    && s.right == (l.right && s.x2 == l.x2)
  }

  /** ls divides l into columns. */
  ghost predicate Chain(ls: seq<Line>, l: Line) {
    && ls != []
    && ls[0].x1 == l.x1 && Last(ls).x2 == l.x2
    && (forall i :: 0 <= i < |ls| ==> PartOf(ls[i], l))
    && (forall i :: 0 < i < |ls| ==> ls[i - 1].x2 == ls[i].x1)
  }

  /** Every line of ls' is a part of a line of ls and has the same top. */
  ghost predicate Divides(ls: seq<Line>, ls': seq<Line>) {
    forall j :: 0 <= j < |ls'| ==> HasParent(ls, ls'[j])
  }

  ghost predicate HasParent(ls: seq<Line>, s: Line) {
    exists i :: 0 <= i < |ls| && PartOf(s, ls[i]) && s.top == ls[i].top
  }

  lemma {:induction false} LinkedSpan(ls: seq<Line>)
    requires ls != []
    requires forall i :: 0 <= i < |ls| ==> ls[i].x1 < ls[i].x2
    requires forall i :: 0 < i < |ls| ==> ls[i - 1].x2 == ls[i].x1
    ensures forall i, j :: 0 <= i < j < |ls| ==> ls[i].x2 <= ls[j].x1
    ensures RowCols(ls) == Span(ls[0].x1, Last(ls).x2)
  {
    if |ls| == 1 {
      assert RowCols(ls) == Cols(ls[0]);
    } else {
      var front := ls[..|ls| - 1];
      LinkedSpan(front);
      assert front[0] == ls[0] && Last(front).x2 == Last(ls).x1;
      RowColsConcat(front, [Last(ls)]);
      assert ls == front + [Last(ls)];
      assert RowCols([Last(ls)]) == Cols([Last(ls)][0]);
      assert ls[0].x1 < Last(front).x2 by {
        if |front| > 1 { assert front[0].x2 <= front[|front| - 1].x1; }
      }
      forall j | 0 <= j < |front|
        ensures front[j].x2 <= Last(ls).x1
      {
        if j < |front| - 1 { assert front[j].x2 <= front[|front| - 1].x1; }
      }
    }
  }

  lemma ChainIsRow(ls: seq<Line>, l: Line)
    requires Chain(ls, l) && Proper(l)
    ensures Row(ls) && RowCols(ls) == Cols(l)
  {
    LinkedSpan(ls);
  }

  lemma RowColsConcat(a: seq<Line>, b: seq<Line>)
    ensures RowCols(a + b) == RowCols(a) + RowCols(b)
  {
    forall x | x in RowCols(a) + RowCols(b)
      ensures x in RowCols(a + b)
    {
      if x in RowCols(a) {
        var i: nat :| i < |a| && x in Cols(a[i]);
        assert x in Cols((a + b)[i]);
      } else {
        var i: nat :| i < |b| && x in Cols(b[i]);
        assert x in Cols((a + b)[|a| + i]);
      }
    }
  }

  lemma WindowIsChain(t: Line, m: Line)
    requires Overlap(t, m) && Proper(t) && Proper(m)
    ensures Chain(Window(t, m), t)
    ensures forall i :: 0 <= i < |Window(t, m)| ==> Window(t, m)[i].top == t.top
  {
    var a, b := From(t, m), Upto(t, m);
    if t.x1 < a && b < t.x2 {
      var rest := RightPart(t, a);
      assert Window(t, m) == [LeftPart(t, a), LeftPart(rest, b).(bottom := false), RightPart(rest, b)];
    } else if t.x1 < a {
      assert Window(t, m) == [LeftPart(t, a), RightPart(t, a).(bottom := false)];
    } else if b < t.x2 {
      assert Window(t, m) == [LeftPart(t, b).(bottom := false), RightPart(t, b)];
    } else {
      assert Window(t, m) == [t.(bottom := false)];
    }
    hide Window;
  }

  lemma OpenAboveCols(above: seq<Line>, i: nat, m: Line)
    requires i < |above| && Row(above) && Proper(m) && Overlap(above[i], m)
    ensures RowCols(OpenAbove(above, i, m)) == RowCols(above)
  {
    var t, w := above[i], Window(above[i], m);
    var front, back := above[..i], above[i + 1..];
    WindowIsChain(t, m);
    ChainIsRow(w, t);
    assert above == front + [t] + back;
    RowColsConcat(front, [t]);
    RowColsConcat(front + [t], back);
    RowColsConcat(front, w);
    RowColsConcat(front + w, back);
    assert RowCols([t]) == Cols([t][0]);
  }

  lemma RowConcat(a: seq<Line>, b: seq<Line>)
    requires Row(a) && Row(b)
    requires forall i, j :: 0 <= i < |a| && 0 <= j < |b| ==>
               a[i].y1 == b[j].y1 && a[i].y2 == b[j].y2 && a[i].x2 <= b[j].x1
    ensures Row(a + b)
  {
  }

  lemma OpenAboveRow(above: seq<Line>, i: nat, m: Line)
    requires i < |above| && Row(above) && Proper(m) && Overlap(above[i], m)
    ensures Row(OpenAbove(above, i, m))
  {
    var t, w := above[i], Window(above[i], m);
    WindowIsChain(t, m);
    ChainIsRow(w, t);
    RowConcat(above[..i], w);
    RowConcat(above[..i] + w, above[i + 1..]);
  }

  lemma OpenAboveDivides(above: seq<Line>, i: nat, m: Line)
    requires i < |above| && Row(above) && Proper(m) && Overlap(above[i], m)
    ensures Divides(above, OpenAbove(above, i, m))
  {
    var w, all := Window(above[i], m), OpenAbove(above, i, m);
    WindowIsChain(above[i], m);
    forall j | 0 <= j < |all|
      ensures HasParent(above, all[j])
    {
      if j < i {
        assert PartOf(all[j], above[j]);
      } else if j < i + |w| {
        assert all[j] == w[j - i];
        assert PartOf(all[j], above[i]);
      } else {
        assert all[j] == above[j - |w| + 1];
        assert PartOf(all[j], above[j - |w| + 1]);
      }
    }
  }

  lemma DividesTransitive(a: seq<Line>, b: seq<Line>, c: seq<Line>)
    requires Divides(a, b) && Divides(b, c)
    ensures Divides(a, c)
  {
    forall j | 0 <= j < |c|
      ensures HasParent(a, c[j])
    {
      assert HasParent(b, c[j]);
      var k :| 0 <= k < |b| && PartOf(c[j], b[k]) && c[j].top == b[k].top;
      assert HasParent(a, b[k]);
      var i :| 0 <= i < |a| && PartOf(b[k], a[i]) && b[k].top == a[i].top;
      assert PartOf(c[j], a[i]);
    }
  }

  /** Splitting and opening bottoms keeps the band above in order and in place. */
  lemma {:induction false} ResolveDivides(above: seq<Line>, m: Line)
    requires Row(above) && Proper(m)
    ensures var r := Resolve(above, m).above;
      Row(r) && Divides(above, r) && RowCols(r) == RowCols(above) && |r| >= |above|
    decreases m.x2 - m.x1
  {
    var n := LastOverlap(above, m, |above|);
    if n == 0 {
      forall j | 0 <= j < |above|
        ensures HasParent(above, above[j])
      {
        assert PartOf(above[j], above[j]);
      }
    } else {
      var t, above' := above[n - 1], OpenAbove(above, n - 1, m);
      OpenAboveRow(above, n - 1, m);
      OpenAboveCols(above, n - 1, m);
      OpenAboveDivides(above, n - 1, m);
      if m.x1 < From(t, m) {
        var m' := LeftPart(m, From(t, m));
        ResolveDivides(above', m');
        DividesTransitive(above, above', Resolve(above', m').above);
      }
    }
  }

  lemma WindowBottoms(t: Line, m: Line, c: Columns)
    requires Overlap(t, m) && Proper(t) && Proper(m)
    requires Facing(t.bottom, c, Cols(t))
    ensures BottomsFace(Window(t, m), c + Span(From(t, m), m.x2))
  {
  }

  /** After m is added below, every line above has the bottom it should. */
  lemma {:induction false} ResolveBottoms(above: seq<Line>, m: Line, c: Columns)
    requires Row(above) && Proper(m) && BottomsFace(above, c)
    ensures BottomsFace(Resolve(above, m).above, c + Cols(m))
    decreases m.x2 - m.x1
  {
    var n := LastOverlap(above, m, |above|);
    if n > 0 {
      hide BottomsFace, OpenAbove, Row;
      var t, above' := above[n - 1], OpenAbove(above, n - 1, m);
      var c' := c + Span(From(t, m), m.x2);
      OpenAboveRow(above, n - 1, m);
      OpenAboveBottoms(above, n - 1, m, c);
      if m.x1 < From(t, m) {
        var m' := LeftPart(m, From(t, m));
        ResolveBottoms(above', m', c');
        assert c' + Cols(m') == c + Cols(m);
      } else {
        assert c' == c + Cols(m);
      }
    }
  }

  lemma OpenAboveBottoms(above: seq<Line>, i: nat, m: Line, c: Columns)
    requires i < |above| && Row(above) && Proper(m) && Overlap(above[i], m)
    requires forall k :: i < k < |above| ==> !Overlap(above[k], m)
    requires BottomsFace(above, c)
    ensures BottomsFace(OpenAbove(above, i, m), c + Span(From(above[i], m), m.x2))
  {
    var w, all := Window(above[i], m), OpenAbove(above, i, m);
    var c' := c + Span(From(above[i], m), m.x2);
    WindowBottoms(above[i], m, c);
    forall j | 0 <= j < |all|
      ensures Facing(all[j].bottom, c', Cols(all[j]))
    {
      if j < i {
        assert all[j] == above[j];
        assert above[j].x2 <= above[i].x1;
      } else if j < i + |w| {
        assert all[j] == w[j - i];
      } else {
        assert all[j] == above[j - |w| + 1];
        assert !Overlap(above[j - |w| + 1], m) && above[i].x2 <= above[j - |w| + 1].x1;
      }
    }
  }

  lemma OpenBelowIsChain(t: Line, m: Line)
    requires Overlap(t, m) && Proper(t) && Proper(m)
    ensures var a := From(t, m);
      Chain(OpenBelow(t, m), if m.x1 < a then RightPart(m, a) else m)
    ensures forall i :: 0 <= i < |OpenBelow(t, m)| ==> OpenBelow(t, m)[i].bottom == m.bottom
  {
  }

  /** ps divides m, and the top of each line is open exactly along the columns c. */
  ghost predicate PiecesOK(ps: seq<Line>, m: Line, c: Columns) {
    && Chain(ps, m)
    && (forall i :: 0 <= i < |ps| ==> ps[i].bottom == m.bottom)
    && TopsFace(ps, c)
  }

  lemma PiecesConcat(ps: seq<Line>, qs: seq<Line>, m: Line, a: int, c: Columns)
    requires Proper(m) && m.x1 < a < m.x2
    requires PiecesOK(ps, LeftPart(m, a), c) && PiecesOK(qs, RightPart(m, a), c)
    ensures PiecesOK(ps + qs, m, c)
  {
    forall i | 0 <= i < |ps + qs|
      ensures PartOf((ps + qs)[i], m)
    {
      if i < |ps| {
        assert PartOf(ps[i], LeftPart(m, a));
      } else {
        assert PartOf(qs[i - |ps|], RightPart(m, a));
      }
    }
  }

  lemma WholePiece(above: seq<Line>, m: Line)
    requires Proper(m) && LastOverlap(above, m, |above|) == 0
    requires forall k :: 0 <= k < |above| ==> Proper(above[k])
    ensures PiecesOK([m.(top := true)], m, RowCols(above))
  {
    assert PartOf(m.(top := true), m);
  }

  lemma {:induction false} ResolvePieces(above: seq<Line>, m: Line)
    requires Row(above) && Proper(m)
    ensures PiecesOK(Resolve(above, m).pieces, m, RowCols(above))
    decreases m.x2 - m.x1
  {
    var n := LastOverlap(above, m, |above|);
    if n == 0 {
      assert Row(above);
      WholePiece(above, m);
    } else {
      hide PiecesOK, Row, RowCols, OpenAbove, OpenBelow;
      var t, above' := above[n - 1], OpenAbove(above, n - 1, m);
      OpenAboveRow(above, n - 1, m);
      OpenAboveCols(above, n - 1, m);
      OpenBelowOK(above, n - 1, m);
      var a := From(t, m);
      if m.x1 < a {
        ResolvePieces(above', LeftPart(m, a));
        PiecesConcat(Resolve(above', LeftPart(m, a)).pieces, OpenBelow(t, m), m, a, RowCols(above));
      }
    }
  }

  lemma OpenBelowOK(above: seq<Line>, i: nat, m: Line)
    requires i < |above| && Row(above) && Proper(m) && Overlap(above[i], m)
    requires forall k :: i < k < |above| ==> !Overlap(above[k], m)
    ensures var a := From(above[i], m);
      PiecesOK(OpenBelow(above[i], m), if m.x1 < a then RightPart(m, a) else m, RowCols(above))
  {
    OpenBelowIsChain(above[i], m);
    OpenBelowTops(above, i, m);
  }

  lemma OpenBelowTops(above: seq<Line>, i: nat, m: Line)
    requires i < |above| && Row(above) && Proper(m) && Overlap(above[i], m)
    requires forall k :: i < k < |above| ==> !Overlap(above[k], m)
    ensures TopsFace(OpenBelow(above[i], m), RowCols(above))
  {
    var qs := OpenBelow(above[i], m);
    assert Cols(qs[0]) <= Cols(above[i]);
    assert Cols(above[i]) <= RowCols(above);
    if |qs| > 1 {
      forall k: nat | k < |above|
        ensures Cols(qs[1]) !! Cols(above[k])
      {
        if k < i {
          assert above[k].x2 <= above[i].x1;
        } else if k > i {
          assert above[i].x2 <= above[k].x1 && !Overlap(above[k], m);
        }
      }
    }
  }
}
