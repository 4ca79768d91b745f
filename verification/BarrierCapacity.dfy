/** How many lines a barrier takes, and where the computation leaves its buffer.  The buffer has
    six slots for each rectangle.  The second split of case C checks for one slot less than it
    needs, so that the part right of that split may come to lie just past the buffer. */
module BarrierCapacity {
  import opened Common
  import opened BarrierGeometry
  import opened BarrierSpec
  import opened BarrierProofs
  import opened BarrierRegion

  /** Resolving m, at index idx of a buffer of n lines, comes to a second split of case C whose
      right part is at index n.  The overlaps are looked at from right to left; before each, the
      source tests whether the lines to be added still fit, and stops if not. */
  predicate Overruns(above: seq<Line>, m: Line, idx: nat, n: nat)
    decreases m.x2 - m.x1
  {
    var k := LastOverlap(above, m, |above|);
    k > 0 && m.x1 < above[k - 1].x1 &&
    var t := above[k - 1];
    var above', m' := OpenAbove(above, k - 1, m), LeftPart(m, t.x1);
    if t.x2 > m.x2 then idx + 2 < n && Overruns(above', m', idx + 1, n)
    else idx + 1 < n && ((t.x2 < m.x2 && idx + 2 == n) || Overruns(above', m', idx, n))
  }

  /** A line above ends inside m, starts right of the start of m, and has a column that nothing
      above covers directly to its right. */
  predicate GapRightOf(above: seq<Line>, m: Line, k: int) {
    && 0 <= k < |above| && m.x1 < above[k].x1 && above[k].x2 < m.x2
    && (k + 1 < |above| ==> above[k].x2 < above[k + 1].x1)
  }

  /** A line above starts inside m and ends right of it. */
  predicate Straddles(above: seq<Line>, m: Line, k: int) {
    0 <= k < |above| && m.x1 < above[k].x1 < m.x2 < above[k].x2
  }

  /** Seen from the lines as they are before: there is such a gap, and there is room for just one
      line more than m, or for two if a line above goes past the right end of m. */
  ghost predicate OneSlotShort(above: seq<Line>, m: Line, idx: nat, n: nat) {
    && (exists k :: GapRightOf(above, m, k))
    && n == idx + if exists k :: Straddles(above, m, k) then 3 else 2
  }

  /** The lines of the band above left of the last overlap stay where they are. */
  lemma OpenedAt(above: seq<Line>, i: nat, m: Line)
    requires i < |above| && Overlap(above[i], m)
    ensures var a' := OpenAbove(above, i, m);
      && i < |a'| && a'[..i] == above[..i] && a'[i].x1 == above[i].x1
  {
  }

  lemma RestGap(above: seq<Line>, i: nat, m: Line, a': seq<Line>, k: int)
    requires Row(above) && Proper(m) && i < |above| && Overlap(above[i], m) && m.x1 < above[i].x1
    requires forall j :: i < j < |above| ==> !Overlap(above[j], m)
    requires Row(a') && i < |a'| && a'[..i] == above[..i] && a'[i].x1 == above[i].x1
    requires k != i
    ensures GapRightOf(above, m, k) <==> GapRightOf(a', LeftPart(m, above[i].x1), k)
  {
    if 0 <= k < i {
      assert a'[k] == a'[..i][k] == above[..i][k];
      assert above[k].x2 <= above[i].x1;
      if k + 1 < i {
        assert a'[k + 1] == a'[..i][k + 1] == above[..i][k + 1];
        assert above[k + 1].x2 <= above[i].x1;
      }
    } else if i < k < |above| {
      assert above[i].x2 <= above[k].x1;
    }
    if i < k < |a'| {
      assert a'[i].x2 <= a'[k].x1;
    }
  }

  lemma RestStraddles(above: seq<Line>, i: nat, m: Line, a': seq<Line>, k: int)
    requires Row(above) && Proper(m) && i < |above| && Overlap(above[i], m) && m.x1 < above[i].x1
    requires Row(a') && i < |a'| && a'[..i] == above[..i] && a'[i].x1 == above[i].x1
    ensures !Straddles(a', LeftPart(m, above[i].x1), k)
  {
    if 0 <= k < i {
      assert a'[k] == a'[..i][k] == above[..i][k];
      assert above[k].x2 <= above[i].x1;
    } else if i < k < |a'| {
      assert a'[i].x2 <= a'[k].x1;
    }
  }

  lemma LastGap(above: seq<Line>, i: nat, m: Line)
    requires Row(above) && Proper(m) && i < |above| && Overlap(above[i], m) && m.x1 < above[i].x1
    requires forall j :: i < j < |above| ==> !Overlap(above[j], m)
    ensures GapRightOf(above, m, i) <==> above[i].x2 < m.x2
    ensures (exists k :: Straddles(above, m, k)) <==> m.x2 < above[i].x2
  {
    if i + 1 < |above| {
      assert above[i].x2 <= above[i + 1].x1;
    }
    if m.x2 < above[i].x2 {
      assert Straddles(above, m, i);
    }
    forall k | 0 <= k < |above|
      ensures Straddles(above, m, k) ==> k == i
    {
      if k < i {
        assert above[k].x2 <= above[i].x1;
      }
    }
  }

  /** Nothing is split twice if the last overlap starts at the left end of m or before. */
  lemma NoGap(above: seq<Line>, i: nat, m: Line, k: int)
    requires Row(above) && Proper(m) && i < |above| && Overlap(above[i], m) && above[i].x1 <= m.x1
    requires forall j :: i < j < |above| ==> !Overlap(above[j], m)
    ensures !GapRightOf(above, m, k)
  {
    if 0 <= k < i {
      assert above[k].x2 <= above[i].x1;
    } else if i < k < |above| {
      assert above[i].x2 <= above[k].x1;
    }
  }

  lemma NoGapAtAll(above: seq<Line>, i: nat, m: Line)
    requires Row(above) && Proper(m) && i < |above| && Overlap(above[i], m) && above[i].x1 <= m.x1
    requires forall j :: i < j < |above| ==> !Overlap(above[j], m)
    ensures !exists k :: GapRightOf(above, m, k)
  {
    forall k
      ensures !GapRightOf(above, m, k)
    {
      NoGap(above, i, m, k);
    }
  }

  lemma NoneOverlap(above: seq<Line>, m: Line)
    requires Row(above) && Proper(m) && LastOverlap(above, m, |above|) == 0
    ensures !exists k :: GapRightOf(above, m, k)
  {
  }

  /** A write past the buffer, exactly. */
  lemma {:induction false} OverrunsIff(above: seq<Line>, m: Line, idx: nat, n: nat)
    requires Row(above) && Proper(m)
    ensures Overruns(above, m, idx, n) <==> OneSlotShort(above, m, idx, n)
    decreases m.x2 - m.x1
  {
    var r := LastOverlap(above, m, |above|);
    if r == 0 {
      NoneOverlap(above, m);
    } else if above[r - 1].x1 <= m.x1 {
      NoGapAtAll(above, r - 1, m);
    } else {
      OpenAboveRow(above, r - 1, m);
      hide Overruns, OneSlotShort, OpenAbove, Row;
      var t := above[r - 1];
      OverrunsIff(OpenAbove(above, r - 1, m), LeftPart(m, t.x1), idx + if t.x2 > m.x2 then 1 else 0, n);
      OneMoreOverlap(above, r - 1, m, idx, n);
    }
  }

  lemma OneMoreOverlap(above: seq<Line>, i: nat, m: Line, idx: nat, n: nat)
    requires Row(above) && Proper(m) && i < |above| && m.x1 < above[i].x1 && i + 1 == LastOverlap(above, m, |above|)
    requires var idx' := idx + if above[i].x2 > m.x2 then 1 else 0;
      var a', m' := OpenAbove(above, i, m), LeftPart(m, above[i].x1);
      Overruns(a', m', idx', n) <==> OneSlotShort(a', m', idx', n)
    ensures Overruns(above, m, idx, n) <==> OneSlotShort(above, m, idx, n)
  {
    hide Overruns, Row, OpenAbove, GapRightOf, Straddles, LeftPart, Overlap, LastOverlap;
    OpenAboveRow(above, i, m);
    OpenedAt(above, i, m);
    OverrunsStep(above, m, idx, n);
    LastGap(above, i, m);
    GapLeft(above, i, m, OpenAbove(above, i, m));
  }

  lemma OverrunsStep(above: seq<Line>, m: Line, idx: nat, n: nat)
    requires var r := LastOverlap(above, m, |above|); r > 0 && m.x1 < above[r - 1].x1
    ensures var i := LastOverlap(above, m, |above|) - 1;
      var t := above[i];
      var idx' := idx + if t.x2 > m.x2 then 1 else 0;
      Overruns(above, m, idx, n) <==>
        && idx' + 1 < n
        && ((t.x2 < m.x2 && idx' + 2 == n) || Overruns(OpenAbove(above, i, m), LeftPart(m, t.x1), idx', n))
  {
    hide OpenAbove;
  }

  lemma GapLeft(above: seq<Line>, i: nat, m: Line, a': seq<Line>)
    requires Row(above) && Proper(m) && i < |above| && Overlap(above[i], m) && m.x1 < above[i].x1
    requires forall j :: i < j < |above| ==> !Overlap(above[j], m)
    requires Row(a') && i < |a'| && a'[..i] == above[..i] && a'[i].x1 == above[i].x1
    ensures var m' := LeftPart(m, above[i].x1);
      && ((exists k :: GapRightOf(above, m, k)) <==> above[i].x2 < m.x2 || exists k :: GapRightOf(a', m', k))
      && !exists k :: Straddles(a', m', k)
  {
    var m' := LeftPart(m, above[i].x1);
    hide Row, Overlap;
    LastGap(above, i, m);
    assert !GapRightOf(a', m', i);
    forall k | k != i
      ensures GapRightOf(above, m, k) <==> GapRightOf(a', m', k)
    {
      RestGap(above, i, m, a', k);
    }
    forall k
      ensures !Straddles(a', m', k)
    {
      RestStraddles(above, i, m, a', k);
    }
  }

  /** A write past the buffer happens only where the lines do not fit in the end. */
  lemma {:induction false} OverrunIsTooMany(above: seq<Line>, m: Line, idx: nat, n: nat)
    requires Row(above) && Proper(m) && Overruns(above, m, idx, n)
    ensures var r := Resolve(above, m); idx - |above| + |r.above| + |r.pieces| > n
    decreases m.x2 - m.x1
  {
    var i := LastOverlap(above, m, |above|) - 1;
    var t := above[i];
    var a', m' := OpenAbove(above, i, m), LeftPart(m, t.x1);
    OpenAboveRow(above, i, m);
    OpenedLength(above, i, m);
    if t.x2 < m.x2 && idx + 2 == n {
      ResolveDivides(a', m');
      ResolvePieces(a', m');
    } else {
      OverrunIsTooMany(a', m', idx + if t.x2 > m.x2 then 1 else 0, n);
    }
  }

  lemma OpenedLength(above: seq<Line>, i: nat, m: Line)
    requires i < |above| && Overlap(above[i], m) && m.x1 < above[i].x1
    ensures |OpenAbove(above, i, m)| == |above| + if above[i].x2 > m.x2 then 1 else 0
    ensures |OpenBelow(above[i], m)| == if above[i].x2 < m.x2 then 2 else 1
  {
  }

  // ----- a whole region -----

  ghost predicate PlaceOverruns(done: seq<Line>, above: seq<Line>, mid: seq<Line>, m: Line, n: nat) {
    above != [] && Last(above).y2 == m.y1 && Overruns(above, m, |done| + |above| + |mid|, n)
  }

  /** Adding b to the lines of s writes past a buffer of n lines. */
  ghost predicate BoxOverruns(s: Bands, b: Box, n: nat) {
    s.cur != [] &&
    var last := Last(s.cur);
    if last.y1 != b.y1 then PlaceOverruns(s.done + s.above, s.cur, [], NewLine(b, false), n)
    else if last.x2 == b.x1 then PlaceOverruns(s.done, s.above, s.cur[..|s.cur| - 1], last.(x2 := b.x2), n)
    else PlaceOverruns(s.done, s.above, s.cur, NewLine(b, false), n)
  }

  /** The box at i is come to, as the lines before it leave a slot free, and overruns. */
  ghost predicate OverrunsAt(boxes: seq<Box>, i: nat)
    requires i < |boxes|
  {
    var s := AddBoxes(boxes[..i]);
    |s.Flat()| < 6 * |boxes| && BoxOverruns(s, boxes[i], 6 * |boxes|)
  }

  ghost predicate RegionOverruns(boxes: seq<Box>) {
    exists i: nat :: i < |boxes| && OverrunsAt(boxes, i)
  }

  // ----- how the lines grow -----

  lemma PlaceGrows(done: seq<Line>, above: seq<Line>, mid: seq<Line>, m: Line)
    requires Row(above) && Proper(m)
    ensures |Place(done, above, mid, m).Flat()| > |done| + |above| + |mid|
  {
    ResolveDivides(above, m);
    ResolvePieces(above, m);
    hide Resolve, Row, Divides, TopsFace;
  }

  lemma AddBoxGrows(s: Bands, b: Box, region: Points)
    requires Inv(s, region) && Next(s, b)
    ensures |AddBox(s, b).Flat()| >= |s.Flat()|
  {
    if s.cur != [] {
      assert Row(s.above) && Row(s.cur);
      assert Proper(Last(s.cur));
      hide Place, Row, Inv;
      PlaceGrows(s.done + s.above, s.cur, [], NewLine(b, false));
      PlaceGrows(s.done, s.above, s.cur, NewLine(b, false));
      PlaceGrows(s.done, s.above, s.cur[..|s.cur| - 1], Last(s.cur).(x2 := Max(b.x2, Last(s.cur).x2)));
    }
  }

  lemma {:induction false} AddBoxesGrows(boxes: seq<Box>, i: nat)
    requires Banded(boxes) && i <= |boxes|
    ensures |AddBoxes(boxes).Flat()| >= |AddBoxes(boxes[..i]).Flat()|
  {
    if i < |boxes| {
      var front, b := boxes[..|boxes| - 1], boxes[|boxes| - 1];
      BandedFront(boxes);
      assert front[..i] == boxes[..i] && AddBoxes(boxes) == AddBox(AddBoxes(front), b);
      hide Inv, Next, Banded, Follows, AddBox, AddBoxes, RegionPoints, Reaches;
      AddBoxesOK(front);
      NextAfter(AddBoxes(front), boxes);
      AddBoxGrows(AddBoxes(front), b, RegionPoints(front));
      AddBoxesGrows(front, i);
    } else {
      assert boxes[..i] == boxes;
    }
  }

  lemma {:induction false} BandedPrefix(boxes: seq<Box>, i: nat)
    requires Banded(boxes) && i <= |boxes|
    ensures Banded(boxes[..i])
  {
    forall k | 0 < k < i
      ensures Follows(boxes[..i][k - 1], boxes[..i][k])
    {
      assert Follows(boxes[k - 1], boxes[k]);
    }
  }

  /** The state from which the box at i is added, and the state after. */
  lemma AtBox(boxes: seq<Box>, i: nat)
    requires Banded(boxes) && i < |boxes|
    ensures Inv(AddBoxes(boxes[..i]), RegionPoints(boxes[..i])) && Next(AddBoxes(boxes[..i]), boxes[i])
    ensures AddBoxes(boxes[..i + 1]) == AddBox(AddBoxes(boxes[..i]), boxes[i])
    ensures AddBoxes(boxes[..i]).cur == [] <==> i == 0
  {
    hide Inv, AddBox, Follows, RegionPoints, Next;
    BandedPrefix(boxes, i);
    BandedPrefix(boxes, i + 1);
    AddBoxesOK(boxes[..i]);
    assert boxes[..i + 1][..i] == boxes[..i];
    NextAfter(AddBoxes(boxes[..i]), boxes[..i + 1]);
  }

  lemma PlaceOverrunIsTooMany(done: seq<Line>, above: seq<Line>, mid: seq<Line>, m: Line, n: nat)
    requires Row(above) && Proper(m) && PlaceOverruns(done, above, mid, m, n)
    ensures |Place(done, above, mid, m).Flat()| > n
  {
    OverrunIsTooMany(above, m, |done| + |above| + |mid|, n);
  }

  lemma BoxOverrunIsTooMany(s: Bands, b: Box, region: Points, n: nat)
    requires Inv(s, region) && Next(s, b) && BoxOverruns(s, b, n)
    ensures |AddBox(s, b).Flat()| > n
  {
    assert Row(s.above) && Row(s.cur) && Proper(Last(s.cur));
    var last := Last(s.cur);
    hide Place, Row, Inv, PlaceOverruns;
    if last.y1 != b.y1 {
      PlaceOverrunIsTooMany(s.done + s.above, s.cur, [], NewLine(b, false), n);
    } else if last.x2 == b.x1 {
      PlaceOverrunIsTooMany(s.done, s.above, s.cur[..|s.cur| - 1], last.(x2 := b.x2), n);
    } else {
      PlaceOverrunIsTooMany(s.done, s.above, s.cur, NewLine(b, false), n);
    }
  }

  /** The boxes after one that fills the buffer are not come to. */
  lemma NotReached(boxes: seq<Box>, i: nat, j: nat)
    requires Banded(boxes) && i < j < |boxes| && |AddBoxes(boxes[..i + 1]).Flat()| >= 6 * |boxes|
    ensures !OverrunsAt(boxes, j)
  {
    BandedPrefix(boxes, j);
    AddBoxesGrows(boxes[..j], i + 1);
    assert boxes[..j][..i + 1] == boxes[..i + 1];
  }

  /** No region whose lines fit makes the computation write past its buffer. */
  lemma OverrunNeverFits(boxes: seq<Box>)
    requires Banded(boxes) && RegionOverruns(boxes)
    ensures |AddBoxes(boxes).Flat()| > 6 * |boxes|
  {
    var i: nat :| i < |boxes| && OverrunsAt(boxes, i);
    AtBox(boxes, i);
    hide BoxOverruns, AddBox, Inv, Next;
    BoxOverrunIsTooMany(AddBoxes(boxes[..i]), boxes[i], RegionPoints(boxes[..i]), 6 * |boxes|);
    AddBoxesGrows(boxes, i + 1);
  }

  // ----- a region that does -----

  /** k rows, each of one box, that grow by one column at both ends. */
  function Nest(k: nat): (r: seq<Box>)
    ensures |r| == k
  {
    if k == 0 then [] else Nest(k - 1) + [NestBox(k - 1)]
  }

  function NestBox(i: int): Box { Box(-i, i, i + 1, i + 1) }

  /** A band in row y of lines that are one column wide, from column a on. */
  ghost predicate Units(ls: seq<Line>, a: int, y: int) {
    forall j :: 0 <= j < |ls| ==> ls[j].x1 == a + j && ls[j].x2 == a + j + 1 && ls[j].y1 == y && ls[j].y2 == y + 1
  }

  lemma UnitsOverlap(above: seq<Line>, m: Line, a: int, y: int, n: nat)
    requires Units(above, a, y) && m.x1 < a <= m.x2 && n <= |above|
    ensures var r := LastOverlap(above, m, n); r == Min(n, m.x2 - a) && (r > 0 ==> above[r - 1].x1 == a + r - 1)
  {
  }

  lemma UnitsOpened(above: seq<Line>, i: nat, m: Line, a: int)
    requires Units(above, a, m.y1 - 1) && m.y2 == m.y1 + 1 && i < |above|
    requires m.x1 == a - 1 && a + i + 1 <= m.x2 <= a + i + 2
    ensures Overlap(above[i], m)
    ensures Units(OpenAbove(above, i, m), a, m.y1 - 1) && |OpenAbove(above, i, m)| == |above|
    ensures var o := OpenBelow(above[i], m); Units(o, a + i, m.y1) && |o| == m.x2 - a - i
  {
    var t := above[i];
    assert Window(t, m) == [t.(bottom := false)];
    assert OpenAbove(above, i, m) == above[i := t.(bottom := false)];
    assert LeftPart(m, a + i).y1 == m.y1;
  }

  lemma UnitsJoin(ls: seq<Line>, ls': seq<Line>, a: int, b: int, y: int)
    requires Units(ls, a, y) && Units(ls', b, y) && b == a + |ls|
    ensures Units(ls + ls', a, y)
  {
  }

  ghost predicate UnitCut(r: Cut, n: nat, m: Line, a: int) {
    && Units(r.above, a, m.y1 - 1) && |r.above| == n
    && Units(r.pieces, a - 1, m.y1) && |r.pieces| == m.x2 - m.x1
  }

  lemma UnitCutMore(r: Cut, n: nat, m: Line, a: int, x: int, o: seq<Line>)
    requires UnitCut(r, n, LeftPart(m, x), a) && m.x1 == a - 1
    requires Units(o, x, m.y1) && |o| == m.x2 - x
    ensures UnitCut(Cut(r.above, r.pieces + o), n, m, a)
  {
    assert LeftPart(m, x).y1 == m.y1 && LeftPart(m, x).x1 == m.x1 && LeftPart(m, x).x2 == x;
    hide Units, LeftPart;
    UnitsJoin(r.pieces, o, a - 1, x, m.y1);
  }

  /** Below lines of one column each, a line falls into lines of one column each. */
  lemma {:induction false} UnitsResolve(above: seq<Line>, m: Line, a: int)
    requires Units(above, a, m.y1 - 1) && m.y2 == m.y1 + 1 && above != []
    requires m.x1 == a - 1 && a <= m.x2 <= a + |above| + 1
    ensures UnitCut(Resolve(above, m), |above|, m, a)
    decreases m.x2 - m.x1
  {
    if m.x2 == a {
      NoUnits(above, m, a);
    } else {
      hide *;
      var n := Min(|above|, m.x2 - a);
      var above', m', o := UnitsStep(above, m, a, n);
      UnitsResolve(above', m', a);
      UnitCutMore(Resolve(above', m'), |above|, m, a, a + n - 1, o);
    }
  }

  lemma NoUnits(above: seq<Line>, m: Line, a: int)
    requires Units(above, a, m.y1 - 1) && m.y2 == m.y1 + 1 && m.x1 == a - 1 && m.x2 == a
    ensures UnitCut(Resolve(above, m), |above|, m, a)
  {
    UnitsOverlap(above, m, a, m.y1 - 1, |above|);
    hide Resolve, LastOverlap;
    ResolveStep(above, m, 0);
  }

  lemma UnitsStep(above: seq<Line>, m: Line, a: int, n: nat) returns (above': seq<Line>, m': Line, o: seq<Line>)
    requires Units(above, a, m.y1 - 1) && m.y2 == m.y1 + 1 && above != []
    requires m.x1 == a - 1 && a < m.x2 <= a + |above| + 1 && n == Min(|above|, m.x2 - a)
    ensures Units(above', a, m.y1 - 1) && |above'| == |above| && above' != []
    ensures m' == LeftPart(m, a + n - 1) && m'.x1 == m.x1 && m'.x2 == a + n - 1 && m'.y1 == m.y1 && m'.y2 == m.y2
    ensures 0 < n <= |above| && a + n <= m.x2
    ensures Units(o, a + n - 1, m.y1) && |o| == m.x2 - (a + n - 1)
    ensures Resolve(above, m) == Cut(Resolve(above', m').above, Resolve(above', m').pieces + o)
  {
    hide Resolve, LastOverlap, OpenAbove, OpenBelow, Units, Overlap;
    UnitsOverlap(above, m, a, m.y1 - 1, |above|);
    ResolveStep(above, m, n);
    UnitsOpened(above, n - 1, m, a);
    above', m', o := OpenAbove(above, n - 1, m), LeftPart(m, a + n - 1), OpenBelow(above[n - 1], m);
  }

  lemma ResolveStep(above: seq<Line>, m: Line, n: nat)
    requires n == LastOverlap(above, m, |above|)
    ensures
      if n == 0 then Resolve(above, m) == Cut(above, [m.(top := true)])
      else m.x1 < above[n - 1].x1 ==>
             var r := Resolve(OpenAbove(above, n - 1, m), LeftPart(m, above[n - 1].x1));
             Resolve(above, m) == Cut(r.above, r.pieces + OpenBelow(above[n - 1], m))
  {
    hide OpenAbove, OpenBelow;
  }

  lemma NestRow(s: Bands, k: nat)
    requires k > 1 && Units(s.cur, 2 - k, k - 2) && |s.cur| == 2 * k - 3
    ensures var s' := AddBox(s, NestBox(k - 1));
      Units(s'.cur, 1 - k, k - 1) && |s'.cur| == 2 * k - 1 && |s'.Flat()| == |s.Flat()| + 2 * k - 1
  {
    var m := NewLine(NestBox(k - 1), false);
    UnitsResolve(s.cur, m, 2 - k);
    hide Resolve, Units;
    assert Last(s.cur).y1 == k - 2 && Last(s.cur).y2 == k - 1 by { LastUnit(s.cur, 2 - k, k - 2); }
  }

  lemma LastUnit(ls: seq<Line>, a: int, y: int)
    requires Units(ls, a, y) && ls != []
    ensures Last(ls).y1 == y && Last(ls).y2 == y + 1
    ensures Last(ls).x1 == a + |ls| - 1 && Last(ls).x2 == a + |ls|
  {
  }

  /** k nested rows take k * k lines. */
  lemma {:induction false} NestLines(k: nat)
    requires k > 0
    ensures var s := AddBoxes(Nest(k));
      Units(s.cur, 1 - k, k - 1) && |s.cur| == 2 * k - 1 && |s.Flat()| == k * k
  {
    NestNext(k);
    if k == 1 {
      assert AddBoxes(Nest(0)) == Bands([], [], []);
    } else {
      hide *;
      NestLines(k - 1);
      NestRow(AddBoxes(Nest(k - 1)), k);
      Square(k);
    }
  }

  lemma Square(k: int)
    ensures (k - 1) * (k - 1) + 2 * k - 1 == k * k
  {
  }

  lemma NestNext(k: nat)
    requires k > 0
    ensures AddBoxes(Nest(k)) == AddBox(AddBoxes(Nest(k - 1)), NestBox(k - 1))
  {
    hide AddBox;
    assert Nest(k)[..k - 1] == Nest(k - 1) && Nest(k)[k - 1] == NestBox(k - 1);
  }

  lemma {:induction false} NestPrefix(k: nat, i: nat)
    requires i <= k
    ensures Nest(k)[..i] == Nest(i) && (i < k ==> Nest(k)[i] == NestBox(i))
  {
    if i < k {
      NestPrefix(k - 1, i);
      assert Nest(k)[..i] == Nest(k - 1)[..i];
    }
  }

  lemma NestBanded(k: nat)
    ensures Banded(Nest(k))
  {
    forall i | 0 <= i < k
      ensures Nest(k)[i] == NestBox(i)
    {
      NestPrefix(k, i);
    }
  }

  /** The ninth of eleven nested rows finds 64 of 66 slots in use, and writes past the buffer. */
  lemma NestOverruns()
    ensures Banded(Nest(11)) && OverrunsAt(Nest(11), 8) && RegionOverruns(Nest(11))
  {
    NestBanded(11);
    NestPrefix(11, 8);
    NestLines(8);
    var s, m := AddBoxes(Nest(8)), NewLine(NestBox(8), false);
    LastUnit(s.cur, -7, 7);
    assert Row(s.cur);
    assert GapRightOf(s.cur, m, 14);
    OverrunsIff(s.cur, m, 64, 66);
    assert OverrunsAt(Nest(11), 8);
  }
}
