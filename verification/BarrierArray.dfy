/** The barrier computation as the source runs it: in place, in one buffer of lines of fixed
    size.  Each method leaves in the buffer what BarrierSpec says, or reports through an index
    past the end of the buffer that the lines do not fit.  Writing to the slot just past the
    buffer, as the source can, is modelled as writing nothing and reporting it. */
module BarrierArray {
  import opened Common
  import opened BarrierGeometry
  import opened BarrierSpec
  import opened BarrierProofs
  import opened BarrierRegion
  import opened BarrierCapacity

  /** The buffer holds as much of s as fits. */
  ghost predicate Holds(lines: array<Line>, s: seq<Line>)
    reads lines
  {
    forall k :: 0 <= k < |s| && k < lines.Length ==> lines[k] == s[k]
  }

  method LineMove(lines: array<Line>, dest: nat, src: nat, n: nat)
    requires dest + n <= lines.Length && src + n <= lines.Length
    modifies lines
    ensures forall k :: 0 <= k < lines.Length ==>
              lines[k] == if dest <= k < dest + n then old(lines[k - dest + src]) else old(lines[k])
  {
    forall k | 0 <= k < n {
      lines[dest + k] := lines[src + k];
    }
  }

  /** Splits the line at i in two at x and moves everything after it up by one. */
  method SplitLine(lines: array<Line>, i: nat, x: int, ghost pre: seq<Line>, ghost l: Line, ghost post: seq<Line>)
    requires i + 1 < lines.Length && i == |pre|
    requires Holds(lines, pre + [l] + post)
    modifies lines
    ensures Holds(lines, pre + [LeftPart(l, x), RightPart(l, x)] + post)
  {
    assert lines[i] == (pre + [l] + post)[i];
    LineMove(lines, i + 1, i, lines.Length - i - 1);
    lines[i + 1] := lines[i + 1].(left := false);
    lines[i] := lines[i].(right := false);
    lines[i] := lines[i].(x2 := x);
    lines[i + 1] := lines[i + 1].(x1 := x);
    ghost var s, s' := pre + [l] + post, pre + [LeftPart(l, x), RightPart(l, x)] + post;
    forall k | 0 <= k < |s'| && k < lines.Length
      ensures lines[k] == s'[k]
    {
      if k > i + 1 {
        assert s'[k] == s[k - 1];
        assert lines[k] == old(lines[k - 1]);
      } else if k < i {
        assert s'[k] == s[k];
      }
    }
  }

  /** The same without making sure that there is a slot: the right part may be written just past
      the buffer. */
  method SplitUnchecked(lines: array<Line>, i: nat, x: int, ghost pre: seq<Line>, ghost l: Line, ghost post: seq<Line>)
    returns (overran: bool)
    requires i < lines.Length && i == |pre|
    requires Holds(lines, pre + [l] + post)
    modifies lines
    ensures Holds(lines, pre + [LeftPart(l, x), RightPart(l, x)] + post)
    ensures overran <==> i + 1 == lines.Length
  {
    if i + 1 < lines.Length {
      SplitLine(lines, i, x, pre, l, post);
      overran := false;
    } else {
      assert lines[i] == (pre + [l] + post)[i];
      lines[i] := lines[i].(right := false);
      lines[i] := lines[i].(x2 := x);
      SplitAtEnd(lines[..], x, pre, l, post);
      overran := true;
    }
  }

  lemma SplitAtEnd(ls: seq<Line>, x: int, pre: seq<Line>, l: Line, post: seq<Line>)
    requires |ls| == |pre| + 1 && ls[|pre|] == LeftPart(l, x)
    requires forall k :: 0 <= k < |pre| ==> ls[k] == (pre + [l] + post)[k]
    ensures forall k :: 0 <= k < |ls| ==> ls[k] == (pre + [LeftPart(l, x), RightPart(l, x)] + post)[k]
  {
  }

  /** Replaces one line in the buffer. */
  method SetLine(lines: array<Line>, i: nat, l': Line, ghost pre: seq<Line>, ghost l: Line, ghost post: seq<Line>)
    requires i < lines.Length && i == |pre|
    requires Holds(lines, pre + [l] + post)
    modifies lines
    ensures Holds(lines, pre + [l'] + post)
  {
    lines[i] := l';
    ghost var s, s' := pre + [l] + post, pre + [l'] + post;
    forall k | 0 <= k < |s'| && k < lines.Length
      ensures lines[k] == s'[k]
    {
      if k != i {
        assert s'[k] == s[k];
      }
    }
  }

  /** The last line before the one at current that belongs to another band, or -1. */
  method FindLastBandEnd(lines: array<Line>, current: nat) returns (end: int)
    requires current < lines.Length
    ensures -1 <= end < current
    ensures forall k :: end < k <= current ==> lines[k].y1 == lines[current].y1
    ensures end >= 0 ==> lines[end].y1 != lines[current].y1
  {
    end := current - 1;
    while end >= 0
      invariant -1 <= end < current
      invariant forall k :: end < k <= current ==> lines[k].y1 == lines[current].y1
    {
      if lines[end].y1 != lines[current].y1 {
        return;
      }
      end := end - 1;
    }
  }

  /** Where the line m being worked on stands: done and above are the earlier bands, mid the
      lines before m in its own band, and tail lines after m that are finished already. */
  datatype Context = Context(done: seq<Line>, above: seq<Line>, mid: seq<Line>, m: Line, tail: seq<Line>) {
    function Pre(): seq<Line> { done + above + mid }

    function Before(): seq<Line> { Pre() + [m] + tail }

    function After(): Bands { Place(done, above, mid, m) }

    /** Placing m writes past a buffer of n lines. */
    ghost predicate Overruns(n: nat) { PlaceOverruns(done, above, mid, m, n) }

    ghost predicate Valid() {
      && Row(above) && Proper(m)
      && (above == [] ==> done == [])
      && (above != [] ==> EndBy(done, above[0].y1)) && EndBy(above, m.y1)
      && (forall i :: 0 <= i < |mid| ==> mid[i].y1 == m.y1)
    }

    /** The line above at i is the last that overlaps m, and the two bands touch. */
    ghost predicate Meets(i: nat) {
      && Valid()
      && i < |above| && Overlap(above[i], m) && Last(above).y2 == m.y1
      && (forall k :: i < k < |above| ==> !Overlap(above[k], m))
    }
  }

  /** The buffer ends with the lines of r in front of tail, or the lines do not fit. */
  ghost predicate Outcome(lines: array<Line>, last: nat, r: Bands, tail: seq<Line>)
    reads lines
  {
    || (last + 1 == |r.Flat()| && Holds(lines, r.Flat() + tail))
    || (last >= lines.Length && |r.Flat() + tail| > lines.Length)
  }

  lemma LastOverlapIs(above: seq<Line>, m: Line, n: nat)
    requires 0 < n <= |above| && Overlap(above[n - 1], m)
    requires forall k :: n <= k < |above| ==> !Overlap(above[k], m)
    ensures LastOverlap(above, m, |above|) == n
  {
  }

  /** What m becomes if nothing is left to do once its last overlap has been dealt with. */
  lemma AfterIs(c: Context, i: nat)
    requires c.Meets(i) && c.above[i].x1 <= c.m.x1
    ensures c.After() == Bands(c.done, OpenAbove(c.above, i, c.m), c.mid + OpenBelow(c.above[i], c.m))
  {
    LastOverlapIs(c.above, c.m, i + 1);
  }

  /** The band above ends where FindLastBandEnd says it does. */
  lemma BandEnd(lines: array<Line>, idx: nat, c: Context, end: int)
    requires c.Valid() && idx == |c.Pre()| < lines.Length && Holds(lines, c.Before())
    requires -1 <= end < idx
    requires forall k :: end < k <= idx ==> lines[k].y1 == lines[idx].y1
    requires end >= 0 ==> lines[end].y1 != lines[idx].y1
    ensures end == |c.done + c.above| - 1
    ensures c.above != [] ==> end >= 0 && lines[end] == Last(c.above)
  {
    var s := c.Before();
    var n := |c.done + c.above|;
    assert lines[idx] == s[idx] == c.m;
    if c.above != [] {
      assert lines[n - 1] == s[n - 1] == Last(c.above);
      assert Last(c.above).y1 < Last(c.above).y2 <= c.m.y1;
    }
    forall k | n <= k < idx
      ensures lines[k].y1 == c.m.y1
    {
      assert lines[k] == s[k] == c.mid[k - n];
    }
  }

  lemma JoinTwo(p: seq<Line>, a: Line, b: Line, post: seq<Line>)
    ensures p + [a] + [b] + post == p + [a, b] + post && p + [a] + [b] + [] + post == p + [a, b] + post
  {
  }

  /** The parts of a line that covers the columns of m. */
  lemma WindowParts(t: Line, m: Line)
    requires Proper(m) && t.x1 <= m.x1 && m.x2 <= t.x2
    ensures Window(t, m) ==
      if t.x1 != m.x1 then [LeftPart(t, m.x1)] + RightOpened(RightPart(t, m.x1), m.x2) else RightOpened(t, m.x2)
  {
  }

  /** Gives the columns [a, b) of the line at tem a line of their own and opens its bottom.
      last is the index of the last line in use, and moves up with every split. */
  method OpenWindow(lines: array<Line>, tem: nat, idx: nat, a: int, b: int,
                    ghost p: seq<Line>, ghost t: Line, ghost m: Line, ghost post: seq<Line>)
    returns (last: nat)
    requires Proper(m) && t.x1 <= m.x1 == a && m.x2 == b <= t.x2
    requires tem == |p| <= idx < lines.Length && idx < |p| + 1 + |post|
    requires Holds(lines, p + [t] + post)
    modifies lines
    ensures || (last == idx + |Window(t, m)| - 1 && Holds(lines, p + Window(t, m) + post))
            || (last >= lines.Length && |p + Window(t, m) + post| > lines.Length)
  {
    WindowParts(t, m);
    hide Window, LeftPart, RightPart;
    assert lines[tem] == (p + [t] + post)[tem] == t;
    if lines[tem].x1 != a {
      if idx + 1 >= lines.Length {
        return lines.Length;
      }
      SplitLine(lines, tem, a, p, t, post);
      ghost var l, r := LeftPart(t, a), RightPart(t, a);
      JoinTwo(p, l, r, post);
      last := OpenLeftPart(lines, tem + 1, idx + 1, b, p + [l], r, post);
      JoinWindow(p, l, RightOpened(r, b), post);
    } else {
      last := OpenLeftPart(lines, tem, idx, b, p, t, post);
    }
  }

  lemma JoinWindow(p: seq<Line>, l: Line, w: seq<Line>, post: seq<Line>)
    ensures (p + [l]) + w + post == p + ([l] + w) + post
  {
  }

  /** t split at b if it goes on beyond, and the bottom of the left part opened. */
  ghost function RightOpened(t: Line, b: int): seq<Line> {
    if t.x2 != b then [LeftPart(t, b).(bottom := false), RightPart(t, b)] else [t.(bottom := false)]
  }

  /** Splits the line at tem at b, if it goes on beyond, and opens the bottom of the left part. */
  method OpenLeftPart(lines: array<Line>, tem: nat, idx: nat, b: int,
                      ghost p: seq<Line>, ghost t: Line, ghost post: seq<Line>)
    returns (last: nat)
    requires tem == |p| <= idx < lines.Length && idx < |p| + 1 + |post|
    requires Holds(lines, p + [t] + post)
    modifies lines
    ensures || (last == idx + |RightOpened(t, b)| - 1 && Holds(lines, p + RightOpened(t, b) + post))
            || (last >= lines.Length && |p + RightOpened(t, b) + post| > lines.Length)
  {
    hide LeftPart, RightPart;
    assert lines[tem] == (p + [t] + post)[tem] == t;
    last := idx;
    if lines[tem].x2 != b {
      if last + 1 >= lines.Length {
        return lines.Length;
      }
      SplitLine(lines, tem, b, p, t, post);
      last := last + 1;
      OpenBottom(lines, tem, p, LeftPart(t, b), [RightPart(t, b)], post);
      JoinTwo(p, LeftPart(t, b).(bottom := false), RightPart(t, b), post);
    } else {
      OpenBottom(lines, tem, p, t, [], post);
      assert p + [t.(bottom := false)] + [] + post == p + [t.(bottom := false)] + post;
    }
  }

  method OpenBottom(lines: array<Line>, i: nat, ghost pre: seq<Line>, ghost l: Line, ghost next: seq<Line>,
                    ghost post: seq<Line>)
    requires i < lines.Length && i == |pre|
    requires Holds(lines, pre + ([l] + next) + post)
    modifies lines
    ensures Holds(lines, pre + [l.(bottom := false)] + next + post)
  {
    assert pre + ([l] + next) + post == pre + [l] + (next + post);
    assert lines[i] == (pre + [l] + (next + post))[i];
    SetLine(lines, i, lines[i].(bottom := false), pre, l, next + post);
    assert pre + [l.(bottom := false)] + (next + post) == pre + [l.(bottom := false)] + next + post;
  }

  method OpenTop(lines: array<Line>, i: nat, ghost pre: seq<Line>, ghost l: Line, ghost post: seq<Line>)
    requires i < lines.Length && i == |pre|
    requires Holds(lines, pre + [l] + post)
    modifies lines
    ensures Holds(lines, pre + [l.(top := false)] + post)
  {
    assert lines[i] == (pre + [l] + post)[i];
    SetLine(lines, i, lines[i].(top := false), pre, l, post);
  }

  lemma ContainedOutcome(c: Context, i: nat)
    requires c.Meets(i) && c.m.top && c.above[i].x1 <= c.m.x1 && c.above[i].x2 >= c.m.x2
    ensures c.After().Flat() ==
      c.done + c.above[..i] + Window(c.above[i], c.m) + (c.above[i + 1..] + c.mid) + [c.m.(top := false)]
  {
    AfterIs(c, i);
    hide Window, Place;
  }

  /** The line above covers the whole of m: only it is split, at most twice. */
  method Contained(lines: array<Line>, idx: nat, tem: nat, ghost c: Context, ghost i: nat) returns (last: nat)
    requires c.Meets(i) && tem == |c.done| + i && c.m.top
    requires idx == |c.Pre()| < lines.Length && Holds(lines, c.Before())
    requires c.above[i].x1 <= c.m.x1 && c.above[i].x2 >= c.m.x2
    modifies lines
    ensures Outcome(lines, last, c.After(), c.tail)
  {
    ghost var t, m, p, q, tail := c.above[i], c.m, c.done + c.above[..i], c.above[i + 1..] + c.mid, c.tail;
    ghost var w := Window(t, m);
    ContainedOutcome(c, i);
    hide Window, Place, Row, EndBy;
    assert c.Before() == p + [t] + (q + [m] + tail);
    assert lines[idx] == c.Before()[idx] == m;
    last := OpenWindow(lines, tem, idx, lines[idx].x1, lines[idx].x2, p, t, m, q + [m] + tail);
    if last < lines.Length {
      assert p + w + (q + [m] + tail) == p + w + q + [m] + tail;
      OpenTop(lines, last, p + w + q, m, tail);
    }
  }

  /** The line above starts left of m and ends inside it (case A): both are split. */
  method CaseA(lines: array<Line>, idx: nat, tem: nat,
               ghost p: seq<Line>, ghost t: Line, ghost q: seq<Line>, ghost m: Line, ghost tail: seq<Line>)
    returns (last: nat)
    requires tem == |p| && idx == |p| + 1 + |q| < lines.Length && Holds(lines, p + [t] + q + [m] + tail)
    modifies lines
    ensures if idx + 2 >= lines.Length then last >= lines.Length else
      && last == idx + 2
      && Holds(lines, p + [LeftPart(t, m.x1)] + ([RightPart(t, m.x1).(bottom := false)] + q)
                      + [LeftPart(m, t.x2).(top := false)] + ([RightPart(m, t.x2)] + tail))
  {
    ghost var l, r := LeftPart(t, m.x1), RightPart(t, m.x1);
    ghost var m0, m1 := LeftPart(m, t.x2), RightPart(m, t.x2);
    assert p + [t] + q + [m] + tail == p + [t] + (q + [m] + tail);
    assert lines[idx] == (p + [t] + q + [m] + tail)[idx] == m;
    if idx + 2 >= lines.Length {
      return lines.Length;
    }
    SplitLine(lines, tem, lines[idx].x1, p, t, q + [m] + tail);
    ghost var w := p + [l] + ([r] + q);
    assert p + [l, r] + (q + [m] + tail) == w + [m] + tail;
    assert lines[tem + 1] == (w + [m] + tail)[tem + 1] == r;
    SplitLine(lines, idx + 1, lines[tem + 1].x2, w, m, tail);
    assert w + [m0, m1] + tail == w + [m0] + ([m1] + tail);
    OpenBetween(lines, tem + 1, idx + 1, p + [l], r, q, m0, [m1] + tail);
    assert p + [l] + [r.(bottom := false)] + q + [m0.(top := false)] + ([m1] + tail)
        == p + [l] + ([r.(bottom := false)] + q) + [m0.(top := false)] + ([m1] + tail);
    return idx + 2;
  }

  /** Opens the edge between the line above at i and the line at j. */
  method OpenBetween(lines: array<Line>, i: nat, j: nat,
                     ghost p: seq<Line>, ghost t: Line, ghost q: seq<Line>, ghost m: Line, ghost tail: seq<Line>)
    requires i == |p| && j == |p| + 1 + |q| < lines.Length
    requires Holds(lines, p + ([t] + q) + [m] + tail)
    modifies lines
    ensures Holds(lines, p + [t.(bottom := false)] + q + [m.(top := false)] + tail)
  {
    OpenTop(lines, j, p + ([t] + q), m, tail);
    ghost var post := [m.(top := false)] + tail;
    assert p + ([t] + q) + [m.(top := false)] + tail == p + ([t] + q) + post;
    OpenBottom(lines, i, p, t, q, post);
    assert p + [t.(bottom := false)] + q + post == p + [t.(bottom := false)] + q + [m.(top := false)] + tail;
  }

  lemma JoinParts(done: seq<Line>, p: seq<Line>, w: seq<Line>, q: seq<Line>, mid: seq<Line>, a: Line, b: Line,
                  tail: seq<Line>)
    ensures done + (p + w + q) + (mid + [a, b]) + tail == done + p + w + (q + mid) + [a] + ([b] + tail)
  {
  }

  lemma JoinPair(p: seq<Line>, l: Line, r: Line, q: seq<Line>)
    ensures p + [l, r] + q == p + [l] + ([r] + q)
  {
  }

  lemma CaseAOutcome(c: Context, i: nat)
    requires c.Meets(i) && c.m.top && c.above[i].x1 < c.m.x1 && c.above[i].x2 < c.m.x2
    ensures var t, m := c.above[i], c.m;
      c.After().Flat() + c.tail
      == c.done + c.above[..i] + [LeftPart(t, m.x1)]
         + ([RightPart(t, m.x1).(bottom := false)] + (c.above[i + 1..] + c.mid))
         + [LeftPart(m, t.x2).(top := false)] + ([RightPart(m, t.x2)] + c.tail)
    ensures |c.After().Flat()| == |c.Pre()| + 3
  {
    var t, m := c.above[i], c.m;
    AfterIs(c, i);
    var l, r := LeftPart(t, m.x1), RightPart(t, m.x1).(bottom := false);
    var a, b := LeftPart(m, t.x2).(top := false), RightPart(m, t.x2);
    assert Window(t, m) == [l, r] && OpenBelow(t, m) == [a, b];
    hide Window, OpenBelow, Place, LeftPart, RightPart, Row, EndBy, Overlap;
    JoinParts(c.done, c.above[..i], [l, r], c.above[i + 1..], c.mid, a, b, c.tail);
    JoinPair(c.done + c.above[..i], l, r, c.above[i + 1..] + c.mid);
  }

  /** What is left to do once the last overlap has been dealt with. */
  ghost function Rest(c: Context, i: nat): Context
    requires c.Meets(i) && c.m.x1 < c.above[i].x1
  {
    var t := c.above[i];
    Context(c.done, OpenAbove(c.above, i, c.m), c.mid, LeftPart(c.m, t.x1), OpenBelow(t, c.m) + c.tail)
  }

  lemma RestOK(c: Context, i: nat)
    requires c.Meets(i) && c.m.x1 < c.above[i].x1
    ensures Rest(c, i).Valid()
    ensures c.After().Flat() == Rest(c, i).After().Flat() + OpenBelow(c.above[i], c.m)
  {
    var c' := Rest(c, i);
    LastOverlapIs(c.above, c.m, i + 1);
    OpenAboveRow(c.above, i, c.m);
    OpenAboveDivides(c.above, i, c.m);
    forall j | 0 <= j < |c'.above|
      ensures c'.above[j].y1 == c.above[0].y1 && c'.above[j].y2 == Last(c.above).y2
    {
      assert HasParent(c.above, c'.above[j]);
    }
  }

  lemma OutcomeRest(lines: array<Line>, last: nat, c: Context, i: nat)
    requires c.Meets(i) && c.m.x1 < c.above[i].x1
    requires Outcome(lines, last, Rest(c, i).After(), Rest(c, i).tail)
    ensures Outcome(lines, last + |OpenBelow(c.above[i], c.m)|, c.After(), c.tail)
  {
    RestOK(c, i);
    var r, o := Rest(c, i).After().Flat(), OpenBelow(c.above[i], c.m);
    assert r + (o + c.tail) == r + o + c.tail;
  }

  lemma RestTouches(c: Context, i: nat)
    requires c.Meets(i) && c.m.x1 < c.above[i].x1
    ensures var r := Rest(c, i); r.above != [] && Last(r.above).y2 == c.m.y1 == r.m.y1
  {
    var a' := Rest(c, i).above;
    OpenAboveDivides(c.above, i, c.m);
    assert HasParent(c.above, a'[|a'| - 1]);
  }

  /** When the last overlap of m with the lines above makes it write past the buffer. */
  lemma OverrunsHere(c: Context, i: nat, n: nat)
    requires c.Meets(i)
    ensures var t, m, idx := c.above[i], c.m, |c.Pre()|;
      if t.x1 <= m.x1 then !c.Overruns(n)
      else if t.x2 > m.x2 then c.Overruns(n) <==> idx + 2 < n && Rest(c, i).Overruns(n)
      else c.Overruns(n) <==> idx + 1 < n && ((t.x2 < m.x2 && idx + 2 == n) || Rest(c, i).Overruns(n))
  {
    LastOverlapIs(c.above, c.m, i + 1);
    if c.m.x1 < c.above[i].x1 {
      hide *;
      OverrunsRest(c, i, n);
    }
  }

  lemma OverrunsRest(c: Context, i: nat, n: nat)
    requires c.Meets(i) && c.m.x1 < c.above[i].x1 && LastOverlap(c.above, c.m, |c.above|) == i + 1
    ensures var t, m, idx := c.above[i], c.m, |c.Pre()|;
      if t.x2 > m.x2 then c.Overruns(n) <==> idx + 2 < n && Rest(c, i).Overruns(n)
      else c.Overruns(n) <==> idx + 1 < n && ((t.x2 < m.x2 && idx + 2 == n) || Rest(c, i).Overruns(n))
  {
    hide Overruns, Row, EndBy, LastOverlap, OpenAbove, OpenBelow, Overlap, LeftPart;
    RestTouches(c, i);
    OpenedLength(c.above, i, c.m);
    OverrunsStep(c.above, c.m, |c.Pre()|, n);
  }

  lemma NothingOverruns(c: Context, n: nat)
    requires c.above == [] || Last(c.above).y2 != c.m.y1 || forall k :: 0 <= k < |c.above| ==> !Overlap(c.above[k], c.m)
    ensures !c.Overruns(n)
  {
  }

  lemma GapsIgnoreTop(above: seq<Line>, m: Line, top: bool, idx: nat, n: nat)
    ensures OneSlotShort(above, m.(top := top), idx, n) <==> OneSlotShort(above, m, idx, n)
  {
    var m' := m.(top := top);
    forall k
      ensures GapRightOf(above, m', k) <==> GapRightOf(above, m, k)
      ensures Straddles(above, m', k) <==> Straddles(above, m, k)
    {
    }
  }

  lemma NothingLeft(lines: array<Line>, idx: nat, c: Context)
    requires c.m.top && idx == |c.Pre()| < lines.Length && Holds(lines, c.Before())
    requires c.above == [] || Last(c.above).y2 != c.m.y1 || forall k :: 0 <= k < |c.above| ==> !Overlap(c.above[k], c.m)
    ensures Outcome(lines, idx, c.After(), c.tail) && !c.Overruns(lines.Length)
  {
    NothingMet(c);
    NothingOverruns(c, lines.Length);
    assert |c.After().Flat() + c.tail| == |c.Before()|;
    hide Overlap, Context.After, Context.Overruns;
  }

  lemma OverrunsIgnoresTop(c: Context, n: nat)
    requires c.Valid()
    ensures c.(m := c.m.(top := true)).Overruns(n) <==> c.Overruns(n)
  {
    hide Overruns, OneSlotShort, Row, EndBy;
    OverrunsIff(c.above, c.m, |c.Pre()|, n);
    OverrunsIff(c.above, c.m.(top := true), |c.Pre()|, n);
    GapsIgnoreTop(c.above, c.m, true, |c.Pre()|, n);
  }

  /** The line above starts inside m and ends right of it (case B): both are split. */
  method SplitB(lines: array<Line>, idx: nat, tem: nat,
                ghost p: seq<Line>, ghost t: Line, ghost q: seq<Line>, ghost m: Line, ghost tail: seq<Line>)
    requires tem == |p| && idx == |p| + 1 + |q| && idx + 2 < lines.Length
    requires Holds(lines, p + [t] + q + [m] + tail)
    modifies lines
    ensures Holds(lines, p + [LeftPart(t, m.x2).(bottom := false)] + [RightPart(t, m.x2)]
                         + (q + [LeftPart(m, t.x1)] + [RightPart(m, t.x1).(top := false)] + tail))
  {
    ghost var l, r := LeftPart(t, m.x2), RightPart(t, m.x2);
    ghost var m0, m1 := LeftPart(m, t.x1), RightPart(m, t.x1);
    assert p + [t] + q + [m] + tail == p + [t] + (q + [m] + tail);
    assert lines[idx] == (p + [t] + q + [m] + tail)[idx] == m;
    SplitLine(lines, tem, lines[idx].x2, p, t, q + [m] + tail);
    ghost var w := p + [l] + ([r] + q);
    assert p + [l, r] + (q + [m] + tail) == w + [m] + tail;
    assert lines[tem] == (w + [m] + tail)[tem] == l;
    SplitLine(lines, idx + 1, lines[tem].x1, w, m, tail);
    assert w + [m0, m1] + tail == w + [m0] + [m1] + tail;
    OpenTop(lines, idx + 2, w + [m0], m1, tail);
    ghost var post := q + [m0] + [m1.(top := false)] + tail;
    assert w + [m0] + [m1.(top := false)] + tail == p + ([l] + [r]) + post;
    OpenBottom(lines, tem, p, l, [r], post);
  }

  lemma RestB(c: Context, i: nat)
    requires c.Meets(i) && c.m.top && c.above[i].x1 > c.m.x1 && c.above[i].x2 > c.m.x2
    ensures var t, m := c.above[i], c.m;
      Rest(c, i).Before()
      == c.done + c.above[..i] + [LeftPart(t, m.x2).(bottom := false)] + [RightPart(t, m.x2)]
         + (c.above[i + 1..] + c.mid + [LeftPart(m, t.x1)] + [RightPart(m, t.x1).(top := false)] + c.tail)
    ensures |Rest(c, i).Pre()| == |c.Pre()| + 1 && |OpenBelow(c.above[i], c.m)| == 1
  {
  }

  method CaseB(lines: array<Line>, idx: nat, tem: nat, ghost c: Context, ghost i: nat)
    returns (last: nat, overran: bool)
    requires c.Meets(i) && tem == |c.done| + i && c.m.top
    requires idx == |c.Pre()| < lines.Length && Holds(lines, c.Before())
    requires c.above[i].x1 > c.m.x1 && c.above[i].x2 > c.m.x2
    modifies lines
    ensures Outcome(lines, last, c.After(), c.tail)
    ensures overran <==> c.Overruns(lines.Length)
    decreases c.m.x2 - c.m.x1, 0
  {
    OverrunsHere(c, i, lines.Length);
    RestB(c, i);
    RestLength(c, i);
    if idx + 2 >= lines.Length {
      return lines.Length, false;
    }
    BeforeSplit(c, i);
    SplitB(lines, idx, tem, c.done + c.above[..i], c.above[i], c.above[i + 1..] + c.mid, c.m, c.tail);
    RestOK(c, i);
    last, overran := MaybeCloseTopEdge(lines, idx + 1, Rest(c, i));
    OutcomeRest(lines, last, c, i);
    last := last + 1;
  }

  lemma BeforeSplit(c: Context, i: nat)
    requires i < |c.above|
    ensures c.Before() == c.done + c.above[..i] + [c.above[i]] + (c.above[i + 1..] + c.mid) + [c.m] + c.tail
  {
  }

  lemma RestLength(c: Context, i: nat)
    requires c.Meets(i) && c.m.x1 < c.above[i].x1
    ensures |c.After().Flat()| > |c.done| + |OpenAbove(c.above, i, c.m)| + |c.mid| + |OpenBelow(c.above[i], c.m)|
  {
    var c' := Rest(c, i);
    RestOK(c, i);
    ResolveDivides(c'.above, c'.m);
    ResolvePieces(c'.above, c'.m);
  }

  /** The line above lies inside m (case C): m is split at one end or both, and what is right
      of the first split is finished.  Before the second split the source only repeats the test
      that it made before the first. */
  method SplitC(lines: array<Line>, idx: nat, tem: nat,
                ghost p: seq<Line>, ghost t: Line, ghost q: seq<Line>, ghost m: Line, ghost tail: seq<Line>)
    returns (fits: bool, more: nat, overran: bool)
    requires tem == |p| && idx == |p| + 1 + |q| < lines.Length && Holds(lines, p + [t] + q + [m] + tail)
    requires t.x1 > m.x1 && t.x2 <= m.x2
    modifies lines
    ensures more == if t.x2 < m.x2 then 2 else 1
    ensures fits == (idx + 1 < lines.Length)
    ensures overran <==> fits && t.x2 < m.x2 && idx + 2 == lines.Length
    ensures fits ==> var rest := RightPart(m, t.x1);
      Holds(lines, p + [t.(bottom := false)] + q + [LeftPart(m, t.x1)] +
                   (if t.x2 < m.x2
                    then [LeftPart(rest, t.x2).(top := false)] + ([RightPart(rest, t.x2)] + tail)
                    else [rest.(top := false)] + tail))
  {
    ghost var m0, rest := LeftPart(m, t.x1), RightPart(m, t.x1);
    ghost var pq := p + [t] + q;
    assert lines[idx] == (pq + [m] + tail)[idx] == m;
    assert lines[tem] == (pq + [m] + tail)[tem] == t;
    more := if lines[tem].x2 != lines[idx].x2 then 2 else 1;
    if idx + 1 >= lines.Length {
      return false, more, false;
    }
    SplitLine(lines, idx, lines[tem].x1, pq, m, tail);
    assert pq + [m0, rest] + tail == pq + [m0] + [rest] + tail;
    assert lines[idx + 1] == (pq + [m0] + [rest] + tail)[idx + 1] == rest;
    assert lines[tem] == (pq + [m0] + [rest] + tail)[tem] == t;
    ghost var q' := q + [m0];
    if lines[tem].x2 != lines[idx + 1].x2 {
      overran := SplitUnchecked(lines, idx + 1, lines[tem].x2, pq + [m0], rest, tail);
      ghost var m1, m2 := LeftPart(rest, t.x2), RightPart(rest, t.x2);
      assert pq + [m0] + [m1, m2] + tail == p + ([t] + q') + [m1] + ([m2] + tail);
      OpenBetween(lines, tem, idx + 1, p, t, q', m1, [m2] + tail);
      Regroup(p, t.(bottom := false), q, m0, m1.(top := false), [m2] + tail);
    } else {
      overran := false;
      assert pq + [m0] + [rest] + tail == p + ([t] + q') + [rest] + tail;
      OpenBetween(lines, tem, idx + 1, p, t, q', rest, tail);
      Regroup(p, t.(bottom := false), q, m0, rest.(top := false), tail);
    }
    fits := true;
  }

  lemma Regroup(p: seq<Line>, t: Line, q: seq<Line>, m0: Line, m1: Line, tail: seq<Line>)
    ensures p + [t] + (q + [m0]) + [m1] + tail == p + [t] + q + [m0] + ([m1] + tail)
  {
  }

  /** Case C with equal left ends: only m is split, and nothing is left to do. */
  method SplitRight(lines: array<Line>, idx: nat, tem: nat,
                    ghost p: seq<Line>, ghost t: Line, ghost q: seq<Line>, ghost m: Line, ghost tail: seq<Line>)
    requires tem == |p| && idx == |p| + 1 + |q| && idx + 1 < lines.Length
    requires Holds(lines, p + [t] + q + [m] + tail)
    modifies lines
    ensures Holds(lines, p + [t.(bottom := false)] + q + [LeftPart(m, t.x2).(top := false)]
                         + ([RightPart(m, t.x2)] + tail))
  {
    ghost var pq := p + [t] + q;
    ghost var m0, m1 := LeftPart(m, t.x2), RightPart(m, t.x2);
    assert lines[tem] == (pq + [m] + tail)[tem] == t;
    SplitLine(lines, idx, lines[tem].x2, pq, m, tail);
    assert pq + [m0, m1] + tail == p + ([t] + q) + [m0] + ([m1] + tail);
    OpenBetween(lines, tem, idx, p, t, q, m0, [m1] + tail);
  }

  lemma RestC(c: Context, i: nat)
    requires c.Meets(i) && c.m.top && c.above[i].x1 > c.m.x1 && c.above[i].x2 <= c.m.x2
    ensures var t, m := c.above[i], c.m; var rest := RightPart(m, t.x1);
      Rest(c, i).Before()
      == c.done + c.above[..i] + [t.(bottom := false)] + (c.above[i + 1..] + c.mid) + [LeftPart(m, t.x1)]
         + (if t.x2 < m.x2
            then [LeftPart(rest, t.x2).(top := false)] + ([RightPart(rest, t.x2)] + c.tail)
            else [rest.(top := false)] + c.tail)
    ensures |Rest(c, i).Pre()| == |c.Pre()|
    ensures |OpenBelow(c.above[i], c.m)| == if c.above[i].x2 < c.m.x2 then 2 else 1
  {
    var t, m := c.above[i], c.m;
    var p, w, q, l, o := c.above[..i], [t.(bottom := false)], c.above[i + 1..], LeftPart(m, t.x1), OpenBelow(t, m);
    var rest := RightPart(m, t.x1);
    var a, b := LeftPart(rest, t.x2).(top := false), RightPart(rest, t.x2);
    assert OpenAbove(c.above, i, m) == p + w + q;
    assert o == if t.x2 < m.x2 then [a, b] else [rest.(top := false)];
    hide OpenAbove, OpenBelow, LeftPart, RightPart, Overlap, Row, EndBy;
    JoinLine(c.done, p, w, q, c.mid, l, o + c.tail);
    assert [a, b] + c.tail == [a] + ([b] + c.tail);
  }

  lemma JoinLine(done: seq<Line>, p: seq<Line>, w: seq<Line>, q: seq<Line>, mid: seq<Line>, l: Line, tail: seq<Line>)
    ensures done + (p + w + q) + mid + [l] + tail == done + p + w + (q + mid) + [l] + tail
  {
  }

  lemma RightOutcome(c: Context, i: nat)
    requires c.Meets(i) && c.m.top && c.above[i].x1 == c.m.x1 && c.above[i].x2 < c.m.x2
    ensures var t, m := c.above[i], c.m;
      c.After().Flat() + c.tail
      == c.done + c.above[..i] + [t.(bottom := false)] + (c.above[i + 1..] + c.mid)
         + [LeftPart(m, t.x2).(top := false)] + ([RightPart(m, t.x2)] + c.tail)
    ensures |c.After().Flat()| == |c.Pre()| + 2
  {
    var t, m := c.above[i], c.m;
    AfterIs(c, i);
    var a, b := LeftPart(m, t.x2).(top := false), RightPart(m, t.x2);
    assert Window(t, m) == [t.(bottom := false)] && OpenBelow(t, m) == [a, b];
    hide Window, OpenBelow, Place, LeftPart, RightPart, Row, EndBy, Overlap;
    JoinParts(c.done, c.above[..i], [t.(bottom := false)], c.above[i + 1..], c.mid, a, b, c.tail);
  }

  method CaseC(lines: array<Line>, idx: nat, tem: nat, ghost c: Context, ghost i: nat)
    returns (last: nat, overran: bool)
    requires c.Meets(i) && tem == |c.done| + i && c.m.top
    requires idx == |c.Pre()| < lines.Length && Holds(lines, c.Before())
    requires c.above[i].x1 >= c.m.x1 && c.above[i].x2 <= c.m.x2
    requires !(c.above[i].x1 <= c.m.x1 && c.above[i].x2 >= c.m.x2)
    modifies lines
    ensures Outcome(lines, last, c.After(), c.tail)
    ensures overran <==> c.Overruns(lines.Length)
    decreases c.m.x2 - c.m.x1, 0
  {
    ghost var t, m, p, q, tail := c.above[i], c.m, c.done + c.above[..i], c.above[i + 1..] + c.mid, c.tail;
    OverrunsHere(c, i, lines.Length);
    BeforeSplit(c, i);
    assert lines[idx] == c.Before()[idx] == m;
    assert lines[tem] == c.Before()[tem] == t;
    if lines[tem].x1 != lines[idx].x1 {
      RestC(c, i);
      RestLength(c, i);
      var fits, more, past := SplitC(lines, idx, tem, p, t, q, m, tail);
      if !fits {
        return lines.Length, false;
      }
      RestOK(c, i);
      last, overran := MaybeCloseTopEdge(lines, idx, Rest(c, i));
      OutcomeRest(lines, last, c, i);
      last, overran := last + more, past || overran;
    } else {
      RightOutcome(c, i);
      if idx + 1 >= lines.Length {
        return lines.Length, false;
      }
      SplitRight(lines, idx, tem, p, t, q, m, tail);
      last, overran := idx + 1, false;
    }
  }

  lemma {:induction false} ResolveIgnoresTop(above: seq<Line>, m: Line, top: bool)
    ensures Resolve(above, m.(top := top)) == Resolve(above, m)
    decreases m.x2 - m.x1
  {
    LastOverlapTop(above, m, top, |above|);
    var n := LastOverlap(above, m, |above|);
    if n > 0 {
      var t := above[n - 1];
      var above' := OpenAbove(above, n - 1, m);
      assert OpenBelow(t, m.(top := top)) == OpenBelow(t, m);
      assert OpenAbove(above, n - 1, m.(top := top)) == above';
      if m.x1 < From(t, m) {
        ResolveIgnoresTop(above', LeftPart(m, From(t, m)), top);
      }
    }
  }

  lemma {:induction false} LastOverlapTop(above: seq<Line>, m: Line, top: bool, n: nat)
    requires n <= |above|
    ensures LastOverlap(above, m.(top := top), n) == LastOverlap(above, m, n)
  {
    if n > 0 {
      LastOverlapTop(above, m, top, n - 1);
    }
  }

  lemma AfterIgnoresTop(c: Context)
    requires c.Valid()
    ensures c.(m := c.m.(top := true)).After() == c.After()
  {
    ResolveIgnoresTop(c.above, c.m, true);
  }

  /** Closes the top edge of the line at idx and opens it, and the bottoms of the lines above,
      where the two bands meet, splitting lines on both sides as needed. */
  method MaybeCloseTopEdge(lines: array<Line>, idx: nat, ghost c: Context) returns (last: nat, overran: bool)
    requires c.Valid() && idx == |c.Pre()| < lines.Length && Holds(lines, c.Before())
    modifies lines
    ensures Outcome(lines, last, c.After(), c.tail)
    ensures overran <==> c.Overruns(lines.Length)
    decreases c.m.x2 - c.m.x1, 3
  {
    assert lines[idx] == c.Before()[idx] == c.m;
    var end := FindLastBandEnd(lines, idx);
    BandEnd(lines, idx, c, end);
    SetLine(lines, idx, lines[idx].(top := true), c.Pre(), c.m, c.tail);
    ghost var c1 := c.(m := c.m.(top := true));
    AfterIgnoresTop(c);
    OverrunsIgnoresTop(c, lines.Length);
    hide Context.Overruns, Outcome, Context.After, Overlap, Context.Valid;
    hide Row, EndBy, Proper;
    assert lines[idx] == c1.Before()[idx] == c1.m;
    if end < 0 || lines[end].y2 != lines[idx].y1 {
      NothingLeft(lines, idx, c1);
      return idx, false;
    }
    assert c.above != [] && lines[end] == c1.Before()[end] == Last(c.above);
    last, overran := MeetBand(lines, idx, end, c1);
  }

  /** Looks for overlaps of the line at idx with the lines of the band above, which ends at end. */
  method MeetBand(lines: array<Line>, idx: nat, end: nat, ghost c: Context) returns (last: nat, overran: bool)
    requires c.Valid() && c.m.top && idx == |c.Pre()| < lines.Length && Holds(lines, c.Before())
    requires c.above != [] && Last(c.above).y2 == c.m.y1 && end == |c.done + c.above| - 1
    modifies lines
    ensures Outcome(lines, last, c.After(), c.tail)
    ensures overran <==> c.Overruns(lines.Length)
    decreases c.m.x2 - c.m.x1, 2
  {
    ghost var n := |c.done|;
    hide Context.Overruns, Outcome, Context.After, Overlap, Context.Valid, Row, EndBy, Proper;
    assert lines[end] == c.Before()[end] == Last(c.above);
    var tem: int := end;
    while tem >= 0 && lines[tem].y2 == lines[end].y2
      invariant n - 1 <= tem <= end
      invariant forall k :: tem - n < k < |c.above| ==> !Overlap(c.above[k], c.m)
      invariant Holds(lines, c.Before())
    {
      StillAbove(lines, c, tem);
      var met;
      met, last, overran := Meet(lines, idx, tem, c, tem - n);
      if met {
        return;
      }
      tem := tem - 1;
    }
    if tem >= 0 {
      StillAbove(lines, c, tem);
    }
    assert tem - n < 0;
    NothingLeft(lines, idx, c);
    last, overran := idx, false;
  }

  /** Handles the overlap of the line at idx with the line above at tem, if there is one. */
  method Meet(lines: array<Line>, idx: nat, tem: nat, ghost c: Context, ghost i: nat)
    returns (met: bool, last: nat, overran: bool)
    requires c.Valid() && c.m.top && idx == |c.Pre()| < lines.Length && Holds(lines, c.Before())
    requires i < |c.above| && Last(c.above).y2 == c.m.y1 && tem == |c.done| + i
    requires forall k :: i < k < |c.above| ==> !Overlap(c.above[k], c.m)
    modifies lines
    ensures met ==> Outcome(lines, last, c.After(), c.tail) && (overran <==> c.Overruns(lines.Length))
    ensures !met ==> !Overlap(c.above[i], c.m) && Holds(lines, c.Before())
    decreases c.m.x2 - c.m.x1, 1
  {
    hide Row, EndBy, Outcome, Context.Overruns;
    assert lines[tem] == c.Before()[tem] == c.above[i];
    assert lines[idx] == c.Before()[idx] == c.m;
    var t, m := lines[tem], lines[idx];
    BandIsProper(c, i);
    met, overran := true, false;
    if t.x1 <= m.x1 && t.x2 >= m.x2 {
      OverrunsHere(c, i, lines.Length);
      last := Contained(lines, idx, tem, c, i);
      return;
    }
    if t.x1 < m.x1 && t.x2 < m.x2 && t.x1 < m.x2 && t.x2 > m.x1 {
      OverrunsHere(c, i, lines.Length);
      last := MeetA(lines, idx, tem, c, i);
    } else if t.x1 > m.x1 && t.x2 > m.x2 && t.x1 < m.x2 && t.x2 > m.x1 {
      last, overran := CaseB(lines, idx, tem, c, i);
    } else if t.x1 >= m.x1 && t.x2 <= m.x2 {
      last, overran := CaseC(lines, idx, tem, c, i);
    } else {
      met, last := false, idx;
    }
  }

  lemma BandIsProper(c: Context, i: nat)
    requires c.Valid() && i < |c.above|
    ensures Proper(c.above[i]) && Proper(c.m)
  {
  }

  method MeetA(lines: array<Line>, idx: nat, tem: nat, ghost c: Context, ghost i: nat) returns (last: nat)
    requires c.Meets(i) && tem == |c.done| + i && c.m.top
    requires idx == |c.Pre()| < lines.Length && Holds(lines, c.Before())
    requires c.above[i].x1 < c.m.x1 && c.above[i].x2 < c.m.x2
    modifies lines
    ensures Outcome(lines, last, c.After(), c.tail)
  {
    CaseAOutcome(c, i);
    BeforeSplit(c, i);
    hide LeftPart, RightPart, Place, Row, EndBy, Overlap;
    last := CaseA(lines, idx, tem, c.done + c.above[..i], c.above[i], c.above[i + 1..] + c.mid, c.m, c.tail);
  }

  /** If the bands do not touch or nothing overlaps, the line is finished. */
  lemma NothingMet(c: Context)
    requires c.m.top
    requires c.above == [] || Last(c.above).y2 != c.m.y1 || forall k :: 0 <= k < |c.above| ==> !Overlap(c.above[k], c.m)
    ensures c.After().Flat() + c.tail == c.Before()
  {
    assert c.m.(top := true) == c.m;
  }

  lemma DoneBottoms(c: Context, k: nat)
    requires c.Valid() && c.above != [] && k < |c.done|
    ensures c.Before()[k].y2 < Last(c.above).y2
  {
    assert c.Before()[k] == c.done[k];
    assert Last(c.above).y1 == c.above[0].y1 && Last(c.above).y1 < Last(c.above).y2;
  }

  /** A line with the right bottom row belongs to the band above. */
  lemma StillAbove(lines: array<Line>, c: Context, tem: nat)
    requires c.Valid() && c.above != [] && tem < |c.done + c.above| && tem < lines.Length
    requires Holds(lines, c.Before())
    ensures lines[tem].y2 == Last(c.above).y2 <==> tem >= |c.done|
    ensures tem >= |c.done| ==> lines[tem] == c.above[tem - |c.done|]
  {
    assert lines[tem] == c.Before()[tem];
    if tem < |c.done| {
      DoneBottoms(c, tem);
    }
  }

  // ----- the whole computation -----

  /** The line buffer and context from which a box is placed. */
  ghost function BoxContext(s: Bands, b: Box): Context
    requires s.cur != []
  {
    var last := Last(s.cur);
    if last.y1 != b.y1 then Context(s.done + s.above, s.cur, [], NewLine(b, false), [])
    else if last.x2 == b.x1 then Context(s.done, s.above, s.cur[..|s.cur| - 1], last.(x2 := b.x2), [])
    else Context(s.done, s.above, s.cur, NewLine(b, false), [])
  }

  lemma BoxContextOK(s: Bands, b: Box, region: Points)
    requires Inv(s, region) && Next(s, b) && s.cur != []
    ensures BoxContext(s, b).Valid() && BoxContext(s, b).After() == AddBox(s, b)
    ensures var widen := Last(s.cur).y1 == b.y1 && Last(s.cur).x2 == b.x1;
      BoxContext(s, b).Pre() == if widen then s.Flat()[..|s.Flat()| - 1] else s.Flat()
    ensures Last(s.Flat()) == Last(s.cur)
  {
    assert Shape(s);
    hide Inv, Shape, BoxContext, AddBox, Next;
    BoxContextValid(s, b);
    BoxContextAfter(s, b);
    BoxContextPre(s, b);
  }

  lemma BoxContextValid(s: Bands, b: Box)
    requires Shape(s) && Next(s, b) && s.cur != []
    ensures BoxContext(s, b).Valid()
  {
    var last := Last(s.cur);
    assert s.cur[0].y1 == last.y1 && s.cur[0].y2 == last.y2 && Proper(last);
    hide Ordered;
    if last.y1 != b.y1 {
      BandAboveEnds(s);
    } else {
      hide Row;
      assert EndBy(s.above, last.y1);
    }
  }

  lemma BandAboveEnds(s: Bands)
    requires Shape(s) && s.cur != []
    ensures EndBy(s.done + s.above, s.cur[0].y1) && EndBy(s.cur, Last(s.cur).y2)
  {
    hide Ordered;
    if s.above != [] {
      assert s.above[0].y1 < s.above[0].y2 <= s.cur[0].y1;
    }
  }

  lemma BoxContextAfter(s: Bands, b: Box)
    requires s.cur != []
    ensures BoxContext(s, b).After() == AddBox(s, b)
  {
    hide Place;
  }

  lemma BoxContextPre(s: Bands, b: Box)
    requires s.cur != []
    ensures var widen := Last(s.cur).y1 == b.y1 && Last(s.cur).x2 == b.x1;
      BoxContext(s, b).Pre() == if widen then s.Flat()[..|s.Flat()| - 1] else s.Flat()
    ensures Last(s.Flat()) == Last(s.cur)
  {
  }

  lemma BoxContextOverruns(s: Bands, b: Box, n: nat)
    requires s.cur != []
    ensures BoxContext(s, b).Overruns(n) <==> BoxOverruns(s, b, n)
  {
    hide Overruns;
  }

  /** Widens the last line by b, or puts b after it as a line of its own. */
  method PutBox(buffer: array<Line>, l: nat, b: Box, ghost flat: seq<Line>) returns (idx: nat)
    requires flat != [] && l == |flat| < buffer.Length && Holds(buffer, flat)
    modifies buffer
    ensures if Last(flat).y1 == b.y1 && Last(flat).x2 == b.x1
            then idx == l - 1 && Holds(buffer, flat[..l - 1] + [Last(flat).(x2 := b.x2)])
            else idx == l && Holds(buffer, flat + [NewLine(b, false)])
  {
    assert buffer[l - 1] == flat[l - 1];
    if buffer[l - 1].y1 == b.y1 && b.x1 == buffer[l - 1].x2 {
      idx := l - 1;
      buffer[idx] := buffer[idx].(x2 := b.x2);
    } else {
      idx := l;
      buffer[idx] := Line(b.x1, b.y1, b.x2, b.y2, false, true, true, true);
    }
  }

  /** Adds one box to the l lines in the buffer and returns how many lines there are then. */
  method AddToBuffer(buffer: array<Line>, l: nat, b: Box, ghost s: Bands, ghost region: Points)
    returns (l': nat, overran: bool)
    requires Inv(s, region) && Next(s, b) && s.cur != []
    requires l == |s.Flat()| < buffer.Length && Holds(buffer, s.Flat())
    modifies buffer
    ensures || (l' == |AddBox(s, b).Flat()| && Holds(buffer, AddBox(s, b).Flat()))
            || (l' >= buffer.Length && |AddBox(s, b).Flat()| > buffer.Length)
    ensures l' > 0
    ensures overran <==> BoxOverruns(s, b, buffer.Length)
  {
    ghost var c := BoxContext(s, b);
    BoxContextOK(s, b, region);
    BoxContextOverruns(s, b, buffer.Length);
    l' := PutBox(buffer, l, b, s.Flat());
    assert c.Before() == c.Pre() + [c.m];
    l', overran := MaybeCloseTopEdge(buffer, l', c);
    assert c.After().Flat() + c.tail == c.After().Flat();
    l' := l' + 1;
  }

  ghost predicate NoneBefore(boxes: seq<Box>, i: nat) {
    forall j: nat :: j < i && j < |boxes| ==> !OverrunsAt(boxes, j)
  }

  lemma FirstBox(s: Bands, b: Box, n: nat)
    requires s.cur == []
    ensures AddBox(s, b).Flat() == [NewLine(b, true)] && !BoxOverruns(s, b, n)
  {
  }

  /** A box after which a slot is free has not written past the buffer. */
  lemma NotHere(boxes: seq<Box>, i: nat)
    requires Banded(boxes) && i < |boxes| && NoneBefore(boxes, i)
    requires |AddBoxes(boxes[..i]).Flat()| < 6 * |boxes| && |AddBoxes(boxes[..i + 1]).Flat()| < 6 * |boxes|
    ensures NoneBefore(boxes, i + 1) && !BoxOverruns(AddBoxes(boxes[..i]), boxes[i], 6 * |boxes|)
  {
    AtBox(boxes, i);
    hide Inv, Next, AddBox, BoxOverruns;
    if OverrunsAt(boxes, i) {
      BoxOverrunIsTooMany(AddBoxes(boxes[..i]), boxes[i], RegionPoints(boxes[..i]), 6 * |boxes|);
    }
  }

  lemma NoneAtAll(boxes: seq<Box>)
    requires NoneBefore(boxes, |boxes|)
    ensures !RegionOverruns(boxes)
  {
    hide OverrunsAt;
  }

  /** If the buffer is full after the box at i, that is the only one that can have written past
      it, and the lines do not fit. */
  lemma OverrunsOnlyHere(boxes: seq<Box>, i: nat)
    requires Banded(boxes) && i < |boxes| && NoneBefore(boxes, i)
    requires |AddBoxes(boxes[..i]).Flat()| < 6 * |boxes| <= |AddBoxes(boxes[..i + 1]).Flat()|
    ensures RegionOverruns(boxes) <==> BoxOverruns(AddBoxes(boxes[..i]), boxes[i], 6 * |boxes|)
    ensures RegionOverruns(boxes) ==> |AddBoxes(boxes).Flat()| > 6 * |boxes|
    ensures |AddBoxes(boxes).Flat()| >= 6 * |boxes|
  {
    assert OverrunsAt(boxes, i) <==> BoxOverruns(AddBoxes(boxes[..i]), boxes[i], 6 * |boxes|);
    hide OverrunsAt, BoxOverruns, AddBoxes, Banded;
    AddBoxesGrows(boxes, i + 1);
    forall j | i < j < |boxes|
      ensures !OverrunsAt(boxes, j)
    {
      NotReached(boxes, i, j);
    }
    if RegionOverruns(boxes) {
      OverrunNeverFits(boxes);
    }
  }

  /** The same, but the first box of all is put in without more ado. */
  method AddOne(buffer: array<Line>, l: nat, b: Box, ghost s: Bands, ghost region: Points)
    returns (l': nat, overran: bool)
    requires Inv(s, region) && Next(s, b) && (l == 0 <==> s.cur == [])
    requires l == |s.Flat()| < buffer.Length && Holds(buffer, s.Flat())
    modifies buffer
    ensures || (l' == |AddBox(s, b).Flat()| && Holds(buffer, AddBox(s, b).Flat()))
            || (l' >= buffer.Length && |AddBox(s, b).Flat()| > buffer.Length)
    ensures l' > 0
    ensures overran <==> BoxOverruns(s, b, buffer.Length)
  {
    hide Inv, Next, AddBox, BoxOverruns;
    if l == 0 {
      buffer[l] := Line(b.x1, b.y1, b.x2, b.y2, true, true, true, true);
      FirstBox(s, b, buffer.Length);
      return l + 1, false;
    }
    l', overran := AddToBuffer(buffer, l, b, s, region);
  }

  /** The first i boxes have been added, and a slot is left free. */
  ghost predicate Filled(buffer: array<Line>, l: nat, boxes: seq<Box>, i: nat)
    requires i <= |boxes|
    reads buffer
  {
    && buffer.Length == 6 * |boxes| && l == |AddBoxes(boxes[..i]).Flat()| && Holds(buffer, AddBoxes(boxes[..i]).Flat())
    && (if i == 0 then l == 0 else 0 < l < buffer.Length)
    && NoneBefore(boxes, i)
  }

  /** Adds the box at i. */
  method AddBoxAt(buffer: array<Line>, l: nat, boxes: seq<Box>, i: nat) returns (l': nat, overran: bool)
    requires Banded(boxes) && i < |boxes| && Filled(buffer, l, boxes, i)
    modifies buffer
    ensures if l' < buffer.Length then Filled(buffer, l', boxes, i + 1) && !overran
            else |AddBoxes(boxes).Flat()| >= 6 * |boxes| && (overran <==> RegionOverruns(boxes))
    ensures overran ==> |AddBoxes(boxes).Flat()| > 6 * |boxes|
  {
    ghost var s := AddBoxes(boxes[..i]);
    AtBox(boxes, i);
    hide *;
    l', overran := AddOne(buffer, l, boxes[i], s, RegionPoints(boxes[..i]));
    BoxAdded(buffer, l', overran, boxes, i);
  }

  lemma BoxAdded(buffer: array<Line>, l': nat, overran: bool, boxes: seq<Box>, i: nat)
    requires Banded(boxes) && i < |boxes| && NoneBefore(boxes, i) && buffer.Length == 6 * |boxes|
    requires |AddBoxes(boxes[..i]).Flat()| < 6 * |boxes|
    requires var flat := AddBoxes(boxes[..i + 1]).Flat();
      || (l' == |flat| && Holds(buffer, flat))
      || (l' >= buffer.Length && |flat| > buffer.Length)
    requires l' > 0 && (overran <==> BoxOverruns(AddBoxes(boxes[..i]), boxes[i], 6 * |boxes|))
    ensures if l' < buffer.Length then Filled(buffer, l', boxes, i + 1) && !overran
            else |AddBoxes(boxes).Flat()| >= 6 * |boxes| && (overran <==> RegionOverruns(boxes))
    ensures overran ==> |AddBoxes(boxes).Flat()| > 6 * |boxes|
  {
    if l' >= buffer.Length {
      hide *;
      OverrunsOnlyHere(boxes, i);
    } else {
      hide BoxOverruns, Inv, AddBoxes, Banded, RegionOverruns;
      NotHere(boxes, i);
    }
  }

  /** Computes the lines of a barrier around a region, unless they do not leave a slot free
      in a buffer of six lines for each rectangle. */
  method ComputeBarrier(boxes: seq<Box>) returns (lines: Option<array<Line>>, nlines: nat, overran: bool)
    requires Banded(boxes)
    ensures lines.None? <==> boxes != [] && |AddBoxes(boxes).Flat()| >= 6 * |boxes|
    ensures lines.Some? ==> fresh(lines.value) && nlines <= lines.value.Length
    ensures lines.Some? ==> lines.value[..nlines] == AddBoxes(boxes).Flat()
    ensures lines.Some? ==> IsBarrier(lines.value[..nlines], RegionPoints(boxes))
    ensures overran <==> RegionOverruns(boxes)
    ensures overran ==> lines.None? && |AddBoxes(boxes).Flat()| > 6 * |boxes|
  {
    var maxLines := |boxes| * 6;
    var buffer := new Line[maxLines];
    var l: nat := 0;
    overran := false;
    for i := 0 to |boxes|
      invariant Filled(buffer, l, boxes, i) && !overran
    {
      hide *;
      l, overran := AddBoxAt(buffer, l, boxes, i);
      if l >= maxLines {
        return None, 0, overran;
      }
    }
    assert boxes[..|boxes|] == boxes;
    lines, nlines := Some(buffer), l;
    CloseLast(buffer, l, boxes);
  }

  /** Closes the right edge of the last line, which is closed already. */
  method CloseLast(buffer: array<Line>, l: nat, ghost boxes: seq<Box>)
    requires Banded(boxes) && Filled(buffer, l, boxes, |boxes|)
    modifies buffer
    ensures l <= buffer.Length && buffer[..l] == AddBoxes(boxes).Flat()
    ensures IsBarrier(buffer[..l], RegionPoints(boxes)) && !RegionOverruns(boxes)
    ensures boxes != [] ==> l < 6 * |boxes|
  {
    ghost var flat := AddBoxes(boxes).Flat();
    assert boxes[..|boxes|] == boxes;
    hide Inv, Banded, AddBoxes, AddBox, OverrunsAt, RegionOverruns, IsBarrier, RegionPoints;
    NoneAtAll(boxes);
    AddBoxesOK(boxes);
    LastIsClosed(AddBoxes(boxes), RegionPoints(boxes));
    InvIsBarrier(AddBoxes(boxes), RegionPoints(boxes));
    if l != 0 {
      assert buffer[l - 1] == flat[l - 1];
      buffer[l - 1] := buffer[l - 1].(right := true);
    }
    assert buffer[..l] == flat;
  }

  lemma LastIsClosed(s: Bands, region: Points)
    requires Inv(s, region)
    ensures s.Flat() != [] ==> Last(s.Flat()).right
  {
    if s.cur != [] {
      assert Last(s.Flat()) == Last(s.cur);
    }
  }
}
