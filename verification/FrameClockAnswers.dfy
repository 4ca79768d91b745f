/** How the frame clock answers sync requests, said of the steps of a run: when a request is
    postponed, what the end of a frame makes of it, and which value the next frame starts with. */
module FrameClockAnswers {
  import opened FrameClockSpec

  // ----- what is pending, by the steps alone -----

  /** The value of the newest request that came while the frame was being drawn that is still open,
      or 0. */
  function Postponed(c: Clock, steps: seq<Step>): nat {
    if steps == [] || !Open(After(c, steps)) then 0
    else
      var front, s := steps[..|steps| - 1], steps[|steps| - 1];
      if s.SyncRequest? && Postpones(After(c, front)) then EvenValue(s.value) else Postponed(c, front)
  }

  /** A configure event has come since the last sync request. */
  function Configured(steps: seq<Step>): bool {
    if steps == [] then true
    else
      var s := steps[|steps| - 1];
      if s.SyncRequest? then false else s.Configured? || Configured(steps[..|steps| - 1])
  }

  lemma StepPending(c: Clock, s: Step)
    requires Inv(c) && Enabled(c, s) && Open(Do(c, s))
    ensures Do(c, s).pendingSync ==
      if s.SyncRequest? && Postpones(c) then EvenValue(s.value) else if Open(c) then c.pendingSync else 0
  {
    match s
    case End(forward) => EndFrameKeeps(c, forward);
    case TimerRuns(forward) => EndFrameKeeps(c.(timer := false), forward);
    case SyncRequest(value, forward) =>
      if !Postpones(c) {
        FreezeKeeps(c.(pendingConfigure := c.gotConfigure + 1), EvenValue(value), forward);
      }
    case _ =>
  }

  /** In every run the postponed value is that of the newest request during the open frame, and a
      freeze is late exactly if a configure event has come since the last request. */
  lemma {:induction false} PendingIsNewest(c: Clock, steps: seq<Step>)
    requires IsNew(c) && IsRun(c, steps)
    ensures After(c, steps).pendingSync == Postponed(c, steps)
    ensures After(c, steps).pendingConfigure <= After(c, steps).gotConfigure <==> Configured(steps)
    ensures After(c, steps).pendingConfigure <= After(c, steps).gotConfigure + 1
  {
    if steps != [] {
      var front, s := steps[..|steps| - 1], steps[|steps| - 1];
      var d := After(c, front);
      PendingIsNewest(c, front);
      RunKeeps(c, front);
      RunKeeps(c, steps);
      StepConfigures(d, s);
      hide Inv, Do, IsRun, Enabled;
      if Open(Do(d, s)) {
        StepPending(d, s);
        if !Open(d) {
          NothingPending(d);
        }
      } else {
        NothingPending(Do(d, s));
      }
    }
  }

  lemma NothingPending(c: Clock)
    requires Inv(c) && !Open(c)
    ensures c.pendingSync == 0
  {
  }

  lemma StepConfigures(c: Clock, s: Step)
    ensures Do(c, s).gotConfigure == c.gotConfigure + (if s.Configured? then 1 else 0)
    ensures Do(c, s).pendingConfigure == if s.SyncRequest? then c.gotConfigure + 1 else c.pendingConfigure
  {
    hide EndFrame, FreezeForValue, StartFrame, HandleFrameDrawn, NoteFakeFrame;
    match s
    case Start(urgent, schedules) => StartConfigures(c, urgent, schedules);
    case Drawn(value) => DrawnConfigures(c, value);
    case FakeFrame => DrawnConfigures(c, 0);
    case _ =>
  }

  lemma StartConfigures(c: Clock, urgent: bool, schedules: bool)
    ensures var r := StartFrame(c, urgent, true, schedules);
      r.gotConfigure == c.gotConfigure && r.pendingConfigure == c.pendingConfigure
  {
    hide StartId;
  }

  lemma DrawnConfigures(c: Clock, value: nat)
    ensures var r := HandleFrameDrawn(c, value);
      r.gotConfigure == c.gotConfigure && r.pendingConfigure == c.pendingConfigure
    ensures NoteFakeFrame(c).gotConfigure == c.gotConfigure && NoteFakeFrame(c).pendingConfigure == c.pendingConfigure
  {
  }

  // ----- what the end of a frame does -----

  /** The values written, if there is a counter. */
  function Wrote(c: Clock, values: seq<nat>): seq<nat> {
    if c.supported then c.written + values else c.written
  }

  /** The clock is frozen and waits for the value. */
  predicate WaitsFor(c: Clock, value: nat) {
    !c.inFrame && c.needConfigure && c.configureId == value
  }

  /** An urgent empty frame has been started from the value and ended again. */
  predicate Bumped(c: Clock, r: Clock, value: nat) {
    && r.inFrame && r.endCalled && !Open(r) && r.nextFrameId == EndId(StartId(value, true))
    && (c.supported ==> !r.needConfigure)
  }

  lemma BumpIs(c: Clock, value: nat, forward: bool)
    requires Parity(c) && !c.inFrame && c.needConfigure && c.configureId == value && value % 2 == 0 && !c.timer
    requires c.pendingSync <= value
    ensures var r := BumpFrame(c, forward);
      && Bumped(c, r, value) && r.freezes == c.freezes && r.pendingSync == 0 && !r.timer
      && r.written == Wrote(c, [StartId(value, true), EndId(StartId(value, true))])
  {
    StartIdFacts(value, true);
    var d := StartFrame(c, true, false, false);
    assert d.written == Wrote(c, [StartId(value, true)]);
    hide StartFrame, StartId;
    EndIgnores(d, forward);
    hide EndFrame, EndId;
    assert Wrote(c, [d.nextFrameId]) + [EndId(d.nextFrameId)] == c.written + [d.nextFrameId, EndId(d.nextFrameId)]
      || !c.supported;
  }

  /** A frame whose end is beyond what was postponed just ends. */
  lemma EndIgnores(c: Clock, forward: bool)
    requires Open(c) && !c.timer && c.pendingSync < EndId(c.nextFrameId)
    ensures EndFrame(c, forward) == Ended(c).(pendingSync := 0, written := Wrote(c, [EndId(c.nextFrameId)]))
  {
  }

  /** What the end of an open frame does: it writes the end of the frame, and if a request was
      postponed that is not out of date, the clock waits for its value, or answers it with an empty
      frame at once. */
  lemma EndIs(c: Clock, forward: bool)
    requires Parity(c) && Open(c) && !c.timer
    ensures var n, v, stale := EndId(c.nextFrameId), c.pendingSync, c.pendingConfigure <= c.gotConfigure;
      var r := EndFrame(c, forward);
      && r.pendingSync == 0 && r.endCalled && !r.timer
      && if v < n then
           r == Ended(c).(pendingSync := 0, written := Wrote(c, [n]))
         else if stale && forward then
           && Bumped(c, r, v) && r.freezes == c.freezes + [true]
           && r.written == Wrote(c, [StartId(v, true), r.nextFrameId, r.nextFrameId])
         else
           && WaitsFor(r, v) && r.nextFrameId == n && r.freezes == c.freezes + [stale]
           && r.written == Wrote(c, [n])
  {
    var n, v, stale := EndId(c.nextFrameId), c.pendingSync, c.pendingConfigure <= c.gotConfigure;
    if v < n {
      EndIgnores(c, forward);
    } else {
      EndedFacts(c);
      var c2 := Ended(c);
      var c3 := c2.(inFrame := false, needConfigure := true, configureId := v);
      EndUnfolds(c, forward);
      hide EndFrame, BumpFrame, FreezeForValue;
      if stale && forward {
        BumpIs(c3, v, forward);
      }
    }
  }

  lemma EndUnfolds(c: Clock, forward: bool)
    requires Open(c) && !c.timer && c.pendingSync >= EndId(c.nextFrameId)
    ensures var c3 := Ended(c).(inFrame := false, needConfigure := true, configureId := c.pendingSync);
      var stale := c.pendingConfigure <= c.gotConfigure;
      var c4 := if stale && forward then BumpFrame(c3, forward) else c3;
      EndFrame(c, forward) == Write(c4.(freezes := c4.freezes + [stale], pendingSync := 0))
  {
    hide BumpFrame;
    var stale := c.pendingConfigure <= c.gotConfigure;
    assert EndFrame(c, forward) == Write(FreezeForValue(Ended(c), c.pendingSync, forward).(pendingSync := 0));
    assert FreezeForValue(Ended(c), c.pendingSync, forward) == Frozen(Ended(c), c.pendingSync, stale, forward);
  }

  /** The same by the steps: the end of an open frame answers the newest request that came during
      the frame, unless the frame ends beyond it; and whether that is late is a matter of whether a
      configure event has come since the last request. */
  lemma EndAnswers(c: Clock, steps: seq<Step>, forward: bool)
    requires IsNew(c) && IsRun(c, steps) && Open(After(c, steps)) && !After(c, steps).timer
    ensures var d := After(c, steps);
      var n, v, late, r := EndId(d.nextFrameId), Postponed(c, steps), Configured(steps), Do(d, End(forward));
      if v < n then
        && r.inFrame && !Open(r) && r.nextFrameId == n && r.needConfigure == d.needConfigure
        && r.freezes == d.freezes && r.written == Wrote(d, [n])
      else if late && forward then
        && Bumped(d, r, v) && r.freezes == d.freezes + [true]
        && r.written == Wrote(d, [StartId(v, true), r.nextFrameId, r.nextFrameId])
      else
        && WaitsFor(r, v) && r.nextFrameId == n && r.freezes == d.freezes + [late] && r.written == Wrote(d, [n])
  {
    PendingIsNewest(c, steps);
    RunKeeps(c, steps);
    hide EndFrame, After, Postponed, Configured, IsRun;
    EndIs(After(c, steps), forward);
  }

  /** The end that the timer brings is the same end. */
  lemma TimerEnds(c: Clock, forward: bool)
    requires Inv(c) && c.timer
    ensures Do(c, TimerRuns(forward)) ==
      if c.endCalled then Do(c.(timer := false), End(forward)) else c.(timer := false)
  {
  }

  // ----- a request that is not postponed -----

  /** A sync request is postponed while a frame is being drawn, ignored if it is out of date, and else
      freezes the clock at once; a frame that only waits for its predicted end is ended first. */
  lemma SyncIs(c: Clock, value: nat, forward: bool)
    requires Inv(c)
    ensures var v, n, r := EvenValue(value), EndId(c.nextFrameId), HandleSyncRequest(c, value, forward);
      var c1 := c.(pendingConfigure := c.gotConfigure + 1);
      if Postpones(c) then r == c1.(pendingSync := v)
      else if c.nextFrameId > v then r == c1
      else
        && WaitsFor(r, v) && r.pendingSync == 0 && !r.timer
        && if !c.timer then
             r.nextFrameId == c.nextFrameId && r.written == c.written && r.freezes == c.freezes + [false]
           else
             && r.nextFrameId == n && r.written == Wrote(c, [n])
             && r.freezes == c.freezes + (if c.pendingSync >= n then [false, false] else [false])
  {
    var v, c1 := EvenValue(value), c.(pendingConfigure := c.gotConfigure + 1);
    if !Postpones(c) && c.nextFrameId <= v {
      var e := if c.timer then EndFrame(c1.(timer := false), forward) else c1;
      assert HandleSyncRequest(c, value, forward) == Frozen(e, v, false, forward);
      hide FreezeForValue, EndFrame;
      if c.timer {
        EndIs(c1.(timer := false), forward);
      }
    }
  }

  // ----- the next frame -----

  /** The value that a frame starts with: one or three more than what it starts from. */
  function StartsAt(v: nat, urgent: bool): nat {
    v + if urgent && v % 4 == 0 then 3 else 1
  }

  /** A frame starts from the configure value that is waited for, or else from the value written
      last. */
  lemma StartIs(c: Clock, urgent: bool, schedules: bool)
    requires Inv(c) && !c.inFrame
    ensures var from, r := if c.needConfigure then c.configureId else c.nextFrameId, Do(c, Start(urgent, schedules));
      && Open(r) && !r.endCalled && r.nextFrameId == StartsAt(from, urgent) && r.freezes == c.freezes
      && r.written == Wrote(c, [StartsAt(from, urgent)]) && (c.supported ==> !r.needConfigure)
      && (r.timer ==> c.supported && c.predict && schedules && !c.needConfigure)
  {
    StartIdFacts(if c.needConfigure then c.configureId else c.nextFrameId, urgent);
  }

  /** Steps that start no frame and ask for nothing. */
  ghost predicate Idle(steps: seq<Step>) {
    forall i :: 0 <= i < |steps| ==> !steps[i].Start? && !steps[i].SyncRequest?
  }

  lemma WaitsOn(c: Clock, s: Step, v: nat)
    requires Inv(c) && Enabled(c, s) && WaitsFor(c, v) && !s.Start? && !s.SyncRequest?
    ensures WaitsFor(Do(c, s), v) && Do(c, s).written == c.written && Do(c, s).freezes == c.freezes
  {
  }

  lemma {:induction false} WaitsThrough(c: Clock, steps: seq<Step>, more: seq<Step>, all: seq<Step>, v: nat)
    requires IsNew(c) && all == steps + more && IsRun(c, all) && WaitsFor(After(c, steps), v) && Idle(more)
    ensures var d, r := After(c, steps), After(c, all);
      WaitsFor(r, v) && r.written == d.written && r.freezes == d.freezes
  {
    if more == [] {
      assert all == steps;
    } else {
      var front := more[..|more| - 1];
      assert all[..|all| - 1] == steps + front && all[|all| - 1] == more[|more| - 1];
      WaitsThrough(c, steps, front, steps + front, v);
      RunKeeps(c, steps + front);
      hide Do, Inv;
      WaitsOn(After(c, steps + front), more[|more| - 1], v);
    }
  }

  lemma {:induction false} RunPrefix(c: Clock, steps: seq<Step>, n: nat)
    requires IsRun(c, steps) && n <= |steps|
    ensures IsRun(c, steps[..n])
  {
    if n < |steps| {
      RunPrefix(c, steps[..|steps| - 1], n);
      assert steps[..|steps| - 1][..n] == steps[..n];
    } else {
      assert steps[..n] == steps;
    }
  }

  /** A request that came while a frame was open, and is not out of date when the frame ends, is
      answered by the next frame: the clock is frozen meanwhile, and the frame after writes the value
      of the request plus one or three. */
  lemma NextFrameAnswers(c: Clock, steps: seq<Step>, forward: bool, more: seq<Step>, all: seq<Step>,
                         urgent: bool, schedules: bool)
    requires IsNew(c) && c.supported && all == steps + [End(forward)] + more && IsRun(c, all) && Idle(more)
    requires Open(After(c, steps)) && !After(c, steps).timer
    requires Postponed(c, steps) >= EndId(After(c, steps).nextFrameId) && !(Configured(steps) && forward)
    ensures var d, v, r := After(c, steps), Postponed(c, steps), After(c, all);
      var r' := Do(r, Start(urgent, schedules));
      && WaitsFor(r, v) && r.freezes == d.freezes + [Configured(steps)]
      && r'.written == d.written + [EndId(d.nextFrameId), StartsAt(v, urgent)] && !r'.needConfigure
  {
    var ended := steps + [End(forward)];
    RunPrefix(c, all, |ended|);
    assert all[..|ended|] == ended && ended[..|steps|] == steps;
    RunPrefix(c, ended, |steps|);
    hide Do, Postponed, Configured, IsRun, Inv, Idle;
    EndAnswers(c, steps, forward);
    assert After(c, ended) == Do(After(c, steps), End(forward));
    RunKeeps(c, steps);
    WaitsThrough(c, ended, more, all, Postponed(c, steps));
    RunKeeps(c, all);
    hide After;
    StartIs(After(c, all), urgent, schedules);
  }

  /** For example, a request for 8 during the first frame: the frame ends at 4, and the next starts
      at 9. */
  lemma EightIsAnswered(c: Clock)
    requires c == NewClock(true, false)
    ensures var steps := [Start(false, false), SyncRequest(8, true), End(true), Start(false, false)];
      IsRun(c, steps) && After(c, steps).written == [1, 4, 9]
  {
    var a, b, e := Start(false, false), SyncRequest(8, true), End(true);
    var c1, c2, c3 := EightSteps(c);
    hide Do;
    OneMore(c, [], a, [a], c);
    OneMore(c, [a], b, [a, b], c1);
    OneMore(c, [a, b], e, [a, b, e], c2);
    OneMore(c, [a, b, e], a, [a, b, e, a], c3);
  }

  lemma EightSteps(c: Clock) returns (c1: Clock, c2: Clock, c3: Clock)
    requires c == NewClock(true, false)
    ensures c1 == Do(c, Start(false, false)) && c2 == Do(c1, SyncRequest(8, true)) && c3 == Do(c2, End(true))
    ensures Do(c3, Start(false, false)).written == [1, 4, 9]
  {
    c1 := Do(c, Start(false, false));
    StartIs(c, false, false);
    c2 := Do(c1, SyncRequest(8, true));
    SyncIs(c1, 8, true);
    c3 := Do(c2, End(true));
    StepKeeps(c, Start(false, false));
    StepKeeps(c1, SyncRequest(8, true));
    StepKeeps(c2, End(true));
    EndIs(c2, true);
    hide StartFrame, HandleSyncRequest, Inv;
    EndsAtFour(c2, c3);
    hide EndFrame;
    StartIs(c3, false, false);
  }

  lemma EndsAtFour(c2: Clock, c3: Clock)
    requires Open(c2) && !c2.timer && Parity(c2) && c2.nextFrameId == 1 && c2.pendingSync == 8 && c2.written == [1]
    requires c2.supported && c2.pendingConfigure > c2.gotConfigure && c3 == EndFrame(c2, true)
    ensures WaitsFor(c3, 8) && c3.written == [1, 4] && c3.supported
  {
    hide EndFrame;
    EndIs(c2, true);
  }
}
