/** The frame clock: a counter that tells the compositing manager when a frame is being drawn
    (odd), when it is complete (a multiple of 4), and which frame answers a configure event. */
module FrameClockSpec {
  /** timer says that the end of the frame is to come at a predicted time.  written holds the
      values given to the sync counter, newest last, and freezes the arguments of the freeze
      callback. */
  datatype Clock = Clock(
    nextFrameId: nat, finishedFrameId: nat, configureId: nat, pendingSync: nat,
    gotConfigure: nat, pendingConfigure: nat,
    timer: bool, needConfigure: bool, endCalled: bool, inFrame: bool,
    predict: bool, supported: bool,
    written: seq<nat>, freezes: seq<bool>)

  function NewClock(supported: bool, predict: bool): Clock {
    Clock(0, 0, 0, 0, 0, 0, false, false, false, false, predict, supported, [], [])
  }

  function Write(c: Clock): Clock {
    if c.supported then c.(written := c.written + [c.nextFrameId]) else c
  }

  /** The value for a frame that starts at n: 3 modulo 4 if it is urgent, else 1. */
  function StartId(n: nat, urgent: bool): nat {
    if urgent then (if n % 4 == 2 then n + 1 else n + 3)
    else (if n % 4 == 3 then n + 3 else n + 1)
  }

  function EndId(n: nat): nat {
    if n % 4 == 3 then n + 1 else n + 3
  }

  predicate CanStart(c: Clock) {
    !c.inFrame || (c.timer && c.endCalled)
  }

  /** A new frame, which starts from the configure value if that is waited for.  schedules says
      whether PostEndFrame, if it is called, finds a time to end the frame. */
  function Begin(c: Clock, urgent: bool, predict: bool, schedules: bool): Clock {
    var base := if c.needConfigure then c.configureId else c.nextFrameId;
    var c' := c.(nextFrameId := StartId(base, urgent), inFrame := true, endCalled := false,
                 finishedFrameId := if c.needConfigure then 0 else c.finishedFrameId);
    if c.supported then Announce(c', predict && !c.needConfigure, schedules) else c'
  }

  /** The compositing manager is told of the frame, and its end may be scheduled. */
  function Announce(c: Clock, predict: bool, schedules: bool): Clock {
    Write(c).(timer := c.timer || (c.predict && predict && schedules), needConfigure := false)
  }

  function StartFrame(c: Clock, urgent: bool, predict: bool, schedules: bool): Clock {
    if !c.inFrame then Begin(c, urgent, predict, schedules)
    else if c.timer && c.endCalled then c.(endCalled := false)
    else c
  }

  function EndLevel(c: Clock): nat {
    if c.pendingSync == 0 || c.pendingSync < c.nextFrameId then 1 else 4
  }

  function FreezeLevel(c: Clock, value: nat): nat {
    if c.nextFrameId > value then 0
    else if c.timer then 10
    else if c.pendingSync > value then 6
    else 3
  }

  /** forward is what the fast-forward callback answers. */
  function EndFrame(c: Clock, forward: bool): (r: Clock)
    ensures r.supported == c.supported && r.predict == c.predict
    ensures r.gotConfigure == c.gotConfigure && r.pendingConfigure == c.pendingConfigure
    ensures !c.timer ==> !r.timer
    decreases EndLevel(c), 0
  {
    var c1 := c.(endCalled := true);
    if !c.inFrame || c.finishedFrameId == c.nextFrameId || c.timer then c1
    else
      var n := EndId(c.nextFrameId);
      var c2 := c1.(nextFrameId := n, finishedFrameId := n);
      var c3 := if c.pendingSync != 0 then FreezeForValue(c2, c.pendingSync, forward) else c2;
      Write(c3.(pendingSync := 0))
  }

  function FreezeForValue(c: Clock, value: nat, forward: bool): (r: Clock)
    ensures r.supported == c.supported && r.predict == c.predict
    ensures r.gotConfigure == c.gotConfigure && r.pendingConfigure == c.pendingConfigure
    ensures !c.timer ==> !r.timer
    decreases FreezeLevel(c, value), 0
  {
    if c.nextFrameId > value then c
    else
      var stale := c.pendingConfigure <= c.gotConfigure;
      var c1 := c.(timer := false);
      var c2 := if c.timer && c.endCalled then EndFrame(c1, forward) else c1;
      Frozen(c2, value, stale, forward)
  }

  /** The clock waits for the configure value, unless the surface can be brought up to date at
      once because the configure event has come already. */
  function Frozen(c: Clock, value: nat, stale: bool, forward: bool): (r: Clock)
    ensures r.supported == c.supported && r.predict == c.predict
    ensures r.gotConfigure == c.gotConfigure && r.pendingConfigure == c.pendingConfigure
    ensures !c.timer ==> !r.timer
    decreases if c.pendingSync > value then 5 else 2, 0
  {
    var c1 := c.(inFrame := false, needConfigure := true, configureId := value);
    var c2 := if stale && forward then BumpFrame(c1, forward) else c1;
    c2.(freezes := c2.freezes + [stale])
  }

  function BumpFrame(c: Clock, forward: bool): (r: Clock)
    ensures r.supported == c.supported && r.predict == c.predict
    ensures r.gotConfigure == c.gotConfigure && r.pendingConfigure == c.pendingConfigure
    ensures !c.timer ==> !r.timer
    decreases EndLevel(StartFrame(c, true, false, false)), 1
  {
    EndFrame(StartFrame(c, true, false, false), forward)
  }

  function HandleEndFrame(c: Clock, forward: bool): Clock {
    var c1 := c.(timer := false);
    if c.endCalled then EndFrame(c1, forward) else c1
  }

  /** The compositing manager has drawn the frame for which the counter had the value. */
  function HandleFrameDrawn(c: Clock, value: nat): Clock {
    if value == c.finishedFrameId && c.inFrame && c.finishedFrameId == c.nextFrameId then c.(inFrame := false)
    else c
  }

  /** The timer that stands in for the compositing manager has run. */
  function NoteFakeFrame(c: Clock): Clock {
    if c.inFrame && c.finishedFrameId == c.nextFrameId then c.(inFrame := false) else c
  }

  function EvenValue(value: nat): (v: nat)
    ensures v % 2 == 0 && value <= v <= value + 1
  {
    if value % 2 == 1 then value + 1 else value
  }

  /** A sync request has to wait for the end of the frame. */
  predicate Postpones(c: Clock) {
    c.inFrame && !c.endCalled
  }

  function HandleSyncRequest(c: Clock, value: nat, forward: bool): Clock {
    var c1 := c.(pendingConfigure := c.gotConfigure + 1);
    if Postpones(c) then c1.(pendingSync := EvenValue(value))
    else FreezeForValue(c1, EvenValue(value), forward)
  }

  // ----- what stays true -----

  /** A frame has been started and not yet ended. */
  predicate Open(c: Clock) {
    c.inFrame && c.finishedFrameId != c.nextFrameId
  }

  predicate Parity(c: Clock) {
    && c.finishedFrameId % 4 == 0 && c.configureId % 2 == 0 && c.pendingSync % 2 == 0
    && (c.nextFrameId % 2 == 1 <==> Open(c))
    && (!Open(c) ==> c.nextFrameId % 4 == 0)
    && (c.timer ==> Open(c))
    && (c.inFrame && c.supported ==> !c.needConfigure)
    && (c.inFrame ==> c.nextFrameId > 0)
  }

  /** The counter is odd exactly while a frame is open, and otherwise a multiple of 4; the timer
      and a postponed sync request need an open frame; and EndFrame has ended the frame unless
      the timer is to do so. */
  predicate Inv(c: Clock) {
    && Parity(c)
    && (c.pendingSync != 0 ==> Open(c))
    && (c.endCalled && Open(c) ==> c.timer)
    && (c.inFrame && !Open(c) ==> c.endCalled)
  }

  lemma ModIs(x: nat, d: nat, k: nat, r: nat)
    requires 0 < d <= 4 && r < d && x == d * k + r
    ensures x % d == r
  {
    var q, m := x / d, x % d;
    assert x == d * q + m && 0 <= m < d;
  }

  lemma ModFour(k: nat, r: nat)
    requires r < 4
    ensures (4 * k + r) % 4 == r && (4 * k + r) % 2 == if r < 2 then r else r - 2
  {
    ModIs(4 * k + r, 4, k, r);
    if r < 2 {
      ModIs(4 * k + r, 2, 2 * k, r);
    } else {
      ModIs(4 * k + r, 2, 2 * k + 1, r - 2);
    }
  }

  lemma StartIdFacts(n: nat, urgent: bool)
    requires n % 2 == 0
    ensures StartId(n, urgent) % 2 == 1 && n < StartId(n, urgent) <= n + 3
    ensures StartId(n, urgent) < EndId(StartId(n, urgent)) && EndId(StartId(n, urgent)) % 4 == 0
    ensures n % 4 == 2 || urgent ==> StartId(n, urgent) % 4 == 3
    ensures n % 4 == 0 && !urgent ==> StartId(n, urgent) % 4 == 1
  {
    var k, r := n / 4, n % 4;
    ModFour(k, r);
    assert r == 0 || r == 2;
    StartIdFrom(k, n, r, urgent);
  }

  lemma StartIdFrom(k: nat, n: nat, r: nat, urgent: bool)
    requires n == 4 * k + r && (r == 0 || r == 2)
    ensures StartId(n, urgent) == 4 * k + (if r == 2 || urgent then 3 else 1)
    ensures EndId(StartId(n, urgent)) == 4 * (k + 1)
    ensures StartId(n, urgent) % 4 == (if r == 2 || urgent then 3 else 1)
    ensures StartId(n, urgent) % 2 == 1 && EndId(StartId(n, urgent)) % 4 == 0
  {
    ModFour(k, r);
    ModFour(k, 1);
    ModFour(k, 3);
    ModFour(k + 1, 0);
  }

  lemma StartFrameKeeps(c: Clock, urgent: bool, predict: bool, schedules: bool)
    requires Inv(c)
    ensures Inv(StartFrame(c, urgent, predict, schedules))
    ensures CanStart(c) ==>
      Open(StartFrame(c, urgent, predict, schedules)) && !StartFrame(c, urgent, predict, schedules).endCalled
  {
    if !c.inFrame {
      StartIdFacts(if c.needConfigure then c.configureId else c.nextFrameId, urgent);
    }
  }

  /** The clock right after an open frame has been ended. */
  function Ended(c: Clock): Clock {
    var n := EndId(c.nextFrameId);
    c.(endCalled := true, nextFrameId := n, finishedFrameId := n)
  }

  lemma EndedFacts(c: Clock)
    requires Parity(c) && Open(c) && !c.timer
    ensures Parity(Ended(c)) && !Open(Ended(c)) && Ended(c).nextFrameId > c.nextFrameId
  {
    var k, r := c.nextFrameId / 4, c.nextFrameId % 4;
    ModFour(k, r);
    assert r == 1 || r == 3;
    ModFour(k + 1, 0);
  }

  lemma EndFrameKeeps(c: Clock, forward: bool)
    requires Parity(c) && (c.pendingSync != 0 ==> Open(c))
    ensures Inv(EndFrame(c, forward)) && EndFrame(c, forward).endCalled
    ensures !c.timer ==> !Open(EndFrame(c, forward)) && EndFrame(c, forward).pendingSync == 0
    decreases EndLevel(c), 0
  {
    hide FreezeForValue, EndId;
    if Open(c) && !c.timer {
      EndedFacts(c);
      if c.pendingSync != 0 {
        FreezeKeeps(Ended(c), c.pendingSync, forward);
      }
    }
  }

  /** A freeze that is not out of date ends what was open and waits for the configure value. */
  lemma FreezeKeeps(c: Clock, value: nat, forward: bool)
    requires Parity(c) && value % 2 == 0
    requires Open(c) ==> c.timer && c.endCalled
    ensures var r := FreezeForValue(c, value, forward);
      c.nextFrameId <= value ==>
        && Inv(r.(pendingSync := 0)) && !Open(r) && (c.endCalled ==> r.endCalled)
        && (c.pendingSync == 0 || c.timer ==> r.pendingSync == 0)
    ensures c.nextFrameId > value ==> FreezeForValue(c, value, forward) == c
    decreases FreezeLevel(c, value), 0
  {
    hide EndFrame, BumpFrame;
    if c.nextFrameId <= value {
      var stale := c.pendingConfigure <= c.gotConfigure;
      var c1 := c.(timer := false);
      var c2 := if c.timer && c.endCalled then EndFrame(c1, forward) else c1;
      if c.timer {
        EndFrameKeeps(c1, forward);
      }
      var c3 := c2.(inFrame := false, needConfigure := true, configureId := value);
      assert Parity(c3);
      if stale && forward {
        BumpKeeps(c3, forward);
      }
    }
  }

  lemma BumpKeeps(c: Clock, forward: bool)
    requires Parity(c) && !c.inFrame && c.needConfigure
    ensures Inv(BumpFrame(c, forward)) && !Open(BumpFrame(c, forward))
    ensures BumpFrame(c, forward).pendingSync == 0 && BumpFrame(c, forward).endCalled
    decreases EndLevel(StartFrame(c, true, false, false)), 1
  {
    hide EndFrame;
    StartIdFacts(c.configureId, true);
    EndFrameKeeps(StartFrame(c, true, false, false), forward);
  }

  lemma HandleSyncRequestKeeps(c: Clock, value: nat, forward: bool)
    requires Inv(c)
    ensures Inv(HandleSyncRequest(c, value, forward))
  {
    hide FreezeForValue;
    if !Postpones(c) {
      FreezeKeeps(c.(pendingConfigure := c.gotConfigure + 1), EvenValue(value), forward);
    }
  }

  // ----- the counter never steps back -----

  ghost predicate NonDecreasing(s: seq<nat>) {
    forall i, j :: 0 <= i <= j < |s| ==> s[i] <= s[j]
  }

  /** Nothing above the current value has been written, and a configure value that is waited for
      is not below it. */
  ghost predicate Ordered(c: Clock) {
    && NonDecreasing(c.written)
    && (c.written != [] ==> c.written[|c.written| - 1] <= c.nextFrameId)
    && (c.needConfigure ==> c.nextFrameId <= c.configureId)
  }

  /** The last value written is the current one. */
  predicate Settled(c: Clock) {
    c.nextFrameId == if c.written == [] then 0 else c.written[|c.written| - 1]
  }

  lemma WriteOrdered(c: Clock)
    requires Ordered(c)
    ensures Ordered(Write(c)) && (c.supported ==> Settled(Write(c)))
  {
  }

  lemma StartFrameOrdered(c: Clock, urgent: bool, predict: bool, schedules: bool)
    requires Parity(c) && Ordered(c) && c.supported
    ensures Ordered(StartFrame(c, urgent, predict, schedules))
    ensures Settled(c) || !c.inFrame ==> Settled(StartFrame(c, urgent, predict, schedules))
  {
    hide NonDecreasing;
    if !c.inFrame {
      var base := if c.needConfigure then c.configureId else c.nextFrameId;
      StartIdFacts(base, urgent);
      WriteOrdered(c.(nextFrameId := StartId(base, urgent), needConfigure := false));
    }
  }

  lemma EndFrameOrdered(c: Clock, forward: bool)
    requires Parity(c) && (c.pendingSync != 0 ==> Open(c)) && Ordered(c) && c.supported
    ensures Ordered(EndFrame(c, forward))
    ensures Settled(c) || (Open(c) && !c.timer) ==> Settled(EndFrame(c, forward))
    ensures !Open(c) || c.timer ==> EndFrame(c, forward).nextFrameId == c.nextFrameId
    decreases EndLevel(c), 0
  {
    hide FreezeForValue, NonDecreasing, EndId;
    if Open(c) && !c.timer {
      EndedFacts(c);
      if c.pendingSync != 0 {
        FreezeOrdered(Ended(c), c.pendingSync, forward);
        WriteOrdered(FreezeForValue(Ended(c), c.pendingSync, forward).(pendingSync := 0));
      } else {
        WriteOrdered(Ended(c));
      }
    }
  }

  lemma FreezeOrdered(c: Clock, value: nat, forward: bool)
    requires Parity(c) && value % 2 == 0 && Ordered(c) && c.supported
    requires Open(c) ==> c.timer && c.endCalled
    requires c.timer && c.nextFrameId <= value ==> EndFrame(c.(timer := false), forward).nextFrameId <= value
    ensures Ordered(FreezeForValue(c, value, forward))
    ensures Settled(c) ==> Settled(FreezeForValue(c, value, forward))
    decreases FreezeLevel(c, value), 0
  {
    hide EndFrame, BumpFrame, NonDecreasing;
    if c.nextFrameId <= value {
      var stale := c.pendingConfigure <= c.gotConfigure;
      var c1 := c.(timer := false);
      var c2 := if c.timer && c.endCalled then EndFrame(c1, forward) else c1;
      if c.timer {
        EndFrameOrdered(c1, forward);
        EndFrameKeeps(c1, forward);
      }
      var c3 := c2.(inFrame := false, needConfigure := true, configureId := value);
      if stale && forward {
        BumpOrdered(c3, forward);
      }
    }
  }

  lemma BumpOrdered(c: Clock, forward: bool)
    requires Parity(c) && !c.inFrame && c.needConfigure && Ordered(c) && c.supported
    ensures Ordered(BumpFrame(c, forward)) && Settled(BumpFrame(c, forward))
    decreases EndLevel(StartFrame(c, true, false, false)), 1
  {
    hide EndFrame, StartId, NonDecreasing;
    StartIdFacts(c.configureId, true);
    StartFrameOrdered(c, true, false, false);
    EndFrameOrdered(StartFrame(c, true, false, false), forward);
  }

  lemma FrozenWaits(c: Clock, value: nat, forward: bool)
    ensures var r := Frozen(c, value, false, forward);
      r == c.(inFrame := false, needConfigure := true, configureId := value, freezes := c.freezes + [false])
  {
  }

  /** No freeze is out of date while fewer configure events have come than are awaited, so that
      ending a frame then writes just one value. */
  lemma EndFrameFresh(c: Clock, forward: bool)
    requires Open(c) && !c.timer && c.supported && c.pendingConfigure > c.gotConfigure
    ensures EndFrame(c, forward).nextFrameId == EndId(c.nextFrameId)
    ensures EndFrame(c, forward).written == c.written + [EndId(c.nextFrameId)]
  {
    FrozenWaits(Ended(c), c.pendingSync, forward);
  }

  /** The sync request is for a value that is not out of date when it comes, but is so once the
      frame that was to end at a predicted time has been ended for it. */
  predicate Overtakes(c: Clock, value: nat) {
    c.timer && c.endCalled && c.nextFrameId <= EvenValue(value) < EndId(c.nextFrameId)
  }

  lemma SyncRequestOrdered(c: Clock, value: nat, forward: bool)
    requires Inv(c) && Ordered(c) && Settled(c) && c.supported && !Overtakes(c, value)
    ensures Ordered(HandleSyncRequest(c, value, forward)) && Settled(HandleSyncRequest(c, value, forward))
  {
    hide EndFrame, FreezeForValue, NonDecreasing;
    var v := EvenValue(value);
    var c1 := c.(pendingConfigure := c.gotConfigure + 1);
    if !Postpones(c) {
      if c.timer {
        EndFrameFresh(c1.(timer := false), forward);
      }
      FreezeOrdered(c1, v, forward);
    }
  }

  /** What an overtaking request leaves: the ended frame has been written, and a lower value is
      waited for. */
  lemma OvertakenState(c: Clock, value: nat, forward: bool)
    requires Inv(c) && c.supported && Overtakes(c, value)
    ensures var r := HandleSyncRequest(c, value, forward);
      && r.written == c.written + [EndId(c.nextFrameId)] && r.supported
      && !r.inFrame && r.needConfigure && r.configureId == EvenValue(value)
  {
    var c1 := c.(pendingConfigure := c.gotConfigure + 1, timer := false);
    EndFrameFresh(c1, forward);
    hide EndFrame;
    FrozenWaits(EndFrame(c1, forward), EvenValue(value), forward);
  }

  lemma StepsBack(s: seq<nat>, a: nat, b: nat)
    requires b < a
    ensures !NonDecreasing(s + [a] + [b])
  {
    var t := s + [a] + [b];
    assert t[|s|] == a && t[|s| + 1] == b;
  }

  /** After a sync request, starting a frame writes a value below an earlier one if and only if
      the request overtakes the end of the frame. */
  lemma StepsBackIffOvertaken(c: Clock, value: nat, forward: bool, urgent: bool, schedules: bool)
    requires Inv(c) && Ordered(c) && Settled(c) && c.supported
    ensures NonDecreasing(StartFrame(HandleSyncRequest(c, value, forward), urgent, true, schedules).written)
      <==> !Overtakes(c, value)
  {
    var r := HandleSyncRequest(c, value, forward);
    if Overtakes(c, value) {
      OvertakenState(c, value, forward);
      hide HandleSyncRequest, NonDecreasing, EndFrame, FreezeForValue;
      StartsLower(c.written, c.nextFrameId, value, r, urgent, schedules);
    } else {
      hide Overtakes;
      SyncRequestOrdered(c, value, forward);
      HandleSyncRequestKeeps(c, value, forward);
      hide HandleSyncRequest, NonDecreasing, EndFrame, FreezeForValue;
      StartFrameOrdered(r, urgent, true, schedules);
    }
  }

  /** A frame that starts from a value below the end of the one before. */
  lemma StartsLower(written: seq<nat>, open: nat, value: nat, r: Clock, urgent: bool, schedules: bool)
    requires open % 2 == 1 && open <= EvenValue(value) < EndId(open)
    requires r.written == written + [EndId(open)] && r.supported
    requires !r.inFrame && r.needConfigure && r.configureId == EvenValue(value)
    ensures !NonDecreasing(StartFrame(r, urgent, true, schedules).written)
  {
    var v := EvenValue(value);
    StartIdFacts(v, urgent);
    EndIsNext(open, v, urgent);
    hide EndId, StartId, NonDecreasing;
    StepsBack(written, EndId(open), StartId(v, urgent));
  }

  lemma EndIsNext(open: nat, v: nat, urgent: bool)
    requires open % 2 == 1 && v % 2 == 0 && v < EndId(open)
    ensures StartId(v, urgent) < EndId(open)
  {
    var k, r := open / 4, open % 4;
    ModFour(k, r);
    assert r == 1 || r == 3;
    assert EndId(open) == 4 * (k + 1);
    var j, q := v / 4, v % 4;
    ModFour(j, q);
    assert q == 0 || q == 2;
    StartIdFrom(j, v, q, urgent);
  }

  // ----- runs -----

  datatype Step =
    | Start(urgent: bool, schedules: bool)
    | End(forward: bool)
    | TimerRuns(forward: bool)
    | Drawn(value: nat)
    | FakeFrame
    | Configured
    | SyncRequest(value: nat, forward: bool)
    | Predict(on: bool)

  predicate Enabled(c: Clock, step: Step) {
    match step
    case TimerRuns(_) => c.timer
    case FakeFrame => !c.supported
    case _ => true
  }

  function Do(c: Clock, step: Step): Clock {
    match step
    case Start(urgent, schedules) => StartFrame(c, urgent, true, schedules)
    case End(forward) => EndFrame(c, forward)
    case TimerRuns(forward) => HandleEndFrame(c, forward)
    case Drawn(value) => HandleFrameDrawn(c, value)
    case FakeFrame => NoteFakeFrame(c)
    case Configured => c.(gotConfigure := c.gotConfigure + 1)
    case SyncRequest(value, forward) => HandleSyncRequest(c, value, forward)
    case Predict(on) => c.(predict := on)
  }

  function After(c: Clock, steps: seq<Step>): Clock {
    if steps == [] then c else Do(After(c, steps[..|steps| - 1]), steps[|steps| - 1])
  }

  ghost predicate IsRun(c: Clock, steps: seq<Step>) {
    steps != [] ==>
      && IsRun(c, steps[..|steps| - 1])
      && Enabled(After(c, steps[..|steps| - 1]), steps[|steps| - 1])
  }

  lemma StepKeeps(c: Clock, step: Step)
    requires Inv(c) && Enabled(c, step)
    ensures Inv(Do(c, step)) && Do(c, step).supported == c.supported
  {
    hide EndFrame, FreezeForValue;
    match step
    case Start(urgent, schedules) => StartFrameKeeps(c, urgent, true, schedules);
    case End(forward) => EndFrameKeeps(c, forward);
    case TimerRuns(forward) => EndFrameKeeps(c.(timer := false), forward);
    case SyncRequest(value, forward) => HandleSyncRequestKeeps(c, value, forward);
    case _ =>
  }

  lemma StepOrdered(c: Clock, step: Step)
    requires Inv(c) && Ordered(c) && Settled(c) && c.supported && Enabled(c, step)
    requires step.SyncRequest? ==> !Overtakes(c, step.value)
    ensures Ordered(Do(c, step)) && Settled(Do(c, step))
  {
    match step
    case Start(urgent, schedules) => StartFrameOrdered(c, urgent, true, schedules);
    case End(forward) => EndFrameOrdered(c, forward);
    case TimerRuns(forward) => EndFrameOrdered(c.(timer := false), forward);
    case SyncRequest(value, forward) => SyncRequestOrdered(c, value, forward);
    case _ =>
  }

  predicate IsNew(c: Clock) {
    c == NewClock(c.supported, c.predict)
  }

  lemma {:induction false} RunKeeps(c: Clock, steps: seq<Step>)
    requires IsNew(c) && IsRun(c, steps)
    ensures Inv(After(c, steps)) && After(c, steps).supported == c.supported
  {
    if steps != [] {
      RunKeeps(c, steps[..|steps| - 1]);
      StepKeeps(After(c, steps[..|steps| - 1]), steps[|steps| - 1]);
    }
  }

  ghost predicate NeverOvertakes(c: Clock, steps: seq<Step>) {
    forall i :: 0 <= i < |steps| && steps[i].SyncRequest? ==> !Overtakes(After(c, steps[..i]), steps[i].value)
  }

  lemma FrontNeverOvertakes(c: Clock, steps: seq<Step>)
    requires steps != [] && NeverOvertakes(c, steps)
    ensures NeverOvertakes(c, steps[..|steps| - 1])
  {
    var front := steps[..|steps| - 1];
    forall i | 0 <= i < |front| && front[i].SyncRequest?
      ensures !Overtakes(After(c, front[..i]), front[i].value)
    {
      assert front[..i] == steps[..i];
    }
  }

  /** Over any run in which no sync request overtakes the end of a frame, the values written to
      the counter never decrease, and the last of them is the current one. */
  lemma {:induction false} CounterNeverStepsBack(c: Clock, steps: seq<Step>)
    requires IsNew(c) && c.supported && IsRun(c, steps) && NeverOvertakes(c, steps)
    ensures Ordered(After(c, steps)) && Settled(After(c, steps))
  {
    if steps != [] {
      var front := steps[..|steps| - 1];
      FrontNeverOvertakes(c, steps);
      CounterNeverStepsBack(c, front);
      RunKeeps(c, front);
      assert steps[|steps| - 1].SyncRequest? ==> !Overtakes(After(c, steps[..|steps| - 1]), steps[|steps| - 1].value);
      StepOrdered(After(c, front), steps[|steps| - 1]);
    }
  }

  ghost predicate Unpredicted(steps: seq<Step>) {
    forall i :: 0 <= i < |steps| ==> steps[i] != Predict(true)
  }

  lemma TimerStaysOff(c: Clock, step: Step)
    requires !c.timer && !c.predict && step != Predict(true)
    ensures !Do(c, step).timer && !Do(c, step).predict
  {
  }

  lemma {:induction false} NoTimer(c: Clock, steps: seq<Step>)
    requires IsNew(c) && !c.predict && Unpredicted(steps)
    ensures !After(c, steps).timer && !After(c, steps).predict
  {
    if steps != [] {
      NoTimer(c, steps[..|steps| - 1]);
      TimerStaysOff(After(c, steps[..|steps| - 1]), steps[|steps| - 1]);
    }
  }

  /** With refresh prediction off the values written never decrease. */
  lemma UnpredictedNeverStepsBack(c: Clock, steps: seq<Step>)
    requires IsNew(c) && c.supported && !c.predict && IsRun(c, steps) && Unpredicted(steps)
    ensures NonDecreasing(After(c, steps).written)
  {
    forall i | 0 <= i < |steps| && steps[i].SyncRequest?
      ensures !Overtakes(After(c, steps[..i]), steps[i].value)
    {
      NoTimer(c, steps[..i]);
    }
    CounterNeverStepsBack(c, steps);
  }

  /** A frame that has been ended is waited for under the last value written, so that hearing of
      that value, and of no other, lets the next frame start. */
  lemma LastValueFreesClock(c: Clock, steps: seq<Step>, value: nat)
    requires IsNew(c) && c.supported && IsRun(c, steps) && NeverOvertakes(c, steps)
    ensures var r := After(c, steps);
      r.inFrame && !Open(r) ==>
        r.written != [] && (CanStart(HandleFrameDrawn(r, value)) <==> value == r.written[|r.written| - 1])
  {
    RunKeeps(c, steps);
    CounterNeverStepsBack(c, steps);
  }

  lemma OneMore(c: Clock, steps: seq<Step>, step: Step, more: seq<Step>, d: Clock)
    requires more == steps + [step] && IsRun(c, steps) && After(c, steps) == d && Enabled(d, step)
    ensures IsRun(c, more) && After(c, more) == Do(d, step)
  {
    assert more[..|more| - 1] == steps;
  }

  /** Without a compositing manager, the timer that stands in for it lets the next frame start. */
  lemma FakeFrameFreesClock(c: Clock, steps: seq<Step>)
    requires IsNew(c) && !c.supported && IsRun(c, steps)
    ensures var r := After(c, steps); Enabled(r, FakeFrame) && (CanStart(Do(r, FakeFrame)) <==> !Open(r) || CanStart(r))
  {
    RunKeeps(c, steps);
  }
}
