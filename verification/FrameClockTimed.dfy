/** The frame clock with its times: whether the end of a frame is predicted is no longer an answer
    from outside, but follows from the timings of earlier frames and the time. */
module FrameClockTimed {
  import opened Common
  import opened FrameTiming
  import Spec = FrameClockSpec

  datatype Timed = Timed(clock: Spec.Clock, timing: Timing)

  /** now is the time at which a frame starts; time says when a frame was drawn. */
  datatype Step =
    | Start(urgent: bool, now: Timespec)
    | Drawn(value: nat, time: nat)
    | Timings(value: nat, offset: int, interval: nat, delay: nat)
    | Other(step: Spec.Step)

  predicate Enabled(t: Timed, s: Step) {
    s.Other? ==> Spec.Enabled(t.clock, s.step) && !s.step.Start? && !s.step.Drawn?
  }

  /** An ended frame waits for being drawn under the value. */
  predicate Awaits(c: Spec.Clock, value: nat) {
    c.inFrame && !Spec.Open(c) && value == c.nextFrameId
  }

  function Do(t: Timed, s: Step): Timed {
    match s
    case Start(urgent, now) => t.(clock := Spec.StartFrame(t.clock, urgent, true, Predicts(t.timing, now)))
    case Drawn(value, time) =>
      Timed(Spec.HandleFrameDrawn(t.clock, value),
            if Awaits(t.clock, value) then NoteDrawn(t.timing, value, time) else t.timing)
    case Timings(value, offset, interval, delay) => t.(timing := TakeTimings(t.timing, value, offset, interval, delay))
    case Other(step) => t.(clock := Spec.Do(t.clock, step))
  }

  function New(supported: bool, predict: bool): Timed {
    Timed(Spec.NewClock(supported, predict), NoTiming())
  }

  function After(t: Timed, steps: seq<Step>): Timed {
    if steps == [] then t else Do(After(t, steps[..|steps| - 1]), steps[|steps| - 1])
  }

  ghost predicate IsRun(t: Timed, steps: seq<Step>) {
    steps != [] ==>
      && IsRun(t, steps[..|steps| - 1])
      && Enabled(After(t, steps[..|steps| - 1]), steps[|steps| - 1])
  }

  /** What a step does to the clock alone. */
  function ClockStep(t: Timed, s: Step): seq<Spec.Step> {
    match s
    case Start(urgent, now) => [Spec.Start(urgent, Predicts(t.timing, now))]
    case Drawn(value, _) => [Spec.Drawn(value)]
    case Timings(_, _, _, _) => []
    case Other(step) => [step]
  }

  function ClockSteps(t: Timed, steps: seq<Step>): seq<Spec.Step> {
    if steps == [] then []
    else ClockSteps(t, steps[..|steps| - 1]) + ClockStep(After(t, steps[..|steps| - 1]), steps[|steps| - 1])
  }

  lemma StepIsClockStep(t: Timed, s: Step)
    requires Enabled(t, s)
    ensures |ClockStep(t, s)| <= 1 && (ClockStep(t, s) == [] ==> Do(t, s).clock == t.clock)
    ensures ClockStep(t, s) != [] ==>
      Spec.Enabled(t.clock, ClockStep(t, s)[0]) && Do(t, s).clock == Spec.Do(t.clock, ClockStep(t, s)[0])
  {
  }

  /** Every run with times is a run of the clock, so that what holds of those holds of these. */
  lemma {:induction false} RunIsClockRun(t: Timed, steps: seq<Step>)
    requires IsRun(t, steps)
    ensures Spec.IsRun(t.clock, ClockSteps(t, steps))
    ensures Spec.After(t.clock, ClockSteps(t, steps)) == After(t, steps).clock
  {
    if steps != [] {
      var front, s := steps[..|steps| - 1], steps[|steps| - 1];
      RunIsClockRun(t, front);
      var before, early, all := After(t, front), ClockSteps(t, front), ClockSteps(t, steps);
      var step := ClockStep(before, s);
      assert all == early + step && After(t, steps) == Do(before, s);
      StepIsClockStep(before, s);
      hide *;
      if step == [] {
        assert all == early;
      } else {
        assert step == [step[0]];
        Spec.OneMore(t.clock, early, step[0], all, before.clock);
      }
    }
  }

  predicate IsNew(t: Timed) {
    t == New(t.clock.supported, t.clock.predict)
  }

  /** Outside a frame no timer runs when a frame starts. */
  lemma NoTimerAtStart(t: Timed, steps: seq<Step>)
    requires IsNew(t) && IsRun(t, steps)
    ensures var c := After(t, steps).clock;
      Spec.Inv(c) && (!c.inFrame ==> !c.timer) && c.supported == t.clock.supported
  {
    RunIsClockRun(t, steps);
    hide After, IsRun, ClockSteps, Spec.After, Spec.IsRun;
    Spec.RunKeeps(t.clock, ClockSteps(t, steps));
  }

  /** The first frame of a new clock has no predicted end. */
  lemma FirstEndIsNotPredicted(t: Timespec)
    ensures !Predicts(NoTiming(), t)
  {
  }

  ghost predicate NeverOvertakes(t: Timed, steps: seq<Step>) {
    forall i :: 0 <= i < |steps| ==> !OvertakesAt(t, steps, i)
  }

  predicate OvertakesAt(t: Timed, steps: seq<Step>, i: nat)
    requires i < |steps|
  {
    steps[i].Other? && steps[i].step.SyncRequest? && Spec.Overtakes(After(t, steps[..i]).clock, steps[i].step.value)
  }

  lemma FrontNeverOvertakes(t: Timed, steps: seq<Step>)
    requires steps != [] && NeverOvertakes(t, steps)
    ensures NeverOvertakes(t, steps[..|steps| - 1])
  {
    var front := steps[..|steps| - 1];
    forall i | 0 <= i < |front|
      ensures !OvertakesAt(t, front, i)
    {
      assert front[..i] == steps[..i] && !OvertakesAt(t, steps, i);
    }
  }

  lemma StepOrdered(t: Timed, s: Step)
    requires Spec.Inv(t.clock) && Spec.Ordered(t.clock) && Spec.Settled(t.clock) && t.clock.supported && Enabled(t, s)
    requires s.Other? && s.step.SyncRequest? ==> !Spec.Overtakes(t.clock, s.step.value)
    ensures Spec.Ordered(Do(t, s).clock) && Spec.Settled(Do(t, s).clock)
  {
    match s
    case Start(urgent, now) => Spec.StepOrdered(t.clock, Spec.Start(urgent, Predicts(t.timing, now)));
    case Drawn(value, _) => Spec.StepOrdered(t.clock, Spec.Drawn(value));
    case Timings(_, _, _, _) =>
    case Other(step) => Spec.StepOrdered(t.clock, step);
  }

  /** Over any run in which no sync request overtakes the predicted end of a frame, the values
      written to the counter never decrease, and the last is the current one. */
  lemma {:induction false} CounterNeverStepsBack(t: Timed, steps: seq<Step>)
    requires IsNew(t) && t.clock.supported && IsRun(t, steps) && NeverOvertakes(t, steps)
    ensures Spec.Ordered(After(t, steps).clock) && Spec.Settled(After(t, steps).clock)
  {
    if steps != [] {
      hide Do, Spec.Ordered, Spec.Overtakes;
      var front, n := steps[..|steps| - 1], |steps| - 1;
      FrontNeverOvertakes(t, steps);
      CounterNeverStepsBack(t, front);
      NoTimerAtStart(t, front);
      assert !OvertakesAt(t, steps, n);
      StepOrdered(After(t, front), steps[n]);
    }
  }

  lemma OneMore(t: Timed, steps: seq<Step>, s: Step, more: seq<Step>, d: Timed)
    requires more == steps + [s] && IsRun(t, steps) && After(t, steps) == d && Enabled(d, s)
    ensures IsRun(t, more) && After(t, more) == Do(d, s)
  {
    assert more[..|more| - 1] == steps;
  }

  // ----- whose timings are used -----

  /** The timings of a frame drawn are awaited until they come, whatever happens meanwhile. */
  lemma AwaitedStays(t: Timed, s: Step, value: nat)
    requires Enabled(t, s) && t.timing.awaited == Some(value) && !(s.Timings? && s.value == value)
    ensures Do(t, s).timing == t.timing
  {
  }

  /** They are then taken over: when the frame was presented, how often that is done, and the frame
      delay, or nothing of that if they are unavailable. */
  lemma TimingsAreTaken(t: Timed, value: nat, offset: int, interval: nat, delay: nat)
    requires t.timing.awaited == Some(value)
    ensures var g := Do(t, Timings(value, offset, interval, delay)).timing;
      && g.awaited.None?
      && if interval < 0x8000_0000 && delay != 0x8000_0000
         then (g.last, g.interval, g.delay) == (Wrap(t.timing.drawn + offset), interval, delay)
         else !Predicts(g, Timespec(0, 1000))
  {
  }

  lemma {:induction false} AwaitedThrough(t: Timed, steps: seq<Step>, more: seq<Step>, all: seq<Step>, value: nat)
    requires all == steps + more && IsRun(t, all) && After(t, steps).timing.awaited == Some(value)
    requires forall i :: 0 <= i < |more| && more[i].Timings? ==> more[i].value != value
    ensures After(t, all).timing == After(t, steps).timing
  {
    if more == [] {
      assert all == steps;
    } else {
      var front := more[..|more| - 1];
      assert all[..|all| - 1] == steps + front && all[|all| - 1] == more[|more| - 1];
      hide Do;
      AwaitedThrough(t, steps, front, steps + front, value);
      AwaitedStays(After(t, steps + front), more[|more| - 1], value);
    }
  }

  /** In every run, the timings of a frame that was drawn while none were awaited are put together
      with the time at which that frame was drawn. */
  lemma TimingsComeBack(t: Timed, steps: seq<Step>, value: nat, time: nat, more: seq<Step>, all: seq<Step>,
                        offset: int, interval: nat, delay: nat)
    requires all == steps + [Drawn(value, time)] + more && IsRun(t, all)
    requires Awaits(After(t, steps).clock, value) && After(t, steps).timing.awaited.None?
    requires forall i :: 0 <= i < |more| && more[i].Timings? ==> more[i].value != value
    requires interval < 0x8000_0000 && delay != 0x8000_0000
    ensures Do(After(t, all), Timings(value, offset, interval, delay)).timing
         == Timing(None, time, Wrap(time + offset), interval, delay)
  {
    var drawn := steps + [Drawn(value, time)];
    assert drawn[..|steps|] == steps;
    hide IsRun;
    AwaitedThrough(t, drawn, more, all, value);
  }

  // ----- a step back -----

  /** A time at which the frame after one that was presented at 100 ms, in intervals of 16 ms,
      starts. */
  const SECOND_START := Timespec(0, 105000000)

  lemma SecondEndIsPredicted(g: Timing)
    requires g == Timing(None, 100000, 100000, 16000, 1000)
    ensures Predicts(g, SECOND_START)
  {
    assert HighPrecisionTimestamp(SECOND_START) == 105000;
    assert Reference(100000, SECOND_START) == Some((105000, 0));
    assert FirstFrom(100000, 105000, 16000) == Some(116000);
  }

  /** A frame is drawn and its timings come; the end of the next frame is predicted, and before
      it comes a sync request for a value that is not out of date yet. */
  function OvertakenRun(): seq<Step> {
    [Start(false, Timespec(0, 90000000)), Other(Spec.End(false)), Drawn(4, 100000), Timings(4, 0, 16000, 1000)]
    + [Start(false, SECOND_START), Other(Spec.End(false)), Other(Spec.SyncRequest(6, false)),
       Start(false, SECOND_START)]
  }

  lemma FourMore(steps: seq<Step>, a: Step, b: Step, c: Step, d: Step, t: Timed, t0: Timed, t1: Timed, t2: Timed,
                 t3: Timed)
    requires IsRun(t, steps) && After(t, steps) == t0 && t1 == Do(t0, a) && t2 == Do(t1, b) && t3 == Do(t2, c)
    requires Enabled(t0, a) && Enabled(t1, b) && Enabled(t2, c) && Enabled(t3, d)
    ensures IsRun(t, steps + [a, b, c, d]) && After(t, steps + [a, b, c, d]) == Do(t3, d)
  {
    OneMore(t, steps, a, steps + [a], t0);
    OneMore(t, steps + [a], b, steps + [a, b], t1);
    OneMore(t, steps + [a, b], c, steps + [a, b, c], t2);
    OneMore(t, steps + [a, b, c], d, steps + [a, b, c, d], t3);
  }

  /** The first four steps: a whole frame, without prediction, and its timings. */
  lemma FirstFrame(t: Timed, t4: Timed)
    requires t == New(true, true) && t4 == After(t, OvertakenRun()[..4])
    ensures IsRun(t, OvertakenRun()[..4]) && t4.timing == Timing(None, 100000, 100000, 16000, 1000)
    ensures Spec.Inv(t4.clock) && t4.clock.supported && t4.clock.predict && !t4.clock.needConfigure
    ensures !t4.clock.inFrame && t4.clock.nextFrameId == 4 && t4.clock.written == [1, 4]
  {
    var a, b, c, d := OvertakenRun()[0], OvertakenRun()[1], OvertakenRun()[2], OvertakenRun()[3];
    var t1 := Do(t, a);
    assert t1.clock.nextFrameId == 1 && !t1.clock.timer && t1.clock.written == [1];
    var t2 := Do(t1, b);
    assert t2.clock.nextFrameId == 4 && t2.clock.written == [1, 4];
    var t3 := Do(t2, c);
    FourMore([], a, b, c, d, t, t, t1, t2, t3);
    assert [] + [a, b, c, d] == [a, b, c, d] == OvertakenRun()[..4];
    NoTimerAtStart(t, OvertakenRun()[..4]);
  }

  /** With prediction on the counter can step back: a configure value that comes between the
      start of a frame and its predicted end is below the value of the end. */
  lemma PredictionMayStepBack(t: Timed)
    requires t == New(true, true)
    ensures IsRun(t, OvertakenRun()) && After(t, OvertakenRun()).clock.written == [1, 4, 5, 8, 7]
  {
    var t4 := After(t, OvertakenRun()[..4]);
    FirstFrame(t, t4);
    SecondEndIsPredicted(t4.timing);
    SecondFrame(t, t4);
  }

  lemma SecondFrame(t: Timed, t4: Timed)
    requires IsRun(t, OvertakenRun()[..4]) && t4 == After(t, OvertakenRun()[..4])
    requires Spec.Inv(t4.clock) && t4.clock.supported && t4.clock.predict && !t4.clock.needConfigure
    requires !t4.clock.inFrame && t4.clock.nextFrameId == 4 && t4.clock.written == [1, 4]
    requires Predicts(t4.timing, SECOND_START)
    ensures IsRun(t, OvertakenRun()) && After(t, OvertakenRun()).clock.written == [1, 4, 5, 8, 7]
  {
    hide Predicts;
    var a, b, c, d := OvertakenRun()[4], OvertakenRun()[5], OvertakenRun()[6], OvertakenRun()[7];
    var t5 := Do(t4, a);
    assert t5.clock.nextFrameId == 5 && t5.clock.timer && t5.clock.written == [1, 4, 5];
    var t6 := Do(t5, b);
    assert t6.clock == t5.clock.(endCalled := true);
    Spec.StartFrameKeeps(t4.clock, false, true, true);
    Spec.EndFrameKeeps(t5.clock, false);
    var t7 := Do(t6, c);
    Spec.OvertakenState(t6.clock, 6, false);
    FourMore(OvertakenRun()[..4], a, b, c, d, t, t4, t5, t6, t7);
    assert OvertakenRun()[..4] + [a, b, c, d] == OvertakenRun();
  }
}
