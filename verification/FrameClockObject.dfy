/** The frame clock as the source keeps it: an object the functions of which update its fields
    and call one another.  Each method leaves the clock that FrameClockSpec computes. */
module FrameClocks {
  import opened Common
  import opened FrameTiming
  import Spec = FrameClockSpec
  import FrameClockTimed

  class FrameClock {
    const supported: bool
    var nextFrameId: nat
    var finishedFrameId: nat
    var configureId: nat
    var pendingSync: nat
    var gotConfigure: nat
    var pendingConfigure: nat
    var endFrameTimer: Option<Timespec>
    var needConfigure: bool
    var endCalled: bool
    var inFrame: bool
    var predict: bool
    // what the X server and the freeze callback have been told
    var written: seq<nat>
    var freezes: seq<bool>
    // when the last frame was presented and how often that is done, or 0
    var lastPresentation: nat
    var refreshInterval: nat
    var frameDelay: nat
    // the frame whose timings are awaited and when it was drawn
    var timingsId: Option<nat>
    var timingsDrawn: nat

    ghost function Value(): Spec.Clock
      reads this
    {
      Spec.Clock(nextFrameId, finishedFrameId, configureId, pendingSync, gotConfigure, pendingConfigure,
                 endFrameTimer.Some?, needConfigure, endCalled, inFrame, predict, supported, written, freezes)
    }

    ghost function Times(): Timing
      reads this
    {
      Timing(timingsId, timingsDrawn, lastPresentation, refreshInterval, frameDelay)
    }

    ghost function TimedValue(): FrameClockTimed.Timed
      reads this
    {
      FrameClockTimed.Timed(Value(), Times())
    }

    constructor (supported: bool, predict: bool)
      ensures TimedValue() == FrameClockTimed.New(supported, predict)
    {
      this.supported, this.predict := supported, predict;
      nextFrameId, finishedFrameId, configureId, pendingSync := 0, 0, 0, 0;
      gotConfigure, pendingConfigure := 0, 0;
      endFrameTimer, timingsId := None, None;
      needConfigure, endCalled, inFrame := false, false, false;
      written, freezes := [], [];
      lastPresentation, refreshInterval, frameDelay, timingsDrawn := 0, 0, 0, 0;
    }

    method SetSyncCounter()
      modifies this`written
      ensures written == old(written) + [nextFrameId]
    {
      written := written + [nextFrameId];
    }

    /** No timer may be running, as the source asserts. */
    method ScheduleEnd(now: Timespec)
      requires endFrameTimer == None
      modifies this`endFrameTimer
      ensures endFrameTimer == EndTime(lastPresentation, refreshInterval, frameDelay, now)
    {
      endFrameTimer := PostEndFrame(lastPresentation, refreshInterval, frameDelay, now);
    }

    /** That no timer runs outside a frame holds of every clock that is reached, by Spec.RunKeeps. */
    method StartFrame(urgent: bool, predict: bool, now: Timespec) returns (started: bool)
      requires inFrame || endFrameTimer == None
      modifies `nextFrameId, `finishedFrameId, `configureId, `pendingSync, `endFrameTimer, `needConfigure,
        `endCalled, `inFrame, `written, `freezes
      ensures started == Spec.CanStart(old(Value()))
      ensures Value() == Spec.StartFrame(old(Value()), urgent, predict, Predicts(Times(), now))
    {
      hide Predicts, Spec.Begin;
      if inFrame {
        if endFrameTimer.Some? && endCalled {
          endCalled := false;
          return true;
        }
        return false;
      }
      BeginFrame(urgent, predict, now);
      started := true;
    }

    method BeginFrame(urgent: bool, predict: bool, now: Timespec)
      requires !inFrame && endFrameTimer == None
      modifies `nextFrameId, `finishedFrameId, `configureId, `pendingSync, `endFrameTimer, `needConfigure,
        `endCalled, `inFrame, `written, `freezes
      ensures Value() == Spec.Begin(old(Value()), urgent, predict, Predicts(Times(), now))
    {
      hide Predicts, Spec.StartId, Spec.Announce;
      var mayPredict := predict;
      if needConfigure {
        nextFrameId, finishedFrameId := configureId, 0;
        mayPredict := false;
      }
      inFrame, endCalled := true, false;
      nextFrameId := Spec.StartId(nextFrameId, urgent);
      if supported {
        Announce(mayPredict, now);
      }
    }

    method Announce(predict: bool, now: Timespec)
      requires supported && endFrameTimer == None
      modifies `endFrameTimer, `needConfigure, `written
      ensures Value() == Spec.Announce(old(Value()), predict, Predicts(Times(), now))
    {
      hide EndTime;
      SetSyncCounter();
      if this.predict && predict {
        ScheduleEnd(now);
      }
      needConfigure := false;
    }

    method EndFrame(forward: bool, now: Timespec)
      modifies `nextFrameId, `finishedFrameId, `configureId, `pendingSync, `endFrameTimer, `needConfigure,
        `endCalled, `inFrame, `written, `freezes
      ensures Value() == Spec.EndFrame(old(Value()), forward)
      decreases Spec.EndLevel(Value()), 0
    {
      hide Spec.FreezeForValue;
      endCalled := true;
      if !inFrame || finishedFrameId == nextFrameId {
        return;
      }
      if endFrameTimer.Some? {
        return;
      }
      nextFrameId := Spec.EndId(nextFrameId);
      finishedFrameId := nextFrameId;
      if pendingSync != 0 {
        FreezeForValue(pendingSync, forward, now);
      }
      pendingSync := 0;
      if supported {
        SetSyncCounter();
      }
    }

    /** forward is what the fast-forward callback answers. */
    method FreezeForValue(value: nat, forward: bool, now: Timespec)
      modifies `nextFrameId, `finishedFrameId, `configureId, `pendingSync, `endFrameTimer, `needConfigure,
        `endCalled, `inFrame, `written, `freezes
      ensures Value() == Spec.FreezeForValue(old(Value()), value, forward)
      decreases Spec.FreezeLevel(Value(), value), 0
    {
      hide Spec.EndFrame, Spec.Frozen;
      if nextFrameId > value {
        return;
      }
      var needEmptyFrame := pendingConfigure <= gotConfigure;
      if endFrameTimer.Some? {
        EndEarly(forward, now);
      }
      Freeze(value, needEmptyFrame, forward, now);
    }

    /** Waits for the configure value, or brings the counter up to date. */
    method Freeze(value: nat, needEmptyFrame: bool, forward: bool, now: Timespec)
      requires endFrameTimer == None
      modifies `nextFrameId, `finishedFrameId, `configureId, `pendingSync, `endFrameTimer, `needConfigure,
        `endCalled, `inFrame, `written, `freezes
      ensures Value() == Spec.Frozen(old(Value()), value, needEmptyFrame, forward)
      decreases if pendingSync > value then 5 else 2, 0
    {
      hide Spec.BumpFrame;
      inFrame, needConfigure, configureId := false, true, value;
      if needEmptyFrame && forward {
        BumpFrame(forward, now);
      }
      freezes := freezes + [needEmptyFrame];
    }

    /** Does not wait for the timer to end the frame. */
    method EndEarly(forward: bool, now: Timespec)
      requires endFrameTimer.Some?
      modifies `nextFrameId, `finishedFrameId, `configureId, `pendingSync, `endFrameTimer, `needConfigure,
        `endCalled, `inFrame, `written, `freezes
      ensures Value() == Spec.HandleEndFrame(old(Value()), forward)
      decreases 9, 0
    {
      endFrameTimer := None;
      if endCalled {
        EndFrame(forward, now);
      }
    }

    method BumpFrame(forward: bool, now: Timespec)
      requires !inFrame && endFrameTimer == None
      modifies `nextFrameId, `finishedFrameId, `configureId, `pendingSync, `endFrameTimer, `needConfigure,
        `endCalled, `inFrame, `written, `freezes
      ensures Value() == Spec.BumpFrame(old(Value()), forward)
      decreases Spec.EndLevel(Spec.StartFrame(Value(), true, false, false)), 1
    {
      var _ := StartFrame(true, false, now);
      EndFrame(forward, now);
    }

    method HandleEndFrame(forward: bool, now: Timespec)
      modifies `nextFrameId, `finishedFrameId, `configureId, `pendingSync, `endFrameTimer, `needConfigure,
        `endCalled, `inFrame, `written, `freezes
      ensures Value() == Spec.HandleEndFrame(old(Value()), forward)
    {
      endFrameTimer := None;
      if endCalled {
        EndFrame(forward, now);
      }
    }

    /** The compositing manager has drawn the frame at the time. */
    method HandleFrameDrawn(value: nat, time: nat)
      modifies `inFrame, `timingsId, `timingsDrawn
      ensures TimedValue() == FrameClockTimed.Do(old(TimedValue()), FrameClockTimed.Drawn(value, time))
    {
      if value == finishedFrameId && inFrame && finishedFrameId == nextFrameId {
        inFrame := false;
        if timingsId == None {
          timingsId, timingsDrawn := Some(value), time;
        }
      }
    }

    /** The timings of a frame: how long after it was drawn it was presented, how long a refresh
        takes, and the frame delay. */
    method HandleFrameTimings(value: nat, offset: int, interval: nat, delay: nat)
      modifies `timingsId, `lastPresentation, `refreshInterval, `frameDelay
      ensures TimedValue() == FrameClockTimed.Do(old(TimedValue()),
          FrameClockTimed.Timings(value, offset, interval, delay))
    {
      if timingsId != Some(value) {
        return;
      }
      timingsId := None;
      lastPresentation := Wrap(timingsDrawn + offset);
      refreshInterval, frameDelay := interval, delay;
      if interval >= 0x8000_0000 || delay == 0x8000_0000 {
        refreshInterval, frameDelay, lastPresentation := 0, 0, 0;
      }
    }

    method NoteFakeFrame()
      modifies this`inFrame
      ensures Value() == Spec.NoteFakeFrame(old(Value()))
    {
      if inFrame && finishedFrameId == nextFrameId {
        inFrame := false;
      }
    }

    method NoteConfigure()
      modifies this`gotConfigure
      ensures Value() == Spec.Do(old(Value()), Spec.Configured)
    {
      gotConfigure := gotConfigure + 1;
    }

    method HandleSyncRequest(value: nat, forward: bool, now: Timespec)
      modifies `pendingConfigure, `nextFrameId, `finishedFrameId, `configureId, `pendingSync, `endFrameTimer,
        `needConfigure, `endCalled, `inFrame, `written, `freezes
      ensures Value() == Spec.HandleSyncRequest(old(Value()), value, forward)
    {
      hide Spec.FreezeForValue;
      var v := value;
      if v % 2 != 0 {
        v := v + 1;
      }
      pendingConfigure := gotConfigure + 1;
      if inFrame && !endCalled {
        pendingSync := v;
      } else {
        FreezeForValue(v, forward, now);
      }
    }
  }
}
