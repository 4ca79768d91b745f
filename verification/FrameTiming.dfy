/** Times in microseconds and the predicted end of a frame. */
module FrameTiming {
  import opened Common

  const TWO_32 := 0x1_0000_0000
  const TWO_64 := 0x1_0000_0000_0000_0000
  const MAX_PRESENTATION_AGE := 150000

  datatype Timespec = Timespec(sec: int, nsec: nat)

  predicate IsTime(t: Timespec) {
    t.nsec < 1000000000
  }

  /** The microseconds in t, or 0 if there are too many. */
  function HighPrecisionTimestamp(t: Timespec): (r: nat)
    ensures r < TWO_64
  {
    var us := t.sec * 1000000;
    if us < 0 || us >= TWO_64 || us + t.nsec / 1000 >= TWO_64 then 0 else us + t.nsec / 1000
  }

  /** The same with the milliseconds truncated to 32 bits. */
  function HighPrecisionTimestamp32(t: Timespec): nat {
    var ms := t.sec * 1000;
    if ms < 0 || ms >= TWO_64 || ms + t.nsec / 1000000 >= TWO_64 then 0
    else (ms + t.nsec / 1000000) % TWO_32 * 1000 + t.nsec % 1000000 / 1000
  }

  function ToTimespec(timestamp: nat): Timespec {
    Timespec(timestamp / 1000000, timestamp % 1000000 * 1000)
  }

  /** A time survives being turned into microseconds and back, but for its nanoseconds. */
  lemma TimespecRoundTrip(t: Timespec)
    requires IsTime(t) && 0 <= t.sec && t.sec * 1000000 + t.nsec / 1000 < TWO_64
    ensures ToTimespec(HighPrecisionTimestamp(t)) == Timespec(t.sec, t.nsec / 1000 * 1000)
  {
  }

  lemma TimestampRoundTrip(timestamp: nat)
    requires timestamp < TWO_64
    ensures IsTime(ToTimespec(timestamp)) && HighPrecisionTimestamp(ToTimespec(timestamp)) == timestamp
  {
  }

  lemma SplitNanoseconds(n: nat)
    ensures n / 1000 == n / 1000000 * 1000 + n % 1000000 / 1000
  {
  }

  lemma ModThousand(ms: nat, r: nat)
    requires r < 1000
    ensures (ms * 1000 + r) % (TWO_32 * 1000) == ms % TWO_32 * 1000 + r
  {
  }

  /** The truncated time is the time modulo the period of the time of the X server. */
  lemma TruncatedIsModulo(t: Timespec)
    requires IsTime(t) && 0 <= t.sec && t.sec * 1000000 + t.nsec / 1000 < TWO_64
    ensures HighPrecisionTimestamp32(t) == HighPrecisionTimestamp(t) % (TWO_32 * 1000)
  {
    SplitNanoseconds(t.nsec);
    ModThousand(t.sec * 1000 + t.nsec / 1000000, t.nsec % 1000000 / 1000);
  }

  // ----- the end of a frame -----

  function Wrap(x: int): nat { x % TWO_64 }

  /** The first time not before now in steps of interval from target, or None if it does not
      fit 64 bits. */
  function FirstFrom(target: nat, now: nat, interval: nat): Option<nat>
    requires interval > 0
    decreases now - target
  {
    if target >= now then Some(target)
    else if target + interval >= TWO_64 then None
    else FirstFrom(target + interval, now, interval)
  }

  /** The time to measure from and what has to be added to it again, or None if the last frame
      is too long ago. */
  function Reference(last: nat, t: Timespec): Option<(nat, nat)> {
    var now := HighPrecisionTimestamp(t);
    var fallback := if Wrap(now * 1024) >= TWO_32 then HighPrecisionTimestamp32(t) else 0;
    if now == 0 then None
    else if Wrap(now - last) < MAX_PRESENTATION_AGE then Some((now, 0))
    else if Wrap(fallback - last) <= MAX_PRESENTATION_AGE then Some((fallback, Wrap(now - fallback)))
    else None
  }

  /** The difference is taken in 32 bits. */
  function Deadline(target: nat, delay: nat, additional: nat): nat {
    Wrap(Wrap(target - (delay - 200) % TWO_32) + additional)
  }

  /** When to end the frame that starts at time t, if that can be predicted from the frame that
      was presented last, the refresh interval and the frame delay. */
  function EndTime(last: nat, interval: nat, delay: nat, t: Timespec): Option<Timespec> {
    if interval == 0 || last == 0 then None
    else
      match Reference(last, t)
      case None => None
      case Some((now, additional)) =>
        match FirstFrom(last, now, interval)
        case None => None
        case Some(target) => Some(ToTimespec(Deadline(target, delay, additional)))
  }

  /** The loop of PostEndFrame. */
  method PostEndFrame(last: nat, interval: nat, delay: nat, t: Timespec) returns (end: Option<Timespec>)
    ensures end == EndTime(last, interval, delay, t)
  {
    if interval == 0 || last == 0 {
      return None;
    }
    var target, additional, now := last, 0, HighPrecisionTimestamp(t);
    var fallback := 0;
    if Wrap(now * 1024) >= TWO_32 {
      fallback := HighPrecisionTimestamp32(t);
    }
    if now == 0 {
      return None;
    }
    if Wrap(now - last) >= MAX_PRESENTATION_AGE {
      if Wrap(fallback - last) > MAX_PRESENTATION_AGE {
        return None;
      }
      additional := Wrap(now - fallback);
      now := fallback;
    }
    while target < now
      invariant FirstFrom(target, now, interval) == FirstFrom(last, now, interval)
      decreases now - target
    {
      if target + interval >= TWO_64 {
        return None;
      }
      target := target + interval;
    }
    return Some(ToTimespec(Deadline(target, delay, additional)));
  }

  /** The predicted frame is a whole number of intervals after the last one, and the first such
      that is not before now. */
  lemma {:induction false} FirstFromIsFirst(target: nat, now: nat, interval: nat) returns (k: nat)
    requires interval > 0 && FirstFrom(target, now, interval).Some?
    ensures FirstFrom(target, now, interval).value == target + k * interval
    ensures now <= target + k * interval && (k > 0 ==> target + (k - 1) * interval < now)
    decreases now - target
  {
    if target >= now {
      k := 0;
    } else {
      var j := FirstFromIsFirst(target + interval, now, interval);
      k := j + 1;
      assert k * interval == j * interval + interval;
      if j > 0 {
        assert j * interval == (j - 1) * interval + interval;
      }
    }
  }

  lemma WrapIs(x: int)
    requires -TWO_64 <= x < 2 * TWO_64
    ensures Wrap(x) == if x < 0 then x + TWO_64 else if x < TWO_64 then x else x - TWO_64
  {
  }

  /** What the deadline is, in the time of now, if no sum leaves 64 bits. */
  lemma DeadlineIs(target: nat, delay: nat, additional: nat)
    requires delay < TWO_32 && delay <= target + 200 && target + 200 + additional < TWO_64
    ensures var d := target - delay + 200 + additional;
      Deadline(target, delay, additional) ==
        if delay >= 200 then d else if d >= TWO_32 then d - TWO_32 else d - TWO_32 + TWO_64
  {
    var less := if delay >= 200 then delay - 200 else delay - 200 + TWO_32;
    assert (delay - 200) % TWO_32 == less;
    WrapIs(target - less);
    WrapIs(Wrap(target - less) + additional);
    hide Wrap;
  }

  /** The frame is ended 200 microseconds later than the frame delay before the predicted time
      if and only if the frame delay is at least those 200 microseconds. */
  lemma DeadlineIff(target: nat, delay: nat, additional: nat)
    requires delay < TWO_32 && delay <= target + 200 && target + 200 + additional < TWO_64
    ensures Deadline(target, delay, additional) == target - delay + 200 + additional <==> delay >= 200
  {
    DeadlineIs(target, delay, additional);
    hide Deadline;
  }

  /** With a frame delay of 100 microseconds, a frame that is to be presented after two hours ends
      71 minutes too early. */
  lemma ShortDelayIsEarly()
    ensures Deadline(7200000000, 100, 0) == 7200000100 - TWO_32
  {
  }

  /** The time measured from, with what was taken off it, is now; and the last frame was not
      presented later than that. */
  lemma ReferenceIsNow(last: nat, t: Timespec)
    requires IsTime(t) && last < TWO_64 - MAX_PRESENTATION_AGE && Reference(last, t).Some?
    ensures var (now, additional) := Reference(last, t).value;
      last <= now && now + additional == HighPrecisionTimestamp(t) && now < TWO_64
  {
    var now, less := HighPrecisionTimestamp(t), HighPrecisionTimestamp32(t);
    TruncatedIsModulo(t);
    ModAtMost(now, TWO_32 * 1000);
    hide HighPrecisionTimestamp, HighPrecisionTimestamp32;
    assert less <= now;
    WrapIs(now - last);
    WrapIs(less - last);
    WrapIs(0 - last);
    WrapIs(now - less);
    WrapIs(now);
    hide Wrap;
  }

  /** Whether there is a time to measure from: it is not 0, and the last frame was presented less than
      150 ms before; or, where the time in milliseconds has more than 32 bits, no more than that before
      what is left of it without the others. */
  lemma ReferenceIff(last: nat, t: Timespec)
    requires IsTime(t) && 0 < last < TWO_64 - MAX_PRESENTATION_AGE
    ensures var now := HighPrecisionTimestamp(t);
      var less := HighPrecisionTimestamp32(t);
      Reference(last, t).Some? <==>
        && now != 0
        && (last <= now < last + MAX_PRESENTATION_AGE
            || (Wrap(now * 1024) >= TWO_32 && last <= less <= last + MAX_PRESENTATION_AGE))
  {
    var now, less := HighPrecisionTimestamp(t), HighPrecisionTimestamp32(t);
    LessIsSmall(t);
    hide HighPrecisionTimestamp, HighPrecisionTimestamp32;
    WrapIs(now - last);
    WrapIs(less - last);
    WrapIs(0 - last);
    hide Wrap;
  }

  lemma LessIsSmall(t: Timespec)
    ensures HighPrecisionTimestamp32(t) < TWO_64
  {
  }

  lemma ModAtMost(x: nat, d: nat)
    requires d > 0
    ensures x % d <= x
  {
    assert x == d * (x / d) + x % d;
  }

  /** Whether a frame that starts at time t is to end at a time that is past already: with a
      frame delay of at least 200 microseconds, if the predicted time less the delay and more those
      microseconds is past; and with a smaller one always, but for the first 2^32 microseconds, in
      which the end is out of reach instead. */
  lemma PredictedEndIsPastIff(last: nat, interval: nat, delay: nat, t: Timespec, now: nat, additional: nat, target: nat)
    requires IsTime(t) && 0 < last < TWO_64 - MAX_PRESENTATION_AGE && 0 < interval < TWO_32 / 2 && delay < TWO_32
    requires Reference(last, t) == Some((now, additional)) && FirstFrom(last, now, interval) == Some(target)
    requires delay <= target + 200 && target + 200 + additional < TWO_64
    ensures EndTime(last, interval, delay, t) == Some(ToTimespec(Deadline(target, delay, additional)))
    ensures Deadline(target, delay, additional) < HighPrecisionTimestamp(t) <==>
      if delay >= 200 then target + 200 < now + delay else target + 200 - delay + additional >= TWO_32
  {
    ReferenceIsNow(last, t);
    FirstIsNear(last, now, interval, target);
    DeadlineIs(target, delay, additional);
    hide Reference, FirstFrom, HighPrecisionTimestamp, Deadline;
  }

  lemma FirstIsNear(last: nat, now: nat, interval: nat, target: nat)
    requires last <= now && interval > 0 && FirstFrom(last, now, interval) == Some(target)
    ensures now <= target < now + interval
  {
    var k := FirstFromIsFirst(last, now, interval);
    if k > 0 {
      assert k * interval == (k - 1) * interval + interval;
    }
  }

  // ----- the timings of frames -----

  /** The frame whose timings are awaited and when it was drawn; then when the last frame was
      presented, how often that is done, and the frame delay, or 0. */
  datatype Timing = Timing(awaited: Option<nat>, drawn: nat, last: nat, interval: nat, delay: nat)

  function NoTiming(): Timing { Timing(None, 0, 0, 0, 0) }

  /** A frame has been drawn, the timings of which are awaited unless others are. */
  function NoteDrawn(g: Timing, value: nat, time: nat): Timing {
    if g.awaited.None? then g.(awaited := Some(value), drawn := time) else g
  }

  /** The timings of a frame have come: how long after it was drawn it was presented, how long a
      refresh takes, and the frame delay. */
  function TakeTimings(g: Timing, value: nat, offset: int, interval: nat, delay: nat): Timing {
    if g.awaited != Some(value) then g
    else if interval >= 0x8000_0000 || delay == 0x8000_0000 then Timing(None, g.drawn, 0, 0, 0)
    else Timing(None, g.drawn, Wrap(g.drawn + offset), interval, delay)
  }

  /** Whether the end of a frame that starts at time t can be predicted. */
  function Predicts(g: Timing, t: Timespec): bool {
    EndTime(g.last, g.interval, g.delay, t).Some?
  }
}
