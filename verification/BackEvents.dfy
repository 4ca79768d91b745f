/** Back buffers by the steps of a run: when one is busy, how old it is, and that drawing into one
    that has been shown waits for the server to be done with it. */
module BackEvents {
  import opened BackBuffers

  function Swaps(ss: seq<Step>): nat {
    if ss == [] then 0 else Swaps(ss[..|ss| - 1]) + if ss[|ss| - 1].SwapBuffers? then 1 else 0
  }

  /** The back buffers go away. */
  predicate Clears(s: Step) { s.Free? || s.Present? }

  /** Step k showed slot i, and its buffer has been kept up to step n. */
  ghost predicate ShownAt(ts: seq<Target>, ss: seq<Step>, k: int, n: nat, i: nat)
    requires n <= |ss| < |ts|
  {
    && 0 <= k < n && ss[k].SwapBuffers? && ts[k].current == i
    && forall j :: k < j < n ==> !Clears(ss[j])
  }

  /** It is the last step that did. */
  ghost predicate LastShownAt(ts: seq<Target>, ss: seq<Step>, k: int, n: nat, i: nat)
    requires n <= |ss| < |ts|
  {
    && ShownAt(ts, ss, k, n, i)
    && forall j :: k < j < n && ss[j].SwapBuffers? ==> ts[j].current != i
  }

  lemma StepShown(t: Target, s: Step, i: nat)
    requires Inv(t) && Enabled(t, s) && i < 2
    ensures var t' := Do(t, s);
      && t'.swaps == t.swaps + (if s.SwapBuffers? then 1 else 0)
      && t'.shown[i] == (if Clears(s) then 0 else if s.SwapBuffers? && t.current == i then t.swaps + 1 else t.shown[i])
  {
  }

  /** In every run the history counts the swaps, and holds the number of the last one that showed the
      buffer in a slot. */
  lemma {:induction false} ShownIs(ts: seq<Target>, ss: seq<Step>, n: nat, i: nat)
    requires IsRun(ts, ss) && n < |ts| && i < 2
    ensures Inv(ts[n]) && ts[n].swaps == Swaps(ss[..n])
    ensures ts[n].shown[i] > 0 <==> exists k :: LastShownAt(ts, ss, k, n, i)
    ensures forall k :: LastShownAt(ts, ss, k, n, i) ==> ts[n].shown[i] == Swaps(ss[..k + 1])
  {
    if n > 0 {
      var m: nat := n - 1;
      RunShown(ts, ss, m, n, i);
      hide *;
      ShownIs(ts, ss, m, i);
      SwapsNext(ss, n);
      LastShownStep(ts, ss, m, n, i);
      ShownNext(ts, ss, m, n, i, ts[m].shown[i], ts[n].shown[i]);
    }
  }

  lemma RunShown(ts: seq<Target>, ss: seq<Step>, m: nat, n: nat, i: nat)
    requires IsRun(ts, ss) && n == m + 1 < |ts| && i < 2
    ensures |ss| < |ts| && n <= |ss| && Inv(ts[m]) && Inv(ts[n]) && |ts[m].shown| == 2 == |ts[n].shown|
    ensures ts[n].swaps == ts[m].swaps + if ss[m].SwapBuffers? then 1 else 0
    ensures ts[n].shown[i] ==
      if Clears(ss[m]) then 0 else if ss[m].SwapBuffers? && ts[m].current == i then ts[m].swaps + 1 else ts[m].shown[i]
  {
    RunKeeps(ts, ss, m);
    StepKeeps(ts[m], ss[m]);
    StepShown(ts[m], ss[m], i);
    hide Do;
  }

  lemma ShownNext(ts: seq<Target>, ss: seq<Step>, m: nat, n: nat, i: nat, was: nat, now: nat)
    requires n == m + 1 <= |ss| < |ts|
    requires was > 0 <==> exists k :: LastShownAt(ts, ss, k, m, i)
    requires forall k :: LastShownAt(ts, ss, k, m, i) ==> was == Swaps(ss[..k + 1])
    requires now ==
      if Clears(ss[m]) then 0 else if ss[m].SwapBuffers? && ts[m].current == i then Swaps(ss[..n]) else was
    requires Swaps(ss[..n]) == Swaps(ss[..m]) + if ss[m].SwapBuffers? then 1 else 0
    requires forall k :: LastShownAt(ts, ss, k, n, i) <==> LastShownNext(ts, ss, k, m, i)
    ensures now > 0 <==> exists k :: LastShownAt(ts, ss, k, n, i)
    ensures forall k :: LastShownAt(ts, ss, k, n, i) ==> now == Swaps(ss[..k + 1])
  {
    hide LastShownAt, Swaps;
    if ss[m].SwapBuffers? && ts[m].current == i {
      assert LastShownNext(ts, ss, m, m, i);
    } else if k :| LastShownAt(ts, ss, k, m, i) {
      assert LastShownNext(ts, ss, k, m, i) <==> !Clears(ss[m]);
    }
  }

  lemma SwapsNext(ss: seq<Step>, n: nat)
    requires 0 < n <= |ss|
    ensures Swaps(ss[..n]) == Swaps(ss[..n - 1]) + if ss[n - 1].SwapBuffers? then 1 else 0
  {
    assert ss[..n][..n - 1] == ss[..n - 1];
  }

  lemma LastShownStep(ts: seq<Target>, ss: seq<Step>, m: nat, n: nat, i: nat)
    requires n == m + 1 <= |ss| < |ts|
    ensures forall k :: LastShownAt(ts, ss, k, n, i) <==> LastShownNext(ts, ss, k, m, i)
  {
    forall k
      ensures LastShownAt(ts, ss, k, n, i) <==> LastShownNext(ts, ss, k, m, i)
    {
      LastShownOne(ts, ss, k, m, i);
    }
  }

  lemma LastShownOne(ts: seq<Target>, ss: seq<Step>, k: int, m: nat, i: nat)
    requires m < |ss| < |ts|
    ensures LastShownAt(ts, ss, k, m + 1, i) <==> LastShownNext(ts, ss, k, m, i)
  {
  }

  /** What step m makes of the last step that showed slot i. */
  ghost predicate LastShownNext(ts: seq<Target>, ss: seq<Step>, k: int, m: nat, i: nat)
    requires m < |ss| < |ts|
  {
    if ss[m].SwapBuffers? && ts[m].current == i then k == m
    else !Clears(ss[m]) && LastShownAt(ts, ss, k, m, i)
  }

  /** In every run the age of a buffer that has been shown is the number of swaps from the one that
      showed it last, and one that has not been shown has none. */
  lemma AgeIs(ts: seq<Target>, ss: seq<Step>, n: nat, k: nat, i: nat)
    requires IsRun(ts, ss) && n < |ts| && i < 2 && LastShownAt(ts, ss, k, n, i)
    ensures Inv(ts[n]) && ts[n].backs[i].Full? && ts[n].backs[i].back.age == Swaps(ss[..n]) - Swaps(ss[..k + 1]) + 1
  {
    ShownIs(ts, ss, n, i);
  }

  // ----- busy buffers -----

  /** A notice that is for the last presentation of slot i, and is not taken for slot 0 before. */
  predicate Frees(t: Target, s: Step, i: nat)
    requires |t.backs| == 2 && i < 2
  {
    && s.Notice? && t.backs[i].Full? && t.backs[i].back.serial == s.serial
    && !(i == 1 && t.backs[0].Full? && t.backs[0].back.serial == s.serial)
  }

  lemma StepBusy(t: Target, s: Step, i: nat)
    requires Inv(t) && Enabled(t, s) && i < 2
    ensures Busy(Do(t, s).backs[i]) <==>
      if s.SwapBuffers? then t.current == i else Busy(t.backs[i]) && !Clears(s) && !Frees(t, s, i)
    ensures Busy(t.backs[i]) && Busy(Do(t, s).backs[i]) && !s.SwapBuffers? ==>
      Do(t, s).backs[i].back.serial == t.backs[i].back.serial
    ensures s.SwapBuffers? && t.current == i ==> Do(t, s).backs[i].back.serial == Do(t, s).lastSerial
  {
  }

  /** Slot i was shown by the last swap, at step k, and no notice for it has come since. */
  ghost predicate BusySince(ts: seq<Target>, ss: seq<Step>, k: int, n: nat, i: nat)
    requires n <= |ss| < |ts| && i < 2 && forall j :: 0 <= j < |ts| ==> |ts[j].backs| == 2
  {
    && 0 <= k < n && ss[k].SwapBuffers? && ts[k].current == i
    && forall j :: k < j < n ==> !ss[j].SwapBuffers? && !Clears(ss[j]) && !Frees(ts[j], ss[j], i)
  }

  lemma {:induction false} BackCount(ts: seq<Target>, ss: seq<Step>, n: nat)
    requires IsRun(ts, ss) && n < |ts|
    ensures |ts[n].backs| == 2
  {
    RunKeeps(ts, ss, n);
  }

  /** In every run a buffer is busy exactly from the swap that shows it to the next swap, the notice
      for that presentation, or its end; and it carries the serial of that presentation. */
  lemma {:induction false} BusyIff(ts: seq<Target>, ss: seq<Step>, n: nat, i: nat)
    requires IsRun(ts, ss) && n < |ts| && i < 2
    ensures forall j :: 0 <= j < |ts| ==> |ts[j].backs| == 2
    ensures Busy(ts[n].backs[i]) <==> exists k :: BusySince(ts, ss, k, n, i)
    ensures forall k :: BusySince(ts, ss, k, n, i) ==> ts[n].backs[i].back.serial == ts[k + 1].lastSerial
  {
    forall j | 0 <= j < |ts|
      ensures |ts[j].backs| == 2
    {
      BackCount(ts, ss, j);
    }
    if n > 0 {
      var m: nat := n - 1;
      BusyIff(ts, ss, m, i);
      RunKeeps(ts, ss, m);
      hide Inv, Do;
      StepBusy(ts[m], ss[m], i);
      BusyStep(ts, ss, m, n, i);
      hide BusySince, Frees;
      if ss[m].SwapBuffers? {
        assert BusyNext(ts, ss, m, m, i) <==> ts[m].current == i;
      } else if k :| BusySince(ts, ss, k, m, i) {
        assert BusyNext(ts, ss, k, m, i) <==> !Clears(ss[m]) && !Frees(ts[m], ss[m], i);
      }
    }
  }

  lemma BusyStep(ts: seq<Target>, ss: seq<Step>, m: nat, n: nat, i: nat)
    requires n == m + 1 <= |ss| < |ts| && i < 2 && forall j :: 0 <= j < |ts| ==> |ts[j].backs| == 2
    ensures forall k :: BusySince(ts, ss, k, n, i) <==> BusyNext(ts, ss, k, m, i)
  {
    forall k
      ensures BusySince(ts, ss, k, n, i) <==> BusyNext(ts, ss, k, m, i)
    {
      BusyOne(ts, ss, k, m, i);
    }
  }

  lemma BusyOne(ts: seq<Target>, ss: seq<Step>, k: int, m: nat, i: nat)
    requires m < |ss| < |ts| && i < 2 && forall j :: 0 <= j < |ts| ==> |ts[j].backs| == 2
    ensures BusySince(ts, ss, k, m + 1, i) <==> BusyNext(ts, ss, k, m, i)
  {
    hide Frees;
  }

  /** What step m makes of the swap since which slot i is busy. */
  ghost predicate BusyNext(ts: seq<Target>, ss: seq<Step>, k: int, m: nat, i: nat)
    requires m < |ss| < |ts| && i < 2 && forall j :: 0 <= j < |ts| ==> |ts[j].backs| == 2
  {
    if ss[m].SwapBuffers? then k == m && ts[m].current == i
    else !Clears(ss[m]) && !Frees(ts[m], ss[m], i) && BusySince(ts, ss, k, m, i)
  }

  // ----- fences -----

  lemma EnsureWaits(t: Target, junk: nat)
    requires Inv(t) && !t.picture
    ensures var t', i := EnsurePicture(t, junk), Choice(t);
      && t'.current == i && t'.picture
      && t'.waits == t.waits + (if t.shown[i] > 0 then [i] else [])
  {
  }

  lemma OnlyEnsureWaits(t: Target, s: Step)
    requires Inv(t) && Enabled(t, s) && (!s.Ensure? || t.picture)
    ensures Do(t, s).waits == t.waits
  {
  }

  /** In every run, selecting a back buffer to draw into waits for its idle fence exactly if it has
      been shown; nothing else waits. */
  lemma WaitsForShown(ts: seq<Target>, ss: seq<Step>, n: nat, i: nat)
    requires IsRun(ts, ss) && n < |ss|
    ensures Inv(ts[n])
    ensures !(ss[n].Ensure? && !ts[n].picture) ==> ts[n + 1].waits == ts[n].waits
    ensures ss[n].Ensure? && !ts[n].picture && i == Choice(ts[n]) ==>
      && ts[n + 1].current == i
      && ts[n + 1].waits == ts[n].waits + if exists k :: LastShownAt(ts, ss, k, n, i) then [i] else []
  {
    RunKeeps(ts, ss, n);
    if ss[n].Ensure? && !ts[n].picture {
      EnsureWaits(ts[n], ss[n].junk);
      ShownIs(ts, ss, n, Choice(ts[n]));
    } else {
      OnlyEnsureWaits(ts[n], ss[n]);
    }
  }

  // ----- what the age is reported as -----

  /** The step creates a back buffer. */
  predicate Creates(t: Target, s: Step)
    requires |t.backs| == 2
  {
    s.Ensure? && !t.picture && t.backs[Choice(t)].Empty?
  }

  lemma StepPresented(t: Target, s: Step)
    requires Inv(t) && Enabled(t, s)
    ensures Do(t, s).justPresented <==> s.Present? || (t.justPresented && !Creates(t, s))
  {
  }

  /** In every run the target counts as just presented exactly if a client buffer has been presented
      directly and no back buffer has been created since. */
  lemma {:induction false} JustPresentedIff(ts: seq<Target>, ss: seq<Step>, n: nat)
    requires IsRun(ts, ss) && n < |ts|
    ensures forall j :: 0 <= j < |ts| ==> |ts[j].backs| == 2
    ensures ts[n].justPresented <==>
            exists k :: 0 <= k < n && ss[k].Present? && forall j :: k < j < n ==> !Creates(ts[j], ss[j])
  {
    forall j | 0 <= j < |ts|
      ensures |ts[j].backs| == 2
    {
      BackCount(ts, ss, j);
    }
    if n > 0 {
      var m: nat := n - 1;
      JustPresentedIff(ts, ss, m);
      RunKeeps(ts, ss, m);
      StepPresented(ts[m], ss[m]);
      hide Inv, Do, Creates;
    }
  }

  /** A swap uses a serial that is not 0 and not the one before. */
  lemma SwapSerial(t: Target)
    requires Inv(t) && Enabled(t, SwapBuffers)
    ensures var n := Swap(t).lastSerial; n != 0 && (t.lastSerial < 0x1_0000_0000 ==> n != t.lastSerial)
    ensures 0 <= t.lastSerial < 0xffff_ffff ==> Swap(t).lastSerial == t.lastSerial + 1
  {
  }
}
