/** Double buffering of a picture target: two back buffers with busy flags, presentation serials
    and ages (section "PresentPixmap" of the Present extension gives the serials). */
module BackBuffers {

  /** A back buffer: busy until the server lets go of it; its idle fence to be awaited; the serial
      of its last presentation, or 0; and its age, 0 while it has never been shown. */
  datatype Back = Back(busy: bool, sync: bool, serial: nat, age: nat)

  datatype Slot = Empty | Full(back: Back)

  const NO_BUFFER := -1

  /** The target's fields; the serial of the last presentation, which all targets count together;
      and as history the number of swaps, for each back buffer the number of the swap that showed it
      last, or 0, and the buffers whose idle fences have been waited for. */
  datatype Target = Target(
    backs: seq<Slot>, current: int, picture: bool, justPresented: bool, lastSerial: nat,
    swaps: nat, shown: seq<nat>, waits: seq<nat>)

  function NewTarget(): Target {
    Target([Empty, Empty], NO_BUFFER, false, false, 0, 0, [0, 0], [])
  }

  predicate Busy(s: Slot) { s.Full? && s.back.busy }

  /** CreateBackBuffer: a new buffer, the serial of which is whatever was in memory; it also ends
      the just-presented state. */
  function Create(t: Target, i: nat, junk: nat): Target
    requires |t.backs| == 2 == |t.shown| && i < 2
  {
    t.(backs := t.backs[i := Full(Back(false, false, junk, 0))], shown := t.shown[i := 0], justPresented := false)
  }

  /** The slot that is used next. */
  function Choice(t: Target): nat
    requires |t.backs| == 2
  {
    if Busy(t.backs[0]) then 1 else 0
  }

  /** MaybeAwaitBuffer: waits for the idle fence if that has been asked for. */
  function Await(b: Back): Back {
    if b.sync then b.(sync := false, serial := 0) else b
  }

  function EnsurePicture(t: Target, junk: nat): Target
    requires |t.backs| == 2 == |t.shown|
  {
    if t.picture then t
    else
      var i := Choice(t);
      var t1 := (if t.backs[i].Empty? then Create(t, i, junk) else t).(current := i);
      t1.(backs := t1.backs[i := Full(Await(t1.backs[i].back))], picture := true,
          waits := if t1.backs[i].back.sync then t1.waits + [i] else t1.waits)
  }

  /** Serials wrap around at 32 bits and are never 0. */
  function NextSerial(s: nat): nat {
    var n := (s + 1) % 0x1_0000_0000;
    if n == 0 then 1 else n
  }

  /** Presents the current back buffer; the other one is no longer in use, and ages. */
  function Swap(t: Target): Target
    requires |t.backs| == 2 == |t.shown| && 0 <= t.current < 2 && t.backs[t.current].Full?
  {
    var i, o := t.current, 1 - t.current;
    var serial := NextSerial(t.lastSerial);
    var b := t.backs[i].back.(busy := true, serial := serial, age := 1);
    var other := match t.backs[o]
      case Empty => Empty
      case Full(c) => Full(c.(busy := false, sync := true, age := if c.age == 0 then 0 else c.age + 1));
    t.(backs := t.backs[i := Full(b)][o := other], current := NO_BUFFER, picture := false,
       lastSerial := serial, swaps := t.swaps + 1, shown := t.shown[i := t.swaps + 1])
  }

  function Notified(s: Slot): Slot {
    if s.Empty? then s else Full(s.back.(serial := 0, sync := true, busy := false))
  }

  /** PresentIdleNotify for a back buffer. */
  function IdleNotify(t: Target, serial: nat): Target
    requires |t.backs| == 2
  {
    if t.backs[0].Full? && t.backs[0].back.serial == serial then t.(backs := t.backs[0 := Notified(t.backs[0])])
    else if t.backs[1].Full? && t.backs[1].back.serial == serial then t.(backs := t.backs[1 := Notified(t.backs[1])])
    else t
  }

  function FreeBackBuffers(t: Target): Target {
    t.(backs := [Empty, Empty], shown := [0, 0], current := NO_BUFFER, picture := false)
  }

  /** A client buffer is presented directly. */
  function PresentToWindow(t: Target): Target {
    FreeBackBuffers(t).(justPresented := true, lastSerial := (t.lastSerial + 1) % 0x1_0000_0000)
  }

  /** GetNextBackBuffer; the index says which slot is looked at. */
  function NextBack(t: Target): Slot
    requires |t.backs| == 2
  {
    if t.backs[0].Full? && !t.backs[0].back.busy then t.backs[0] else t.backs[1]
  }

  const INT_MAX := 0x7fff_ffff

  function TargetAge(t: Target): int
    requires |t.backs| == 2
  {
    if t.justPresented then -2
    else match NextBack(t)
      case Empty => -1
      case Full(b) => if b.age > INT_MAX then -1 else b.age - 1
  }

  // ----- what stays true -----

  ghost predicate AgeOK(t: Target, i: nat)
    requires |t.backs| == 2 == |t.shown| && i < 2
  {
    match t.backs[i]
    case Empty => t.shown[i] == 0
    case Full(b) =>
      && t.shown[i] <= t.swaps
      && b.age == (if t.shown[i] == 0 then 0 else t.swaps - t.shown[i] + 1)
      && (b.busy ==> b.serial != 0 && t.shown[i] == t.swaps)
  }

  ghost predicate Inv(t: Target) {
    && |t.backs| == 2 == |t.shown|
    && (t.backs[1].Full? ==> t.backs[0].Full?)
    && !(Busy(t.backs[0]) && Busy(t.backs[1]))
    && (t.picture <==> t.current != NO_BUFFER)
    && (t.picture ==> 0 <= t.current < 2 && t.backs[t.current].Full? && !t.backs[t.current].back.busy)
    && AgeOK(t, 0) && AgeOK(t, 1)
    && (forall i :: 0 <= i < 2 && t.backs[i].Full? && !(t.picture && t.current == i) ==>
          t.shown[i] > 0 && (t.backs[i].back.busy || t.backs[i].back.sync))
    && (t.swaps > 0 && t.shown[0] > 0 && t.shown[1] > 0 ==> t.shown[0] != t.shown[1])
  }

  /** Elsewhere, another target has presented something up to the serial. */
  datatype Step = Ensure(junk: nat) | SwapBuffers | Notice(serial: nat) | Free | Present | Elsewhere(serial: nat)

  /** Swapping needs a back buffer that has been selected. */
  predicate Enabled(t: Target, s: Step) {
    && |t.backs| == 2 == |t.shown|
    && (s.SwapBuffers? ==> 0 <= t.current < 2 && t.backs[t.current].Full?)
  }

  function Do(t: Target, s: Step): Target
    requires Enabled(t, s)
  {
    match s
    case Ensure(junk) => EnsurePicture(t, junk)
    case SwapBuffers => Swap(t)
    case Notice(n) => IdleNotify(t, n)
    case Free => FreeBackBuffers(t)
    case Present => PresentToWindow(t)
    case Elsewhere(n) => t.(lastSerial := n)
  }

  lemma StepKeeps(t: Target, s: Step)
    requires Inv(t) && Enabled(t, s)
    ensures Inv(Do(t, s))
  {
    match s
    case Ensure(junk) => EnsureKeeps(t, junk);
    case SwapBuffers => SwapKeeps(t);
    case _ =>
  }

  lemma EnsureKeeps(t: Target, junk: nat)
    requires Inv(t)
    ensures Inv(EnsurePicture(t, junk))
  {
  }

  lemma SwapKeeps(t: Target)
    requires Inv(t) && Enabled(t, SwapBuffers)
    ensures Inv(Swap(t))
  {
  }

  ghost predicate IsRun(ts: seq<Target>, ss: seq<Step>) {
    && |ts| == |ss| + 1 && ts[0] == NewTarget()
    && forall i :: 0 <= i < |ss| ==> Enabled(ts[i], ss[i]) && ts[i + 1] == Do(ts[i], ss[i])
  }

  lemma {:induction false} RunKeeps(ts: seq<Target>, ss: seq<Step>, n: nat)
    requires IsRun(ts, ss) && n < |ts|
    ensures Inv(ts[n])
  {
    if n > 0 {
      RunKeeps(ts, ss, n - 1);
      StepKeeps(ts[n - 1], ss[n - 1]);
    }
  }

  /** In every run at most one back buffer is busy and the one EnsurePicture selects is not, so
      its assertion never fails; and a selected picture can always be swapped. */
  lemma ChosenIsFree(ts: seq<Target>, ss: seq<Step>, n: nat)
    requires IsRun(ts, ss) && n < |ts|
    ensures Inv(ts[n])
    ensures !(Busy(ts[n].backs[0]) && Busy(ts[n].backs[1]))
    ensures !ts[n].picture ==> !Busy(ts[n].backs[Choice(ts[n])])
    ensures ts[n].picture ==> Enabled(ts[n], SwapBuffers)
  {
    RunKeeps(ts, ss, n);
  }

  /** In every run, while no picture is selected, GetNextBackBuffer names the buffer that
      EnsurePicture will use, or none if it will have to create one. */
  lemma NextBackIsUsed(ts: seq<Target>, ss: seq<Step>, n: nat, junk: nat)
    requires IsRun(ts, ss) && n < |ts| && !ts[n].picture
    ensures Inv(ts[n])
    ensures NextBack(ts[n]) == ts[n].backs[EnsurePicture(ts[n], junk).current]
  {
    RunKeeps(ts, ss, n);
  }

  /** In every run, the age of a buffer counts the swaps since the one that showed it, that one
      included; and what TargetAge reports is how many swaps the buffer used next is behind. */
  lemma AgeCountsSwaps(ts: seq<Target>, ss: seq<Step>, n: nat, i: nat)
    requires IsRun(ts, ss) && n < |ts| && i < 2
    ensures Inv(ts[n])
    ensures var t := ts[n];
      && (t.backs[i].Full? && t.shown[i] > 0 ==> t.backs[i].back.age == t.swaps - t.shown[i] + 1)
      && (!t.picture && TargetAge(t) >= 0 ==>
            t.shown[Choice(t)] > 0 && TargetAge(t) == t.swaps - t.shown[Choice(t)])
  {
    RunKeeps(ts, ss, n);
  }

  /** A notice makes a buffer free only if it is for the last presentation of that buffer. */
  lemma NoticeFreesItsOwn(t: Target, serial: nat, i: nat)
    requires Inv(t) && i < 2 && Busy(t.backs[i])
    ensures Busy(IdleNotify(t, serial).backs[i])
        <==> t.backs[i].back.serial != serial || (i == 1 && t.backs[0].back.serial == serial)
  {
  }
}

/** The target as the source keeps it. */
module PictureTargets {
  import opened BackBuffers

  class PictureTarget {
    var backs: seq<Slot>
    var current: int
    var picture: bool
    var justPresented: bool
    var lastSerial: nat
    ghost var swaps: nat
    ghost var shown: seq<nat>
    ghost var waits: seq<nat>

    ghost function Value(): Target
      reads this
    {
      Target(backs, current, picture, justPresented, lastSerial, swaps, shown, waits)
    }

    constructor ()
      ensures Value() == NewTarget()
    {
      backs, current, picture, justPresented, lastSerial := [Empty, Empty], NO_BUFFER, false, false, 0;
      swaps, shown, waits := 0, [0, 0], [];
    }

    method CreateBackBuffer(i: nat, junk: nat)
      requires |backs| == 2 == |shown| && i < 2
      modifies this
      ensures Value() == Create(old(Value()), i, junk)
    {
      backs := backs[i := Full(Back(false, false, junk, 0))];
      shown := shown[i := 0];
      justPresented := false;
    }

    method EnsurePicture(junk: nat)
      requires Inv(Value())
      modifies this
      ensures Value() == BackBuffers.EnsurePicture(old(Value()), junk)
    {
      if picture {
        return;
      }
      if backs[0].Empty? || !backs[0].back.busy {
        current := 0;
        if backs[0].Empty? {
          CreateBackBuffer(0, junk);
        }
      } else {
        current := 1;
        if backs[1].Empty? {
          CreateBackBuffer(1, junk);
        }
      }
      assert !backs[current].back.busy;
      if backs[current].back.sync {
        waits := waits + [current];
        backs := backs[current := Full(backs[current].back.(sync := false, serial := 0))];
      }
      picture := true;
    }

    method SwapBackBuffers()
      requires |backs| == 2 == |shown| && 0 <= current < 2 && backs[current].Full?
      modifies this
      ensures Value() == Swap(old(Value()))
    {
      lastSerial := (lastSerial + 1) % 0x1_0000_0000;
      if lastSerial == 0 {
        lastSerial := lastSerial + 1;
      }
      swaps := swaps + 1;
      shown := shown[current := swaps];
      backs := backs[current := Full(backs[current].back.(busy := true, serial := lastSerial, age := 1))];
      var other := if current != 0 then 0 else 1;
      if backs[other].Full? {
        backs := backs[other := Full(backs[other].back.(sync := true, busy := false))];
        if backs[other].back.age != 0 {
          backs := backs[other := Full(backs[other].back.(age := backs[other].back.age + 1))];
        }
      }
      current := NO_BUFFER;
      picture := false;
    }

    method HandlePresentIdleNotify(serial: nat)
      requires |backs| == 2
      modifies this`backs
      ensures Value() == IdleNotify(old(Value()), serial)
    {
      var i := 0;
      while i < 2
        invariant 0 <= i <= 2 && backs == old(backs)
        invariant forall k :: 0 <= k < i ==> backs[k].Empty? || backs[k].back.serial != serial
      {
        if backs[i].Full? && backs[i].back.serial == serial {
          backs := backs[i := Full(backs[i].back.(serial := 0, sync := true, busy := false))];
          return;
        }
        i := i + 1;
      }
    }

    method FreeBackBuffers()
      modifies this
      ensures Value() == BackBuffers.FreeBackBuffers(old(Value()))
    {
      backs, shown, current, picture := [Empty, Empty], [0, 0], NO_BUFFER, false;
    }
  }
}
