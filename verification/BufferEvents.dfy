/** The renderer's histories in terms of what happened: which renders, presentations and notices
    the records stand for, when a buffer is idle, and when a buffer that was let go of is
    released, all said of the steps of a run alone. */
module BufferEvents {
  import opened BufferActivity
  import opened BufferDestroy
  import opened BufferRuns

  // ----- counting steps -----

  /** Round trip messages sent: one for each frame that draws from a buffer. */
  function Rounds(es: seq<Step>): nat {
    if es == [] then 0
    else
      var e := es[|es| - 1];
      Rounds(es[..|es| - 1]) + if e.Render? && e.buffers != [] then 1 else 0
  }

  function Serials(es: seq<Step>): nat {
    if es == [] then 0
    else
      var e := es[|es| - 1];
      Serials(es[..|es| - 1]) + if e.Presented? || e.BackPresented? then 1 else 0
  }

  function Returned(es: seq<Step>): nat {
    if es == [] then 0
    else Returned(es[..|es| - 1]) + if es[|es| - 1].RoundTrip? then 1 else 0
  }

  function LetGo(es: seq<Step>): nat {
    if es == [] then 0
    else LetGo(es[..|es| - 1]) + if es[|es| - 1].Release? then 1 else 0
  }

  lemma CountStep(s: State, e: Step)
    requires Enabled(s, e)
    ensures var s' := Do(s, e);
      && s'.lastId == s.lastId + (if e.Render? && e.buffers != [] then 1 else 0)
      && s'.serial == s.serial + (if e.Presented? || e.BackPresented? then 1 else 0)
      && s'.acked == s.acked + (if e.RoundTrip? then 1 else 0)
      && s'.given == s.given + (if e.Release? then 1 else 0)
  {
    hide Acknowledge, RunIdle, RunAll, RecordAll, Record;
    match e
    case RoundTrip => AcknowledgeCounts(s, s.acked + 1, 0);
    case _ =>
  }

  lemma {:induction false} AcknowledgeCounts(s: State, id: nat, i: nat)
    requires i <= |s.activity|
    ensures var r := Acknowledge(s, id, i);
      && r.lastId == s.lastId && r.serial == s.serial && r.given == s.given
      && r.renders == s.renders && r.presents == s.presents && r.noticed == s.noticed
    decreases |s.activity| - i
  {
    hide MaybeRunIdle;
    if i < |s.activity| {
      if s.activity[i].id == id {
        AcknowledgeCounts(MaybeRunIdle(DropMark(s, i), s.activity[i].buffer, s.activity[i].target), id, i);
      } else {
        AcknowledgeCounts(s, id, i + 1);
      }
    }
  }

  /** In every run the counters count the steps. */
  lemma {:induction false} CountersCount(ss: seq<State>, es: seq<Step>, n: nat)
    requires IsRun(ss, es) && n < |ss|
    ensures ss[n].lastId == Rounds(es[..n]) && ss[n].serial == Serials(es[..n])
    ensures ss[n].acked == Returned(es[..n]) && ss[n].given == LetGo(es[..n])
  {
    if n > 0 {
      CountersCount(ss, es, n - 1);
      assert es[..n][..n - 1] == es[..n - 1];
      hide Enabled, Do;
      CountStep(ss[n - 1], es[n - 1]);
    }
  }

  // ----- what the histories hold -----

  /** b or t is destroyed. */
  predicate Ends(e: Step, b: nat, t: nat) {
    e == Destroy(b) || e == EndTarget(t)
  }

  /** Neither b nor t is destroyed by the steps from i up to n. */
  predicate Kept(es: seq<Step>, i: nat, n: nat, b: nat, t: nat)
    requires n <= |es|
  {
    forall k :: i <= k < n ==> !Ends(es[k], b, t)
  }

  predicate DrewFrom(e: Step, b: nat, t: nat) {
    e.Render? && e.target == t && b in e.buffers
  }

  /** At step i a frame drew from the buffer to the target, under the id. */
  predicate Drew(es: seq<Step>, i: nat, m: Mark)
    requires i < |es|
  {
    DrewFrom(es[i], m.buffer, m.target) && m.id == Rounds(es[..i + 1])
  }

  predicate Showed(es: seq<Step>, i: nat, m: Mark)
    requires i < |es|
  {
    es[i] == Presented(m.buffer, m.target) && m.id == Serials(es[..i + 1])
  }

  predicate Noticed(es: seq<Step>, i: nat, m: Mark)
    requires i < |es|
  {
    es[i] == IdleNotice(m.buffer, m.target, m.id)
  }

  ghost predicate WasDrawn(es: seq<Step>, n: nat, m: Mark)
    requires n <= |es|
  {
    exists i :: 0 <= i < n && Drew(es, i, m) && Kept(es, i + 1, n, m.buffer, m.target)
  }

  ghost predicate WasShown(es: seq<Step>, n: nat, m: Mark)
    requires n <= |es|
  {
    exists i :: 0 <= i < n && Showed(es, i, m) && Kept(es, i + 1, n, m.buffer, m.target)
  }

  /** The notice came after the presentation, while buffer and target were still there. */
  ghost predicate WasNoticed(es: seq<Step>, n: nat, m: Mark)
    requires n <= |es|
  {
    exists j :: 0 <= j < n && Noticed(es, j, m) && WasShown(es, j, m) && Kept(es, j + 1, n, m.buffer, m.target)
  }

  lemma {:induction false} MarksOfMembers(bs: seq<nat>, t: nat, id: nat)
    ensures forall m :: m in MarksOf(bs, t, id) <==> m.buffer in bs && m.target == t && m.id == id
  {
    if bs != [] {
      MarksOfMembers(bs[1..], t, id);
      assert bs == [bs[0]] + bs[1..];
    }
  }

  lemma GoneIs(e: Step, b: nat, t: nat)
    ensures e.Destroy? ==> (Buffer(e.buffer).Concerns(b, t) <==> Ends(e, b, t))
    ensures e.EndTarget? ==> (Target(e.target).Concerns(b, t) <==> Ends(e, b, t))
  {
  }

  /** What a step adds to the histories and takes from them. */
  lemma HistoryStep(s: State, e: Step, m: Mark)
    requires Enabled(s, e)
    ensures var s', kept := Do(s, e), !Ends(e, m.buffer, m.target);
      && (m in s'.renders <==>
            (m in s.renders && kept) ||
            (e.Render? && e.target == m.target && m.buffer in e.buffers && m.id == s.lastId + 1))
      && (m in s'.presents <==>
            (m in s.presents && kept) || (e == Presented(m.buffer, m.target) && m.id == s.serial + 1))
      && (m in s'.noticed <==>
            (m in s.noticed && kept) || (e == IdleNotice(m.buffer, m.target, m.id) && m in s.presents))
  {
    hide Acknowledge, RunIdle, RunAll, RecordAll, Record, Without, MarksOf;
    GoneIs(e, m.buffer, m.target);
    match e
    case Render(t, bs) => MarksOfMembers(bs, t, s.lastId + 1);
    case RoundTrip => AcknowledgeCounts(s, s.acked + 1, 0);
    case Destroy(b) => ForgottenMembers(s, Buffer(b));
    case EndTarget(t) => ForgottenMembers(s, Target(t));
    case _ =>
  }

  lemma ForgottenMembers(s: State, g: Gone)
    ensures forall m :: m in Forget(s, g).renders <==> m in s.renders && !g.Concerns(m.buffer, m.target)
    ensures forall m :: m in Forget(s, g).presents <==> m in s.presents && !g.Concerns(m.buffer, m.target)
    ensures forall m :: m in Forget(s, g).noticed <==> m in s.noticed && !g.Concerns(m.buffer, m.target)
  {
    hide Without;
    WithoutMembers(s.renders, g);
    WithoutMembers(s.presents, g);
    WithoutMembers(s.noticed, g);
  }

  lemma DrawnStep(es: seq<Step>, n: nat, m: Mark)
    requires 0 < n <= |es|
    ensures WasDrawn(es, n, m) <==>
            (WasDrawn(es, n - 1, m) && !Ends(es[n - 1], m.buffer, m.target)) || Drew(es, n - 1, m)
  {
    hide Drew, Ends;
    if Drew(es, n - 1, m) {
      assert Kept(es, n, n, m.buffer, m.target);
    }
    if WasDrawn(es, n - 1, m) && !Ends(es[n - 1], m.buffer, m.target) {
      var i :| 0 <= i < n - 1 && Drew(es, i, m) && Kept(es, i + 1, n - 1, m.buffer, m.target);
      assert Kept(es, i + 1, n, m.buffer, m.target);
    }
    if WasDrawn(es, n, m) && !Drew(es, n - 1, m) {
      var i :| 0 <= i < n && Drew(es, i, m) && Kept(es, i + 1, n, m.buffer, m.target);
      assert Kept(es, i + 1, n - 1, m.buffer, m.target) && !Ends(es[n - 1], m.buffer, m.target);
    }
  }

  lemma ShownStep(es: seq<Step>, n: nat, m: Mark)
    requires 0 < n <= |es|
    ensures WasShown(es, n, m) <==>
            (WasShown(es, n - 1, m) && !Ends(es[n - 1], m.buffer, m.target)) || Showed(es, n - 1, m)
  {
    hide Showed, Ends;
    if Showed(es, n - 1, m) {
      assert Kept(es, n, n, m.buffer, m.target);
    }
    if WasShown(es, n - 1, m) && !Ends(es[n - 1], m.buffer, m.target) {
      var i :| 0 <= i < n - 1 && Showed(es, i, m) && Kept(es, i + 1, n - 1, m.buffer, m.target);
      assert Kept(es, i + 1, n, m.buffer, m.target);
    }
    if WasShown(es, n, m) && !Showed(es, n - 1, m) {
      var i :| 0 <= i < n && Showed(es, i, m) && Kept(es, i + 1, n, m.buffer, m.target);
      assert Kept(es, i + 1, n - 1, m.buffer, m.target) && !Ends(es[n - 1], m.buffer, m.target);
    }
  }

  lemma NoticedStep(es: seq<Step>, n: nat, m: Mark)
    requires 0 < n <= |es|
    ensures WasNoticed(es, n, m) <==>
            || (WasNoticed(es, n - 1, m) && !Ends(es[n - 1], m.buffer, m.target))
            || (Noticed(es, n - 1, m) && WasShown(es, n - 1, m))
  {
    hide Noticed, Ends, WasShown;
    if Noticed(es, n - 1, m) && WasShown(es, n - 1, m) {
      assert Kept(es, n, n, m.buffer, m.target);
    }
    if WasNoticed(es, n - 1, m) && !Ends(es[n - 1], m.buffer, m.target) {
      var i :| 0 <= i < n - 1 && Noticed(es, i, m) && WasShown(es, i, m) && Kept(es, i + 1, n - 1, m.buffer, m.target);
      assert Kept(es, i + 1, n, m.buffer, m.target);
    }
    if WasNoticed(es, n, m) && !(Noticed(es, n - 1, m) && WasShown(es, n - 1, m)) {
      var i :| 0 <= i < n && Noticed(es, i, m) && WasShown(es, i, m) && Kept(es, i + 1, n, m.buffer, m.target);
      assert Kept(es, i + 1, n - 1, m.buffer, m.target) && !Ends(es[n - 1], m.buffer, m.target);
    }
  }

  /** In every run the histories hold just the renders, the presentations and the notices that the
      steps brought, of buffers and targets that are still there. */
  lemma {:induction false} HistoryIsSteps(ss: seq<State>, es: seq<Step>, n: nat, m: Mark)
    requires IsRun(ss, es) && n < |ss|
    ensures m in ss[n].renders <==> WasDrawn(es, n, m)
    ensures m in ss[n].presents <==> WasShown(es, n, m)
    ensures m in ss[n].noticed <==> WasNoticed(es, n, m)
  {
    if n > 0 {
      HistoryIsSteps(ss, es, n - 1, m);
      CountersCount(ss, es, n - 1);
      var e := es[n - 1];
      assert es[..n][..n - 1] == es[..n - 1];
      assert e.Render? && e.buffers != [] ==> Rounds(es[..n]) == ss[n - 1].lastId + 1;
      assert e.Presented? ==> Serials(es[..n]) == ss[n - 1].serial + 1;
      hide Enabled, Do, Rounds, Serials, WasDrawn, WasShown, WasNoticed, Ends;
      HistoryStep(ss[n - 1], e, m);
      DrawnStep(es, n, m);
      ShownStep(es, n, m);
      NoticedStep(es, n, m);
    }
  }

  // ----- when a buffer is idle -----

  lemma {:induction false} SerialsGrow(es: seq<Step>, i: nat, j: nat)
    requires i <= j <= |es|
    ensures Serials(es[..i]) <= Serials(es[..j])
  {
    if i < j {
      SerialsGrow(es, i, j - 1);
      assert es[..j][..j - 1] == es[..j - 1];
    }
  }

  lemma ShownOrder(es: seq<Step>, i: nat, j: nat, p: Mark, q: Mark)
    requires i < |es| && j < |es| && Showed(es, i, p) && Showed(es, j, q)
    ensures i < j ==> p.id < q.id
    ensures i == j ==> p == q
  {
    if i < j {
      SerialsGrow(es, i + 1, j);
      assert es[..j + 1][..j] == es[..j];
    }
  }

  /** The presentation at step i is the last of b on t in the first n steps. */
  ghost predicate LastShown(es: seq<Step>, i: int, n: nat, b: nat, t: nat)
    requires n <= |es|
  {
    0 <= i < n && es[i] == Presented(b, t) && forall k :: i < k < n ==> es[k] != Presented(b, t) && !Ends(es[k], b, t)
  }

  /** What it means for b to be idle on t after the first n steps: the round trip of every frame
      that drew from it has come back, and so has the notice for its last presentation. */
  ghost predicate IdleAfter(es: seq<Step>, n: nat, b: nat, t: nat)
    requires n <= |es|
  {
    && (forall i :: 0 <= i < n && DrewFrom(es[i], b, t) && Kept(es, i + 1, n, b, t) ==>
          Rounds(es[..i + 1]) <= Returned(es[..n]))
    && (forall i :: LastShown(es, i, n, b, t) ==>
          exists j :: i < j < n && es[j] == IdleNotice(b, t, Serials(es[..i + 1])))
  }

  lemma NewestIsLast(es: seq<Step>, n: nat, i: nat, p: Mark, presents: seq<Mark>)
    requires n <= |es| && i < n && Showed(es, i, p)
    requires forall m :: m in presents <==> WasShown(es, n, m)
    ensures Newest(presents, p) <==> LastShown(es, i, n, p.buffer, p.target)
  {
    var b, t := p.buffer, p.target;
    if LastShown(es, i, n, b, t) {
      assert Kept(es, i + 1, n, b, t);
      forall q | q in presents && q.For(b, t)
        ensures q.id <= p.id
      {
        var j :| 0 <= j < n && Showed(es, j, q) && Kept(es, j + 1, n, q.buffer, q.target);
        ShownOrder(es, j, i, q, p);
      }
    }
    if Newest(presents, p) {
      var i' :| 0 <= i' < n && Showed(es, i', p) && Kept(es, i' + 1, n, b, t);
      ShownOrder(es, i, i', p, p);
      ShownOrder(es, i', i, p, p);
      forall k | i < k < n
        ensures es[k] != Presented(b, t) && !Ends(es[k], b, t)
      {
        if es[k] == Presented(b, t) {
          var q := Mark(b, t, Serials(es[..k + 1]));
          assert Showed(es, k, q) && Kept(es, k + 1, n, b, t);
          ShownOrder(es, i, k, p, q);
        }
      }
    }
  }

  /** The notice for the last presentation, at step i, has come. */
  lemma NoticedAfter(es: seq<Step>, n: nat, i: nat, p: Mark)
    requires n <= |es| && LastShown(es, i, n, p.buffer, p.target) && Showed(es, i, p)
    ensures WasNoticed(es, n, p) <==> exists j :: i < j < n && Noticed(es, j, p)
  {
    var b, t := p.buffer, p.target;
    if j :| i < j < n && Noticed(es, j, p) {
      assert Kept(es, i + 1, j, b, t) && WasShown(es, j, p) && Kept(es, j + 1, n, b, t);
    }
    if WasNoticed(es, n, p) {
      var j :| 0 <= j < n && Noticed(es, j, p) && WasShown(es, j, p) && Kept(es, j + 1, n, b, t);
      var i' :| 0 <= i' < j && Showed(es, i', p) && Kept(es, i' + 1, j, b, t);
      ShownOrder(es, i, i', p, p);
      ShownOrder(es, i', i, p, p);
    }
  }

  lemma RendersOver(es: seq<Step>, n: nat, b: nat, t: nat, renders: seq<Mark>, acked: nat)
    requires n <= |es| && acked == Returned(es[..n])
    requires forall m :: m in renders <==> WasDrawn(es, n, m)
    ensures (forall r :: r in renders && r.For(b, t) ==> r.id <= acked) <==>
            (forall i :: 0 <= i < n && DrewFrom(es[i], b, t) && Kept(es, i + 1, n, b, t) ==>
               Rounds(es[..i + 1]) <= acked)
  {
    hide Rounds, Returned, Ends;
    if forall r :: r in renders && r.For(b, t) ==> r.id <= acked {
      forall i | 0 <= i < n && DrewFrom(es[i], b, t) && Kept(es, i + 1, n, b, t)
        ensures Rounds(es[..i + 1]) <= acked
      {
        var m := Mark(b, t, Rounds(es[..i + 1]));
        assert Drew(es, i, m) && WasDrawn(es, n, m);
      }
    } else {
      var r :| r in renders && r.For(b, t) && r.id > acked;
      var i :| 0 <= i < n && Drew(es, i, r) && Kept(es, i + 1, n, r.buffer, r.target);
    }
  }

  lemma PresentsOver(es: seq<Step>, n: nat, b: nat, t: nat, presents: seq<Mark>, noticed: seq<Mark>)
    requires n <= |es|
    requires forall m :: m in presents <==> WasShown(es, n, m)
    requires forall m :: m in noticed <==> WasNoticed(es, n, m)
    ensures (forall p :: Newest(presents, p) && p.For(b, t) ==> p in noticed) <==>
            (forall i :: LastShown(es, i, n, b, t) ==>
               exists j :: i < j < n && es[j] == IdleNotice(b, t, Serials(es[..i + 1])))
  {
    hide Serials, Ends, WasNoticed, Newest;
    if forall p :: Newest(presents, p) && p.For(b, t) ==> p in noticed {
      forall i | LastShown(es, i, n, b, t)
        ensures exists j :: i < j < n && es[j] == IdleNotice(b, t, Serials(es[..i + 1]))
      {
        var p := Mark(b, t, Serials(es[..i + 1]));
        assert Showed(es, i, p);
        NewestIsLast(es, n, i, p, presents);
        NoticedAfter(es, n, i, p);
        var j :| i < j < n && Noticed(es, j, p);
      }
    } else {
      var p :| Newest(presents, p) && p.For(b, t) && p !in noticed;
      NewestIn(presents, p);
      var i :| 0 <= i < n && Showed(es, i, p) && Kept(es, i + 1, n, p.buffer, p.target);
      NewestIsLast(es, n, i, p, presents);
      NoticedAfter(es, n, i, p);
      assert p.id == Serials(es[..i + 1]);
      forall j | i < j < n
        ensures Noticed(es, j, p) <==> es[j] == IdleNotice(b, t, Serials(es[..i + 1]))
      {
      }
    }
  }

  lemma NewestIn(presents: seq<Mark>, p: Mark)
    requires Newest(presents, p)
    ensures p in presents
  {
  }

  /** In every run, a buffer counts as idle exactly when the steps make it idle. */
  lemma IdleIff(ss: seq<State>, es: seq<Step>, n: nat, b: nat, t: nat)
    requires IsRun(ss, es) && n < |ss|
    ensures IsIdle(ss[n], b, t) <==> IdleAfter(es, n, b, t)
  {
    RunKeeps(ss, es, n);
    IdleIsQuiet(ss[n], b, t);
    CountersCount(ss, es, n);
    forall m
      ensures m in ss[n].renders <==> WasDrawn(es, n, m)
      ensures m in ss[n].presents <==> WasShown(es, n, m)
      ensures m in ss[n].noticed <==> WasNoticed(es, n, m)
    {
      HistoryIsSteps(ss, es, n, m);
    }
    hide StateInv, WasDrawn, WasShown, WasNoticed, Newest, LastShown, Kept, Rounds, Returned, Serials, IsIdle;
    RendersOver(es, n, b, t, ss[n].renders, ss[n].acked);
    PresentsOver(es, n, b, t, ss[n].presents, ss[n].noticed);
  }

  // ----- when a buffer is released -----

  /** The buffer let go of at step i gets this number. */
  function TokenAt(es: seq<Step>, i: nat): nat
    requires i < |es|
  {
    LetGo(es[..i])
  }

  lemma {:induction false} LetGoGrows(es: seq<Step>, i: nat, j: nat)
    requires i <= j <= |es|
    ensures LetGo(es[..i]) <= LetGo(es[..j])
    ensures i < j && es[i].Release? ==> LetGo(es[..i]) < LetGo(es[..j])
  {
    if i < j {
      LetGoGrows(es, i, j - 1);
      assert es[..j][..j - 1] == es[..j - 1];
    }
  }

  /** What a step does to the callbacks. */
  lemma StepCallbacks(s: State, e: Step, c: Callback)
    requires StateInv(s) && Enabled(s, e)
    ensures var s' := Do(s, e);
      c in s'.callbacks <==>
        match e
        case RoundTrip => c in s.callbacks && !IsIdle(s', c.buffer, c.target)
        case IdleNotice(_, _, _) => c in s.callbacks && !IsIdle(s', c.buffer, c.target)
        case Release(h, b, t) => c in s.callbacks || (!IsIdle(s, b, t) && c == Callback(b, t, h, s.given))
        case Free(h) => c in s.callbacks && c.helper != h
        case Destroy(b) => c in s.callbacks && c.buffer != b
        case _ => c in s.callbacks
  {
    match e
    case RoundTrip => HandleActivityEventOK(s);
    case IdleNotice(b, t, serial) => HandleIdleNotifyOK(s, b, t, serial);
    case Free(h) => WithoutHelperMembers(s.callbacks, h);
    case Destroy(b) => FreeBufferKeeps(s, b);
    case EndTarget(t) => WithoutTargetMembers(s.callbacks, t);
    case _ =>
  }

  lemma DestroyedIsIdle(s: State, b: nat, t: nat)
    ensures IsIdle(FreeBuffer(s, b), b, t)
  {
    WithoutHas(s.activity, Buffer(b), b, t);
    WithoutHas(s.pending, Buffer(b), b, t);
    hide Has, Without;
  }

  lemma InListIsBusy(s: State, c: Callback)
    requires StateInv(s) && c in s.callbacks
    ensures !IsIdle(s, c.buffer, c.target)
  {
    var i :| 0 <= i < |s.callbacks| && s.callbacks[i] == c;
  }

  /** A callback is taken off the list just when its buffer is idle after the step, or its helper is
      freed. */
  lemma CallbackStays(s: State, e: Step, c: Callback)
    requires StateInv(s) && Enabled(s, e) && c in s.callbacks
    ensures c in Do(s, e).callbacks <==> !IsIdle(Do(s, e), c.buffer, c.target) && e != Free(c.helper)
  {
    StepCallbacks(s, e, c);
    StepKeeps(s, e);
    if e.Destroy? {
      DestroyedIsIdle(s, e.buffer, c.target);
    }
    hide StateInv, Enabled, IsIdle;
    if c in Do(s, e).callbacks {
      InListIsBusy(Do(s, e), c);
    }
  }

  /** Every callback is for a buffer that was let go of. */
  lemma {:induction false} CallbackFrom(ss: seq<State>, es: seq<Step>, n: nat, c: Callback) returns (i: nat)
    requires IsRun(ss, es) && n < |ss| && c in ss[n].callbacks
    ensures i < n && es[i] == Release(c.helper, c.buffer, c.target) && c.token == TokenAt(es, i)
  {
    hide StateInv, Do, Enabled, LetGo;
    assert n > 0;
    if c in ss[n - 1].callbacks {
      i := CallbackFrom(ss, es, n - 1, c);
    } else {
      CallbackAdded(ss, es, n - 1, n, c);
      i := n - 1;
    }
  }

  lemma CallbackAdded(ss: seq<State>, es: seq<Step>, m: nat, n: nat, c: Callback)
    requires IsRun(ss, es) && n == m + 1 < |ss| && c in ss[n].callbacks && c !in ss[m].callbacks
    ensures |ss| == |es| + 1 && es[m] == Release(c.helper, c.buffer, c.target) && c.token == TokenAt(es, m)
  {
    RunKeeps(ss, es, m);
    CountersCount(ss, es, m);
    hide StateInv, IsIdle;
    StepCallbacks(ss[m], es[m], c);
    hide Do, Enabled;
  }

  lemma TokenSomewhere(s: State, token: nat)
    requires Accounted(s) && token < s.given
    ensures token in s.released <==> token !in multiset(TokensOf(s.callbacks))
  {
    NumbersBelow(s.given, token);
    hide Numbers, TokensOf;
    assert multiset(s.released)[token] + multiset(TokensOf(s.callbacks))[token] == 1;
    assert token in s.released <==> token in multiset(s.released);
  }

  lemma TokenListed(cs: seq<Callback>, c: Callback)
    requires c in cs
    ensures c.token in multiset(TokensOf(cs))
  {
    var k :| 0 <= k < |cs| && cs[k] == c;
    TokenIn(cs, k);
  }

  /** Numbers tell the buffers let go of apart. */
  lemma TokensDiffer(es: seq<Step>, i: nat, j: nat)
    requires i < |es| && j < |es| && es[i].Release? && es[j].Release? && TokenAt(es, i) == TokenAt(es, j)
    ensures i == j
  {
    if i < j {
      LetGoGrows(es, i, j);
    } else {
      LetGoGrows(es, j, i);
    }
  }

  /** A buffer let go of is either released or has its one callback. */
  lemma ReleasedOrNot(ss: seq<State>, es: seq<Step>, i: nat, n: nat, c: Callback)
    requires IsRun(ss, es) && i < n < |ss|
    requires es[i] == Release(c.helper, c.buffer, c.target) && c.token == TokenAt(es, i)
    ensures c in ss[n].callbacks <==> c.token !in ss[n].released
  {
    hide IsRun, TokensOf, LetGo, Accounted;
    var s := ss[n];
    RunAccounted(ss, es, n);
    LetGoGrows(es, i, n);
    TokenSomewhere(s, c.token);
    if c in s.callbacks {
      TokenListed(s.callbacks, c);
    } else if c.token in multiset(TokensOf(s.callbacks)) {
      var d := HasToken(s.callbacks, c.token);
      var j := CallbackFrom(ss, es, n, d);
      TokensDiffer(es, i, j);
    }
  }

  lemma RunAccounted(ss: seq<State>, es: seq<Step>, n: nat)
    requires IsRun(ss, es) && n < |ss|
    ensures |ss| == |es| + 1 && Accounted(ss[n]) && ss[n].given == LetGo(es[..n])
  {
    RunKeeps(ss, es, n);
    CountersCount(ss, es, n);
  }

  /** The number of a buffer is new when it is let go of. */
  lemma NotThereYet(ss: seq<State>, es: seq<Step>, i: nat, c: Callback)
    requires IsRun(ss, es) && i < |es| && c.token == TokenAt(es, i)
    ensures c !in ss[i].callbacks
  {
    if c in ss[i].callbacks {
      var j := CallbackFrom(ss, es, i, c);
      LetGoGrows(es, j, i);
    }
  }

  /** At once, a buffer has a callback exactly if it is not idle. */
  lemma ReleasedFirst(ss: seq<State>, es: seq<Step>, i: nat, c: Callback)
    requires IsRun(ss, es) && i < |es|
    requires es[i] == Release(c.helper, c.buffer, c.target) && c.token == TokenAt(es, i)
    ensures c in ss[i + 1].callbacks <==> !IsIdle(ss[i + 1], c.buffer, c.target)
  {
    NotThereYet(ss, es, i, c);
    RunKeeps(ss, es, i);
    CountersCount(ss, es, i);
    StepCallbacks(ss[i], es[i], c);
    SameIdle(ss[i], es[i]);
    hide StateInv, IsIdle;
  }

  lemma SameIdle(s: State, e: Step)
    requires Enabled(s, e) && e.Release?
    ensures IsIdle(Do(s, e), e.buffer, e.target) <==> IsIdle(s, e.buffer, e.target)
  {
  }

  /** Later it keeps it just as long as it is not idle and its helper is not freed. */
  lemma ReleasedNext(ss: seq<State>, es: seq<Step>, i: nat, n: nat, c: Callback)
    requires IsRun(ss, es) && i < n < |es|
    requires es[i] == Release(c.helper, c.buffer, c.target) && c.token == TokenAt(es, i)
    ensures c in ss[n + 1].callbacks <==>
            c in ss[n].callbacks && !IsIdle(ss[n + 1], c.buffer, c.target) && es[n] != Free(c.helper)
  {
    RunKeeps(ss, es, n);
    RunAccounted(ss, es, n);
    LetGoGrows(es, i, n);
    hide StateInv, IsIdle, LetGo, Accounted;
    if c in ss[n].callbacks {
      CallbackStays(ss[n], es[n], c);
    } else {
      StepCallbacks(ss[n], es[n], c);
    }
  }

  /** Some step since step i, or that one, made the buffer let go of then idle, or freed its
      helper. */
  ghost predicate Due(es: seq<Step>, i: nat, n: nat)
    requires i < n <= |es| && es[i].Release?
  {
    exists j :: i < j <= n && DueAt(es, i, j)
  }

  ghost predicate DueAt(es: seq<Step>, i: nat, j: int)
    requires i < |es| && es[i].Release? && 0 < j <= |es|
  {
    IdleAfter(es, j, es[i].buffer, es[i].target) || es[j - 1] == Free(es[i].helper)
  }

  lemma DueNext(es: seq<Step>, i: nat, n: nat)
    requires i + 1 < n <= |es| && es[i].Release?
    ensures Due(es, i, n) <==> Due(es, i, n - 1) || DueAt(es, i, n)
  {
    hide DueAt;
  }

  lemma DueFirst(es: seq<Step>, i: nat)
    requires i < |es| && es[i].Release?
    ensures Due(es, i, i + 1) <==> IdleAfter(es, i + 1, es[i].buffer, es[i].target)
  {
    hide IdleAfter;
    assert Due(es, i, i + 1) <==> DueAt(es, i, i + 1);
  }

  /** In every run, a buffer let go of at step i has been released exactly if at some time since,
      or at once, the steps had made it idle, or its helper was freed. */
  lemma {:induction false} ReleasedIff(ss: seq<State>, es: seq<Step>, i: nat, n: nat)
    requires |ss| == |es| + 1 && i < n < |ss| && es[i].Release? && IsRun(ss, es)
    ensures TokenAt(es, i) in ss[n].released <==> Due(es, i, n)
  {
    hide *;
    var c := Callback(es[i].buffer, es[i].target, es[i].helper, TokenAt(es, i));
    ReleasedLast(ss, es, i, n, c);
    if n == i + 1 {
      DueFirst(es, i);
    } else {
      ReleasedIff(ss, es, i, n - 1);
      ReleasedOrNot(ss, es, i, n - 1, c);
      DueNext(es, i, n);
    }
  }

  lemma ReleasedLast(ss: seq<State>, es: seq<Step>, i: nat, n: nat, c: Callback)
    requires IsRun(ss, es) && i < n < |ss|
    requires es[i] == Release(c.helper, c.buffer, c.target) && c.token == TokenAt(es, i)
    ensures |ss| == |es| + 1
    ensures c in ss[n].callbacks <==> c.token !in ss[n].released
    ensures n == i + 1 ==> (c in ss[n].callbacks <==> !IdleAfter(es, n, c.buffer, c.target))
    ensures n > i + 1 ==> (c in ss[n].callbacks <==> c in ss[n - 1].callbacks && !DueAt(es, i, n))
  {
    hide IdleAfter, IsIdle, LetGo, Enabled, Do;
    ReleasedOrNot(ss, es, i, n, c);
    IdleIff(ss, es, n, c.buffer, c.target);
    if n == i + 1 {
      ReleasedFirst(ss, es, i, c);
    } else {
      ReleasedNext(ss, es, i, n - 1, c);
    }
  }

  // ----- which helpers are told -----

  /** Only the steps that run callbacks tell a helper that its last buffer has been released, and they
      tell just those that lose their last record. */
  lemma StepTells(s: State, e: Step)
    requires StateInv(s) && Enabled(s, e)
    ensures var s' := Do(s, e);
      if e.RoundTrip? || e.IdleNotice? || e.Destroy? then Told(s, s') else s'.allReleased == s.allReleased
  {
    match e
    case RoundTrip => HandleActivityEventOK(s);
    case IdleNotice(b, t, serial) => HandleIdleNotifyOK(s, b, t, serial);
    case Destroy(b) => FreeBufferKeeps(s, b);
    case _ => OthersTellNobody(s, e);
  }

  lemma OthersTellNobody(s: State, e: Step)
    requires Enabled(s, e) && !e.RoundTrip? && !e.IdleNotice? && !e.Destroy?
    ensures Do(s, e).allReleased == s.allReleased
  {
  }
}
