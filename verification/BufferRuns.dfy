/** Every run of the renderer's records: renders, presentations, acknowledgements and notices,
    buffers given to helpers, and the end of helpers, buffers and targets. */
module BufferRuns {
  import opened BufferActivity
  import opened BufferDestroy

  /** BackPresented stands for a presentation of something other than a client buffer, and for
      whatever else takes a presentation serial.  Targets end only when no callback waits for
      them. */
  datatype Step =
    | Render(target: nat, buffers: seq<nat>)
    | Presented(buffer: nat, target: nat)
    | RoundTrip
    | IdleNotice(buffer: nat, target: nat, serial: nat)
    | BackPresented
    | Release(helper: nat, buffer: nat, target: nat)
    | Make(helper: nat)
    | Free(helper: nat)
    | Destroy(buffer: nat)
    | EndTarget(target: nat)

  ghost predicate Enabled(s: State, e: Step) {
    match e
    case RoundTrip => s.acked < s.lastId
    case Release(h, _, _) => h in s.records
    case Make(h) => h !in s.records
    case Free(h) => h in s.records
    case EndTarget(t) => !WaitedFor(s, t)
    case _ => true
  }

  ghost function Do(s: State, e: Step): State
    requires Enabled(s, e)
  {
    match e
    case Render(t, bs) => FinishRender(s, t, bs)
    case Presented(b, t) => Present(s, b, t)
    case RoundTrip => HandleActivityEvent(s)
    case IdleNotice(b, t, serial) => HandleIdleNotify(s, b, t, serial)
    case BackPresented => s.(serial := s.serial + 1)
    case Release(h, b, t) => ReleaseBuffer(s, h, b, t)
    case Make(h) => MakeHelper(s, h)
    case Free(h) => FreeHelper(s, h)
    case Destroy(b) => FreeBuffer(s, b)
    case EndTarget(t) => DestroyTarget(s, t)
  }

  ghost predicate IsRun(ss: seq<State>, es: seq<Step>) {
    && |ss| == |es| + 1 && ss[0] == Empty()
    && forall i :: 0 <= i < |es| ==> Enabled(ss[i], es[i]) && ss[i + 1] == Do(ss[i], es[i])
  }

  lemma StepKeeps(s: State, e: Step)
    requires StateInv(s) && Enabled(s, e)
    ensures StateInv(Do(s, e))
  {
    match e
    case Render(t, bs) => FinishRenderKeeps(s, t, bs, Do(s, e));
    case Presented(b, t) => PresentKeeps(s, b, t);
    case RoundTrip => HandleActivityEventOK(s);
    case IdleNotice(b, t, serial) => HandleIdleNotifyOK(s, b, t, serial);
    case BackPresented => MoreBusy(s, Do(s, e));
    case Release(h, b, t) => ReleaseKeeps(s, h, b, t);
    case Make(h) => MakeHelperKeeps(s, h);
    case Free(h) => FreeHelperKeeps(s, h, Do(s, e));
    case Destroy(b) => FreeBufferKeeps(s, b);
    case EndTarget(t) => DestroyTargetKeepsIff(s, t);
  }

  lemma {:induction false} RunKeeps(ss: seq<State>, es: seq<Step>, n: nat)
    requires IsRun(ss, es) && n < |ss|
    ensures StateInv(ss[n])
  {
    if n > 0 {
      RunKeeps(ss, es, n - 1);
      StepKeeps(ss[n - 1], es[n - 1]);
    }
  }

  /** Every render of b on t that was finished has been acknowledged, and the notice for the
      newest presentation of b on t, if there was one, has come. */
  ghost predicate Quiet(s: State, b: nat, t: nat) {
    && (forall r :: r in s.renders && r.For(b, t) ==> r.id <= s.acked)
    && (forall p :: Newest(s.presents, p) && p.For(b, t) ==> p in s.noticed)
  }

  /** What the records say is what is so: a buffer counts as idle exactly when all its renders
      are acknowledged and its newest presentation is over. */
  lemma IdleIsQuiet(s: State, b: nat, t: nat)
    requires StateInv(s)
    ensures IsIdle(s, b, t) <==> Quiet(s, b, t)
  {
    if Has(s.activity, b, t) {
      var i :| 0 <= i < |s.activity| && s.activity[i].For(b, t);
      assert s.activity[i] in s.renders;
    }
    if Has(s.pending, b, t) {
      var i :| 0 <= i < |s.pending| && s.pending[i].For(b, t);
      assert s.pending[i] in s.pending && Newest(s.presents, s.pending[i]);
    }
    if p :| Newest(s.presents, p) && p.For(b, t) && p !in s.noticed {
      assert p in s.pending;
    }
  }

  /** In every run, a presentation is pending exactly if it is the newest of its buffer on its
      target and no notice for it has come. */
  lemma PendingIsNewest(ss: seq<State>, es: seq<Step>, n: nat, p: Mark)
    requires IsRun(ss, es) && n < |ss|
    ensures p in ss[n].pending <==> Newest(ss[n].presents, p) && p !in ss[n].noticed
  {
    RunKeeps(ss, es, n);
  }

  /** Notices for one buffer on one target have come in the order of its presentations. */
  ghost predicate NoticedInOrder(s: State, b: nat, t: nat) {
    forall p, q :: p in s.noticed && q in s.presents && p.For(b, t) && q.For(b, t) && q.id <= p.id ==> q in s.noticed
  }

  /** Where notices come in order, a quiet buffer has no presentation left that is not over. */
  lemma QuietMeansOver(s: State, b: nat, t: nat)
    requires StateInv(s) && NoticedInOrder(s, b, t)
    ensures Quiet(s, b, t) <==>
      && (forall r :: r in s.renders && r.For(b, t) ==> r.id <= s.acked)
      && (forall p :: p in s.presents && p.For(b, t) ==> p in s.noticed)
  {
    forall q | Quiet(s, b, t) && q in s.presents && q.For(b, t)
      ensures q in s.noticed
    {
      var p := NewestOf(s.presents, q);
      assert p.For(b, t) && p in s.noticed;
    }
  }

  lemma {:induction false} NewestOf(presents: seq<Mark>, q: Mark) returns (p: Mark)
    requires q in presents
    ensures Newest(presents, p) && p.For(q.buffer, q.target) && q.id <= p.id
  {
    var front, last := presents[..|presents| - 1], presents[|presents| - 1];
    assert presents == front + [last];
    if q in front {
      p := NewestOf(front, q);
      if last.For(q.buffer, q.target) && p.id < last.id {
        p := last;
      }
    } else if exists r :: r in front && r.For(q.buffer, q.target) {
      var r :| r in front && r.For(q.buffer, q.target);
      p := NewestOf(front, r);
      if p.id < last.id {
        p := last;
      }
    } else {
      p := last;
    }
  }

  /** Otherwise a buffer can count as idle while an older presentation of it is not over: the
      record is for the newest alone. */
  lemma OlderMayBeOut(s0: State, b: nat, t: nat)
    requires s0 == Empty()
    ensures var s1 := Do(s0, Presented(b, t)); var s2 := Do(s1, Presented(b, t));
      && Mark(b, t, 1) in s2.presents && Mark(b, t, 2) in s2.presents
      && IsIdle(Do(s2, IdleNotice(b, t, 2)), b, t)
      && Mark(b, t, 1) !in Do(s2, IdleNotice(b, t, 2)).noticed
  {
    var s1 := Do(s0, Presented(b, t));
    var m1, m2 := Mark(b, t, 1), Mark(b, t, 2);
    assert s1.pending == [m1];
    var s2 := Do(s1, Presented(b, t));
    assert s1.pending[0].For(b, t) && Has(s1.pending, b, t);
    assert Update([m1], m2) == [m2];
    assert s2.pending == [m2];
    assert s2.presents == [Mark(b, t, 1), Mark(b, t, 2)];
    var s3 := Do(s2, IdleNotice(b, t, 2));
    assert s3.pending == [] && s3.noticed == [Mark(b, t, 2)];
  }

  /** A notice that comes after its buffer or target has gone changes nothing. */
  lemma GoneNoticeIsIgnored(s: State, g: Gone, s1: State, b: nat, t: nat, serial: nat)
    requires StateInv(s) && g.Concerns(b, t) && (g.Target? ==> !WaitedFor(s, g.t))
    requires s1 == if g.Buffer? then FreeBuffer(s, g.b) else DestroyTarget(s, g.t)
    ensures HandleIdleNotify(s1, b, t, serial) == s1
  {
    hide *;
    GonePresents(s, g, s1);
    assert !(Mark(b, t, serial) in s1.presents);
    LateNoticeIsIgnored(s1, b, t, serial);
  }

  lemma GonePresents(s: State, g: Gone, s1: State)
    requires StateInv(s) && (g.Target? ==> !WaitedFor(s, g.t))
    requires s1 == if g.Buffer? then FreeBuffer(s, g.b) else DestroyTarget(s, g.t)
    ensures StateInv(s1) && forall m :: m in s1.presents ==> !g.Concerns(m.buffer, m.target)
  {
    hide StateInv, Without;
    WithoutMembers(s.presents, g);
    if g.Buffer? {
      FreeBufferKeeps(s, g.b);
    } else {
      DestroyTargetKeepsIff(s, g.t);
    }
  }

  /** In every run, an acknowledgement or idle notice runs the callbacks for exactly those
      buffers that are quiet after it, and tells exactly the helpers that lost their last record,
      once each. */
  lemma CallbacksRunWhenQuiet(ss: seq<State>, es: seq<Step>, n: nat, c: Callback)
    requires IsRun(ss, es) && n < |es| && (es[n].RoundTrip? || es[n].IdleNotice?) && c in ss[n].callbacks
    ensures c !in ss[n + 1].callbacks <==> Quiet(ss[n + 1], c.buffer, c.target)
    ensures Told(ss[n], ss[n + 1])
  {
    RunKeeps(ss, es, n);
    RunKeeps(ss, es, n + 1);
    if es[n].RoundTrip? {
      HandleActivityEventOK(ss[n]);
    } else {
      HandleIdleNotifyOK(ss[n], es[n].buffer, es[n].target, es[n].serial);
    }
    IdleIsQuiet(ss[n + 1], c.buffer, c.target);
  }

  /** In every run each buffer let go of is released at most once; and once every render is
      acknowledged and every newest presentation is over, no callback is left and each has been
      released exactly once. */
  lemma ReleasedExactlyOnce(ss: seq<State>, es: seq<Step>, n: nat, token: nat)
    requires IsRun(ss, es) && n < |ss|
    ensures var s := ss[n];
      && multiset(s.released)[token] <= (if token < s.given then 1 else 0)
      && (AllQuiet(s) ==> s.callbacks == [] && multiset(s.released)[token] == if token < s.given then 1 else 0)
  {
    RunKeeps(ss, es, n);
    var s := ss[n];
    NumbersBelow(s.given, token);
    if AllQuiet(s) && s.callbacks != [] {
      var c := s.callbacks[0];
      assert !IsIdle(s, c.buffer, c.target);
      IdleIsQuiet(s, c.buffer, c.target);
    }
    if s.callbacks == [] {
      assert TokensOf(s.callbacks) == [];
    }
    assert multiset(s.released)[token] + multiset(TokensOf(s.callbacks))[token] == multiset(Numbers(s.given))[token];
  }

  ghost predicate AllQuiet(s: State) {
    forall b, t :: Quiet(s, b, t)
  }

  /** In every run there is at most one activity record for a buffer and target, and it carries
      the newest render. */
  lemma OneNewestRecord(ss: seq<State>, es: seq<Step>, n: nat, i: nat, j: nat)
    requires IsRun(ss, es) && n < |ss| && i < |ss[n].activity| && j < |ss[n].activity|
    ensures var a := ss[n].activity;
      && (a[i].For(a[j].buffer, a[j].target) ==> i == j)
      && a[i] in ss[n].renders
      && (forall r :: r in ss[n].renders && a[i].For(r.buffer, r.target) ==> r.id <= a[i].id)
  {
    RunKeeps(ss, es, n);
    var a := ss[n].activity;
    if i < j {
      assert !a[i].For(a[j].buffer, a[j].target);
    } else if j < i {
      assert !a[j].For(a[i].buffer, a[i].target);
    }
  }
}
