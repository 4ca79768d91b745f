/** The end of a buffer and of a target: what is known of it is forgotten.  The callbacks for a
    buffer are run; those for a target are lost. */
module BufferDestroy {
  import opened BufferActivity

  datatype Gone = Buffer(b: nat) | Target(t: nat) {
    predicate Concerns(b': nat, t': nat) { if Buffer? then b' == b else t' == t }
  }

  /** The marks that do not concern what is gone, in order. */
  function Without(ms: seq<Mark>, g: Gone): seq<Mark> {
    if ms == [] then []
    else (if g.Concerns(ms[0].buffer, ms[0].target) then [] else [ms[0]]) + Without(ms[1..], g)
  }

  function Forget(s: State, g: Gone): State {
    s.(activity := Without(s.activity, g), pending := Without(s.pending, g), renders := Without(s.renders, g),
       presents := Without(s.presents, g), noticed := Without(s.noticed, g))
  }

  /** Runs and removes the callbacks for b from position i on. */
  function RunAll(s: State, b: nat, i: nat): (r: State)
    requires i <= |s.callbacks|
    ensures r == s.(callbacks := r.callbacks, records := r.records, released := r.released,
        allReleased := r.allReleased)
    decreases |s.callbacks| - i
  {
    if i == |s.callbacks| then s
    else if s.callbacks[i].buffer == b then RunAll(RunOne(s, i), b, i)
    else RunAll(s, b, i + 1)
  }

  /** FreeAnyBuffer */
  function FreeBuffer(s: State, b: nat): State {
    RunAll(Forget(s, Buffer(b)), b, 0)
  }

  function WithoutTarget(cs: seq<Callback>, t: nat): seq<Callback> {
    if cs == [] then [] else (if cs[0].target == t then [] else [cs[0]]) + WithoutTarget(cs[1..], t)
  }

  /** DestroyRenderTarget */
  function DestroyTarget(s: State, t: nat): State {
    Forget(s, Target(t)).(callbacks := WithoutTarget(s.callbacks, t))
  }

  // ----- what is forgotten -----

  lemma {:induction false} WithoutMembers(ms: seq<Mark>, g: Gone)
    ensures forall m :: m in Without(ms, g) <==> m in ms && !g.Concerns(m.buffer, m.target)
  {
    if ms != [] {
      WithoutMembers(ms[1..], g);
      assert ms == [ms[0]] + ms[1..];
    }
  }

  lemma {:induction false} WithoutAtMostOne(ms: seq<Mark>, g: Gone)
    requires AtMostOne(ms)
    ensures AtMostOne(Without(ms, g))
  {
    if ms != [] {
      var m, rest, w := ms[0], ms[1..], Without(ms[1..], g);
      assert AtMostOne(rest);
      WithoutAtMostOne(rest, g);
      WithoutMembers(rest, g);
      forall j | 0 <= j < |w|
        ensures !m.For(w[j].buffer, w[j].target)
      {
        assert w[j] in w;
        var k :| 0 <= k < |rest| && rest[k] == w[j];
        assert ms[k + 1] == w[j];
      }
      assert [] + w == w;
      ConsAtMostOne(m, w);
    }
  }

  lemma ConsAtMostOne(m: Mark, ms: seq<Mark>)
    requires AtMostOne(ms) && forall j :: 0 <= j < |ms| ==> !m.For(ms[j].buffer, ms[j].target)
    ensures AtMostOne([m] + ms)
  {
    var all := [m] + ms;
    forall i, j | 0 <= i < j < |all|
      ensures !all[i].For(all[j].buffer, all[j].target)
    {
      assert all[j] == ms[j - 1];
      if i > 0 { assert all[i] == ms[i - 1]; }
    }
  }

  lemma WithoutHas(ms: seq<Mark>, g: Gone, b: nat, t: nat)
    ensures Has(Without(ms, g), b, t) <==> Has(ms, b, t) && !g.Concerns(b, t)
  {
    WithoutMembers(ms, g);
    HasMember(ms, b, t);
    HasMember(Without(ms, g), b, t);
  }

  lemma ForgetTracks(activity: seq<Mark>, renders: seq<Mark>, acked: nat, g: Gone)
    requires Tracks(activity, renders, acked)
    ensures Tracks(Without(activity, g), Without(renders, g), acked)
  {
    var a, r := Without(activity, g), Without(renders, g);
    WithoutAtMostOne(activity, g);
    WithoutMembers(activity, g);
    WithoutMembers(renders, g);
    forall i | 0 <= i < |a|
      ensures a[i] in r && a[i].id > acked
      ensures forall k :: k in r && a[i].For(k.buffer, k.target) ==> k.id <= a[i].id
    {
      assert a[i] in a;
      var j :| 0 <= j < |activity| && activity[j] == a[i];
    }
    forall k | k in r && k.id > acked
      ensures Has(a, k.buffer, k.target)
    {
      WithoutHas(activity, g, k.buffer, k.target);
    }
  }

  lemma ForgetNewest(presents: seq<Mark>, g: Gone, p: Mark)
    ensures Newest(Without(presents, g), p) <==> Newest(presents, p) && !g.Concerns(p.buffer, p.target)
  {
    WithoutMembers(presents, g);
    hide Without;
  }

  lemma ForgetAwaits(pending: seq<Mark>, presents: seq<Mark>, noticed: seq<Mark>, g: Gone)
    requires Awaits(pending, presents, noticed)
    ensures Awaits(Without(pending, g), Without(presents, g), Without(noticed, g))
  {
    hide Without, AtMostOne, Newest;
    WithoutAtMostOne(pending, g);
    WithoutMembers(pending, g);
    WithoutMembers(presents, g);
    WithoutMembers(noticed, g);
    forall p
      ensures Newest(Without(presents, g), p) <==> Newest(presents, p) && !g.Concerns(p.buffer, p.target)
    {
      ForgetNewest(presents, g, p);
    }
  }

  lemma ForgetMarks(s: State, g: Gone)
    requires MarksOK(s)
    ensures MarksOK(Forget(s, g))
  {
    ForgetTracks(s.activity, s.renders, s.acked, g);
    ForgetAwaits(s.pending, s.presents, s.noticed, g);
    WithoutMembers(s.renders, g);
    WithoutMembers(s.presents, g);
    hide Tracks, Awaits, Without;
  }

  lemma ForgetIdle(s: State, g: Gone, b: nat, t: nat)
    requires !g.Concerns(b, t)
    ensures IsIdle(Forget(s, g), b, t) <==> IsIdle(s, b, t)
  {
    WithoutHas(s.activity, g, b, t);
    WithoutHas(s.pending, g, b, t);
  }

  lemma SafeOf(s: State, s': State)
    requires SafeParts(s) && s'.callbacks == s.callbacks && s'.records == s.records
    requires s'.released == s.released && s'.given == s.given
    ensures SafeParts(s')
  {
  }

  // ----- the end of a buffer -----

  lemma {:induction false} RunAllRan(s: State, b: nat, i: nat)
    requires SafeParts(s) && i <= |s.callbacks|
    ensures Ran(s, RunAll(s, b, i))
    decreases |s.callbacks| - i
  {
    hide SafeParts, Told;
    if i == |s.callbacks| {
      NothingRan(s);
    } else if s.callbacks[i].buffer == b {
      RunOneRan(s, i);
      RunAllRan(RunOne(s, i), b, i);
      RanTransitive(s, RunOne(s, i), RunAll(s, b, i));
    } else {
      RunAllRan(s, b, i + 1);
    }
  }

  lemma NothingRan(s: State)
    requires SafeParts(s)
    ensures Ran(s, s)
  {
  }

  lemma {:induction false} RunAllRemoves(s: State, b: nat, i: nat)
    requires i <= |s.callbacks|
    requires forall k :: 0 <= k < i ==> s.callbacks[k].buffer != b
    ensures forall c :: c in RunAll(s, b, i).callbacks <==> c in s.callbacks && c.buffer != b
    decreases |s.callbacks| - i
  {
    if i < |s.callbacks| {
      if s.callbacks[i].buffer == b {
        RunAllRemoves(RunOne(s, i), b, i);
        assert s.callbacks == s.callbacks[..i] + [s.callbacks[i]] + s.callbacks[i + 1..];
      } else {
        RunAllRemoves(s, b, i + 1);
      }
    }
  }

  /** The end of a buffer runs exactly its callbacks, and everything stays in order. */
  lemma FreeBufferKeeps(s: State, b: nat)
    requires StateInv(s)
    ensures StateInv(FreeBuffer(s, b)) && Told(s, FreeBuffer(s, b))
    ensures forall c :: c in FreeBuffer(s, b).callbacks <==> c in s.callbacks && c.buffer != b
  {
    var s1, s' := Forget(s, Buffer(b)), FreeBuffer(s, b);
    SafeOf(s, s1);
    ForgetMarks(s, Buffer(b));
    RunAllRan(s1, b, 0);
    RunAllRemoves(s1, b, 0);
    StillBusy(s, Buffer(b), s');
    hide SafeParts, MarksOK, RunAll, Forget;
    FreedMarks(s1, s');
    SameTold(s, s1, s');
    FreedInv(s');
  }

  lemma FreedInv(s: State)
    requires SafeParts(s) && AllBusy(s) && MarksOK(s)
    ensures StateInv(s)
  {
  }

  lemma FreedMarks(s: State, s': State)
    requires MarksOK(s)
    requires s' == s.(callbacks := s'.callbacks, records := s'.records, released := s'.released,
        allReleased := s'.allReleased)
    ensures MarksOK(s')
  {
  }

  lemma SameTold(s: State, s1: State, s': State)
    requires Told(s1, s') && s1.records == s.records && s1.allReleased == s.allReleased
    ensures Told(s, s')
  {
  }

  lemma StillBusy(s: State, g: Gone, s': State)
    requires AllBusy(s)
    requires s'.activity == Forget(s, g).activity && s'.pending == Forget(s, g).pending
    requires forall c :: c in s'.callbacks ==> c in s.callbacks && !g.Concerns(c.buffer, c.target)
    ensures AllBusy(s')
  {
    forall i | 0 <= i < |s'.callbacks|
      ensures !IsIdle(s', s'.callbacks[i].buffer, s'.callbacks[i].target)
    {
      var c := s'.callbacks[i];
      assert c in s'.callbacks;
      var k :| 0 <= k < |s.callbacks| && s.callbacks[k] == c;
      ForgetIdle(s, g, c.buffer, c.target);
    }
  }

  // ----- the end of a target -----

  /** A callback waits for the target. */
  ghost predicate WaitedFor(s: State, t: nat) {
    exists c :: c in s.callbacks && c.target == t
  }

  lemma {:induction false} WithoutTargetMembers(cs: seq<Callback>, t: nat)
    ensures forall c :: c in WithoutTarget(cs, t) <==> c in cs && c.target != t
    ensures (forall c :: c in cs ==> c.target != t) ==> WithoutTarget(cs, t) == cs
  {
    if cs != [] {
      WithoutTargetMembers(cs[1..], t);
      assert cs == [cs[0]] + cs[1..];
    }
  }

  /** A buffer the callback of which has been lost is neither released nor going to be. */
  lemma CallbackLost(s: State, c: Callback)
    requires Accounted(s) && c in s.callbacks
    ensures !Accounted(DestroyTarget(s, c.target))
  {
    var s' := DestroyTarget(s, c.target);
    var i :| 0 <= i < |s.callbacks| && s.callbacks[i] == c;
    TokenIn(s.callbacks, i);
    WithoutTargetMembers(s.callbacks, c.target);
    assert c.token in multiset(s.released) + multiset(TokensOf(s.callbacks));
    OnlyToken(s, c);
    hide Numbers, TokensOf;
    if c.token in multiset(TokensOf(s'.callbacks)) {
      var d := HasToken(s'.callbacks, c.token);
      assert d in s.callbacks && d.target != c.target;
      SameToken(s.callbacks, c, d);
    }
  }

  lemma SameToken(cs: seq<Callback>, c: Callback, d: Callback)
    requires DistinctTokens(cs) && c in cs && d in cs && c.token == d.token
    ensures c == d
  {
    var i :| 0 <= i < |cs| && cs[i] == c;
    var j :| 0 <= j < |cs| && cs[j] == d;
  }

  lemma {:induction false} HasToken(cs: seq<Callback>, token: nat) returns (c: Callback)
    requires token in multiset(TokensOf(cs))
    ensures c in cs && c.token == token
  {
    if cs[0].token == token {
      c := cs[0];
    } else {
      assert multiset(TokensOf(cs)) == multiset{cs[0].token} + multiset(TokensOf(cs[1..]));
      c := HasToken(cs[1..], token);
    }
  }

  /** What still has a callback has not been released. */
  lemma OnlyToken(s: State, c: Callback)
    requires Accounted(s) && c in s.callbacks
    ensures c.token !in multiset(s.released)
  {
    var i :| 0 <= i < |s.callbacks| && s.callbacks[i] == c;
    TokenIn(s.callbacks, i);
    NumbersBelow(s.given, c.token);
    hide Numbers, TokensOf;
    assert (multiset(s.released) + multiset(TokensOf(s.callbacks)))[c.token] <= 1;
  }

  /** Destroying a target keeps everything in order if and only if no callback waits for it. */
  lemma DestroyTargetKeepsIff(s: State, t: nat)
    requires StateInv(s)
    ensures StateInv(DestroyTarget(s, t)) <==> !WaitedFor(s, t)
  {
    if WaitedFor(s, t) {
      var c :| c in s.callbacks && c.target == t;
      CallbackLost(s, c);
    } else {
      TargetUnused(s, t, DestroyTarget(s, t));
    }
  }

  lemma TargetUnused(s: State, t: nat, s': State)
    requires StateInv(s) && !WaitedFor(s, t) && s' == DestroyTarget(s, t)
    ensures StateInv(s')
  {
    WithoutTargetMembers(s.callbacks, t);
    SafeOf(s, s');
    ForgetMarks(s, Target(t));
    StillBusy(s, Target(t), s');
    assert s' == Forget(s, Target(t));
    hide SafeParts, Forget, WithoutTarget;
    FreedInv(s');
  }

  /** Where the helper of a target is freed first, as for XDG surfaces, no callback is lost. */
  lemma HelperFirst(s: State, h: nat, t: nat)
    requires StateInv(s) && h in s.records && forall c :: c in s.callbacks && c.target == t ==> c.helper == h
    ensures StateInv(DestroyTarget(FreeHelper(s, h), t))
  {
    var s1 := FreeHelper(s, h);
    FreeHelperKeeps(s, h, s1);
    WithoutHelperMembers(s.callbacks, h);
    hide StateInv, DestroyTarget;
    DestroyTargetKeepsIff(s1, t);
  }

  /** Where the target is destroyed first, as for icon surfaces, the helper can be left with a
      record whose callback is gone, and which it will still cancel when it is freed. */
  lemma TargetFirst(b: nat, t: nat, h: nat)
    ensures var s := ReleaseBuffer(Present(MakeHelper(Empty(), h), b, t), h, b, t);
      var c := Callback(b, t, h, 0);
      var s' := DestroyTarget(s, t);
      c in s.callbacks && h in s'.records && c in s'.records[h] && c !in s'.callbacks
  {
    var s0 := Present(MakeHelper(Empty(), h), b, t);
    assert s0.pending[0].For(b, t);
    var s := ReleaseBuffer(s0, h, b, t);
    var c := Callback(b, t, h, 0);
    assert s.callbacks == [c] && s.records[h] == [c];
    WithoutTargetMembers(s.callbacks, t);
  }
}
