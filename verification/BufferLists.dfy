/** The renderer's lists and the release helpers as the source changes them.  Each method does to
    the fields what BufferActivity says. */
module BufferLists {
  import opened BufferActivity
  import opened BufferDestroy

  class Renderer {
    var activity: seq<Mark>
    var pending: seq<Mark>
    var callbacks: seq<Callback>
    var records: map<nat, seq<Callback>>
    var lastId: nat
    var presentSerial: nat
    var given: nat
    var released: seq<nat>
    var allReleased: seq<nat>
    ghost var renders: seq<Mark>
    ghost var acked: nat
    ghost var presents: seq<Mark>
    ghost var noticed: seq<Mark>

    ghost function Value(): State
      reads this
    {
      State(activity, pending, callbacks, records, lastId, presentSerial,
            renders, acked, given, released, allReleased, presents, noticed)
    }

    constructor ()
      ensures Value() == Empty()
    {
      activity, pending, callbacks, records := [], [], [], map[];
      lastId, presentSerial, given, released, allReleased := 0, 0, 0, [], [];
      renders, acked, presents, noticed := [], 0, [], [];
    }

    method SendRoundtripMessage() returns (id: nat)
      modifies this`lastId
      ensures id == lastId == old(lastId) + 1
    {
      lastId := lastId + 1;
      id := lastId;
    }

    method FindMark(ms: seq<Mark>, b: nat, t: nat) returns (i: nat)
      ensures i == FindPending(ms, b, t)
    {
      i := 0;
      while i < |ms| && !ms[i].For(b, t)
        invariant 0 <= i <= |ms|
        invariant FindPending(ms, b, t) == i + FindPending(ms[i..], b, t)
      {
        assert ms[i..][1..] == ms[i + 1..] && ms[i..][0] == ms[i];
        i := i + 1;
      }
      if i < |ms| {
        assert ms[i..][0] == ms[i];
      }
    }

    method RecordBufferActivity(b: nat, t: nat, id: nat)
      modifies this`activity
      ensures activity == Record(old(activity), Mark(b, t, id))
    {
      var i := FindMark(activity, b, t);
      RecordAt(activity, Mark(b, t, id));
      if i == |activity| {
        activity := [Mark(b, t, id)] + activity;
      } else {
        activity := activity[i := Mark(b, t, id)];
      }
    }

    method FinishRender(t: nat, buffersUsed: seq<nat>)
      modifies this
      ensures Value() == BufferActivity.FinishRender(old(Value()), t, buffersUsed)
    {
      if buffersUsed == [] {
        return;
      }
      var id := SendRoundtripMessage();
      var i := 0;
      ghost var start := activity;
      while i < |buffersUsed|
        invariant 0 <= i <= |buffersUsed|
        invariant RecordAll(activity, buffersUsed[i..], t, id) == RecordAll(start, buffersUsed, t, id)
        invariant Value() == old(Value()).(lastId := id, activity := activity)
      {
        assert buffersUsed[i..][0] == buffersUsed[i] && buffersUsed[i..][1..] == buffersUsed[i + 1..];
        RecordBufferActivity(buffersUsed[i], t, id);
        i := i + 1;
      }
      renders := renders + MarksOf(buffersUsed, t, id);
    }

    method PresentToWindow(b: nat, t: nat)
      modifies this
      ensures Value() == Present(old(Value()), b, t)
    {
      hide Has, Update, Record, FindPending;
      presentSerial := presentSerial + 1;
      presents := presents + [Mark(b, t, presentSerial)];
      var i := FindMark(pending, b, t);
      RecordAt(pending, Mark(b, t, presentSerial));
      if i < |pending| {
        pending := pending[i := Mark(b, t, presentSerial)];
      } else {
        pending := [Mark(b, t, presentSerial)] + pending;
      }
    }

    method IsBufferIdle(b: nat, t: nat) returns (idle: bool)
      ensures idle == IsIdle(Value(), b, t)
    {
      var i := FindMark(activity, b, t);
      if i < |activity| {
        return false;
      }
      i := FindMark(pending, b, t);
      return i == |pending|;
    }

    method BufferIdleCallback(c: Callback)
      requires c.helper in records
      modifies this
      ensures Value() == BufferIdle(old(Value()), c)
    {
      released := released + [c.token];
      records := records[c.helper := DropCallback(records[c.helper], c.token)];
      if records[c.helper] == [] {
        allReleased := allReleased + [c.helper];
      }
    }

    method RunCallback(i: nat)
      requires i < |callbacks| && callbacks[i].helper in records
      modifies this
      ensures Value() == RunOne(old(Value()), i)
    {
      BufferIdleCallback(callbacks[i]);
      callbacks := callbacks[..i] + callbacks[i + 1..];
    }

    /** Every callback belongs to a helper that exists. */
    ghost predicate HelpersKnown()
      reads this
    {
      forall i :: 0 <= i < |callbacks| ==> callbacks[i].helper in records
    }

    method RunIdleCallbacks(b: nat, t: nat)
      requires HelpersKnown()
      modifies this
      ensures Value() == RunIdle(old(Value()), b, t, 0)
    {
      var i := 0;
      ghost var start := Value();
      while i < |callbacks|
        invariant 0 <= i <= |callbacks| && HelpersKnown()
        invariant RunIdle(Value(), b, t, i) == RunIdle(start, b, t, 0)
        decreases |callbacks| - i
      {
        if callbacks[i].For(b, t) {
          RunCallback(i);
        } else {
          i := i + 1;
        }
      }
    }

    method MaybeRunIdleCallbacks(b: nat, t: nat)
      requires SafeParts(Value())
      modifies this
      ensures Value() == MaybeRunIdle(old(Value()), b, t)
    {
      var idle := IsBufferIdle(b, t);
      if idle {
        RunIdleCallbacks(b, t);
      }
    }

    method HandleActivityEvent(counter: nat)
      requires SafeParts(Value()) && AllBusy(Value()) && counter == acked + 1
      modifies this
      ensures Value() == BufferActivity.HandleActivityEvent(old(Value()))
    {
      hide SafeParts, AllBusy, MaybeRunIdle;
      var i := 0;
      while i < |activity|
        invariant 0 <= i <= |activity|
        invariant SafeParts(Value()) && AllBusy(Value())
        invariant Acknowledge(Value(), counter, i) == Acknowledge(old(Value()), counter, 0)
        decreases |activity| - i
      {
        if activity[i].id == counter {
          var m := activity[i];
          ghost var before := Value();
          activity := activity[..i] + activity[i + 1..];
          AcknowledgeStep(before, i, Value(), MaybeRunIdle(Value(), m.buffer, m.target));
          MaybeRunIdleCallbacks(m.buffer, m.target);
        } else {
          i := i + 1;
        }
      }
      acked := counter;
    }

    method HandlePresentIdleNotify(b: nat, t: nat, serial: nat)
      requires SafeParts(Value())
      modifies this
      ensures Value() == HandleIdleNotify(old(Value()), b, t, serial)
    {
      hide SafeParts, MaybeRunIdle;
      if Mark(b, t, serial) in presents {
        noticed := noticed + [Mark(b, t, serial)];
      }
      var i := FindMark(pending, b, t);
      if i < |pending| && pending[i].id == serial {
        ghost var before := old(Value());
        pending := pending[..i] + pending[i + 1..];
        StillSafe(before, Value());
        MaybeRunIdleCallbacks(b, t);
      }
    }

    method ReleaseBufferWithHelper(h: nat, b: nat, t: nat)
      requires h in records
      modifies this
      ensures Value() == ReleaseWithHelper(old(Value()), h, b, t)
    {
      var c := Callback(b, t, h, given);
      given := given + 1;
      records := records[h := [c] + records[h]];
      callbacks := [c] + callbacks;
    }

    method ReleaseBuffer(h: nat, b: nat, t: nat)
      requires h in records
      modifies this
      ensures Value() == BufferActivity.ReleaseBuffer(old(Value()), h, b, t)
    {
      var idle := IsBufferIdle(b, t);
      if idle {
        released := released + [given];
        given := given + 1;
      } else {
        ReleaseBufferWithHelper(h, b, t);
      }
    }

    method MakeBufferReleaseHelper(h: nat)
      modifies this
      ensures Value() == MakeHelper(old(Value()), h)
    {
      records := records[h := []];
    }

    method CancelAndRelease(c: Callback)
      modifies this`callbacks, this`released
      ensures callbacks == DropCallback(old(callbacks), c.token) && released == old(released) + [c.token]
    {
      callbacks := DropCallback(callbacks, c.token);
      released := released + [c.token];
    }

    /** Cancels the callback of each record and releases its buffer. */
    method CancelAll(h: nat, rs: seq<Callback>)
      requires DistinctTokens(callbacks) && OfHelper(callbacks, h) == rs
      modifies this`callbacks, this`released
      ensures callbacks == WithoutHelper(old(callbacks), h) && released == old(released) + TokensOf(rs)
    {
      var i := 0;
      ghost var all, before := callbacks, released;
      while i < |rs|
        invariant 0 <= i <= |rs|
        invariant released == before + TokensOf(rs[..i])
        invariant DistinctTokens(callbacks) && OfHelper(callbacks, h) == rs[i..]
        invariant WithoutHelper(callbacks, h) == WithoutHelper(all, h)
      {
        hide *;
        FreeOne(callbacks, h, rs, i);
        CancelAndRelease(rs[i]);
        i := i + 1;
      }
      assert rs[..i] == rs;
      NoneLeft(callbacks, h);
    }

    method FreeBufferReleaseHelper(h: nat)
      requires h in records && RecordsMatch(Value()) && DistinctTokens(callbacks)
      modifies this
      ensures Value() == FreeHelper(old(Value()), h)
    {
      hide DistinctTokens, WithoutHelper, OfHelper, TokensOf;
      CancelAll(h, records[h]);
      records := records - {h};
    }

    method UnlinkMarks(ms: seq<Mark>, g: Gone) returns (left: seq<Mark>)
      ensures left == Without(ms, g)
    {
      left := [];
      for i := 0 to |ms|
        invariant left + Without(ms[i..], g) == Without(ms, g)
      {
        UnlinkStep(left, ms, i, g);
        if !g.Concerns(ms[i].buffer, ms[i].target) {
          left := left + [ms[i]];
        }
      }
      assert ms[|ms|..] == [];
    }

    method ForgetMarks(g: Gone)
      modifies `pending, `activity, `renders, `presents, `noticed
      ensures Value() == Forget(old(Value()), g)
    {
      hide Without;
      pending := UnlinkMarks(pending, g);
      activity := UnlinkMarks(activity, g);
      renders, presents, noticed := Without(renders, g), Without(presents, g), Without(noticed, g);
    }

    method FreeAnyBuffer(b: nat)
      requires HelpersKnown()
      modifies this
      ensures Value() == FreeBuffer(old(Value()), b)
    {
      ForgetMarks(Buffer(b));
      var i := 0;
      ghost var start := Value();
      hide Forget;
      while i < |callbacks|
        invariant 0 <= i <= |callbacks| && HelpersKnown()
        invariant RunAll(Value(), b, i) == RunAll(start, b, 0)
        decreases |callbacks| - i
      {
        if callbacks[i].buffer == b {
          RunCallback(i);
        } else {
          i := i + 1;
        }
      }
    }

    method UnlinkCallbacks(cs: seq<Callback>, t: nat) returns (left: seq<Callback>)
      ensures left == WithoutTarget(cs, t)
    {
      left := [];
      for i := 0 to |cs|
        invariant left + WithoutTarget(cs[i..], t) == WithoutTarget(cs, t)
      {
        UnlinkCallbackStep(left, cs, i, t);
        if cs[i].target != t {
          left := left + [cs[i]];
        }
      }
      assert cs[|cs|..] == [];
    }

    /** Callbacks that wait for the target are dropped and not run.  The source leaves them, freed, in
        the lists of their buffers. */
    method DestroyRenderTarget(t: nat)
      modifies `pending, `activity, `callbacks, `renders, `presents, `noticed
      ensures Value() == DestroyTarget(old(Value()), t)
    {
      hide Without, WithoutTarget;
      ForgetMarks(Target(t));
      callbacks := UnlinkCallbacks(callbacks, t);
    }
  }

  lemma UnlinkStep(left: seq<Mark>, ms: seq<Mark>, i: nat, g: Gone)
    requires i < |ms|
    ensures left + Without(ms[i..], g) ==
      (if g.Concerns(ms[i].buffer, ms[i].target) then left else left + [ms[i]]) + Without(ms[i + 1..], g)
  {
    assert ms[i..] == [ms[i]] + ms[i + 1..];
  }

  lemma UnlinkCallbackStep(left: seq<Callback>, cs: seq<Callback>, i: nat, t: nat)
    requires i < |cs|
    ensures left + WithoutTarget(cs[i..], t) == (if cs[i].target == t then left else left + [cs[i]])
        + WithoutTarget(cs[i + 1..], t)
  {
    assert cs[i..] == [cs[i]] + cs[i + 1..];
  }

  lemma StillSafe(s: State, s': State)
    requires SafeParts(s) && s' == s.(activity := s'.activity, pending := s'.pending, noticed := s'.noticed)
    ensures SafeParts(s')
  {
  }

  lemma AcknowledgeStep(s: State, i: nat, s1: State, s2: State)
    requires SafeParts(s) && AllBusy(s) && i < |s.activity| && s1 == DropMark(s, i)
    requires s2 == MaybeRunIdle(s1, s.activity[i].buffer, s.activity[i].target)
    ensures SafeParts(s1) && SafeParts(s2) && AllBusy(s2)
  {
    StillSafe(s, s1);
    hide SafeParts, MaybeRunIdle;
    AcknowledgeOne(s, i);
  }

  lemma {:induction false} RecordAt(ms: seq<Mark>, m: Mark)
    ensures var i := FindPending(ms, m.buffer, m.target);
      Record(ms, m) == if i == |ms| then [m] + ms else ms[i := m]
    ensures Has(ms, m.buffer, m.target) <==> FindPending(ms, m.buffer, m.target) < |ms|
  {
    var i := FindPending(ms, m.buffer, m.target);
    if i < |ms| {
      UpdateAt(ms, m);
    }
  }

  lemma {:induction false} UpdateAt(ms: seq<Mark>, m: Mark)
    requires FindPending(ms, m.buffer, m.target) < |ms|
    ensures Update(ms, m) == ms[FindPending(ms, m.buffer, m.target) := m]
  {
    if !ms[0].For(m.buffer, m.target) {
      UpdateAt(ms[1..], m);
    }
  }

  lemma {:induction false} TokensSnoc(cs: seq<Callback>, c: Callback)
    ensures TokensOf(cs + [c]) == TokensOf(cs) + [c.token]
  {
    if cs != [] {
      TokensSnoc(cs[1..], c);
      assert (cs + [c])[1..] == cs[1..] + [c];
    } else {
      var none: seq<Callback> := [];
      assert none + [c] == [c];
    }
  }

  lemma {:induction false} OfHelperMember(cs: seq<Callback>, h: nat)
    ensures forall c :: c in OfHelper(cs, h) ==> c in cs
  {
    if cs != [] {
      OfHelperMember(cs[1..], h);
      assert cs == [cs[0]] + cs[1..];
    }
  }

  lemma {:induction false} DropHelperCallback(cs: seq<Callback>, h: nat, c: Callback)
    requires DistinctTokens(cs) && OfHelper(cs, h) != [] && OfHelper(cs, h)[0] == c
    ensures DistinctTokens(DropCallback(cs, c.token))
    ensures WithoutHelper(DropCallback(cs, c.token), h) == WithoutHelper(cs, h)
    ensures OfHelper(DropCallback(cs, c.token), h) == OfHelper(cs, h)[1..]
  {
    var rest := cs[1..];
    if cs[0].helper == h {
      DropAt(cs, 0);
      assert cs[..0] + cs[1..] == rest;
    } else {
      assert DistinctTokens(rest) && OfHelper(cs, h) == OfHelper(rest, h);
      DropHelperCallback(rest, h, c);
      DropPastOther(cs, h, c, rest, DropCallback(rest, c.token));
    }
  }

  /** A callback of another helper stays in front. */
  lemma DropPastOther(cs: seq<Callback>, h: nat, c: Callback, rest: seq<Callback>, d: seq<Callback>)
    requires cs != [] && rest == cs[1..] && cs[0].helper != h && DistinctTokens(cs) && DistinctTokens(d)
    requires OfHelper(rest, h) != [] && OfHelper(rest, h)[0] == c && d == DropCallback(rest, c.token)
    ensures DropCallback(cs, c.token) == [cs[0]] + d && DistinctTokens([cs[0]] + d)
    ensures WithoutHelper([cs[0]] + d, h) == [cs[0]] + WithoutHelper(d, h)
    ensures OfHelper([cs[0]] + d, h) == OfHelper(d, h)
  {
    OfHelperMember(rest, h);
    assert c in OfHelper(rest, h);
    hide OfHelper, WithoutHelper;
    OthersToken(cs, rest, c);
    DropCallbackMember(rest, c.token);
    forall x | x in d
      ensures x.token != cs[0].token
    {
      OthersToken(cs, rest, x);
    }
    hide DistinctTokens;
    ConsDistinct(cs[0], d);
    ConsOther(cs[0], d, h);
  }

  lemma ConsOther(c: Callback, d: seq<Callback>, h: nat)
    requires c.helper != h
    ensures WithoutHelper([c] + d, h) == [c] + WithoutHelper(d, h) && OfHelper([c] + d, h) == OfHelper(d, h)
  {
    assert ([c] + d)[1..] == d;
  }

  lemma OthersToken(cs: seq<Callback>, rest: seq<Callback>, x: Callback)
    requires cs != [] && rest == cs[1..] && DistinctTokens(cs) && x in rest
    ensures x.token != cs[0].token
  {
    var j :| 0 <= j < |rest| && rest[j] == x;
    assert cs[j + 1] == x;
  }

  lemma FreeOne(cs: seq<Callback>, h: nat, rs: seq<Callback>, i: nat)
    requires DistinctTokens(cs) && i < |rs| && OfHelper(cs, h) == rs[i..]
    ensures var cs' := DropCallback(cs, rs[i].token);
      DistinctTokens(cs') && OfHelper(cs', h) == rs[i + 1..] && WithoutHelper(cs', h) == WithoutHelper(cs, h)
    ensures TokensOf(rs[..i + 1]) == TokensOf(rs[..i]) + [rs[i].token]
  {
    DropHelperCallback(cs, h, rs[i]);
    assert rs[..i + 1] == rs[..i] + [rs[i]];
    TokensSnoc(rs[..i], rs[i]);
    assert rs[i..][1..] == rs[i + 1..];
  }

  lemma {:induction false} DropCallbackMember(cs: seq<Callback>, token: nat)
    ensures forall c :: c in DropCallback(cs, token) ==> c in cs
  {
    if cs != [] {
      DropCallbackMember(cs[1..], token);
      assert cs == [cs[0]] + cs[1..];
    }
  }

  lemma {:induction false} NoneLeft(cs: seq<Callback>, h: nat)
    requires OfHelper(cs, h) == []
    ensures WithoutHelper(cs, h) == cs
  {
    if cs != [] {
      NoneLeft(cs[1..], h);
    }
  }
}
