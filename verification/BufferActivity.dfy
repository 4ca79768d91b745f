/** When client buffers may be released: the renderer's activity and presentation records, its
    idle callbacks, and the helpers that release a buffer from such a callback.  Lists are
    kept as in the source, newest first. */
module BufferActivity {

  /** A buffer was drawn to a target before round trip id, or presented with serial id. */
  datatype Mark = Mark(buffer: nat, target: nat, id: nat) {
    predicate For(b: nat, t: nat) { buffer == b && target == t }
  }

  /** The idle callback of a helper's record; tokens number the buffers given to helpers. */
  datatype Callback = Callback(buffer: nat, target: nat, helper: nat, token: nat) {
    predicate For(b: nat, t: nat) { buffer == b && target == t }
  }

  /** The renderer's lists and counters and the helpers' records; then, as history, the renders
      of existing buffers, the last acknowledged round trip, how many buffers have been given to
      helpers, the tokens of those released, the all-released callbacks run, the presentations,
      and those of them for which an idle notice has come. */
  datatype State = State(
    activity: seq<Mark>, pending: seq<Mark>, callbacks: seq<Callback>, records: map<nat, seq<Callback>>,
    lastId: nat, serial: nat,
    renders: seq<Mark>, acked: nat, given: nat, released: seq<nat>, allReleased: seq<nat>,
    presents: seq<Mark>, noticed: seq<Mark>)

  function Empty(): State {
    State([], [], [], map[], 0, 0, [], 0, 0, [], [], [], [])
  }

  predicate Has(ms: seq<Mark>, b: nat, t: nat) {
    exists i :: 0 <= i < |ms| && ms[i].For(b, t)
  }

  /** Nothing is known to be under way for b on t. */
  predicate IsIdle(s: State, b: nat, t: nat) {
    !Has(s.activity, b, t) && !Has(s.pending, b, t)
  }

  /** The mark for the same buffer and target gets a new id, or a new mark is put in front. */
  function Record(ms: seq<Mark>, m: Mark): seq<Mark> {
    if Has(ms, m.buffer, m.target) then Update(ms, m) else [m] + ms
  }

  function Update(ms: seq<Mark>, m: Mark): seq<Mark> {
    if ms == [] then []
    else if ms[0].For(m.buffer, m.target) then [m] + ms[1..]
    else [ms[0]] + Update(ms[1..], m)
  }

  function RecordAll(ms: seq<Mark>, bs: seq<nat>, t: nat, id: nat): seq<Mark>
    decreases |bs|
  {
    if bs == [] then ms else RecordAll(Record(ms, Mark(bs[0], t, id)), bs[1..], t, id)
  }

  function MarksOf(bs: seq<nat>, t: nat, id: nat): seq<Mark> {
    if bs == [] then [] else [Mark(bs[0], t, id)] + MarksOf(bs[1..], t, id)
  }

  function FinishRender(s: State, t: nat, bs: seq<nat>): State {
    if bs == [] then s
    else
      var id := s.lastId + 1;
      s.(lastId := id, activity := RecordAll(s.activity, bs, t, id), renders := s.renders + MarksOf(bs, t, id))
  }

  function Present(s: State, b: nat, t: nat): State {
    var m := Mark(b, t, s.serial + 1);
    s.(serial := s.serial + 1, pending := Record(s.pending, m), presents := s.presents + [m])
  }

  function DropCallback(cs: seq<Callback>, token: nat): seq<Callback> {
    if cs == [] then []
    else (if cs[0].token == token then [] else [cs[0]]) + DropCallback(cs[1..], token)
  }

  /** The helper's idle callback: release the buffer, drop the record, and tell when it was the
      last one. */
  function BufferIdle(s: State, c: Callback): State {
    var rs := DropCallback(if c.helper in s.records then s.records[c.helper] else [], c.token);
    s.(released := s.released + [c.token],
       records := s.records[c.helper := rs],
       allReleased := if rs == [] then s.allReleased + [c.helper] else s.allReleased)
  }

  /** Runs and removes the callbacks for b on t from position i on. */
  function RunIdle(s: State, b: nat, t: nat, i: nat): (r: State)
    requires i <= |s.callbacks|
    ensures r.activity == s.activity && r.pending == s.pending
    ensures r.renders == s.renders && r.acked == s.acked && r.lastId == s.lastId
    ensures r.given == s.given && r.serial == s.serial
    ensures r.presents == s.presents && r.noticed == s.noticed
    decreases |s.callbacks| - i
  {
    if i == |s.callbacks| then s
    else if s.callbacks[i].For(b, t) then RunIdle(RunOne(s, i), b, t, i)
    else RunIdle(s, b, t, i + 1)
  }

  /** Runs the callback at i and takes it off the list. */
  function RunOne(s: State, i: nat): State
    requires i < |s.callbacks|
  {
    BufferIdle(s, s.callbacks[i]).(callbacks := s.callbacks[..i] + s.callbacks[i + 1..])
  }

  function MaybeRunIdle(s: State, b: nat, t: nat): (r: State)
    ensures r.activity == s.activity && r.pending == s.pending
    ensures r.renders == s.renders && r.acked == s.acked && r.lastId == s.lastId
    ensures r.given == s.given && r.serial == s.serial
    ensures r.presents == s.presents && r.noticed == s.noticed
  {
    if IsIdle(s, b, t) then RunIdle(s, b, t, 0) else s
  }

  function DropMark(s: State, i: nat): State
    requires i < |s.activity|
  {
    s.(activity := s.activity[..i] + s.activity[i + 1..])
  }

  /** Round trip id has come back: records that carry it are dropped, from position i on. */
  function Acknowledge(s: State, id: nat, i: nat): State
    requires i <= |s.activity|
    decreases |s.activity| - i
  {
    if i == |s.activity| then s
    else if s.activity[i].id == id then
      Acknowledge(MaybeRunIdle(DropMark(s, i), s.activity[i].buffer, s.activity[i].target), id, i)
    else Acknowledge(s, id, i + 1)
  }

  /** The next round trip message comes back; the server answers them in order. */
  function HandleActivityEvent(s: State): State {
    Acknowledge(s, s.acked + 1, 0).(acked := s.acked + 1)
  }

  /** The first presentation of the pixmap of b on t, or the number of presentations. */
  function FindPending(ms: seq<Mark>, b: nat, t: nat): (i: nat)
    ensures i <= |ms| && (i < |ms| ==> ms[i].For(b, t))
    ensures forall k :: 0 <= k < i ==> !ms[k].For(b, t)
  {
    if ms == [] || ms[0].For(b, t) then 0 else 1 + FindPending(ms[1..], b, t)
  }

  /** That a notice has come is noted if what it is for is known, and not of a buffer or target that
      is gone. */
  function NoteNotice(s: State, m: Mark): State {
    if m in s.presents then s.(noticed := s.noticed + [m]) else s
  }

  /** An idle notice counts only if it is for the newest presentation of the pixmap. */
  function HandleIdleNotify(s: State, b: nat, t: nat, serial: nat): State {
    var i, s1 := FindPending(s.pending, b, t), NoteNotice(s, Mark(b, t, serial));
    if i < |s.pending| && s.pending[i].id == serial then
      MaybeRunIdle(s1.(pending := s.pending[..i] + s.pending[i + 1..]), b, t)
    else s1
  }

  /** A buffer is given to a helper, which is done only while the buffer is not idle. */
  function ReleaseWithHelper(s: State, h: nat, b: nat, t: nat): State
    requires h in s.records
  {
    var c := Callback(b, t, h, s.given);
    s.(given := s.given + 1, callbacks := [c] + s.callbacks, records := s.records[h := [c] + s.records[h]])
  }

  /** A surface lets go of a buffer: it is released at once if it is idle. */
  function ReleaseBuffer(s: State, h: nat, b: nat, t: nat): State
    requires h in s.records
  {
    if IsIdle(s, b, t) then s.(given := s.given + 1, released := s.released + [s.given])
    else ReleaseWithHelper(s, h, b, t)
  }

  function MakeHelper(s: State, h: nat): State {
    s.(records := s.records[h := []])
  }

  function TokensOf(cs: seq<Callback>): seq<nat> {
    if cs == [] then [] else [cs[0].token] + TokensOf(cs[1..])
  }

  function WithoutHelper(cs: seq<Callback>, h: nat): seq<Callback> {
    if cs == [] then [] else (if cs[0].helper == h then [] else [cs[0]]) + WithoutHelper(cs[1..], h)
  }

  /** A helper goes away: its callbacks are cancelled and its buffers released at once. */
  function FreeHelper(s: State, h: nat): State
    requires h in s.records
  {
    s.(callbacks := WithoutHelper(s.callbacks, h), released := s.released + TokensOf(s.records[h]),
       records := s.records - {h})
  }

  // ----- invariants -----

  /** The records of a helper are its callbacks. */
  function OfHelper(cs: seq<Callback>, h: nat): seq<Callback> {
    if cs == [] then [] else (if cs[0].helper == h then [cs[0]] else []) + OfHelper(cs[1..], h)
  }

  ghost predicate RecordsMatch(s: State) {
    && (forall i :: 0 <= i < |s.callbacks| ==> s.callbacks[i].helper in s.records)
    && (forall h :: h in s.records ==> s.records[h] == OfHelper(s.callbacks, h))
  }

  function Numbers(n: nat): seq<nat> {
    if n == 0 then [] else Numbers(n - 1) + [n - 1]
  }

  /** Every buffer given has been released once or will be by its one callback. */
  ghost predicate Accounted(s: State) {
    && (forall i, j :: 0 <= i < j < |s.callbacks| ==> s.callbacks[i].token != s.callbacks[j].token)
    && multiset(s.released) + multiset(TokensOf(s.callbacks)) == multiset(Numbers(s.given))
  }

  ghost predicate AtMostOne(ms: seq<Mark>) {
    forall i, j :: 0 <= i < j < |ms| ==> !ms[i].For(ms[j].buffer, ms[j].target)
  }

  /** The activity records are exactly the newest renders that are not acknowledged. */
  ghost predicate Tracks(activity: seq<Mark>, renders: seq<Mark>, acked: nat) {
    && AtMostOne(activity)
    && (forall i :: 0 <= i < |activity| ==> activity[i] in renders && activity[i].id > acked)
    && (forall i, r :: 0 <= i < |activity| && r in renders && activity[i].For(r.buffer, r.target) ==>
          r.id <= activity[i].id)
    && (forall r :: r in renders && r.id > acked ==> Has(activity, r.buffer, r.target))
  }

  /** Every callback waits for something. */
  ghost predicate AllBusy(s: State) {
    forall i :: 0 <= i < |s.callbacks| ==> !IsIdle(s, s.callbacks[i].buffer, s.callbacks[i].target)
  }

  ghost predicate UpTo(ms: seq<Mark>, id: nat) {
    forall m :: m in ms ==> m.id <= id
  }

  /** The presentation is the newest of its buffer on its target. */
  ghost predicate Newest(presents: seq<Mark>, p: Mark) {
    p in presents && forall q :: q in presents && q.For(p.buffer, p.target) ==> q.id <= p.id
  }

  /** The pending presentations are exactly the newest ones of a buffer on a target for which no
      notice has come. */
  ghost predicate Awaits(pending: seq<Mark>, presents: seq<Mark>, noticed: seq<Mark>) {
    && AtMostOne(pending)
    && (forall m :: m in pending ==> Newest(presents, m) && m !in noticed)
    && (forall p :: Newest(presents, p) && p !in noticed ==> p in pending)
    && (forall m :: m in noticed ==> m in presents)
  }

  ghost predicate MarksOK(s: State) {
    && Tracks(s.activity, s.renders, s.acked) && s.acked <= s.lastId && UpTo(s.renders, s.lastId)
    && Awaits(s.pending, s.presents, s.noticed) && UpTo(s.presents, s.serial)
  }

  ghost predicate StateInv(s: State) {
    RecordsMatch(s) && Accounted(s) && AllBusy(s) && MarksOK(s)
  }

  // ----- running callbacks -----

  lemma {:induction false} DropAt(cs: seq<Callback>, i: nat)
    requires i < |cs|
    requires forall a, b :: 0 <= a < b < |cs| ==> cs[a].token != cs[b].token
    ensures DropCallback(cs, cs[i].token) == cs[..i] + cs[i + 1..]
  {
    if i == 0 {
      DropNone(cs[1..], cs[0].token);
    } else {
      DropAt(cs[1..], i - 1);
    }
  }

  lemma {:induction false} DropNone(cs: seq<Callback>, token: nat)
    requires forall a :: 0 <= a < |cs| ==> cs[a].token != token
    ensures DropCallback(cs, token) == cs
  {
    if cs != [] {
      DropNone(cs[1..], token);
    }
  }

  lemma {:induction false} DropOfHelper(cs: seq<Callback>, h: nat, token: nat)
    ensures OfHelper(DropCallback(cs, token), h) == DropCallback(OfHelper(cs, h), token)
  {
    if cs != [] {
      DropOfHelper(cs[1..], h, token);
      var d := DropCallback(cs[1..], token);
      assert [] + d == d && ([cs[0]] + d)[1..] == d;
      var o := OfHelper(cs[1..], h);
      assert [] + o == o && ([cs[0]] + o)[1..] == o;
    }
  }

  lemma {:induction false} OfOtherHelper(cs: seq<Callback>, h: nat, i: nat)
    requires i < |cs| && cs[i].helper != h
    ensures OfHelper(cs[..i] + cs[i + 1..], h) == OfHelper(cs, h)
  {
    if i == 0 {
      assert cs[..0] + cs[1..] == cs[1..];
    } else {
      OfOtherHelper(cs[1..], h, i - 1);
      var d := cs[..i] + cs[i + 1..];
      assert d[1..] == cs[1..][..i - 1] + cs[1..][i..];
    }
  }

  lemma {:induction false} TokensAt(cs: seq<Callback>, i: nat)
    requires i < |cs|
    ensures multiset(TokensOf(cs)) == multiset(TokensOf(cs[..i] + cs[i + 1..])) + multiset{cs[i].token}
  {
    hide TokensOf;
    var c, rest := cs[0], cs[1..];
    assert cs == [c] + rest;
    TokensCons(c, rest);
    if i == 0 {
      assert cs[..0] + rest == rest;
    } else {
      TokensAt(rest, i - 1);
      var d := rest[..i - 1] + rest[i..];
      assert cs[..i] + cs[i + 1..] == [c] + d;
      TokensCons(c, d);
    }
  }

  /** An all-released callback has run for exactly the helpers that lost their last record. */
  ghost predicate Told(s: State, s': State) {
    forall h :: h in s.records ==>
      && h in s'.records && (s.records[h] == [] ==> s'.records[h] == [])
      && multiset(s'.allReleased)[h]
         == multiset(s.allReleased)[h] + if s.records[h] != [] && s'.records[h] == [] then 1 else 0
  }

  lemma RunOneMatches(s: State, i: nat)
    requires RecordsMatch(s) && Accounted(s) && i < |s.callbacks|
    ensures RecordsMatch(RunOne(s, i)) && Told(s, RunOne(s, i))
  {
    var c, s' := s.callbacks[i], RunOne(s, i);
    DropAt(s.callbacks, i);
    hide Accounted, TokensOf, Numbers, DropCallback, OfHelper;
    DropOfHelper(s.callbacks, c.helper, c.token);
    forall h | h in s.records && h != c.helper
      ensures OfHelper(s'.callbacks, h) == OfHelper(s.callbacks, h)
    {
      OfOtherHelper(s.callbacks, h, i);
    }
    RecordsStill(s, c, s');
    hide RecordsMatch;
    RunOneTold(s, i);
  }

  lemma RecordsStill(s: State, c: Callback, s': State)
    requires RecordsMatch(s) && c.helper in s.records
    requires s'.records == s.records[c.helper := OfHelper(s'.callbacks, c.helper)]
    requires forall h :: h in s.records && h != c.helper ==> OfHelper(s'.callbacks, h) == OfHelper(s.callbacks, h)
    requires forall d :: d in s'.callbacks ==> d in s.callbacks
    ensures RecordsMatch(s')
  {
    hide OfHelper;
    forall i | 0 <= i < |s'.callbacks|
      ensures s'.callbacks[i].helper in s'.records
    {
      assert s'.callbacks[i] in s'.callbacks;
      var k :| 0 <= k < |s.callbacks| && s.callbacks[k] == s'.callbacks[i];
    }
  }

  lemma RunOneTold(s: State, i: nat)
    requires RecordsMatch(s) && i < |s.callbacks|
    ensures Told(s, RunOne(s, i))
  {
    OfHelperHas(s.callbacks, i);
  }

  lemma RunOneAccounted(s: State, i: nat)
    requires Accounted(s) && i < |s.callbacks|
    ensures Accounted(RunOne(s, i))
  {
    hide TokensOf, Numbers, DropCallback;
    var s' := RunOne(s, i);
    TokensAt(s.callbacks, i);
    forall a, b | 0 <= a < b < |s'.callbacks|
      ensures s'.callbacks[a].token != s'.callbacks[b].token
    {
      var a0 := if a < i then a else a + 1;
      var b0 := if b < i then b else b + 1;
      assert s'.callbacks[a] == s.callbacks[a0] && s'.callbacks[b] == s.callbacks[b0];
    }
  }

  lemma ToldTransitive(a: State, b: State, c: State)
    requires Told(a, b) && Told(b, c)
    ensures Told(a, c)
  {
  }

  ghost predicate SafeParts(s: State) {
    RecordsMatch(s) && Accounted(s)
  }

  /** s' came from s by running callbacks. */
  ghost predicate Ran(s: State, s': State) {
    SafeParts(s') && Told(s, s')
  }

  lemma RunOneRan(s: State, i: nat)
    requires SafeParts(s) && i < |s.callbacks|
    ensures Ran(s, RunOne(s, i))
  {
    RunOneMatches(s, i);
    RunOneAccounted(s, i);
  }

  lemma RanTransitive(a: State, b: State, c: State)
    requires Ran(a, b) && Ran(b, c)
    ensures Ran(a, c)
  {
    ToldTransitive(a, b, c);
  }

  lemma {:induction false} RunIdleRan(s: State, b: nat, t: nat, i: nat, s': State)
    requires SafeParts(s) && i <= |s.callbacks| && s' == RunIdle(s, b, t, i)
    ensures Ran(s, s')
    decreases |s.callbacks| - i
  {
    if i < |s.callbacks| {
      if s.callbacks[i].For(b, t) {
        var s1 := RunOne(s, i);
        RunOneRan(s, i);
        RunIdleRan(s1, b, t, i, s');
        RanTransitive(s, s1, s');
      } else {
        RunIdleRan(s, b, t, i + 1, s');
      }
    }
  }

  /** Running the callbacks for b on t removes just those. */
  lemma {:induction false} RunIdleRemoves(s: State, b: nat, t: nat, i: nat)
    requires i <= |s.callbacks|
    requires forall k :: 0 <= k < i ==> !s.callbacks[k].For(b, t)
    ensures forall c :: c in RunIdle(s, b, t, i).callbacks <==> c in s.callbacks && !c.For(b, t)
    decreases |s.callbacks| - i
  {
    if i < |s.callbacks| {
      if s.callbacks[i].For(b, t) {
        var s1 := RunOne(s, i);
        RunIdleRemoves(s1, b, t, i);
        assert s.callbacks == s.callbacks[..i] + [s.callbacks[i]] + s.callbacks[i + 1..];
      } else {
        RunIdleRemoves(s, b, t, i + 1);
      }
    } else {
      forall c | c in s.callbacks
        ensures !c.For(b, t)
      {
      }
    }
  }

  /** If all callbacks for other buffers and targets wait for something, then afterwards all
      do, and those gone were for an idle buffer. */
  lemma MaybeRunIdleOK(s: State, b: nat, t: nat)
    requires SafeParts(s)
    requires forall c :: c in s.callbacks && !c.For(b, t) ==> !IsIdle(s, c.buffer, c.target)
    ensures var s' := MaybeRunIdle(s, b, t);
      && SafeParts(s') && Told(s, s') && AllBusy(s')
      && (forall c :: c in s'.callbacks <==> c in s.callbacks && !IsIdle(s', c.buffer, c.target))
  {
    if IsIdle(s, b, t) {
      RunIdleRan(s, b, t, 0, RunIdle(s, b, t, 0));
      RunIdleRemoves(s, b, t, 0);
    }
    var s' := MaybeRunIdle(s, b, t);
    forall c | c in s.callbacks
      ensures c in s'.callbacks <==> !IsIdle(s', c.buffer, c.target)
    {
      assert IsIdle(s', c.buffer, c.target) <==> IsIdle(s, c.buffer, c.target);
    }
    forall k | 0 <= k < |s'.callbacks|
      ensures !IsIdle(s', s'.callbacks[k].buffer, s'.callbacks[k].target)
    {
      assert s'.callbacks[k] in s'.callbacks;
    }
  }

  lemma {:induction false} OfHelperHas(cs: seq<Callback>, i: nat)
    requires i < |cs|
    ensures OfHelper(cs, cs[i].helper) != []
  {
    if i > 0 {
      OfHelperHas(cs[1..], i - 1);
    }
  }

  // ----- acknowledgements -----

  lemma DropMarkBusy(s: State, i: nat, b: nat, t: nat)
    requires i < |s.activity| && !s.activity[i].For(b, t)
    ensures IsIdle(DropMark(s, i), b, t) <==> IsIdle(s, b, t)
  {
    var s1 := DropMark(s, i);
    if Has(s.activity, b, t) {
      var k :| 0 <= k < |s.activity| && s.activity[k].For(b, t);
      assert s1.activity[if k < i then k else k - 1] == s.activity[k];
    }
    if Has(s1.activity, b, t) {
      var k :| 0 <= k < |s1.activity| && s1.activity[k].For(b, t);
      assert s1.activity[k] == s.activity[if k < i then k else k + 1];
    }
  }

  lemma DropMarkHas(s: State, i: nat, b: nat, t: nat)
    requires i < |s.activity|
    ensures Has(DropMark(s, i).activity, b, t) ==> Has(s.activity, b, t)
  {
    var s1 := DropMark(s, i);
    if Has(s1.activity, b, t) {
      var k :| 0 <= k < |s1.activity| && s1.activity[k].For(b, t);
      assert s1.activity[k] == s.activity[if k < i then k else k + 1];
    }
  }

  /** What one pass over the activity records leaves true. */
  ghost predicate Passed(s: State, s': State) {
    && SafeParts(s') && Told(s, s') && AllBusy(s')
    && (forall c :: c in s'.callbacks <==> c in s.callbacks && !IsIdle(s', c.buffer, c.target))
    && (forall b, t :: IsIdle(s, b, t) ==> IsIdle(s', b, t))
    && s'.pending == s.pending && s'.renders == s.renders && s'.acked == s.acked
    && s'.lastId == s.lastId && s'.given == s.given && s'.serial == s.serial
    && s'.presents == s.presents && s'.noticed == s.noticed
  }

  lemma PassedTransitive(a: State, b: State, c: State)
    requires Passed(a, b) && Passed(b, c)
    ensures Passed(a, c)
  {
    ToldTransitive(a, b, c);
  }

  lemma PassedReflexive(s: State)
    requires SafeParts(s) && AllBusy(s)
    ensures Passed(s, s)
  {
    forall c | c in s.callbacks
      ensures !IsIdle(s, c.buffer, c.target)
    {
      var i :| 0 <= i < |s.callbacks| && s.callbacks[i] == c;
    }
  }

  /** Dropping one record and running callbacks for its buffer and target. */
  lemma AcknowledgeOne(s: State, i: nat)
    requires SafeParts(s) && AllBusy(s) && i < |s.activity|
    ensures Passed(s, MaybeRunIdle(DropMark(s, i), s.activity[i].buffer, s.activity[i].target))
  {
    var m, s1 := s.activity[i], DropMark(s, i);
    forall c | c in s1.callbacks && !c.For(m.buffer, m.target)
      ensures !IsIdle(s1, c.buffer, c.target)
    {
      var k :| 0 <= k < |s.callbacks| && s.callbacks[k] == c;
      DropMarkBusy(s, i, c.buffer, c.target);
    }
    MaybeRunIdleOK(s1, m.buffer, m.target);
    var s' := MaybeRunIdle(s1, m.buffer, m.target);
    forall b, t | IsIdle(s, b, t)
      ensures IsIdle(s', b, t)
    {
      DropMarkHas(s, i, b, t);
    }
    assert Told(s, s1);
    ToldTransitive(s, s1, s');
  }

  lemma {:induction false} AcknowledgePasses(s: State, id: nat, i: nat)
    requires SafeParts(s) && AllBusy(s) && i <= |s.activity|
    ensures Passed(s, Acknowledge(s, id, i))
    decreases |s.activity| - i
  {
    if i == |s.activity| {
      PassedReflexive(s);
    } else if s.activity[i].id == id {
      var s1 := MaybeRunIdle(DropMark(s, i), s.activity[i].buffer, s.activity[i].target);
      AcknowledgeOne(s, i);
      AcknowledgePasses(s1, id, i);
      PassedTransitive(s, s1, Acknowledge(s1, id, i));
    } else {
      AcknowledgePasses(s, id, i + 1);
    }
  }

  /** The marks with another id, in order. */
  function Keep(ms: seq<Mark>, id: nat): seq<Mark> {
    if ms == [] then [] else (if ms[0].id == id then [] else [ms[0]]) + Keep(ms[1..], id)
  }

  lemma {:induction false} AcknowledgeDrops(s: State, id: nat, i: nat)
    requires i <= |s.activity|
    ensures Acknowledge(s, id, i).activity == s.activity[..i] + Keep(s.activity[i..], id)
    decreases |s.activity| - i
  {
    if i < |s.activity| {
      assert s.activity[i..][1..] == s.activity[i + 1..];
      if s.activity[i].id == id {
        var s1 := MaybeRunIdle(DropMark(s, i), s.activity[i].buffer, s.activity[i].target);
        assert s1.activity[..i] == s.activity[..i] && s1.activity[i..] == s.activity[i + 1..];
        AcknowledgeDrops(s1, id, i);
      } else {
        AcknowledgeDrops(s, id, i + 1);
        assert s.activity[..i + 1] == s.activity[..i] + [s.activity[i]];
      }
    }
  }

  lemma {:induction false} KeepMembers(ms: seq<Mark>, id: nat)
    ensures forall m :: m in Keep(ms, id) <==> m in ms && m.id != id
    ensures AtMostOne(ms) ==> AtMostOne(Keep(ms, id))
  {
    if ms != [] {
      KeepMembers(ms[1..], id);
      assert ms == [ms[0]] + ms[1..];
      if AtMostOne(ms) {
        var k := Keep(ms, id);
        forall i, j | 0 <= i < j < |k|
          ensures !k[i].For(k[j].buffer, k[j].target)
        {
          if ms[0].id != id {
            assert k[j] in Keep(ms[1..], id);
            var j0 :| 0 <= j0 < |ms[1..]| && ms[1..][j0] == k[j];
            assert ms[j0 + 1] == k[j];
          }
        }
      }
    }
  }

  /** When a round trip comes back, callbacks run for exactly the buffers that have become
      idle, and each helper whose last record went is told once. */
  lemma HandleActivityEventOK(s: State)
    requires StateInv(s) && s.acked < s.lastId
    ensures StateInv(HandleActivityEvent(s)) && Exactly(s, HandleActivityEvent(s))
  {
    var s1, s' := Acknowledge(s, s.acked + 1, 0), HandleActivityEvent(s);
    AcknowledgePasses(s, s.acked + 1, 0);
    OnlyAcked(s, s1, s');
    AcknowledgeTracks(s, s');
  }

  lemma AcknowledgeTracks(s: State, s': State)
    requires Tracks(s.activity, s.renders, s.acked)
    requires s' == HandleActivityEvent(s)
    ensures Tracks(s'.activity, s.renders, s.acked + 1)
  {
    hide Tracks, Keep, Acknowledge;
    AcknowledgeDrops(s, s.acked + 1, 0);
    assert s.activity[..0] + Keep(s.activity[0..], s.acked + 1) == Keep(s.activity, s.acked + 1);
    TracksNext(s.activity, s.renders, s.acked);
  }

  /** The callbacks that are gone are those whose buffers are idle now, and helpers without
      records have been told. */
  ghost predicate Exactly(s: State, s': State) {
    && Told(s, s')
    && (forall c :: c in s'.callbacks <==> c in s.callbacks && !IsIdle(s', c.buffer, c.target))
  }

  lemma OnlyAcked(s: State, s1: State, s': State)
    requires Passed(s, s1) && s' == s1.(acked := s'.acked)
    ensures SafeParts(s') && AllBusy(s') && Exactly(s, s')
  {
    assert SafeParts(s');
    assert AllBusy(s');
    assert Told(s, s');
    forall c
      ensures c in s'.callbacks <==> c in s.callbacks && !IsIdle(s', c.buffer, c.target)
    {
      assert IsIdle(s', c.buffer, c.target) <==> IsIdle(s1, c.buffer, c.target);
    }
  }

  lemma HasMember(ms: seq<Mark>, b: nat, t: nat)
    ensures Has(ms, b, t) <==> exists m :: m in ms && m.For(b, t)
  {
    if Has(ms, b, t) {
      var i :| 0 <= i < |ms| && ms[i].For(b, t);
      assert ms[i] in ms;
    }
  }

  lemma TracksNext(activity: seq<Mark>, renders: seq<Mark>, acked: nat)
    requires Tracks(activity, renders, acked)
    ensures Tracks(Keep(activity, acked + 1), renders, acked + 1)
  {
    var kept := Keep(activity, acked + 1);
    KeepMembers(activity, acked + 1);
    forall i | 0 <= i < |kept|
      ensures kept[i] in renders && kept[i].id > acked + 1
      ensures forall r :: r in renders && kept[i].For(r.buffer, r.target) ==> r.id <= kept[i].id
    {
      assert kept[i] in kept;
      var j :| 0 <= j < |activity| && activity[j] == kept[i];
    }
    forall r | r in renders && r.id > acked + 1
      ensures Has(kept, r.buffer, r.target)
    {
      assert Has(activity, r.buffer, r.target);
      var j :| 0 <= j < |activity| && activity[j].For(r.buffer, r.target);
      assert activity[j] in kept;
    }
  }

  // ----- renders and presentations -----

  lemma {:induction false} UpdateKeeps(ms: seq<Mark>, m: Mark)
    requires AtMostOne(ms) && Has(ms, m.buffer, m.target)
    ensures AtMostOne(Update(ms, m)) && |Update(ms, m)| == |ms|
    ensures forall k :: k in Update(ms, m) <==> k == m || (k in ms && !k.For(m.buffer, m.target))
    ensures forall i :: 0 <= i < |ms| ==> Update(ms, m)[i].For(ms[i].buffer, ms[i].target)
  {
    var rest := ms[1..];
    assert ms == [ms[0]] + rest;
    if ms[0].For(m.buffer, m.target) {
      forall k | k in rest
        ensures !k.For(m.buffer, m.target)
      {
        var i :| 0 <= i < |rest| && rest[i] == k;
        assert ms[i + 1] == k;
      }
    } else {
      var i :| 0 <= i < |ms| && ms[i].For(m.buffer, m.target);
      assert rest[i - 1] == ms[i];
      UpdateKeeps(rest, m);
      forall j | 0 <= j < |rest|
        ensures !ms[0].For(Update(rest, m)[j].buffer, Update(rest, m)[j].target)
      {
        assert Update(rest, m)[j].For(rest[j].buffer, rest[j].target) && rest[j] == ms[j + 1];
      }
    }
  }

  lemma RecordKeeps(ms: seq<Mark>, m: Mark)
    requires AtMostOne(ms)
    ensures AtMostOne(Record(ms, m))
    ensures forall k :: k in Record(ms, m) <==> k == m || (k in ms && !k.For(m.buffer, m.target))
    ensures forall b, t :: Has(Record(ms, m), b, t) <==> Has(ms, b, t) || m.For(b, t)
  {
    if Has(ms, m.buffer, m.target) {
      UpdateKeeps(ms, m);
    } else {
      var ms' := [m] + ms;
      forall i, j | 0 <= i < j < |ms'|
        ensures !ms'[i].For(ms'[j].buffer, ms'[j].target)
      {
        assert ms'[j] == ms[j - 1];
        if i > 0 { assert ms'[i] == ms[i - 1]; }
      }
      forall k | k in ms
        ensures !k.For(m.buffer, m.target)
      {
        var i :| 0 <= i < |ms| && ms[i] == k;
      }
    }
    forall b, t
      ensures Has(Record(ms, m), b, t) <==> Has(ms, b, t) || m.For(b, t)
    {
      HasMember(ms, b, t);
      HasMember(Record(ms, m), b, t);
      if m.For(b, t) { assert m in Record(ms, m); }
    }
  }

  lemma TracksRecord(activity: seq<Mark>, renders: seq<Mark>, acked: nat, m: Mark)
    requires Tracks(activity, renders, acked) && m.id > acked
    requires forall r :: r in renders ==> r.id <= m.id
    ensures Tracks(Record(activity, m), renders + [m], acked)
  {
    var a' := Record(activity, m);
    RecordKeeps(activity, m);
    forall i | 0 <= i < |a'|
      ensures a'[i] in renders + [m] && a'[i].id > acked
      ensures forall r :: r in renders + [m] && a'[i].For(r.buffer, r.target) ==> r.id <= a'[i].id
    {
      assert a'[i] in a';
      if a'[i] != m {
        var j :| 0 <= j < |activity| && activity[j] == a'[i];
      }
    }
    forall r | r in renders + [m] && r.id > acked
      ensures Has(a', r.buffer, r.target)
    {
      if r != m { assert Has(activity, r.buffer, r.target); }
    }
  }

  lemma MarksOfFirst(renders: seq<Mark>, bs: seq<nat>, t: nat, id: nat)
    requires bs != []
    ensures renders + MarksOf(bs, t, id) == renders + [Mark(bs[0], t, id)] + MarksOf(bs[1..], t, id)
  {
  }

  lemma {:induction false} TracksRecordAll(activity: seq<Mark>, renders: seq<Mark>, acked: nat, bs: seq<nat>,
                                           t: nat, id: nat, activity': seq<Mark>, renders': seq<Mark>)
    requires Tracks(activity, renders, acked) && id > acked && UpTo(renders, id)
    requires activity' == RecordAll(activity, bs, t, id) && renders' == renders + MarksOf(bs, t, id)
    ensures Tracks(activity', renders', acked) && UpTo(renders', id)
    decreases |bs|
  {
    if bs == [] {
      assert renders' == renders;
    } else {
      var m := Mark(bs[0], t, id);
      hide Tracks, Record;
      TracksRecord(activity, renders, acked, m);
      MarksOfFirst(renders, bs, t, id);
      TracksRecordAll(Record(activity, m), renders + [m], acked, bs[1..], t, id, activity', renders');
    }
  }

  lemma {:induction false} HasRecordAll(ms: seq<Mark>, bs: seq<nat>, t: nat, id: nat, b: nat, t': nat)
    requires AtMostOne(ms) && Has(ms, b, t')
    ensures Has(RecordAll(ms, bs, t, id), b, t')
    decreases |bs|
  {
    if bs != [] {
      RecordKeeps(ms, Mark(bs[0], t, id));
      HasRecordAll(Record(ms, Mark(bs[0], t, id)), bs[1..], t, id, b, t');
    }
  }

  /** Steps that leave callbacks, records and releases alone and only add activity. */
  lemma MoreBusy(s: State, s': State)
    requires SafeParts(s) && AllBusy(s)
    requires s'.callbacks == s.callbacks && s'.records == s.records && s'.released == s.released && s'.given == s.given
    requires forall b, t :: IsIdle(s', b, t) ==> IsIdle(s, b, t)
    ensures SafeParts(s') && AllBusy(s')
  {
  }

  lemma HasRecordAllEach(ms: seq<Mark>, bs: seq<nat>, t: nat, id: nat)
    requires AtMostOne(ms)
    ensures forall b, t' :: Has(ms, b, t') ==> Has(RecordAll(ms, bs, t, id), b, t')
  {
    forall b, t' | Has(ms, b, t')
      ensures Has(RecordAll(ms, bs, t, id), b, t')
    {
      HasRecordAll(ms, bs, t, id, b, t');
    }
  }

  lemma FinishRenderKeeps(s: State, t: nat, bs: seq<nat>, s': State)
    requires StateInv(s) && s' == FinishRender(s, t, bs)
    ensures StateInv(s')
  {
    hide Awaits, Has, RecordAll, MarksOf, RecordsMatch, Accounted, AllBusy;
    if bs != [] {
      TracksRecordAll(s.activity, s.renders, s.acked, bs, t, s.lastId + 1, s'.activity, s'.renders);
      HasRecordAllEach(s.activity, bs, t, s.lastId + 1);
      Rendered(s, s');
    }
  }

  lemma Rendered(s: State, s': State)
    requires StateInv(s)
    requires s' == s.(lastId := s.lastId + 1, activity := s'.activity, renders := s'.renders)
    requires Tracks(s'.activity, s'.renders, s.acked) && UpTo(s'.renders, s.lastId + 1)
    requires forall b, t :: Has(s.activity, b, t) ==> Has(s'.activity, b, t)
    ensures StateInv(s')
  {
    hide Awaits, Tracks, Has, RecordsMatch, Accounted;
    MoreBusy(s, s');
    assert MarksOK(s');
  }

  lemma AwaitsMore(pending: seq<Mark>, presents: seq<Mark>, noticed: seq<Mark>, m: Mark, pending': seq<Mark>,
                   presents': seq<Mark>)
    requires Awaits(pending, presents, noticed) && forall p :: p in presents ==> p.id < m.id
    requires pending' == Record(pending, m) && presents' == presents + [m]
    ensures Awaits(pending', presents', noticed)
  {
    RecordKeeps(pending, m);
    forall k | k in pending'
      ensures Newest(presents', k) && k !in noticed
    {
      assert k != m ==> k in pending && Newest(presents, k);
    }
    forall p | Newest(presents', p) && p !in noticed
      ensures p in pending'
    {
      assert m in presents';
      assert p != m ==> Newest(presents, p) && p in pending;
    }
  }

  lemma PresentKeeps(s: State, b: nat, t: nat)
    requires StateInv(s)
    ensures StateInv(Present(s, b, t)) && Mark(b, t, s.serial + 1) in Present(s, b, t).pending
  {
    hide Record, Awaits, Has, Tracks, RecordsMatch, Accounted, AllBusy, UpTo;
    var s', m := Present(s, b, t), Mark(b, t, s.serial + 1);
    MarkPresented(s, m, s'.pending);
    MorePresented(s, s', m);
  }

  lemma MarkPresented(s: State, m: Mark, pending': seq<Mark>)
    requires MarksOK(s) && m.id == s.serial + 1 && pending' == Record(s.pending, m)
    ensures Awaits(pending', s.presents + [m], s.noticed) && m in pending'
    ensures forall b, t :: Has(s.pending, b, t) ==> Has(pending', b, t)
  {
    hide Record, Has, Tracks;
    RecordKeeps(s.pending, m);
    AwaitsMore(s.pending, s.presents, s.noticed, m, pending', s.presents + [m]);
  }

  lemma MorePresented(s: State, s': State, m: Mark)
    requires StateInv(s) && m.id == s.serial + 1
    requires s' == s.(serial := m.id, pending := s'.pending, presents := s.presents + [m])
    requires Awaits(s'.pending, s'.presents, s'.noticed)
    requires forall b, t :: Has(s.pending, b, t) ==> Has(s'.pending, b, t)
    ensures StateInv(s')
  {
    hide Awaits, Tracks, Has, RecordsMatch, Accounted;
    MoreBusy(s, s');
    assert MarksOK(s');
  }

  lemma DropPending(ms: seq<Mark>, i: nat, b: nat, t: nat)
    requires AtMostOne(ms) && i < |ms|
    ensures AtMostOne(ms[..i] + ms[i + 1..])
    ensures Has(ms[..i] + ms[i + 1..], b, t) <==> Has(ms, b, t) && !ms[i].For(b, t)
  {
    var ms' := ms[..i] + ms[i + 1..];
    forall a, c | 0 <= a < c < |ms'|
      ensures !ms'[a].For(ms'[c].buffer, ms'[c].target)
    {
      assert ms'[a] == ms[if a < i then a else a + 1] && ms'[c] == ms[if c < i then c else c + 1];
    }
    if Has(ms, b, t) {
      var k :| 0 <= k < |ms| && ms[k].For(b, t);
      if k != i {
        assert ms'[if k < i then k else k - 1] == ms[k];
      }
    }
    if Has(ms', b, t) {
      var k :| 0 <= k < |ms'| && ms'[k].For(b, t);
      assert ms'[k] == ms[if k < i then k else k + 1];
    }
  }

  lemma NotifiedBusy(s: State, s1: State, b: nat, t: nat)
    requires AllBusy(s) && s1.callbacks == s.callbacks && s1.activity == s.activity
    requires forall b', t' :: Has(s1.pending, b', t') <==> Has(s.pending, b', t') && (b != b' || t != t')
    ensures forall c :: c in s1.callbacks && !c.For(b, t) ==> !IsIdle(s1, c.buffer, c.target)
  {
    forall c | c in s1.callbacks && !c.For(b, t)
      ensures !IsIdle(s1, c.buffer, c.target)
    {
      var i :| 0 <= i < |s.callbacks| && s.callbacks[i] == c;
    }
  }

  lemma SeqMembers(ms: seq<Mark>, i: nat)
    requires i < |ms|
    ensures forall m :: m in ms <==> m in ms[..i] + ms[i + 1..] || m == ms[i]
  {
    assert ms == ms[..i] + [ms[i]] + ms[i + 1..];
  }

  /** The i-th presentation is over. */
  lemma AwaitsFewer(pending: seq<Mark>, presents: seq<Mark>, noticed: seq<Mark>, i: nat, pending': seq<Mark>)
    requires Awaits(pending, presents, noticed) && i < |pending| && pending' == pending[..i] + pending[i + 1..]
    ensures Awaits(pending', presents, noticed + [pending[i]])
  {
    var m := pending[i];
    SeqMembers(pending, i);
    DropPending(pending, i, m.buffer, m.target);
    assert m in pending;
    forall k | k in pending'
      ensures k != m
    {
      var j :| 0 <= j < |pending'| && pending'[j] == k;
      assert k == m ==> Has(pending', m.buffer, m.target);
    }
  }

  /** A notice for a presentation that is not pending changes nothing that is awaited. */
  lemma AwaitsSame(pending: seq<Mark>, presents: seq<Mark>, noticed: seq<Mark>, m: Mark)
    requires Awaits(pending, presents, noticed) && m in presents && m !in pending
    ensures Awaits(pending, presents, noticed + [m])
  {
  }

  /** The i-th presentation, of b on t, is over. */
  lemma NotifyHit(s: State, i: nat, s1: State, s': State)
    requires StateInv(s) && i < |s.pending|
    requires s1 == s.(pending := s.pending[..i] + s.pending[i + 1..], noticed := s.noticed + [s.pending[i]])
    requires s' == MaybeRunIdle(s1, s.pending[i].buffer, s.pending[i].target)
    ensures StateInv(s') && Exactly(s, s')
  {
    var b, t := s.pending[i].buffer, s.pending[i].target;
    AwaitsFewer(s.pending, s.presents, s.noticed, i, s1.pending);
    forall b', t'
      ensures Has(s1.pending, b', t') <==> Has(s.pending, b', t') && (b != b' || t != t')
    {
      DropPending(s.pending, i, b', t');
    }
    DropPending(s.pending, i, b, t);
    NotifiedBusy(s, s1, b, t);
    SamePart(s, s1);
    hide Awaits;
    MaybeRunIdleOK(s1, b, t);
    ToldTransitive(s, s1, s');
    assert MarksOK(s');
  }

  lemma SamePart(s: State, s': State)
    requires SafeParts(s) && s' == s.(pending := s'.pending, noticed := s'.noticed)
    ensures SafeParts(s') && Told(s, s')
  {
  }

  /** An idle notice for the newest presentation of a buffer runs its callbacks if that was all
      that was awaited; any other notice changes nothing. */
  lemma HandleIdleNotifyOK(s: State, b: nat, t: nat, serial: nat)
    requires StateInv(s)
    ensures StateInv(HandleIdleNotify(s, b, t, serial)) && Exactly(s, HandleIdleNotify(s, b, t, serial))
  {
    var i, m, s' := FindPending(s.pending, b, t), Mark(b, t, serial), HandleIdleNotify(s, b, t, serial);
    OnlyOnePending(s.pending, i, b, t);
    if i < |s.pending| && s.pending[i].id == serial {
      assert s.pending[i] == m && m in s.pending;
      NotifyHit(s, i, s.(pending := s.pending[..i] + s.pending[i + 1..], noticed := s.noticed + [m]), s');
    } else {
      if m in s.presents {
        AwaitsSame(s.pending, s.presents, s.noticed, m);
      }
      NoticeMissed(s, s');
    }
  }

  lemma NoticeMissed(s: State, s': State)
    requires StateInv(s) && s' == s.(noticed := s'.noticed) && Awaits(s'.pending, s'.presents, s'.noticed)
    ensures StateInv(s') && Exactly(s, s')
  {
    hide Awaits;
    PassedReflexive(s);
    SamePart(s, s');
    MoreBusy(s, s');
    assert MarksOK(s');
    forall c
      ensures c in s'.callbacks <==> c in s.callbacks && !IsIdle(s', c.buffer, c.target)
    {
      assert c in s.callbacks ==> !IsIdle(s, c.buffer, c.target);
    }
  }

  /** Of the notices for a buffer on a target, just that for its newest presentation ends what is
      awaited. */
  lemma NewestNoticeCounts(s: State, b: nat, t: nat, serial: nat)
    requires StateInv(s) && Has(s.pending, b, t)
    ensures Has(HandleIdleNotify(s, b, t, serial).pending, b, t) <==> !Newest(s.presents, Mark(b, t, serial))
  {
    var i, m := FindPending(s.pending, b, t), Mark(b, t, serial);
    OnlyOnePending(s.pending, i, b, t);
    DropPending(s.pending, i, b, t);
    assert s.pending[i] in s.pending && Newest(s.presents, s.pending[i]);
  }

  /** A notice for an older presentation changes nothing but what is known to have been noticed. */
  lemma OlderNoticeIsIgnored(s: State, b: nat, t: nat, serial: nat)
    requires StateInv(s) && !Newest(s.presents, Mark(b, t, serial))
    ensures HandleIdleNotify(s, b, t, serial) == NoteNotice(s, Mark(b, t, serial))
  {
    var i := FindPending(s.pending, b, t);
    if i < |s.pending| {
      assert s.pending[i] in s.pending && Newest(s.presents, s.pending[i]);
    }
  }

  /** A notice for what is not known, as that for a buffer or target that is gone, changes nothing
      at all. */
  lemma LateNoticeIsIgnored(s: State, b: nat, t: nat, serial: nat)
    requires StateInv(s) && Mark(b, t, serial) !in s.presents
    ensures HandleIdleNotify(s, b, t, serial) == s
  {
    OlderNoticeIsIgnored(s, b, t, serial);
  }

  lemma OnlyOnePending(ms: seq<Mark>, i: nat, b: nat, t: nat)
    requires AtMostOne(ms) && i == FindPending(ms, b, t)
    ensures Has(ms, b, t) <==> i < |ms|
    ensures forall m :: m in ms && m.For(b, t) ==> i < |ms| && m == ms[i]
  {
    forall m | m in ms && m.For(b, t)
      ensures i < |ms| && m == ms[i]
    {
      var k :| 0 <= k < |ms| && ms[k] == m;
    }
  }

  // ----- buffers given to helpers -----

  lemma ReleaseKeeps(s: State, h: nat, b: nat, t: nat)
    requires StateInv(s) && h in s.records
    ensures StateInv(ReleaseBuffer(s, h, b, t))
  {
    if IsIdle(s, b, t) {
      ReleaseNow(s, ReleaseBuffer(s, h, b, t));
    } else {
      ReleaseLater(s, Callback(b, t, h, s.given), ReleaseBuffer(s, h, b, t));
    }
  }

  lemma ReleaseNow(s: State, s': State)
    requires StateInv(s) && s' == s.(given := s.given + 1, released := s.released + [s.given])
    ensures StateInv(s')
  {
    hide Accounted, RecordsMatch, Has, Tracks, Awaits, UpTo;
    AccountNow(s, s');
    SameRecords(s, s');
    assert AllBusy(s') && MarksOK(s');
  }

  lemma AccountNow(s: State, s': State)
    requires Accounted(s) && s' == s.(given := s.given + 1, released := s.released + [s.given])
    ensures Accounted(s')
  {
    hide TokensOf;
    assert multiset(s'.released) == multiset(s.released) + multiset{s.given};
  }

  lemma SameRecords(s: State, s': State)
    requires RecordsMatch(s) && s'.callbacks == s.callbacks && s'.records == s.records
    ensures RecordsMatch(s')
  {
  }

  lemma ReleaseLater(s: State, c: Callback, s': State)
    requires StateInv(s) && c.helper in s.records && c.token == s.given && !IsIdle(s, c.buffer, c.target)
    requires s' == ReleaseWithHelper(s, c.helper, c.buffer, c.target)
    ensures StateInv(s')
  {
    TokensGiven(s);
    ReleaseAccounted(s, c);
    assert Accounted(s') by { SameAccounts(s.(given := s.given + 1, callbacks := [c] + s.callbacks), s'); }
    ReleaseMatches(s, c, s');
    assert AllBusy(s') by {
      forall i | 0 <= i < |s'.callbacks|
        ensures !IsIdle(s', s'.callbacks[i].buffer, s'.callbacks[i].target)
      {
        if i > 0 { assert s'.callbacks[i] == s.callbacks[i - 1]; }
      }
    }
  }

  lemma SameAccounts(s: State, s': State)
    requires Accounted(s) && s'.callbacks == s.callbacks && s'.released == s.released && s'.given == s.given
    ensures Accounted(s')
  {
  }

  lemma ReleaseMatches(s: State, c: Callback, s': State)
    requires RecordsMatch(s) && c.helper in s.records
    requires s'.callbacks == [c] + s.callbacks && s'.records == s.records[c.helper := [c] + s.records[c.helper]]
    ensures RecordsMatch(s')
  {
    assert s'.callbacks[1..] == s.callbacks;
    forall h | h in s'.records
      ensures s'.records[h] == OfHelper(s'.callbacks, h)
    {
      assert [] + OfHelper(s.callbacks, h) == OfHelper(s.callbacks, h);
    }
    forall i | 0 <= i < |s'.callbacks|
      ensures s'.callbacks[i].helper in s'.records
    {
      if i > 0 { assert s'.callbacks[i] == s.callbacks[i - 1]; }
    }
  }

  lemma ReleaseAccounted(s: State, c: Callback)
    requires Accounted(s) && c.token == s.given
    requires forall i :: 0 <= i < |s.callbacks| ==> s.callbacks[i].token < s.given
    ensures Accounted(s.(given := s.given + 1, callbacks := [c] + s.callbacks))
  {
    hide TokensOf;
    var s' := s.(given := s.given + 1, callbacks := [c] + s.callbacks);
    TokensCons(c, s.callbacks);
    forall i, j | 0 <= i < j < |s'.callbacks|
      ensures s'.callbacks[i].token != s'.callbacks[j].token
    {
      assert s'.callbacks[j] == s.callbacks[j - 1];
      if i > 0 { assert s'.callbacks[i] == s.callbacks[i - 1]; }
    }
  }

  lemma {:induction false} NumbersBelow(n: nat, k: nat)
    ensures multiset(Numbers(n))[k] == if k < n then 1 else 0
  {
    if n > 0 {
      NumbersBelow(n - 1, k);
    }
  }

  lemma {:induction false} TokenIn(cs: seq<Callback>, i: nat)
    requires i < |cs|
    ensures cs[i].token in multiset(TokensOf(cs))
  {
    if i > 0 {
      TokenIn(cs[1..], i - 1);
      assert multiset(TokensOf(cs)) == multiset{cs[0].token} + multiset(TokensOf(cs[1..]));
    }
  }

  lemma TokensGiven(s: State)
    requires Accounted(s)
    ensures forall i :: 0 <= i < |s.callbacks| ==> s.callbacks[i].token < s.given
  {
    forall i | 0 <= i < |s.callbacks|
      ensures s.callbacks[i].token < s.given
    {
      TokenIn(s.callbacks, i);
      NumbersBelow(s.given, s.callbacks[i].token);
      assert s.callbacks[i].token in multiset(s.released) + multiset(TokensOf(s.callbacks));
    }
  }

  // ----- helpers -----

  lemma {:induction false} WithoutHelperMembers(cs: seq<Callback>, h: nat)
    ensures forall c :: c in WithoutHelper(cs, h) <==> c in cs && c.helper != h
  {
    if cs != [] {
      WithoutHelperMembers(cs[1..], h);
      assert cs == [cs[0]] + cs[1..];
    }
  }

  lemma {:induction false} WithoutHelperOthers(cs: seq<Callback>, h: nat, h': nat)
    requires h' != h
    ensures OfHelper(WithoutHelper(cs, h), h') == OfHelper(cs, h')
  {
    if cs != [] {
      var w := WithoutHelper(cs[1..], h);
      WithoutHelperOthers(cs[1..], h, h');
      assert [] + w == w && ([cs[0]] + w)[1..] == w;
      assert [] + OfHelper(cs[1..], h') == OfHelper(cs[1..], h');
    }
  }

  lemma TokensCons(c: Callback, cs: seq<Callback>)
    ensures multiset(TokensOf([c] + cs)) == multiset{c.token} + multiset(TokensOf(cs))
  {
    assert ([c] + cs)[1..] == cs;
  }

  lemma SplitStep(c: Callback, rest: seq<Callback>, w: seq<Callback>, o: seq<Callback>)
    requires multiset(TokensOf(rest)) == multiset(TokensOf(w)) + multiset(TokensOf(o))
    ensures multiset(TokensOf([c] + rest)) == multiset(TokensOf([c] + w)) + multiset(TokensOf(o))
    ensures multiset(TokensOf([c] + rest)) == multiset(TokensOf(w)) + multiset(TokensOf([c] + o))
  {
    hide TokensOf;
    TokensCons(c, rest);
    TokensCons(c, w);
    TokensCons(c, o);
  }

  lemma {:induction false} WithoutHelperTokens(cs: seq<Callback>, h: nat)
    ensures multiset(TokensOf(cs)) == multiset(TokensOf(WithoutHelper(cs, h))) + multiset(TokensOf(OfHelper(cs, h)))
  {
    if cs != [] {
      var w, o := WithoutHelper(cs[1..], h), OfHelper(cs[1..], h);
      hide TokensOf;
      assert cs == [cs[0]] + cs[1..];
      assert WithoutHelper(cs, h) == if cs[0].helper == h then w else [cs[0]] + w;
      assert OfHelper(cs, h) == if cs[0].helper == h then [cs[0]] + o else o;
      hide WithoutHelper, OfHelper;
      WithoutHelperTokens(cs[1..], h);
      SplitStep(cs[0], cs[1..], w, o);
    }
  }

  ghost predicate DistinctTokens(cs: seq<Callback>) {
    forall i, j :: 0 <= i < j < |cs| ==> cs[i].token != cs[j].token
  }

  lemma ConsDistinct(c: Callback, cs: seq<Callback>)
    requires DistinctTokens(cs) && forall d :: d in cs ==> d.token != c.token
    ensures DistinctTokens([c] + cs)
  {
    var all := [c] + cs;
    forall i, j | 0 <= i < j < |all|
      ensures all[i].token != all[j].token
    {
      assert all[j] == cs[j - 1];
      if i > 0 { assert all[i] == cs[i - 1]; }
    }
  }

  lemma {:induction false} WithoutHelperDistinct(cs: seq<Callback>, h: nat)
    requires DistinctTokens(cs)
    ensures DistinctTokens(WithoutHelper(cs, h))
  {
    if cs != [] {
      var w := WithoutHelper(cs[1..], h);
      WithoutHelperDistinct(cs[1..], h);
      WithoutHelperMembers(cs[1..], h);
      assert [] + w == w;
      forall d | d in w
        ensures d.token != cs[0].token
      {
        var k :| 0 <= k < |cs[1..]| && cs[1..][k] == d;
        assert cs[k + 1] == d;
      }
      ConsDistinct(cs[0], w);
    }
  }

  lemma FreeHelperKeeps(s: State, h: nat, s': State)
    requires StateInv(s) && h in s.records && s' == FreeHelper(s, h)
    ensures StateInv(s')
  {
    WithoutHelperMembers(s.callbacks, h);
    FewerCallbacks(s, s');
    FreeAccounted(s, h, s');
    FreeMatches(s, h, s');
    assert MarksOK(s');
  }

  lemma FreeAccounted(s: State, h: nat, s': State)
    requires Accounted(s) && RecordsMatch(s) && h in s.records && s' == FreeHelper(s, h)
    ensures Accounted(s')
  {
    assert DistinctTokens(s.callbacks);
    WithoutHelperDistinct(s.callbacks, h);
    WithoutHelperTokens(s.callbacks, h);
    assert multiset(s'.released) == multiset(s.released) + multiset(TokensOf(s.records[h]));
  }

  lemma FreeMatches(s: State, h: nat, s': State)
    requires RecordsMatch(s) && h in s.records && s' == FreeHelper(s, h)
    ensures RecordsMatch(s')
  {
    WithoutHelperMembers(s.callbacks, h);
    forall i | 0 <= i < |s'.callbacks|
      ensures s'.callbacks[i].helper in s'.records
    {
      assert s'.callbacks[i] in s'.callbacks;
    }
    forall h' | h' in s'.records
      ensures s'.records[h'] == OfHelper(s'.callbacks, h')
    {
      WithoutHelperOthers(s.callbacks, h, h');
    }
  }

  lemma FewerCallbacks(s: State, s': State)
    requires AllBusy(s) && s'.activity == s.activity && s'.pending == s.pending
    requires forall c :: c in s'.callbacks ==> c in s.callbacks
    ensures AllBusy(s')
  {
    forall i | 0 <= i < |s'.callbacks|
      ensures !IsIdle(s', s'.callbacks[i].buffer, s'.callbacks[i].target)
    {
      assert s'.callbacks[i] in s'.callbacks;
      var k :| 0 <= k < |s.callbacks| && s.callbacks[k] == s'.callbacks[i];
    }
  }

  lemma {:induction false} NoHelper(cs: seq<Callback>, h: nat)
    requires forall i :: 0 <= i < |cs| ==> cs[i].helper != h
    ensures OfHelper(cs, h) == []
  {
    if cs != [] {
      NoHelper(cs[1..], h);
    }
  }

  lemma MakeHelperKeeps(s: State, h: nat)
    requires StateInv(s) && h !in s.records
    ensures StateInv(MakeHelper(s, h))
  {
    var s' := MakeHelper(s, h);
    NoHelper(s.callbacks, h);
    assert AllBusy(s');
    SameAccounts(s, s');
  }
}
