/** Requests by the events that bring them: each one that is not refused is queued or served, no
    other is, and those for one requestor and property are served in the order in which they came. */
module SelectionArrivals {
  import opened SelectionWrite
  import opened SelectionOwner

  // ----- no request is lost -----

  predicate Held(o: Owner, r: Request) {
    r in o.served || r in o.queue
  }

  lemma HandleHolds(o: Owner, e: Request, v: Verdict, quantum: nat, r: Request)
    ensures Held(Handle(o, e, v, quantum), r) <==> Held(o, r) || (r == e && v != Refused)
  {
  }

  lemma {:induction false} HandleAllHolds(o: Owner, es: seq<Request>, decide: Request -> Verdict, quantum: nat,
                                          r: Request)
    ensures Held(HandleAll(o, es, decide, quantum), r) <==> Held(o, r) || (r in es && decide(r) != Refused)
    decreases |es|
  {
    if es != [] {
      HandleHolds(o, es[0], decide(es[0]), quantum, r);
      HandleAllHolds(Handle(o, es[0], decide(es[0]), quantum), es[1..], decide, quantum, r);
      assert es == [es[0]] + es[1..];
    }
  }

  /** What is held after an event was held before or has just come, and what was held is held on
      unless it is refused. */
  ghost predicate HoldsOn(o: Owner, o': Owner, decide: Request -> Verdict, r: Request) {
    && (Held(o', r) ==> Held(o, r))
    && (Held(o, r) && decide(r) != Refused ==> Held(o', r))
  }

  lemma UnlinkHolds(o: Owner, i: nat, decide: Request -> Verdict, quantum: nat, r: Request)
    requires i < |o.live|
    ensures HoldsOn(o, Unlink(o, i, decide, quantum), decide, r)
  {
    var o1 := o.(live := o.live[..i] + o.live[i + 1..]);
    HandleAllHolds(o1.(queue := []), o1.queue, decide, quantum, r);
    hide HandleAll;
  }

  lemma {:induction false} DeleteAllHolds(o: Owner, n: nat, chunks: seq<Chunk>, decide: Request -> Verdict,
                                          quantum: nat, r: Request)
    requires n <= |o.live| && n <= |chunks|
    ensures HoldsOn(o, DeleteAll(o, n, chunks, decide, quantum), decide, r)
    decreases n
  {
    if n > 0 {
      var w := PropertyDeleted(o.live[n - 1].w, chunks[n - 1]);
      var o1 := Replace(o, n - 1, w, decide, quantum);
      UnlinkHolds(o, n - 1, decide, quantum, r);
      DeleteAllHolds(o1, n - 1, chunks, decide, quantum, r);
      hide Unlink, PropertyDeleted;
    }
  }

  lemma ReactHolds(o: Owner, ev: SelectionOwner.Event, decide: Request -> Verdict, quantum: nat, r: Request)
    requires Possibly(o, ev)
    ensures var o' := React(o, ev, decide, quantum);
      if ev == RequestArrives(r) then Held(o', r) <==> decide(r) != Refused else HoldsOn(o, o', decide, r)
  {
    match ev
    case RequestArrives(e) =>
      HandleHolds(o.(arrived := o.arrived + [e]), e, decide(e), quantum, r);
      NotHeldYet(o, e);
    case SourceReadable(i, _) => UnlinkHolds(o, i, decide, quantum, r);
    case PropertyDelete(cs) => DeleteAllHolds(o, |o.live|, cs, decide, quantum, r);
    case TimedOut(i) => UnlinkHolds(o, i, decide, quantum, r);
  }

  lemma NotHeldYet(o: Owner, e: Request)
    requires Possibly(o, RequestArrives(e))
    ensures !Held(o, e)
  {
    assert e in o.served + o.queue <==> Held(o, e);
  }

  /** The request came at step i and has not been refused by any step since, up to n. */
  ghost predicate Asked(evs: seq<SelectionOwner.Event>, decides: seq<Request -> Verdict>, i: nat, n: nat, r: Request)
    requires n <= |evs| == |decides|
  {
    && i < n && evs[i] == RequestArrives(r)
    && forall j :: i <= j < n ==> decides[j](r) != Refused
  }

  /** In every run a request that has come and has not been refused has been served or is queued. */
  lemma {:induction false} AskedIsHeld(os: seq<Owner>, evs: seq<SelectionOwner.Event>, decides: seq<Request -> Verdict>,
                                       quantum: nat, i: nat, n: nat, r: Request)
    requires Reachable(os, evs, decides, quantum) && n < |os| && Asked(evs, decides, i, n, r)
    ensures Held(os[n], r)
  {
    if n > i + 1 {
      AskedIsHeld(os, evs, decides, quantum, i, n - 1, r);
    }
    hide React, Possibly;
    ReactHolds(os[n - 1], evs[n - 1], decides[n - 1], quantum, r);
  }

  /** And what has been served or is queued has come. */
  lemma {:induction false} HeldHasCome(os: seq<Owner>, evs: seq<SelectionOwner.Event>, decides: seq<Request -> Verdict>,
                                       quantum: nat, n: nat, r: Request) returns (i: nat)
    requires Reachable(os, evs, decides, quantum) && n < |os| && Held(os[n], r)
    ensures i < n && evs[i] == RequestArrives(r)
  {
    hide React, Possibly;
    ReactHolds(os[n - 1], evs[n - 1], decides[n - 1], quantum, r);
    if evs[n - 1] == RequestArrives(r) {
      i := n - 1;
    } else {
      i := HeldHasCome(os, evs, decides, quantum, n - 1, r);
    }
  }

  /** A request is served at once if and only if no unfinished transfer is live for the same
      requestor and property, and none is queued with the same requestor or the same property; and
      else it is queued, unless it is refused. */
  lemma ArrivalIs(o: Owner, e: Request, decide: Request -> Verdict, quantum: nat)
    requires Possibly(o, RequestArrives(e))
    ensures var o' := React(o, RequestArrives(e), decide, quantum);
      var waits :=
        || (exists x :: x in o.live && x.request.SameKey(e) && x.Unfinished())
        || (exists q :: q in o.queue && (q.requestor == e.requestor || q.property == e.property));
      && (e in o'.served <==> decide(e) != Refused && !waits)
      && (e in o'.queue <==> decide(e) != Refused && waits)
  {
    NotHeldYet(o, e);
    if x :| x in o.live && x.request.SameKey(e) && x.Unfinished() {
      var k :| 0 <= k < |o.live| && o.live[k] == x;
      assert Busy(o.live, e);
    }
    if q :| q in o.queue && (q.requestor == e.requestor || q.property == e.property) {
      var k :| 0 <= k < |o.queue| && o.queue[k] == q;
      assert Queued(o.queue, e);
    }
    if Busy(o.live, e) {
      var k :| 0 <= k < |o.live| && o.live[k].request.SameKey(e) && o.live[k].Unfinished();
      assert o.live[k] in o.live;
    }
    if Queued(o.queue, e) {
      var k :| 0 <= k < |o.queue| && (o.queue[k].requestor == e.requestor || o.queue[k].property == e.property);
      assert o.queue[k] in o.queue;
    }
  }

  predicate Related(a: Request, b: Request) {
    a.requestor == b.requestor || a.property == b.property
  }

  /** The j-th queued request has something to wait for. */
  ghost predicate Waits(o: Owner, j: nat)
    requires j < |o.queue|
  {
    || Busy(o.live, o.queue[j])
    || exists i :: 0 <= i < j && Related(o.queue[i], o.queue[j])
  }

  ghost predicate AllWait(o: Owner) {
    forall j: nat :: j < |o.queue| ==> Waits(o, j)
  }

  lemma HandleWaits(o: Owner, e: Request, v: Verdict, quantum: nat)
    requires AllWait(o)
    ensures AllWait(Handle(o, e, v, quantum))
  {
    var o' := Handle(o, e, v, quantum);
    forall r | Busy(o.live, r)
      ensures Busy(o'.live, r)
    {
      var k :| 0 <= k < |o.live| && o.live[k].request.SameKey(r) && o.live[k].Unfinished();
      if |o'.live| > |o.live| {
        assert o'.live[k + 1] == o.live[k];
      }
    }
    forall j: nat | j < |o'.queue|
      ensures Waits(o', j)
    {
      if j < |o.queue| {
        assert Waits(o, j) && o'.queue[j] == o.queue[j];
        if !Busy(o.live, o.queue[j]) {
          var i :| 0 <= i < j && Related(o.queue[i], o.queue[j]);
          assert o'.queue[i] == o.queue[i];
        }
      } else if !Busy(o.live, e) {
        var i :| 0 <= i < |o.queue| && Related(o.queue[i], e);
        assert o'.queue[i] == o.queue[i];
      }
    }
  }

  lemma {:induction false} HandleAllWaits(o: Owner, es: seq<Request>, decide: Request -> Verdict, quantum: nat)
    requires AllWait(o)
    ensures AllWait(HandleAll(o, es, decide, quantum))
    decreases |es|
  {
    if es != [] {
      HandleWaits(o, es[0], decide(es[0]), quantum);
      HandleAllWaits(Handle(o, es[0], decide(es[0]), quantum), es[1..], decide, quantum);
    }
  }

  /** When the last transfer has gone, every request that is queued again waits for one that has been
      started in its place, or for one queued before it. */
  lemma DrainLeavesWaiting(o: Owner, decide: Request -> Verdict, quantum: nat)
    requires |o.live| == 1
    ensures AllWait(Unlink(o, 0, decide, quantum))
  {
    var o1 := o.(live := [], queue := []);
    assert o.live[..0] + o.live[1..] == [];
    HandleAllWaits(o1, o.queue, decide, quantum);
  }

  // ----- the order of service -----

  ghost predicate Before(s: seq<Request>, a: Request, b: Request) {
    exists p, q :: 0 <= p < q < |s| && s[p] == a && s[q] == b
  }

  lemma BeforeSnoc(s: seq<Request>, x: Request, a: Request, b: Request)
    ensures Before(s + [x], a, b) <==> Before(s, a, b) || (x == b && a in s)
  {
    var t := s + [x];
    if Before(s, a, b) {
      var p, q :| 0 <= p < q < |s| && s[p] == a && s[q] == b;
      assert t[p] == a && t[q] == b;
    }
    if x == b && a in s {
      var p :| 0 <= p < |s| && s[p] == a;
      assert t[p] == a && t[|s|] == b;
    }
    if Before(t, a, b) {
      var p, q :| 0 <= p < q < |t| && t[p] == a && t[q] == b;
      assert s[p] == a;
      if q < |s| { assert s[q] == b; }
    }
  }

  lemma {:induction false} WithoutMembers(s: seq<Request>, serial: nat)
    ensures forall r :: r in Without(s, serial) <==> r in s && r.serial != serial
  {
    if s != [] {
      WithoutMembers(s[..|s| - 1], serial);
      assert s == s[..|s| - 1] + [s[|s| - 1]];
    }
  }

  lemma {:induction false} WithoutBefore(s: seq<Request>, serial: nat, a: Request, b: Request)
    requires a.serial != serial && b.serial != serial
    ensures Before(Without(s, serial), a, b) <==> Before(s, a, b)
  {
    if s != [] {
      var front, x := s[..|s| - 1], s[|s| - 1];
      assert s == front + [x];
      WithoutBefore(front, serial, a, b);
      WithoutMembers(front, serial);
      BeforeSnoc(front, x, a, b);
      BeforeSnoc(Without(front, serial), x, a, b);
      assert Without(front, serial) + [] == Without(front, serial);
    }
  }

  lemma {:induction false} ForKeyMembers(s: seq<Request>, k: Request)
    ensures forall r :: r in ForKey(s, k) <==> r in s && r.SameKey(k)
  {
    if s != [] {
      ForKeyMembers(s[..|s| - 1], k);
      assert s == s[..|s| - 1] + [s[|s| - 1]];
    }
  }

  lemma {:induction false} ForKeyBefore(s: seq<Request>, k: Request, a: Request, b: Request)
    requires a.SameKey(k) && b.SameKey(k)
    ensures Before(ForKey(s, k), a, b) <==> Before(s, a, b)
  {
    if s != [] {
      var front, x := s[..|s| - 1], s[|s| - 1];
      assert s == front + [x];
      ForKeyBefore(front, k, a, b);
      ForKeyMembers(front, k);
      BeforeSnoc(front, x, a, b);
      BeforeSnoc(ForKey(front, k), x, a, b);
      assert ForKey(front, k) + [] == ForKey(front, k);
    }
  }

  /** The requests of s' stand in the order in which they stand in s. */
  ghost predicate SameOrder(s: seq<Request>, s': seq<Request>) {
    && (forall r :: r in s' ==> r in s)
    && (forall a, b :: a in s' && b in s' ==> (Before(s', a, b) <==> Before(s, a, b)))
  }

  lemma WithoutSameOrder(s: seq<Request>, serial: nat)
    ensures SameOrder(s, Without(s, serial))
  {
    WithoutMembers(s, serial);
    forall a, b | a in Without(s, serial) && b in Without(s, serial)
      ensures Before(Without(s, serial), a, b) <==> Before(s, a, b)
    {
      WithoutBefore(s, serial, a, b);
    }
  }

  lemma SameOrderTransitive(a: seq<Request>, b: seq<Request>, c: seq<Request>)
    requires SameOrder(a, b) && SameOrder(b, c)
    ensures SameOrder(a, c)
  {
    hide Before;
  }

  lemma {:induction false} HandleAllSameOrder(o: Owner, es: seq<Request>, decide: Request -> Verdict, quantum: nat)
    ensures SameOrder(o.arrived, HandleAll(o, es, decide, quantum).arrived)
    decreases |es|
  {
    if es != [] {
      var o1 := Handle(o, es[0], decide(es[0]), quantum);
      WithoutSameOrder(o.arrived, es[0].serial);
      HandleAllSameOrder(o1, es[1..], decide, quantum);
      hide Before, Without;
      SameOrderTransitive(o.arrived, o1.arrived, HandleAll(o1, es[1..], decide, quantum).arrived);
    }
  }

  lemma UnlinkSameOrder(o: Owner, i: nat, decide: Request -> Verdict, quantum: nat)
    requires i < |o.live|
    ensures SameOrder(o.arrived, Unlink(o, i, decide, quantum).arrived)
  {
    var o1 := o.(live := o.live[..i] + o.live[i + 1..]);
    HandleAllSameOrder(o1.(queue := []), o1.queue, decide, quantum);
    hide Before, HandleAll;
  }

  lemma ReplaceLength(o: Owner, i: nat, w: Transfer, decide: Request -> Verdict, quantum: nat)
    requires i < |o.live|
    ensures |Replace(o, i, w, decide, quantum).live| >= i
  {
  }

  lemma {:induction false} DeleteAllSameOrder(o: Owner, n: nat, chunks: seq<Chunk>, decide: Request -> Verdict,
                                              quantum: nat)
    requires n <= |o.live| && n <= |chunks|
    ensures SameOrder(o.arrived, DeleteAll(o, n, chunks, decide, quantum).arrived)
    decreases n
  {
    hide Before, Unlink, PropertyDeleted;
    if n > 0 {
      var o1 := Replace(o, n - 1, PropertyDeleted(o.live[n - 1].w, chunks[n - 1]), decide, quantum);
      UnlinkSameOrder(o, n - 1, decide, quantum);
      ReplaceLength(o, n - 1, PropertyDeleted(o.live[n - 1].w, chunks[n - 1]), decide, quantum);
      DeleteAllSameOrder(o1, n - 1, chunks, decide, quantum);
      SameOrderTransitive(o.arrived, o1.arrived, DeleteAll(o1, n - 1, chunks, decide, quantum).arrived);
    }
  }

  lemma ReactSameOrder(o: Owner, ev: SelectionOwner.Event, decide: Request -> Verdict, quantum: nat)
    requires Possibly(o, ev)
    ensures SameOrder(o.arrived + if ev.RequestArrives? then [ev.e] else [], React(o, ev, decide, quantum).arrived)
  {
    assert o.arrived + [] == o.arrived;
    match ev
    case RequestArrives(e) => WithoutSameOrder(o.arrived + [e], e.serial);
    case SourceReadable(i, _) => UnlinkSameOrder(o, i, decide, quantum);
    case PropertyDelete(cs) => DeleteAllSameOrder(o, |o.live|, cs, decide, quantum);
    case TimedOut(i) => UnlinkSameOrder(o, i, decide, quantum);
  }

  /** Of two requests received, the one that came first stands first. */
  lemma {:induction false} ArrivedInOrder(os: seq<Owner>, evs: seq<SelectionOwner.Event>,
                                          decides: seq<Request -> Verdict>, quantum: nat, i: nat, j: nat, n: nat,
                                          a: Request, b: Request)
    requires quantum > 0 && Reachable(os, evs, decides, quantum) && i < j < n < |os|
    requires Asked(evs, decides, i, n, a) && evs[j] == RequestArrives(b) && Held(os[n], b)
    ensures Before(os[n].arrived, a, b)
  {
    var o, ev := os[n - 1], evs[n - 1];
    HeldHasArrived(os, evs, decides, quantum, i, n - 1, a);
    HeldHasArrived(os, evs, decides, quantum, i, n, a);
    ArrivedIffHeld(os, evs, decides, quantum, n, b);
    ReactSameOrder(o, ev, decides[n - 1], quantum);
    ReactHolds(o, ev, decides[n - 1], quantum, b);
    hide React, Possibly, Before;
    if ev == RequestArrives(b) {
      BeforeSnoc(o.arrived, b, a, b);
    } else {
      ArrivedInOrder(os, evs, decides, quantum, i, j, n - 1, a, b);
      if ev.RequestArrives? {
        BeforeSnoc(o.arrived, ev.e, a, b);
      } else {
        assert o.arrived + [] == o.arrived;
      }
    }
  }

  lemma ArrivedIffHeld(os: seq<Owner>, evs: seq<SelectionOwner.Event>, decides: seq<Request -> Verdict>, quantum: nat,
                       n: nat, r: Request)
    requires quantum > 0 && Reachable(os, evs, decides, quantum) && n < |os|
    ensures r in os[n].arrived <==> Held(os[n], r)
  {
    AlwaysOrderly(os, evs, decides, quantum, n);
  }

  lemma HeldHasArrived(os: seq<Owner>, evs: seq<SelectionOwner.Event>, decides: seq<Request -> Verdict>, quantum: nat,
                       i: nat, n: nat, a: Request)
    requires quantum > 0 && Reachable(os, evs, decides, quantum) && i < n < |os| && Asked(evs, decides, i, n, a)
    ensures a in os[n].arrived
  {
    AskedIsHeld(os, evs, decides, quantum, i, n, a);
    ArrivedIffHeld(os, evs, decides, quantum, n, a);
  }

  lemma BeforeInPrefix(s: seq<Request>, t: seq<Request>, a: Request, b: Request)
    requires s <= t && Before(t, a, b) && b in s
    requires forall p, q :: 0 <= p < q < |t| ==> t[p] != t[q]
    ensures Before(s, a, b)
  {
    var p, q :| 0 <= p < q < |t| && t[p] == a && t[q] == b;
    var k :| 0 <= k < |s| && s[k] == b;
    assert t[k] == b;
  }

  lemma {:induction false} ForKeyDistinct(s: seq<Request>, k: Request)
    requires Distinct(s)
    ensures forall p, q :: 0 <= p < q < |ForKey(s, k)| ==> ForKey(s, k)[p] != ForKey(s, k)[q]
  {
    if s != [] {
      var front, x := s[..|s| - 1], s[|s| - 1];
      ForKeyDistinct(front, k);
      ForKeyMembers(front, k);
      forall r | r in ForKey(front, k)
        ensures r != x
      {
        var i :| 0 <= i < |front| && front[i] == r;
        assert s[i] == r;
      }
    }
  }

  /** In every run, of two requests for one requestor and property that are not refused, the one that
      came first is served first. */
  lemma ServedAsTheyCame(os: seq<Owner>, evs: seq<SelectionOwner.Event>, decides: seq<Request -> Verdict>, quantum: nat,
                         i: nat, j: nat, n: nat, a: Request, b: Request)
    requires quantum > 0 && Reachable(os, evs, decides, quantum) && i < j < n < |os| && a.SameKey(b)
    requires Asked(evs, decides, i, n, a) && evs[j] == RequestArrives(b) && b in os[n].served
    ensures Before(os[n].served, a, b)
  {
    var o := os[n];
    ArrivedInOrder(os, evs, decides, quantum, i, j, n, a, b);
    AlwaysOrderly(os, evs, decides, quantum, n);
    assert Distinct(o.served + o.queue) && ForKey(o.served + o.queue, a) == ForKey(o.arrived, a);
    hide OwnerInv, Reachable, Before, Asked;
    ForKeyBefore(o.arrived, a, a, b);
    ForKeyDistinct(o.served + o.queue, a);
    ForKeyMembers(o.served, a);
    hide Distinct, ForKey;
    BeforeInPrefix(ForKey(o.served, a), ForKey(o.arrived, a), a, b);
    ForKeyBefore(o.served, a, a, b);
  }
}
