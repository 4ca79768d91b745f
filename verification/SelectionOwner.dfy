/** Selection requests to this client: which are started at once, which are queued, and how the
    queue is drained when the last transfer goes away.  Requests name a property (obsolete
    requestors, which do not, and MULTIPLE are left out). */
module SelectionOwner {
  import opened SelectionWrite

  /** Serials tell requests apart. */
  datatype Request = Request(serial: nat, requestor: nat, property: nat) {
    predicate SameKey(r: Request) { requestor == r.requestor && property == r.property }
  }

  /** How a request can turn out: it cannot be converted; it is for one of the targets answered
      at once; its transfer starts; or its transfer cannot be set up. */
  datatype Verdict = Refused | AnsweredNow | Started | SetupFailed

  datatype Slot = Slot(request: Request, w: Transfer) {
    /** Not just waiting for the requestor to delete the last property. */
    predicate Unfinished() { !(w.finished && w.waitingForDelete) }
  }

  /** The live transfers, newest first; the queued requests, oldest first; and as history the
      requests received and not refused, and those answered or started, in order. */
  datatype Owner = Owner(live: seq<Slot>, queue: seq<Request>, arrived: seq<Request>, served: seq<Request>)

  predicate Busy(live: seq<Slot>, e: Request) {
    exists i :: 0 <= i < |live| && live[i].request.SameKey(e) && live[i].Unfinished()
  }

  /** The program takes a request for the same requestor or the same property as queued. */
  predicate Queued(queue: seq<Request>, e: Request) {
    exists i :: 0 <= i < |queue| && (queue[i].requestor == e.requestor || queue[i].property == e.property)
  }

  function Without(s: seq<Request>, serial: nat): seq<Request> {
    if s == [] then []
    else Without(s[..|s| - 1], serial) + if s[|s| - 1].serial == serial then [] else [s[|s| - 1]]
  }

  function Handle(o: Owner, e: Request, v: Verdict, quantum: nat): Owner {
    if v == Refused then o.(arrived := Without(o.arrived, e.serial))
    else if Busy(o.live, e) || Queued(o.queue, e) then o.(queue := o.queue + [e])
    else if v == Started then o.(served := o.served + [e], live := [Slot(e, NewTransfer(quantum))] + o.live)
    else o.(served := o.served + [e])
  }

  function HandleAll(o: Owner, es: seq<Request>, decide: Request -> Verdict, quantum: nat): Owner
    decreases |es|
  {
    if es == [] then o
    else HandleAll(Handle(o, es[0], decide(es[0]), quantum), es[1..], decide, quantum)
  }

  /** The transfer at i goes away, and with the last one the queue is gone through once. */
  function Unlink(o: Owner, i: nat, decide: Request -> Verdict, quantum: nat): Owner
    requires i < |o.live|
  {
    var o1 := o.(live := o.live[..i] + o.live[i + 1..]);
    if o1.live == [] then HandleAll(o1.(queue := []), o1.queue, decide, quantum) else o1
  }

  /** The transfer at i has become w. */
  function Replace(o: Owner, i: nat, w: Transfer, decide: Request -> Verdict, quantum: nat): Owner
    requires i < |o.live|
  {
    if w.freed then Unlink(o, i, decide, quantum)
    else o.(live := o.live[i := o.live[i].(w := w)])
  }

  function Arrive(o: Owner, e: Request, decide: Request -> Verdict, quantum: nat): Owner {
    Handle(o.(arrived := o.arrived + [e]), e, decide(e), quantum)
  }

  /** A PropertyDelete event is passed to the first n live transfers, oldest first. */
  function DeleteAll(o: Owner, n: nat, chunks: seq<Chunk>, decide: Request -> Verdict, quantum: nat): Owner
    requires n <= |o.live| && n <= |chunks|
    decreases n
  {
    if n == 0 then o
    else
      var o1 := Replace(o, n - 1, PropertyDeleted(o.live[n - 1].w, chunks[n - 1]), decide, quantum);
      DeleteAll(o1, n - 1, chunks, decide, quantum)
  }

  // ----- what stays true -----

  /** The requests with the same key as k, in order. */
  function ForKey(s: seq<Request>, k: Request): seq<Request> {
    if s == [] then []
    else ForKey(s[..|s| - 1], k) + if s[|s| - 1].SameKey(k) then [s[|s| - 1]] else []
  }

  ghost predicate Distinct(s: seq<Request>) {
    forall i, j :: 0 <= i < j < |s| ==> s[i].serial != s[j].serial
  }

  /** At most one unfinished live transfer for any key. */
  ghost predicate Exclusive(live: seq<Slot>) {
    forall i, j :: 0 <= i < j < |live| && live[i].request.SameKey(live[j].request) ==>
      !live[i].Unfinished() || !live[j].Unfinished()
  }

  /** For every key, the requests served, then those waiting, are those received, in order. */
  ghost predicate InOrder(o: Owner, waiting: seq<Request>) {
    && Distinct(o.served + waiting)
    && forall k :: ForKey(o.served + waiting, k) == ForKey(o.arrived, k)
  }

  ghost predicate Settled(o: Owner) {
    && (forall i :: 0 <= i < |o.live| ==> Inv(o.live[i].w) && !o.live[i].w.freed)
    && Exclusive(o.live)
    && (o.live == [] ==> o.queue == [])
  }

  ghost predicate OwnerInv(o: Owner) {
    Settled(o) && InOrder(o, o.queue)
  }

  // ----- sequences by key -----

  lemma {:induction false} ForKeyConcat(a: seq<Request>, b: seq<Request>, k: Request)
    ensures ForKey(a + b, k) == ForKey(a, k) + ForKey(b, k)
  {
    if b == [] {
      assert a + b == a;
    } else {
      ForKeyConcat(a, b[..|b| - 1], k);
      assert (a + b)[..|a + b| - 1] == a + b[..|b| - 1];
    }
  }

  lemma {:induction false} WithoutConcat(a: seq<Request>, b: seq<Request>, serial: nat)
    ensures Without(a + b, serial) == Without(a, serial) + Without(b, serial)
  {
    if b == [] {
      assert a + b == a;
    } else {
      WithoutConcat(a, b[..|b| - 1], serial);
      assert (a + b)[..|a + b| - 1] == a + b[..|b| - 1];
    }
  }

  lemma ForKeyOne(e: Request, k: Request)
    ensures ForKey([e], k) == if e.SameKey(k) then [e] else []
  {
    assert [e][..0] == [];
    assert ForKey([e][..0], k) == [];
  }

  lemma WithoutOne(e: Request, serial: nat)
    ensures Without([e], serial) == if e.serial == serial then [] else [e]
  {
    assert [e][..0] == [];
    assert Without([e][..0], serial) == [];
  }

  lemma {:induction false} WithoutForKey(s: seq<Request>, k: Request, serial: nat)
    ensures ForKey(Without(s, serial), k) == Without(ForKey(s, k), serial)
  {
    if s != [] {
      var front, last := s[..|s| - 1], s[|s| - 1];
      WithoutForKey(front, k, serial);
      ForKeyOne(last, k);
      WithoutOne(last, serial);
      WithoutConcat(ForKey(front, k), ForKey([last], k), serial);
      ForKeyConcat(Without(front, serial), Without([last], serial), k);
    }
  }

  lemma {:induction false} WithoutAbsent(s: seq<Request>, serial: nat)
    requires forall i :: 0 <= i < |s| ==> s[i].serial != serial
    ensures Without(s, serial) == s
  {
    if s != [] {
      WithoutAbsent(s[..|s| - 1], serial);
    }
  }

  lemma {:induction false} ForKeyNone(s: seq<Request>, k: Request)
    requires forall i :: 0 <= i < |s| ==> !s[i].SameKey(k)
    ensures ForKey(s, k) == []
  {
    if s != [] {
      ForKeyNone(s[..|s| - 1], k);
    }
  }

  // ----- one request -----

  lemma DropMiddle(before: seq<Request>, e: Request, after: seq<Request>)
    requires Distinct(before + [e] + after)
    ensures Without(before + [e] + after, e.serial) == before + after
  {
    var s := before + [e] + after;
    forall i | 0 <= i < |before|
      ensures before[i].serial != e.serial
    {
      assert s[i] == before[i] && s[|before|] == e;
    }
    forall i | 0 <= i < |after|
      ensures after[i].serial != e.serial
    {
      assert s[|before| + 1 + i] == after[i] && s[|before|] == e;
    }
    WithoutConcat(before + [e], after, e.serial);
    WithoutConcat(before, [e], e.serial);
    WithoutOne(e, e.serial);
    WithoutAbsent(before, e.serial);
    WithoutAbsent(after, e.serial);
  }

  /** Taking e out of the middle takes it out for every key. */
  lemma DropOne(before: seq<Request>, e: Request, after: seq<Request>, all: seq<Request>, k: Request)
    requires Distinct(before + [e] + after)
    requires ForKey(before + [e] + after, k) == ForKey(all, k)
    ensures ForKey(before + after, k) == ForKey(Without(all, e.serial), k)
  {
    DropMiddle(before, e, after);
    WithoutForKey(before + [e] + after, k, e.serial);
    WithoutForKey(all, k, e.serial);
  }

  lemma ForKeyThree(a: seq<Request>, b: seq<Request>, c: seq<Request>, k: Request)
    ensures ForKey(a + b + c, k) == ForKey(a, k) + ForKey(b, k) + ForKey(c, k)
  {
    ForKeyConcat(a + b, c, k);
    ForKeyConcat(a, b, k);
  }

  lemma Swap<T>(a: seq<T>, x: seq<T>, y: seq<T>, z: seq<T>)
    requires x == [] || y == []
    ensures a + x + (y + z) == a + (y + x + z)
  {
  }

  /** e may go ahead of requests that all have other keys. */
  lemma GoAhead(before: seq<Request>, between: seq<Request>, e: Request, after: seq<Request>, k: Request)
    requires forall i :: 0 <= i < |between| ==> !between[i].SameKey(e)
    ensures ForKey(before + [e] + (between + after), k) == ForKey(before + (between + [e] + after), k)
  {
    ForKeyThree(before, [e], between + after, k);
    ForKeyConcat(between, after, k);
    ForKeyConcat(before, between + [e] + after, k);
    ForKeyThree(between, [e], after, k);
    ForKeyOne(e, k);
    if e.SameKey(k) {
      ForKeyNone(between, k);
    }
    Swap(ForKey(before, k), ForKey([e], k), ForKey(between, k), ForKey(after, k));
  }

  lemma DistinctGoAhead(before: seq<Request>, between: seq<Request>, e: Request, after: seq<Request>)
    requires Distinct(before + (between + [e] + after))
    ensures Distinct(before + [e] + (between + after))
  {
    var s, s' := before + (between + [e] + after), before + [e] + (between + after);
    var n, m := |before|, |between|;
    forall i, j | 0 <= i < j < |s'|
      ensures s'[i].serial != s'[j].serial
    {
      var i0 := if i < n then i else if i == n then n + m else if i <= n + m then i - 1 else i;
      var j0 := if j < n then j else if j == n then n + m else if j <= n + m then j - 1 else j;
      assert s'[i] == s[i0] && s'[j] == s[j0];
    }
  }

  lemma DistinctDrop(before: seq<Request>, e: Request, after: seq<Request>)
    requires Distinct(before + [e] + after)
    ensures Distinct(before + after)
  {
    var s, s' := before + [e] + after, before + after;
    forall i, j | 0 <= i < j < |s'|
      ensures s'[i].serial != s'[j].serial
    {
      var i0 := if i < |before| then i else i + 1;
      var j0 := if j < |before| then j else j + 1;
      assert s'[i] == s[i0] && s'[j] == s[j0];
    }
  }

  lemma RefuseKeeps(o: Owner, e: Request, rest: seq<Request>)
    requires InOrder(o, o.queue + [e] + rest)
    ensures InOrder(o.(arrived := Without(o.arrived, e.serial)), o.queue + rest)
  {
    var before := o.served + o.queue;
    assert o.served + (o.queue + [e] + rest) == before + [e] + rest;
    assert o.served + (o.queue + rest) == before + rest;
    DistinctDrop(before, e, rest);
    forall k: Request
      ensures ForKey(before + rest, k) == ForKey(Without(o.arrived, e.serial), k)
    {
      DropOne(before, e, rest, o.arrived, k);
    }
  }

  lemma ServeKeeps(o: Owner, e: Request, rest: seq<Request>)
    requires InOrder(o, o.queue + [e] + rest) && !Queued(o.queue, e)
    ensures InOrder(o.(served := o.served + [e]), o.queue + rest)
  {
    DistinctGoAhead(o.served, o.queue, e, rest);
    forall k: Request
      ensures ForKey(o.served + [e] + (o.queue + rest), k) == ForKey(o.arrived, k)
    {
      GoAhead(o.served, o.queue, e, rest, k);
    }
  }

  lemma NewSlotExclusive(live: seq<Slot>, e: Request, quantum: nat)
    requires Exclusive(live) && !Busy(live, e)
    ensures Exclusive([Slot(e, NewTransfer(quantum))] + live)
  {
    var live' := [Slot(e, NewTransfer(quantum))] + live;
    forall i, j | 0 <= i < j < |live'| && live'[i].request.SameKey(live'[j].request)
      ensures !live'[i].Unfinished() || !live'[j].Unfinished()
    {
      assert live'[j] == live[j - 1];
      if i > 0 { assert live'[i] == live[i - 1]; }
    }
  }

  lemma HandleSettled(o: Owner, e: Request, v: Verdict, quantum: nat)
    requires quantum > 0 && Settled(o)
    ensures Settled(Handle(o, e, v, quantum))
  {
    if v == Started && !Busy(o.live, e) {
      NewSlotExclusive(o.live, e, quantum);
    }
  }

  /** Handling e, which stands after the queue and before rest, keeps everything in order. */
  lemma HandleKeeps(o: Owner, e: Request, rest: seq<Request>, v: Verdict, quantum: nat)
    requires quantum > 0 && Settled(o) && InOrder(o, o.queue + [e] + rest)
    ensures var o' := Handle(o, e, v, quantum); Settled(o') && InOrder(o', o'.queue + rest)
  {
    if v == Refused {
      RefuseKeeps(o, e, rest);
    } else if !Busy(o.live, e) && !Queued(o.queue, e) {
      ServeKeeps(o, e, rest);
      if v == Started {
        NewSlotExclusive(o.live, e, quantum);
        ServeKeeps(o.(live := [Slot(e, NewTransfer(quantum))] + o.live), e, rest);
      }
    }
  }

  lemma {:induction false} HandleAllKeeps(o: Owner, es: seq<Request>, decide: Request -> Verdict, quantum: nat)
    requires quantum > 0 && Settled(o) && InOrder(o, o.queue + es)
    ensures OwnerInv(HandleAll(o, es, decide, quantum))
    decreases |es|
  {
    if es == [] {
      assert o.queue + es == o.queue;
    } else {
      assert o.queue + es == o.queue + [es[0]] + es[1..];
      HandleKeeps(o, es[0], es[1..], decide(es[0]), quantum);
      HandleAllKeeps(Handle(o, es[0], decide(es[0]), quantum), es[1..], decide, quantum);
    }
  }

  // ----- events -----

  lemma UnlinkKeeps(o: Owner, i: nat, decide: Request -> Verdict, quantum: nat)
    requires quantum > 0 && OwnerInv(o) && i < |o.live|
    ensures OwnerInv(Unlink(o, i, decide, quantum))
  {
    var o1 := o.(live := o.live[..i] + o.live[i + 1..]);
    if o1.live == [] {
      assert [] + o1.queue == o1.queue;
      HandleAllKeeps(o1.(queue := []), o1.queue, decide, quantum);
    } else {
      forall a, b | 0 <= a < b < |o1.live| && o1.live[a].request.SameKey(o1.live[b].request)
        ensures !o1.live[a].Unfinished() || !o1.live[b].Unfinished()
      {
        var a0 := if a < i then a else a + 1;
        var b0 := if b < i then b else b + 1;
        assert o1.live[a] == o.live[a0] && o1.live[b] == o.live[b0];
      }
    }
  }

  lemma ReplaceKeeps(o: Owner, i: nat, w: Transfer, decide: Request -> Verdict, quantum: nat)
    requires quantum > 0 && OwnerInv(o) && i < |o.live|
    requires w.freed || Inv(w)
    requires !o.live[i].Unfinished() ==> w.freed || (w.finished && w.waitingForDelete)
    ensures OwnerInv(Replace(o, i, w, decide, quantum))
  {
    if w.freed {
      UnlinkKeeps(o, i, decide, quantum);
    }
  }

  lemma ArriveKeeps(o: Owner, e: Request, decide: Request -> Verdict, quantum: nat)
    requires quantum > 0 && OwnerInv(o)
    requires forall r :: r in o.served + o.queue ==> r.serial != e.serial
    ensures OwnerInv(Arrive(o, e, decide, quantum))
  {
    var o1 := o.(arrived := o.arrived + [e]);
    assert o.served + (o.queue + [e]) == (o.served + o.queue) + [e];
    forall k: Request
      ensures ForKey(o.served + (o.queue + [e]), k) == ForKey(o1.arrived, k)
    {
      ForKeyConcat(o.served + o.queue, [e], k);
      ForKeyConcat(o.arrived, [e], k);
    }
    assert Distinct((o.served + o.queue) + [e]) by {
      var s := o.served + o.queue;
      forall i, j | 0 <= i < j < |s + [e]|
        ensures (s + [e])[i].serial != (s + [e])[j].serial
      {
        assert (s + [e])[i] == s[i] && s[i] in s;
      }
    }
    assert o.queue + [e] + [] == o.queue + [e];
    HandleKeeps(o1, e, [], decide(e), quantum);
    var o' := Arrive(o, e, decide, quantum);
    assert o'.queue + [] == o'.queue;
  }

  /** The data source answers properly for every transfer that the event makes it read. */
  ghost predicate DeletesFit(o: Owner, n: nat, chunks: seq<Chunk>)
    requires n <= |o.live|
  {
    n <= |chunks| && forall i :: 0 <= i < n ==> Possible(o.live[i].w, Deleted(chunks[i]))
  }

  lemma {:induction false} DeleteAllKeeps(o: Owner, n: nat, chunks: seq<Chunk>, decide: Request -> Verdict,
                                          quantum: nat)
    requires quantum > 0 && OwnerInv(o) && n <= |o.live| && DeletesFit(o, n, chunks)
    ensures OwnerInv(DeleteAll(o, n, chunks, decide, quantum))
    decreases n
  {
    if n > 0 {
      var w := o.live[n - 1].w;
      PropertyDeletedKeeps(w, chunks[n - 1]);
      ReplaceKeeps(o, n - 1, PropertyDeleted(w, chunks[n - 1]), decide, quantum);
      DeleteAllKeeps(Replace(o, n - 1, PropertyDeleted(w, chunks[n - 1]), decide, quantum), n - 1, chunks, decide,
          quantum);
    }
  }

  // ----- what follows -----

  lemma {:induction false} ForKeyMember(s: seq<Request>, r: Request)
    ensures r in s <==> r in ForKey(s, r)
  {
    if s != [] {
      ForKeyMember(s[..|s| - 1], r);
      assert s == s[..|s| - 1] + [s[|s| - 1]];
    }
  }

  /** Requests for one key are answered or started in the order in which they were received,
      and every request received and not refused has been served or still waits. */
  lemma ServedInOrder(o: Owner, k: Request, r: Request)
    requires OwnerInv(o)
    ensures ForKey(o.served, k) <= ForKey(o.arrived, k)
    ensures r in o.arrived <==> r in o.served || r in o.queue
  {
    ForKeyConcat(o.served, o.queue, k);
    ForKeyMember(o.arrived, r);
    ForKeyMember(o.served + o.queue, r);
  }

  datatype Event =
    | RequestArrives(e: Request)
    | SourceReadable(i: nat, chunk: Chunk)
    | PropertyDelete(chunks: seq<Chunk>)
    | TimedOut(i: nat)

  ghost predicate Possibly(o: Owner, ev: Event) {
    match ev
    case RequestArrives(e) => forall r :: r in o.served + o.queue ==> r.serial != e.serial
    case SourceReadable(i, c) => i < |o.live| && Possible(o.live[i].w, Readable(c))
    case PropertyDelete(cs) => DeletesFit(o, |o.live|, cs)
    case TimedOut(i) => i < |o.live|
  }

  ghost function React(o: Owner, ev: Event, decide: Request -> Verdict, quantum: nat): Owner
    requires Possibly(o, ev)
  {
    match ev
    case RequestArrives(e) => Arrive(o, e, decide, quantum)
    case SourceReadable(i, c) => Replace(o, i, BecomeReadable(o.live[i].w, c), decide, quantum)
    case PropertyDelete(cs) => DeleteAll(o, |o.live|, cs, decide, quantum)
    case TimedOut(i) => Unlink(o, i, decide, quantum)
  }

  /** Whatever happens, and however requests turn out, the invariant is kept; in particular
      nothing stays queued when no transfer is live. */
  lemma ReactKeeps(o: Owner, ev: Event, decide: Request -> Verdict, quantum: nat)
    requires quantum > 0 && OwnerInv(o) && Possibly(o, ev)
    ensures OwnerInv(React(o, ev, decide, quantum))
  {
    match ev
    case RequestArrives(e) => ArriveKeeps(o, e, decide, quantum);
    case SourceReadable(i, c) =>
      BecomeReadableKeeps(o.live[i].w, c);
      ReplaceKeeps(o, i, BecomeReadable(o.live[i].w, c), decide, quantum);
    case PropertyDelete(cs) => DeleteAllKeeps(o, |o.live|, cs, decide, quantum);
    case TimedOut(i) => UnlinkKeeps(o, i, decide, quantum);
  }

  lemma NoRequests()
    ensures OwnerInv(Owner([], [], [], []))
  {
  }

  /** A run: each event comes with the way requests turn out while it is handled. */
  ghost predicate Reachable(os: seq<Owner>, evs: seq<Event>, decides: seq<Request -> Verdict>, quantum: nat) {
    && |os| == |evs| + 1 && |decides| == |evs| && os[0] == Owner([], [], [], [])
    && forall i :: 0 <= i < |evs| ==>
         Possibly(os[i], evs[i]) && os[i + 1] == React(os[i], evs[i], decides[i], quantum)
  }

  /** In every state of every run: at most one unfinished transfer is live for any requestor
      and property, requests are served in order for each key and none is lost, and the queue is
      empty when no transfer is live. */
  lemma {:induction false} AlwaysOrderly(os: seq<Owner>, evs: seq<Event>, decides: seq<Request -> Verdict>,
                                         quantum: nat, n: nat)
    requires quantum > 0 && Reachable(os, evs, decides, quantum) && n < |os|
    ensures OwnerInv(os[n])
    ensures Exclusive(os[n].live)
    ensures os[n].live == [] ==> os[n].queue == []
    ensures forall k :: ForKey(os[n].served, k) <= ForKey(os[n].arrived, k)
    ensures forall r :: r in os[n].arrived <==> r in os[n].served || r in os[n].queue
  {
    if n == 0 {
      NoRequests();
    } else {
      AlwaysOrderly(os, evs, decides, quantum, n - 1);
      ReactKeeps(os[n - 1], evs[n - 1], decides[n - 1], quantum);
    }
    forall r: Request
      ensures ForKey(os[n].served, r) <= ForKey(os[n].arrived, r)
      ensures r in os[n].arrived <==> r in os[n].served || r in os[n].queue
    {
      ServedInOrder(os[n], r, r);
    }
  }

  // ----- the program's lists and handlers -----

  class Selections {
    var live: seq<Slot>
    var queue: seq<Request>
    const quantum: nat
    ghost var arrived: seq<Request>
    ghost var served: seq<Request>

    ghost function Value(): Owner
      reads this
    {
      Owner(live, queue, arrived, served)
    }

    constructor (quantum: nat)
      ensures Value() == Owner([], [], [], []) && this.quantum == quantum
    {
      this.quantum := quantum;
      live, queue, arrived, served := [], [], [], [];
    }

    method FindWriteTransfer(e: Request) returns (found: bool)
      ensures found == Busy(live, e)
    {
      var i := |live|;
      while i > 0
        invariant 0 <= i <= |live|
        invariant forall k :: i <= k < |live| ==> !(live[k].request.SameKey(e) && live[k].Unfinished())
      {
        i := i - 1;
        if live[i].request.SameKey(e) && live[i].Unfinished() {
          return true;
        }
      }
      return false;
    }

    method FindQueuedTransfer(e: Request) returns (found: bool)
      ensures found == Queued(queue, e)
    {
      var i := |queue|;
      while i > 0
        invariant 0 <= i <= |queue|
        invariant forall k :: i <= k < |queue| ==> queue[k].requestor != e.requestor && queue[k].property != e.property
      {
        i := i - 1;
        if queue[i].requestor == e.requestor || queue[i].property == e.property {
          return true;
        }
      }
      return false;
    }

    /** Handles one request.  Setting up its transfer may fail; the transfer is then freed
        again, which drains a queue that is empty by then. */
    method HandleSelectionRequest(e: Request, decide: Request -> Verdict)
      requires quantum > 0 && Settled(Value())
      modifies this
      ensures Value() == Handle(old(Value()), e, decide(e), quantum)
      decreases 0, 2
    {
      var verdict := decide(e);
      if verdict == Refused {
        arrived := Without(arrived, e.serial);
        return;
      }
      var existing := FindWriteTransfer(e);
      var queued := FindQueuedTransfer(e);
      if existing || queued {
        queue := queue + [e];
        return;
      }
      served := served + [e];
      if verdict == AnsweredNow {
        return;
      }
      live := [Slot(e, NewTransfer(quantum))] + live;
      if verdict == SetupFailed {
        assert [] + live[1..] == old(live);
        FreeTransfer(0, decide);
      }
    }

    method FreeTransfer(i: nat, decide: Request -> Verdict)
      requires quantum > 0 && i < |live|
      modifies this
      ensures Value() == Unlink(old(Value()), i, decide, quantum)
      decreases if |live| == 1 then |queue| else 0, 1
    {
      live := live[..i] + live[i + 1..];
      if live == [] {
        DrainQueuedTransfers(decide);
      }
    }

    /** The queue is moved aside first, so that requests may be queued again meanwhile. */
    method DrainQueuedTransfers(decide: Request -> Verdict)
      requires quantum > 0 && live == []
      modifies this
      ensures Value() == HandleAll(old(Value()).(queue := []), old(queue), decide, quantum)
      decreases |queue|, 0
    {
      if queue == [] {
        return;
      }
      var temp := queue;
      queue := [];
      var i := 0;
      ghost var start := Value();
      while i < |temp|
        invariant 0 <= i <= |temp|
        invariant Settled(Value())
        invariant HandleAll(Value(), temp[i..], decide, quantum) == HandleAll(start, temp, decide, quantum)
      {
        HandleSettled(Value(), temp[i], decide(temp[i]), quantum);
        assert temp[i..][0] == temp[i] && temp[i..][1..] == temp[i + 1..];
        HandleSelectionRequest(temp[i], decide);
        i := i + 1;
      }
    }

    method SelectionRequestArrives(e: Request, decide: Request -> Verdict)
      requires quantum > 0 && Settled(Value())
      modifies this
      ensures Value() == Arrive(old(Value()), e, decide, quantum)
    {
      arrived := arrived + [e];
      HandleSelectionRequest(e, decide);
    }

    method PutTransfer(i: nat, w: Transfer, decide: Request -> Verdict)
      requires quantum > 0 && i < |live|
      modifies this
      ensures Value() == Replace(old(Value()), i, w, decide, quantum)
    {
      if w.freed {
        FreeTransfer(i, decide);
      } else {
        live := live[i := live[i].(w := w)];
      }
    }

    /** Goes through the live transfers from the oldest to the newest. */
    method HandlePropertyDelete(chunks: seq<Chunk>, decide: Request -> Verdict)
      requires quantum > 0 && |chunks| >= |live|
      modifies this
      ensures Value() == DeleteAll(old(Value()), |old(live)|, chunks, decide, quantum)
    {
      var n := |live|;
      ghost var start := Value();
      while n > 0
        invariant 0 <= n <= |live| && n <= |chunks|
        invariant DeleteAll(Value(), n, chunks, decide, quantum)
            == DeleteAll(start, |start.live|, chunks, decide, quantum)
      {
        PutTransfer(n - 1, PropertyDeleted(live[n - 1].w, chunks[n - 1]), decide);
        n := n - 1;
      }
    }
  }
}
