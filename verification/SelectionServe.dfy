/** What becomes of the requests that are served: each one that starts gets a transfer of its own,
    which is passed every event that is for it, and goes away only when it is over. */
module SelectionServe {
  import opened SelectionWrite
  import opened SelectionOwner

  // ----- the transfers after an event -----

  /** New transfers for the requests that start, newest first. */
  function SlotsFor(added: seq<Request>, decide: Request -> Verdict, quantum: nat): seq<Slot> {
    if added == [] then []
    else
      SlotsFor(added[1..], decide, quantum)
      + if decide(added[0]) == Started then [Slot(added[0], NewTransfer(quantum))] else []
  }

  /** The slot with its transfer after an event, unless it is over. */
  function Left(x: Slot, e: SelectionWrite.Event): seq<Slot> {
    var w := Step(x.w, e);
    if w.freed then [] else [x.(w := w)]
  }

  /** Each transfer sees the property deleted. */
  function Passed(live: seq<Slot>, chunks: seq<Chunk>): seq<Slot>
    requires |chunks| >= |live|
  {
    if live == [] then [] else Left(live[0], Deleted(chunks[0])) + Passed(live[1..], chunks[1..])
  }

  /** What an event leaves of the transfers that are live. */
  function LeftOver(live: seq<Slot>, ev: SelectionOwner.Event): seq<Slot>
    requires ev.SourceReadable? || ev.TimedOut? ==> ev.i < |live|
    requires ev.PropertyDelete? ==> |ev.chunks| >= |live|
  {
    match ev
    case RequestArrives(_) => live
    case SourceReadable(i, c) => live[..i] + Left(live[i], Readable(c)) + live[i + 1..]
    case PropertyDelete(cs) => Passed(live, cs)
    case TimedOut(i) => live[..i] + live[i + 1..]
  }

  /** From o to o' just the added requests have been served, and kept are the transfers left. */
  ghost predicate Served(o: Owner, o': Owner, added: seq<Request>, kept: seq<Slot>, decide: Request -> Verdict,
                         quantum: nat)
  {
    o'.served == o.served + added && o'.live == SlotsFor(added, decide, quantum) + kept
  }

  lemma SlotsForConcat(a: seq<Request>, b: seq<Request>, decide: Request -> Verdict, quantum: nat)
    ensures SlotsFor(a + b, decide, quantum) == SlotsFor(b, decide, quantum) + SlotsFor(a, decide, quantum)
  {
    if a == [] {
      assert a + b == b;
    } else {
      SlotsForConcat(a[1..], b, decide, quantum);
      assert (a + b)[1..] == a[1..] + b;
    }
  }

  lemma ServedThen(a: Owner, b: Owner, c: Owner, more: seq<Request>, still: seq<Request>, kept: seq<Slot>,
                   decide: Request -> Verdict, quantum: nat)
    requires Served(a, b, more, kept, decide, quantum) && Served(b, c, still, b.live, decide, quantum)
    ensures Served(a, c, more + still, kept, decide, quantum)
  {
    SlotsForConcat(more, still, decide, quantum);
  }

  lemma HandleServes(o: Owner, e: Request, decide: Request -> Verdict, quantum: nat) returns (added: seq<Request>)
    ensures Served(o, Handle(o, e, decide(e), quantum), added, o.live, decide, quantum)
  {
    assert SlotsFor([], decide, quantum) == [];
    if decide(e) == Refused || Busy(o.live, e) || Queued(o.queue, e) {
      added := [];
    } else {
      added := [e];
      assert SlotsFor([e], decide, quantum) == if decide(e) == Started then [Slot(e, NewTransfer(quantum))] else [] by {
        assert [e][1..] == [];
      }
    }
  }

  lemma {:induction false} HandleAllServes(o: Owner, es: seq<Request>, decide: Request -> Verdict, quantum: nat)
    returns (added: seq<Request>)
    ensures Served(o, HandleAll(o, es, decide, quantum), added, o.live, decide, quantum)
    decreases |es|
  {
    if es == [] {
      added := [];
    } else {
      var o1 := Handle(o, es[0], decide(es[0]), quantum);
      var one := HandleServes(o, es[0], decide, quantum);
      var more := HandleAllServes(o1, es[1..], decide, quantum);
      hide Served, Handle;
      ServedThen(o, o1, HandleAll(o1, es[1..], decide, quantum), one, more, o.live, decide, quantum);
      added := one + more;
    }
  }

  lemma NoneServed(o: Owner, kept: seq<Slot>, decide: Request -> Verdict, quantum: nat)
    ensures Served(o, o.(live := kept), [], kept, decide, quantum)
  {
    assert [] + kept == kept;
  }

  lemma UnlinkServes(o: Owner, i: nat, decide: Request -> Verdict, quantum: nat) returns (added: seq<Request>)
    requires i < |o.live|
    ensures Served(o, Unlink(o, i, decide, quantum), added, o.live[..i] + o.live[i + 1..], decide, quantum)
    ensures |o.live| > 1 ==> Unlink(o, i, decide, quantum) == o.(live := o.live[..i] + o.live[i + 1..])
  {
    var kept := o.live[..i] + o.live[i + 1..];
    if kept == [] {
      added := HandleAllServes(o.(live := [], queue := []), o.queue, decide, quantum);
    } else {
      NoneServed(o, kept, decide, quantum);
      added := [];
    }
  }

  lemma ReplaceServes(o: Owner, i: nat, e: SelectionWrite.Event, decide: Request -> Verdict, quantum: nat)
    returns (added: seq<Request>)
    requires i < |o.live|
    ensures var o' := Replace(o, i, Step(o.live[i].w, e), decide, quantum);
      var kept := o.live[..i] + Left(o.live[i], e) + o.live[i + 1..];
      Served(o, o', added, kept, decide, quantum) && (|o.live| > 1 ==> o' == o.(live := kept))
  {
    var x := o.live[i];
    var kept := o.live[..i] + Left(x, e) + o.live[i + 1..];
    if Step(x.w, e).freed {
      assert kept == o.live[..i] + o.live[i + 1..];
      added := UnlinkServes(o, i, decide, quantum);
    } else {
      assert kept == o.live[i := x.(w := Step(x.w, e))];
      NoneServed(o, kept, decide, quantum);
      added := [];
    }
  }

  lemma {:induction false} PassedSnoc(live: seq<Slot>, chunks: seq<Chunk>, n: nat)
    requires n > 0 && n <= |live| && n <= |chunks|
    ensures Passed(live[..n], chunks[..n])
         == Passed(live[..n - 1], chunks[..n - 1]) + Left(live[n - 1], Deleted(chunks[n - 1]))
  {
    hide Left;
    if n == 1 {
      assert live[..1][1..] == [] && live[..0] == [];
    } else {
      PassedSnoc(live[1..], chunks[1..], n - 1);
      assert live[..n][1..] == live[1..][..n - 1] && chunks[..n][1..] == chunks[1..][..n - 1];
      assert live[..n - 1][1..] == live[1..][..n - 2] && chunks[..n - 1][1..] == chunks[1..][..n - 2];
    }
  }

  lemma {:induction false} DeleteAllServes(o: Owner, n: nat, chunks: seq<Chunk>, decide: Request -> Verdict,
                                           quantum: nat)
    returns (added: seq<Request>)
    requires n <= |o.live| && n <= |chunks|
    ensures Served(o, DeleteAll(o, n, chunks, decide, quantum), added,
                   Passed(o.live[..n], chunks[..n]) + o.live[n..], decide, quantum)
    decreases n
  {
    if n == 0 {
      assert Passed([], []) + o.live[0..] == o.live;
      NoneServed(o, o.live, decide, quantum);
      added := [];
    } else if |o.live| == 1 {
      added := DeleteLast(o, chunks, decide, quantum);
    } else {
      var e := Deleted(chunks[n - 1]);
      var o1 := Replace(o, n - 1, Step(o.live[n - 1].w, e), decide, quantum);
      var o' := DeleteAll(o1, n - 1, chunks, decide, quantum);
      assert DeleteAll(o, n, chunks, decide, quantum) == o';
      hide *;
      var none := ReplaceServes(o, n - 1, e, decide, quantum);
      DeleteOneServes(o, n, e, chunks);
      added := DeleteAllServes(o1, n - 1, chunks, decide, quantum);
      DeleteJoin(o, n, chunks, o1, o', added, decide, quantum);
    }
  }

  lemma DeleteJoin(o: Owner, n: nat, chunks: seq<Chunk>, o1: Owner, o': Owner, added: seq<Request>,
                   decide: Request -> Verdict, quantum: nat)
    requires 0 < n <= |o.live| && n <= |chunks|
    requires o1 == o.(live := o.live[..n - 1] + Left(o.live[n - 1], Deleted(chunks[n - 1])) + o.live[n..])
    requires Served(o1, o', added, Passed(o1.live[..n - 1], chunks[..n - 1]) + o1.live[n - 1..], decide, quantum)
    ensures Served(o, o', added, Passed(o.live[..n], chunks[..n]) + o.live[n..], decide, quantum)
  {
    var e := Deleted(chunks[n - 1]);
    hide Passed, Left, SlotsFor;
    PassedSnoc(o.live, chunks, n);
    DeleteOneServes(o, n, e, chunks);
    assert Passed(o.live[..n - 1], chunks[..n - 1]) + (Left(o.live[n - 1], e) + o.live[n..])
        == Passed(o.live[..n], chunks[..n]) + o.live[n..];
  }

  lemma DeleteLast(o: Owner, chunks: seq<Chunk>, decide: Request -> Verdict, quantum: nat) returns (added: seq<Request>)
    requires |o.live| == 1 && |chunks| >= 1
    ensures Served(o, DeleteAll(o, 1, chunks, decide, quantum), added,
                   Passed(o.live[..1], chunks[..1]) + o.live[1..], decide, quantum)
  {
    var e := Deleted(chunks[0]);
    added := ReplaceServes(o, 0, e, decide, quantum);
    PassedSnoc(o.live, chunks, 1);
    assert Passed(o.live[..0], chunks[..0]) == [];
    hide Passed, Left, Step, SlotsFor;
    assert o.live[..0] + Left(o.live[0], e) + o.live[1..] == Passed(o.live[..1], chunks[..1]) + o.live[1..];
  }

  lemma DeleteOneServes(o: Owner, n: nat, e: SelectionWrite.Event, chunks: seq<Chunk>)
    requires 0 < n <= |o.live| && n <= |chunks|
    ensures var kept := o.live[..n - 1] + Left(o.live[n - 1], e) + o.live[n..];
      && kept[..n - 1] == o.live[..n - 1] && kept[n - 1..] == Left(o.live[n - 1], e) + o.live[n..]
  {
  }

  /** After any event the live transfers are those it leaves over, each having seen the event if it
      is for it, and a new one for each request now served that starts. */
  lemma ReactServes(o: Owner, ev: SelectionOwner.Event, decide: Request -> Verdict, quantum: nat)
    returns (added: seq<Request>)
    requires Possibly(o, ev)
    ensures Served(o, React(o, ev, decide, quantum), added, LeftOver(o.live, ev), decide, quantum)
  {
    match ev
    case RequestArrives(e) => added := HandleServes(o.(arrived := o.arrived + [e]), e, decide, quantum);
    case SourceReadable(i, c) => added := ReplaceServes(o, i, Readable(c), decide, quantum);
    case PropertyDelete(cs) =>
      added := DeleteAllServes(o, |o.live|, cs, decide, quantum);
      assert o.live[..|o.live|] == o.live && o.live[|o.live|..] == [];
      PassedFirst(o.live, cs);
    case TimedOut(i) => added := UnlinkServes(o, i, decide, quantum);
  }

  lemma {:induction false} PassedFirst(live: seq<Slot>, chunks: seq<Chunk>)
    requires |chunks| >= |live|
    ensures Passed(live, chunks[..|live|]) == Passed(live, chunks)
  {
    if live != [] {
      PassedFirst(live[1..], chunks[1..]);
      assert chunks[..|live|][1..] == chunks[1..][..|live[1..]|];
    }
  }

  // ----- the life of a transfer -----

  /** The event that the k-th live transfer sees, if any. */
  function Seen(ev: SelectionOwner.Event, k: nat): seq<SelectionWrite.Event>
    requires ev.PropertyDelete? ==> k < |ev.chunks|
  {
    match ev
    case RequestArrives(_) => []
    case SourceReadable(i, c) => if i == k then [Readable(c)] else []
    case PropertyDelete(cs) => [Deleted(cs[k])]
    case TimedOut(_) => []
  }

  /** The event puts an end to the k-th live transfer: it is freed, or times out. */
  predicate Over(live: seq<Slot>, ev: SelectionOwner.Event, k: nat)
    requires k < |live| && (ev.PropertyDelete? ==> k < |ev.chunks|)
  {
    ev == TimedOut(k) || (Seen(ev, k) != [] && Step(live[k].w, Seen(ev, k)[0]).freed)
  }

  function After(w: Transfer, es: seq<SelectionWrite.Event>): Transfer
    requires |es| <= 1
  {
    if es == [] then w else Step(w, es[0])
  }

  lemma {:induction false} PassedAt(live: seq<Slot>, chunks: seq<Chunk>, k: nat)
    requires k < |live| <= |chunks| && !Step(live[k].w, Deleted(chunks[k])).freed
    ensures live[k].(w := Step(live[k].w, Deleted(chunks[k]))) in Passed(live, chunks)
  {
    if k > 0 {
      PassedAt(live[1..], chunks[1..], k - 1);
    }
  }

  lemma {:induction false} PassedFrom(live: seq<Slot>, chunks: seq<Chunk>, x: Slot) returns (k: nat)
    requires |live| <= |chunks| && x in Passed(live, chunks)
    ensures k < |live| && x == live[k].(w := Step(live[k].w, Deleted(chunks[k]))) && !x.w.freed
  {
    if x in Left(live[0], Deleted(chunks[0])) {
      k := 0;
    } else {
      k := PassedFrom(live[1..], chunks[1..], x);
      k := k + 1;
    }
  }

  /** A transfer that the event does not put an end to stays. */
  lemma NotOverStays(live: seq<Slot>, ev: SelectionOwner.Event, k: nat)
    requires k < |live| && (ev.SourceReadable? || ev.TimedOut? ==> ev.i < |live|)
    requires ev.PropertyDelete? ==> |ev.chunks| >= |live|
    requires !Over(live, ev, k)
    ensures live[k].(w := After(live[k].w, Seen(ev, k))) in LeftOver(live, ev)
  {
    hide Step;
    match ev
    case RequestArrives(_) =>
    case SourceReadable(i, c) => SplitAt(live, i, k);
    case PropertyDelete(cs) => PassedAt(live, cs, k);
    case TimedOut(i) => SplitAt(live, i, k);
  }

  lemma SplitAt(live: seq<Slot>, i: nat, k: nat)
    requires i < |live| && k < |live|
    ensures k != i ==> live[k] in live[..i] || live[k] in live[i + 1..]
  {
    if k < i {
      assert live[..i][k] == live[k];
    } else if k > i {
      assert live[i + 1..][k - i - 1] == live[k];
    }
  }

  /** A transfer that is left over is what the event has made of one that was live. */
  lemma LeftFrom(live: seq<Slot>, ev: SelectionOwner.Event, x: Slot) returns (k: nat)
    requires ev.SourceReadable? || ev.TimedOut? ==> ev.i < |live|
    requires ev.PropertyDelete? ==> |ev.chunks| >= |live|
    requires x in LeftOver(live, ev) && forall i :: 0 <= i < |live| ==> !live[i].w.freed
    ensures k < |live| && x == live[k].(w := After(live[k].w, Seen(ev, k))) && !Over(live, ev, k)
  {
    hide Step;
    match ev
    case RequestArrives(_) => k :| 0 <= k < |live| && live[k] == x;
    case SourceReadable(i, c) =>
      if x in Left(live[i], Readable(c)) {
        k := i;
      } else {
        k := OtherThan(live, i, x);
      }
    case PropertyDelete(cs) => k := PassedFrom(live, cs, x);
    case TimedOut(i) => k := OtherThan(live, i, x);
  }

  lemma OtherThan(live: seq<Slot>, i: nat, x: Slot) returns (k: nat)
    requires i < |live| && (x in live[..i] || x in live[i + 1..])
    ensures k < |live| && k != i && live[k] == x
  {
    if x in live[..i] {
      k :| 0 <= k < i && live[..i][k] == x;
    } else {
      var j :| 0 <= j < |live[i + 1..]| && live[i + 1..][j] == x;
      k := i + 1 + j;
    }
  }

  lemma {:induction false} SlotsForMembers(added: seq<Request>, decide: Request -> Verdict, quantum: nat)
    ensures forall x :: x in SlotsFor(added, decide, quantum) <==>
      x.request in added && decide(x.request) == Started && x.w == NewTransfer(quantum)
  {
    if added != [] {
      SlotsForMembers(added[1..], decide, quantum);
      assert added == [added[0]] + added[1..];
    }
  }

  /** A request that is served at step m and starts has a new transfer after it. */
  lemma StartedHasSlot(os: seq<Owner>, evs: seq<SelectionOwner.Event>, decides: seq<Request -> Verdict>, quantum: nat,
                       m: nat, r: Request)
    requires Reachable(os, evs, decides, quantum) && m < |evs|
    requires r !in os[m].served && r in os[m + 1].served && decides[m](r) == Started
    ensures Slot(r, NewTransfer(quantum)) in os[m + 1].live
  {
    hide React, LeftOver, SlotsFor;
    var added := ReactServes(os[m], evs[m], decides[m], quantum);
    SlotsForMembers(added, decides[m], quantum);
    assert r in added;
  }

  /** Every request that is served and starts has a live transfer from then on, until an event frees
      that transfer or it times out. */
  lemma {:induction false} LivesUntilOver(os: seq<Owner>, evs: seq<SelectionOwner.Event>,
                                          decides: seq<Request -> Verdict>, quantum: nat, m: nat, n: nat, r: Request)
    returns (j: nat, k: nat)
    requires quantum > 0 && Reachable(os, evs, decides, quantum) && m < n < |os|
    requires r !in os[m].served && r in os[m + 1].served && decides[m](r) == Started
    ensures m < j <= n && k < |os[j].live| && os[j].live[k].request == r
    ensures j < n ==> (evs[j].PropertyDelete? ==> k < |evs[j].chunks|) && Over(os[j].live, evs[j], k)
  {
    if n == m + 1 {
      StartedHasSlot(os, evs, decides, quantum, m, r);
      j := n;
      k :| 0 <= k < |os[n].live| && os[n].live[k] == Slot(r, NewTransfer(quantum));
    } else {
      j, k := LivesUntilOver(os, evs, decides, quantum, m, n - 1, r);
      if j == n - 1 && !Over(os[j].live, evs[j], k) {
        var x := os[j].live[k].(w := After(os[j].live[k].w, Seen(evs[j], k)));
        StaysLive(os, evs, decides, quantum, j, k);
        j := n;
        k :| 0 <= k < |os[n].live| && os[n].live[k] == x;
      }
    }
  }

  lemma StaysLive(os: seq<Owner>, evs: seq<SelectionOwner.Event>, decides: seq<Request -> Verdict>, quantum: nat,
                  n: nat, k: nat)
    requires Reachable(os, evs, decides, quantum) && n < |evs| && k < |os[n].live|
    requires (evs[n].PropertyDelete? ==> k < |evs[n].chunks|) && !Over(os[n].live, evs[n], k)
    ensures os[n].live[k].(w := After(os[n].live[k].w, Seen(evs[n], k))) in os[n + 1].live
  {
    var added := ReactServes(os[n], evs[n], decides[n], quantum);
    hide React, LeftOver, SlotsFor, Over, Seen, After;
    NotOverStays(os[n].live, evs[n], k);
  }

  /** Every live transfer is that of a run of its own: it began when its request was served, and has
      taken just the steps that the events brought. */
  lemma {:induction false} SlotRuns(os: seq<Owner>, evs: seq<SelectionOwner.Event>, decides: seq<Request -> Verdict>,
                                    quantum: nat, n: nat, k: nat) returns (es: seq<SelectionWrite.Event>)
    requires quantum > 0 && Reachable(os, evs, decides, quantum) && n < |os| && k < |os[n].live|
    ensures PossibleRun(NewTransfer(quantum), es) && Run(NewTransfer(quantum), es) == os[n].live[k].w
    ensures os[n].live[k].request in os[n].served
  {
    AlwaysOrderly(os, evs, decides, quantum, n - 1);
    var x := os[n].live[k];
    var begins, i := SlotFrom(os[n - 1], evs[n - 1], decides[n - 1], quantum, x);
    hide React, Possibly, OwnerInv, Seen, After, Possible, Run, PossibleRun, Step;
    if begins {
      es := [];
      NoSteps(NewTransfer(quantum));
    } else {
      es := SlotRuns(os, evs, decides, quantum, n - 1, i);
      es := SeenNext(os[n - 1].live[i].w, evs[n - 1], i, x.w, quantum, es);
    }
  }

  lemma SeenNext(w: Transfer, ev: SelectionOwner.Event, i: nat, w': Transfer, quantum: nat,
                 es: seq<SelectionWrite.Event>) returns (more: seq<SelectionWrite.Event>)
    requires PossibleRun(NewTransfer(quantum), es) && Run(NewTransfer(quantum), es) == w
    requires (ev.PropertyDelete? ==> i < |ev.chunks|) && w' == After(w, Seen(ev, i))
    requires Seen(ev, i) != [] ==> Possible(w, Seen(ev, i)[0])
    ensures PossibleRun(NewTransfer(quantum), more) && Run(NewTransfer(quantum), more) == w'
  {
    hide Run, PossibleRun, Step;
    more := es;
    if Seen(ev, i) != [] {
      RunOneMore(NewTransfer(quantum), es, Seen(ev, i)[0]);
      more := es + [Seen(ev, i)[0]];
    }
  }

  /** A live transfer is new, or what the event has made of one that was live before. */
  lemma SlotFrom(o: Owner, ev: SelectionOwner.Event, decide: Request -> Verdict, quantum: nat, x: Slot)
    returns (begins: bool, i: nat)
    requires OwnerInv(o) && Possibly(o, ev) && x in React(o, ev, decide, quantum).live
    ensures o.served <= React(o, ev, decide, quantum).served
    ensures begins ==> x.w == NewTransfer(quantum) && x.request in React(o, ev, decide, quantum).served
    ensures !begins ==>
      && i < |o.live| && (ev.PropertyDelete? ==> i < |ev.chunks|)
      && x == o.live[i].(w := After(o.live[i].w, Seen(ev, i)))
      && (Seen(ev, i) != [] ==> Possible(o.live[i].w, Seen(ev, i)[0]))
  {
    var added := ReactServes(o, ev, decide, quantum);
    SlotsForMembers(added, decide, quantum);
    begins, i := x in SlotsFor(added, decide, quantum), 0;
    hide React, SlotsFor, LeftOver, Possible;
    if !begins {
      i := LeftFrom(o.live, ev, x);
    }
  }

  lemma NoSteps(w: Transfer)
    ensures PossibleRun(w, []) && Run(w, []) == w
  {
  }

  lemma RunOneMore(w: Transfer, es: seq<SelectionWrite.Event>, e: SelectionWrite.Event)
    requires PossibleRun(w, es) && Possible(Run(w, es), e)
    ensures PossibleRun(w, es + [e]) && Run(w, es + [e]) == Step(Run(w, es), e)
  {
    assert (es + [e])[..|es|] == es;
  }
}
