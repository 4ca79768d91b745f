/** The owner's side of a selection transfer (sections 2.4 and 2.7.2 of the ICCCM): the flags
    of one write transfer as a value, what each handler does to them, and the property
    writes that any run of handlers leaves behind. */
module SelectionWrite {

  newtype byte = x: int | 0 <= x < 256

  /** A value given to the transfer property: an INCR header, or data of the target's type. */
  datatype Prop = Incr(size: nat) | Data(bytes: seq<byte>)

  datatype ReadStatus = ReadOk | EndOfFile | NeedBiggerBuffer

  /** What the data source gives when asked for at most as many bytes as are free. */
  datatype Chunk = Chunk(status: ReadStatus, bytes: seq<byte>)

  /** The state flags of a transfer, the filled part of its buffer, the property values written
      so far (log), the bytes taken from the data source so far, and
      whether it has ended. */
  datatype Transfer = Transfer(
    finished: bool, started: bool, waitingForDelete: bool, waitingForIncr: bool,
    readable: bool, flushed: bool, freed: bool, notified: bool,
    buffer: seq<byte>, size: nat, log: seq<Prop>, consumed: seq<byte>, ended: bool)

  function NewTransfer(size: nat): Transfer {
    Transfer(false, false, false, false, false, false, false, false, [], size, [], [], false)
  }

  /** The data source never gives more than was asked for, and says that it needs a bigger buffer
      only along with some data. */
  predicate ChunkFits(w: Transfer, c: Chunk) {
    && |w.buffer| + |c.bytes| <= w.size
    && (c.status == NeedBiggerBuffer ==> c.bytes != [])
  }

  /** Writes what is buffered to the property, or INCR if that has not been done yet. */
  function Flush(w: Transfer, force: bool): Transfer
    requires !w.waitingForDelete
  {
    if w.started || force then
      w.(log := w.log + [Data(w.buffer)], buffer := [],
         notified := true, waitingForDelete := true, flushed := true)
    else
      w.(log := w.log + [Incr(w.size)], waitingForIncr := true,
         notified := true, waitingForDelete := true, flushed := true)
  }

  /** Ends the transfer; an incremental one is closed with an empty property. */
  function Free(w: Transfer): Transfer {
    w.(freed := true, log := if w.started then w.log + [Data([])] else w.log)
  }

  function Finish(w: Transfer): Transfer {
    if w.waitingForDelete then
      w.(finished := true)
    else if w.buffer != [] || !w.flushed then
      Flush(w, true).(finished := true)
    else
      Free(w)
  }

  /** What is done once the data source has answered. */
  function UseAnswer(w: Transfer, status: ReadStatus): Transfer
    requires !w.waitingForDelete
  {
    if status == EndOfFile then
      Finish(w.(ended := true))
    else if |w.buffer| == w.size || status == NeedBiggerBuffer then
      Flush(w.(readable := status == NeedBiggerBuffer), false)
    else
      w
  }

  function BecomeReadable(w: Transfer, c: Chunk): Transfer {
    if w.waitingForDelete then
      w.(readable := true)
    else
      UseAnswer(w.(readable := false, buffer := w.buffer + c.bytes, consumed := w.consumed + c.bytes), c.status)
  }

  function PropertyDeleted(w: Transfer, c: Chunk): Transfer {
    if w.finished then
      Free(w)
    else if w.waitingForIncr then
      Flush(w.(started := true, waitingForIncr := false, waitingForDelete := false), false)
    else
      var w1 := w.(waitingForDelete := false);
      if w1.readable then BecomeReadable(w1, c) else w1
  }

  // ----- what is written, over any run -----

  datatype Event = Readable(chunk: Chunk) | Deleted(chunk: Chunk)

  /** The data source is asked for more exactly when this holds. */
  predicate Reads(w: Transfer, e: Event) {
    match e
    case Readable(_) => !w.waitingForDelete
    case Deleted(_) => !w.finished && !w.waitingForIncr && w.readable
  }

  /** The transfer still exists, and if the data source is asked it answers properly. */
  predicate Possible(w: Transfer, e: Event) {
    !w.freed && (Reads(w, e) ==> ChunkFits(w, e.chunk))
  }

  function Step(w: Transfer, e: Event): Transfer {
    match e
    case Readable(c) => BecomeReadable(w, c)
    case Deleted(c) => PropertyDeleted(w, c)
  }

  function Run(w: Transfer, es: seq<Event>): Transfer {
    if es == [] then w else Step(Run(w, es[..|es| - 1]), es[|es| - 1])
  }

  predicate PossibleRun(w: Transfer, es: seq<Event>) {
    es != [] ==>
      PossibleRun(w, es[..|es| - 1]) && Possible(Run(w, es[..|es| - 1]), es[|es| - 1])
  }

  function DataOf(log: seq<Prop>): seq<byte> {
    if log == [] then []
    else
      var p := log[|log| - 1];
      DataOf(log[..|log| - 1]) + if p.Data? then p.bytes else []
  }

  /** INCR and then data, none of it empty. */
  ghost predicate Incremental(log: seq<Prop>, size: nat) {
    && |log| >= 2 && log[0] == Incr(size)
    && forall i :: 0 < i < |log| ==> log[i].Data? && log[i].bytes != []
  }

  /** A whole transfer of the bytes src: in one property, or incrementally and closed with an
      empty property. */
  ghost predicate Complete(log: seq<Prop>, size: nat, src: seq<byte>) {
    || log == [Data(src)]
    || (|log| > 0 && log[|log| - 1] == Data([])
        && Incremental(log[..|log| - 1], size) && DataOf(log[..|log| - 1]) == src)
  }

  ghost predicate Inv(w: Transfer) {
    && w.size > 0 && |w.buffer| <= w.size
    && (w.notified <==> w.flushed)
    && (w.ended ==> w.finished || w.freed)
    && (w.finished ==> w.ended)
    && (!w.freed && !w.waitingForDelete ==> !w.readable && |w.buffer| < w.size)
    && if w.freed then
         w.ended && Complete(w.log, w.size, w.consumed) && (!w.started ==> w.log == [Data(w.consumed)])
       else if !w.flushed then
         && w.log == [] && w.consumed == w.buffer
         && !w.started && !w.waitingForDelete && !w.waitingForIncr && !w.finished
       else if w.waitingForIncr then
         && w.log == [Incr(w.size)] && w.consumed == w.buffer != []
         && w.waitingForDelete && !w.started && !w.finished
       else if w.started then
         && Incremental(w.log, w.size) && DataOf(w.log) + w.buffer == w.consumed
         && (w.waitingForDelete ==> w.buffer == []) && (w.finished ==> w.waitingForDelete)
       else
         w.finished && w.waitingForDelete && w.buffer == [] && w.log == [Data(w.consumed)]
  }

  lemma DataOfSnoc(log: seq<Prop>, p: Prop)
    ensures DataOf(log + [p]) == DataOf(log) + if p.Data? then p.bytes else []
  {
    assert (log + [p])[..|log|] == log;
  }

  lemma DataOfIncr(size: nat)
    ensures DataOf([Incr(size)]) == []
  {
    DataOfSnoc([], Incr(size));
    assert [] + [Incr(size)] == [Incr(size)];
  }

  lemma FlushStarted(w: Transfer)
    requires !w.freed && w.size > 0 && |w.buffer| <= w.size && !w.waitingForDelete && !w.waitingForIncr
    requires w.started && w.flushed && w.notified && w.buffer != [] && w.ended == w.finished
    requires w.log == [Incr(w.size)] || Incremental(w.log, w.size)
    requires DataOf(w.log) + w.buffer == w.consumed
    ensures Inv(Flush(w, false)) && Inv(Flush(w, true))
  {
    DataOfSnoc(w.log, Data(w.buffer));
  }

  lemma FreeStarted(w: Transfer)
    requires w.size > 0 && |w.buffer| <= w.size && w.started && w.flushed && w.notified && w.ended
    requires Incremental(w.log, w.size) && DataOf(w.log) == w.consumed
    ensures Inv(Free(w))
  {
    assert (w.log + [Data([])])[..|w.log|] == w.log;
  }

  lemma BecomeReadableKeeps(w: Transfer, c: Chunk)
    requires Inv(w) && !w.freed && (!w.waitingForDelete ==> ChunkFits(w, c))
    ensures Inv(BecomeReadable(w, c))
  {
    if !w.waitingForDelete {
      var w1 := w.(readable := false, buffer := w.buffer + c.bytes, consumed := w.consumed + c.bytes);
      if w.started {
        assert DataOf(w1.log) + w1.buffer == w1.consumed;
        if c.status == EndOfFile {
          var w2 := w1.(ended := true);
          if w2.buffer != [] {
            FlushStarted(w2.(finished := true));
            assert Flush(w2, true).(finished := true) == Flush(w2.(finished := true), true);
          } else {
            FreeStarted(w2);
          }
        } else if |w1.buffer| == w1.size || c.status == NeedBiggerBuffer {
          FlushStarted(w1.(readable := c.status == NeedBiggerBuffer));
        }
      }
    }
  }

  lemma PropertyDeletedKeeps(w: Transfer, c: Chunk)
    requires Inv(w) && Possible(w, Deleted(c))
    ensures Inv(PropertyDeleted(w, c))
  {
    if w.finished {
      if w.started {
        FreeStarted(w);
      }
    } else if w.waitingForIncr {
      DataOfIncr(w.size);
      FlushStarted(w.(started := true, waitingForIncr := false, waitingForDelete := false));
    } else {
      var w1 := w.(waitingForDelete := false);
      if w1.readable {
        BecomeReadableKeeps(w1.(readable := false), c);
      }
    }
  }

  lemma {:induction false} RunKeeps(size: nat, es: seq<Event>)
    requires size > 0 && PossibleRun(NewTransfer(size), es)
    ensures Inv(Run(NewTransfer(size), es))
  {
    if es != [] {
      var front, e := es[..|es| - 1], es[|es| - 1];
      RunKeeps(size, front);
      match e
      case Readable(c) => BecomeReadableKeeps(Run(NewTransfer(size), front), c);
      case Deleted(c) => PropertyDeletedKeeps(Run(NewTransfer(size), front), c);
    }
  }

  /** However readable and property-deleted events interleave, a transfer that has come to its
      end has written all that its data source gave: in one property, or as INCR, chunks none of which is
      empty, and one empty property. */
  lemma NormalFinish(size: nat, es: seq<Event>)
    requires size > 0 && PossibleRun(NewTransfer(size), es)
    requires Run(NewTransfer(size), es).freed
    ensures var w := Run(NewTransfer(size), es);
      w.ended && Complete(w.log, size, w.consumed)
  {
    RunKeeps(size, es);
    RunSize(size, es);
  }

  lemma {:induction false} RunSize(size: nat, es: seq<Event>)
    ensures Run(NewTransfer(size), es).size == size
  {
    if es != [] {
      RunSize(size, es[..|es| - 1]);
      StepTakes(Run(NewTransfer(size), es[..|es| - 1]), es[|es| - 1]);
    }
  }

  function StepBytes(w: Transfer, e: Event): seq<byte> {
    if Reads(w, e) then e.chunk.bytes else []
  }

  lemma FlushTakes(w: Transfer, force: bool)
    requires !w.waitingForDelete
    ensures Flush(w, force).size == w.size && Flush(w, force).consumed == w.consumed
  {
  }

  lemma FinishTakes(w: Transfer)
    ensures Finish(w).size == w.size && Finish(w).consumed == w.consumed
  {
  }

  lemma ReadTakes(w: Transfer, c: Chunk)
    ensures BecomeReadable(w, c).size == w.size
    ensures BecomeReadable(w, c).consumed == w.consumed + if w.waitingForDelete then [] else c.bytes
  {
    hide Flush, Finish;
    if !w.waitingForDelete {
      var w1 := w.(readable := false, buffer := w.buffer + c.bytes, consumed := w.consumed + c.bytes);
      FinishTakes(w1.(ended := true));
      FlushTakes(w1.(readable := c.status == NeedBiggerBuffer), false);
    }
  }

  lemma StepTakes(w: Transfer, e: Event)
    ensures Step(w, e).size == w.size && Step(w, e).consumed == w.consumed + StepBytes(w, e)
  {
    match e
    case Readable(c) => ReadTakes(w, c);
    case Deleted(c) => ReadTakes(w.(waitingForDelete := false), c);
  }

  /** The bytes the data source handed out over a run, in order. */
  function SourceBytes(w: Transfer, es: seq<Event>): seq<byte> {
    if es == [] then []
    else
      var front := es[..|es| - 1];
      SourceBytes(w, front) + StepBytes(Run(w, front), es[|es| - 1])
  }

  /** consumed is what the data source handed out: no byte is dropped on the way into the log. */
  lemma {:induction false} ConsumedIsSource(size: nat, es: seq<Event>)
    ensures Run(NewTransfer(size), es).consumed == SourceBytes(NewTransfer(size), es)
  {
    if es != [] {
      ConsumedIsSource(size, es[..|es| - 1]);
      StepTakes(Run(NewTransfer(size), es[..|es| - 1]), es[|es| - 1]);
    }
  }

  // ----- no word from the data source is lost -----

  /** The data source has become readable, or has answered that it needs a bigger buffer, and has
      not been asked since. */
  function Owes(w: Transfer, es: seq<Event>): bool {
    if es == [] then false
    else
      var front, e := es[..|es| - 1], es[|es| - 1];
      if Reads(Run(w, front), e) then e.chunk.status == NeedBiggerBuffer else e.Readable? || Owes(w, front)
  }

  lemma StepReadable(w: Transfer, e: Event)
    requires Inv(w) && Possible(w, e)
    ensures Step(w, e).readable ==
      if Reads(w, e) then e.chunk.status == NeedBiggerBuffer else e.Readable? || w.readable
  {
  }

  lemma {:induction false} ReadableIsOwed(size: nat, es: seq<Event>)
    requires size > 0 && PossibleRun(NewTransfer(size), es)
    ensures Run(NewTransfer(size), es).readable == Owes(NewTransfer(size), es)
  {
    if es != [] {
      var front := es[..|es| - 1];
      ReadableIsOwed(size, front);
      RunKeeps(size, front);
      hide Inv, Reads, Step;
      StepReadable(Run(NewTransfer(size), front), es[|es| - 1]);
    }
  }

  /** A step that leaves the data source to be asked: it becomes readable, or has been asked and
      needs a bigger buffer. */
  predicate Calls(w: Transfer, es: seq<Event>, i: nat)
    requires i < |es|
  {
    es[i].Readable? || (Reads(Run(w, es[..i]), es[i]) && es[i].chunk.status == NeedBiggerBuffer)
  }

  /** The data source was asked at step j, and that was not the answer that calls for it. */
  predicate Answers(w: Transfer, es: seq<Event>, i: nat, j: nat)
    requires i < |es| && j < |es|
  {
    && i <= j && Reads(Run(w, es[..j]), es[j])
    && (i == j ==> es[j].chunk.status != NeedBiggerBuffer)
  }

  lemma {:induction false} AskedSince(w: Transfer, es: seq<Event>, i: nat) returns (j: nat)
    requires i < |es| && Calls(w, es, i) && !Owes(w, es)
    ensures j < |es| && Answers(w, es, i, j)
  {
    hide Run, Reads;
    var n := |es| - 1;
    var front := es[..n];
    if Reads(Run(w, front), es[n]) {
      j := n;
    } else {
      assert front[..i] == es[..i];
      j := AskedSince(w, front, i);
      assert front[..j] == es[..j];
    }
  }

  /** A transfer that is not over and waits for no property to be deleted has asked its data source
      again after everything that called for it, and has room for an answer. */
  lemma CallsAreAnswered(size: nat, es: seq<Event>, i: nat) returns (j: nat)
    requires size > 0 && PossibleRun(NewTransfer(size), es) && i < |es| && Calls(NewTransfer(size), es, i)
    requires var w := Run(NewTransfer(size), es); !w.freed && !w.waitingForDelete
    ensures j < |es| && Answers(NewTransfer(size), es, i, j)
    ensures |Run(NewTransfer(size), es).buffer| < size
  {
    RunKeeps(size, es);
    RunSize(size, es);
    ReadableIsOwed(size, es);
    hide Inv;
    j := AskedSince(NewTransfer(size), es, i);
  }

  /** The data source has said that it is at its end. */
  function SaidEnd(w: Transfer, es: seq<Event>): bool {
    if es == [] then false
    else
      var front, e := es[..|es| - 1], es[|es| - 1];
      SaidEnd(w, front) || (Reads(Run(w, front), e) && e.chunk.status == EndOfFile)
  }

  lemma FlushEnds(w: Transfer, force: bool)
    requires !w.waitingForDelete
    ensures Flush(w, force).ended == w.ended
  {
  }

  lemma FinishEnds(w: Transfer)
    ensures Finish(w).ended == w.ended
  {
  }

  lemma ReadEnds(w: Transfer, c: Chunk)
    ensures BecomeReadable(w, c).ended == (w.ended || (!w.waitingForDelete && c.status == EndOfFile))
  {
    hide Flush, Finish;
    if !w.waitingForDelete {
      var w1 := w.(readable := false, buffer := w.buffer + c.bytes, consumed := w.consumed + c.bytes);
      FinishEnds(w1.(ended := true));
      FlushEnds(w1.(readable := c.status == NeedBiggerBuffer), false);
    }
  }

  lemma StepEnds(w: Transfer, e: Event)
    ensures Step(w, e).ended == (w.ended || (Reads(w, e) && e.chunk.status == EndOfFile))
  {
    hide BecomeReadable, Flush;
    match e
    case Readable(c) => ReadEnds(w, c);
    case Deleted(c) =>
      ReadEnds(w.(waitingForDelete := false), c);
      FlushEnds(w.(started := true, waitingForIncr := false, waitingForDelete := false), false);
  }

  /** A transfer has ended, and so can be over, only when its data source has said so. */
  lemma {:induction false} EndedIsSaid(size: nat, es: seq<Event>)
    requires size > 0 && PossibleRun(NewTransfer(size), es)
    ensures var w := Run(NewTransfer(size), es);
      w.ended == SaidEnd(NewTransfer(size), es) && (w.freed || w.finished ==> w.ended)
  {
    RunKeeps(size, es);
    if es != [] {
      EndedIsSaid(size, es[..|es| - 1]);
      hide Inv, Reads, Step;
      StepEnds(Run(NewTransfer(size), es[..|es| - 1]), es[|es| - 1]);
    }
  }

  // ----- how the data is divided -----

  /** The data source was never asked in vain for want of room. */
  ghost predicate NeverTooSmall(w: Transfer, es: seq<Event>) {
    forall j :: 0 <= j < |es| && Reads(Run(w, es[..j]), es[j]) ==> es[j].chunk.status != NeedBiggerBuffer
  }

  lemma FrontNeverTooSmall(w: Transfer, es: seq<Event>)
    requires es != [] && NeverTooSmall(w, es)
    ensures var front, e := es[..|es| - 1], es[|es| - 1];
      NeverTooSmall(w, front) && (Reads(Run(w, front), e) ==> e.chunk.status != NeedBiggerBuffer)
  {
    var front := es[..|es| - 1];
    forall j | 0 <= j < |front| && Reads(Run(w, front[..j]), front[j])
      ensures front[j].chunk.status != NeedBiggerBuffer
    {
      assert front[..j] == es[..j];
    }
  }

  /** The number of values from the end of the log that need not be full. */
  function Rest(w: Transfer): nat {
    (if w.ended then 1 else 0) + (if w.freed && w.started then 1 else 0)
  }

  /** INCR has been written only with a full buffer behind it, and all but the last of the data is
      in full chunks. */
  ghost predicate Full(w: Transfer) {
    && (w.started || w.waitingForIncr ==> |w.consumed| >= w.size)
    && (w.waitingForIncr ==> |w.buffer| == w.size)
    && (forall k :: 0 < k < |w.log| - Rest(w) && w.log[k].Data? ==> |w.log[k].bytes| == w.size)
  }

  lemma StepFull(w: Transfer, e: Event)
    requires Inv(w) && Full(w) && Possible(w, e)
    requires Reads(w, e) ==> e.chunk.status != NeedBiggerBuffer
    ensures Full(Step(w, e))
  {
  }

  lemma {:induction false} RunFull(size: nat, es: seq<Event>)
    requires size > 0 && PossibleRun(NewTransfer(size), es) && NeverTooSmall(NewTransfer(size), es)
    ensures Full(Run(NewTransfer(size), es))
  {
    if es != [] {
      var front := es[..|es| - 1];
      FrontNeverTooSmall(NewTransfer(size), es);
      RunFull(size, front);
      RunKeeps(size, front);
      hide Inv, Full, Reads, Step;
      StepFull(Run(NewTransfer(size), front), es[|es| - 1]);
    }
  }

  /** Data that is smaller than the buffer is written in one property, and other data in chunks that
      are full but for the last. */
  lemma DataInFullChunks(size: nat, es: seq<Event>)
    requires size > 0 && PossibleRun(NewTransfer(size), es) && NeverTooSmall(NewTransfer(size), es)
    requires Run(NewTransfer(size), es).freed
    ensures var w, src := Run(NewTransfer(size), es), SourceBytes(NewTransfer(size), es);
      && (|src| < size ==> w.log == [Data(src)])
      && (forall k :: 0 < k < |w.log| - 2 ==> w.log[k].Data? && |w.log[k].bytes| == size)
  {
    RunKeeps(size, es);
    RunFull(size, es);
    RunSize(size, es);
    ConsumedIsSource(size, es);
    hide SourceBytes, PossibleRun, NeverTooSmall, Run;
    FullWhenFreed(Run(NewTransfer(size), es));
  }

  lemma FullWhenFreed(w: Transfer)
    requires Inv(w) && Full(w) && w.freed
    ensures |w.consumed| < w.size ==> w.log == [Data(w.consumed)]
    ensures forall k :: 0 < k < |w.log| - 2 ==> w.log[k].Data? && |w.log[k].bytes| == w.size
  {
    hide DataOf;
  }
}
