/** One write transfer and one read transfer joined by a property cell.  Requests take effect
    at once; the events they cause are delivered later, in order. */
module SelectionPipe {
  import opened SelectionWrite
  import opened SelectionRead

  datatype ReaderEvent = PropertyNewValue | SelectionNotify

  /** The two ends, the property between them, the number of PropertyDelete events on their
      way to the writer, and the events on their way to the reader. */
  datatype System = System(w: Transfer, r: Reader, cell: Cell, deletes: nat, notices: seq<ReaderEvent>)

  datatype Move =
    | SourceReadable(chunk: Chunk)   // the writer's data source has something
    | WriterSeesDelete(chunk: Chunk)
    | ReaderSeesEvent
    | ReaderReads(units: nat)        // the caller reads some of what was announced
    | ReaderFinishes                 // the event loop collects finished transfers

  predicate Enabled(s: System, m: Move) {
    match m
    case SourceReadable(c) => Possible(s.w, Readable(c))
    case WriterSeesDelete(c) => s.deletes > 0 && (s.w.freed || Possible(s.w, Deleted(c)))
    case ReaderSeesEvent => s.notices != []
    case ReaderReads(_) => s.r.outcome == Pending && s.r.reading
    case ReaderFinishes => s.r.outcome == Pending && s.r.finished
  }

  /** The writer has become w.  A value it has written is in the cell, and the reader will be
      told; the first value comes with the SelectionNotify event. */
  function WriterDid(s: System, w: Transfer): System {
    if |w.log| > |s.w.log| then
      var notices := [PropertyNewValue] + if w.notified && !s.w.notified then [SelectionNotify] else [];
      s.(w := w, cell := Holding(w.log[|w.log| - 1]), notices := s.notices + notices)
    else
      s.(w := w)
  }

  /** The reader has become r and left the property as cell. */
  function ReaderDid(s: System, r: Reader, cell: Cell): System {
    s.(r := r, cell := cell, deletes := s.deletes + if s.cell.Holding? && cell.Absent? then 1 else 0)
  }

  function Do(s: System, m: Move): System
    requires Enabled(s, m)
  {
    match m
    case SourceReadable(c) => WriterDid(s, Step(s.w, Readable(c)))
    case WriterSeesDelete(c) =>
      var s1 := s.(deletes := s.deletes - 1);
      if s.w.freed then s1 else WriterDid(s1, Step(s.w, Deleted(c)))
    case ReaderSeesEvent =>
      var s1 := s.(notices := s.notices[1..]);
      if s.r.outcome != Pending then s1
      else if s.notices[0].SelectionNotify? then
        var (r, cell) := StartRead(s.r, s.cell); ReaderDid(s1, r, cell)
      else
        var (r, cell) := SeeNewValue(s.r, s.cell); ReaderDid(s1, r, cell)
    case ReaderReads(n) =>
      var (r, cell) := ReadUnits(s.r, s.cell, n); ReaderDid(s, r, cell)
    case ReaderFinishes => s.(r := FinishPending(s.r))
  }

  function Start(size: nat): System {
    System(NewTransfer(size), NewReader(), Absent, 0, [])
  }

  function Play(s: System, ms: seq<Move>): System
    requires CanPlay(s, ms)
    decreases |ms|, 1
  {
    if ms == [] then s else Do(Play(s, ms[..|ms| - 1]), ms[|ms| - 1])
  }

  predicate CanPlay(s: System, ms: seq<Move>)
    decreases |ms|, 0
  {
    ms != [] ==>
      && CanPlay(s, ms[..|ms| - 1])
      && Enabled(Play(s, ms[..|ms| - 1]), ms[|ms| - 1])
  }

  // ----- the phases of a transfer -----

  function LastOf(log: seq<Prop>): Prop
    requires log != []
  {
    log[|log| - 1]
  }

  /** The reader expects the next property value, having read all earlier ones. */
  ghost predicate Awaiting(r: Reader, incremental: bool) {
    && r.outcome == Pending && !r.finished && !r.failed && !r.reading
    && r.isIncr == incremental && r.waitingForChunk == incremental
  }

  /** Nothing has been written yet, or it is the writer's turn. */
  ghost predicate WriterTurn(s: System) {
    && s.cell.Absent? && s.deletes == 0 && s.notices == []
    && !s.w.freed && !s.w.waitingForDelete && (s.w.flushed ==> s.w.started)
    && Awaiting(s.r, s.w.flushed) && s.r.received == DataOf(s.w.log)
  }

  /** A value is in the cell and the reader has not looked at it yet. */
  ghost predicate Posted(s: System) {
    && s.w.log != [] && s.cell == Holding(LastOf(s.w.log)) && s.deletes == 0
    && (if s.w.freed then |s.w.log| > 1 else s.w.waitingForDelete)
    && (if |s.w.log| == 1
        then s.notices == [PropertyNewValue, SelectionNotify] || s.notices == [SelectionNotify]
        else s.notices == [PropertyNewValue])
    && Awaiting(s.r, |s.w.log| > 1)
    && s.r.received == DataOf(s.w.log[..|s.w.log| - 1])
  }

  /** The reader is in the middle of a non-empty value. */
  ghost predicate Reading(s: System) {
    && s.w.log != [] && s.cell == Holding(LastOf(s.w.log)) && s.deletes == 0 && s.notices == []
    && !s.w.freed && s.w.waitingForDelete
    && LastOf(s.w.log).Data? && LastOf(s.w.log).bytes != []
    && s.r.reading && s.r.outcome == Pending && !s.r.finished && !s.r.failed && !s.r.waitingForChunk
    && s.r.isIncr == s.w.started
    && 4 * s.r.offset < |LastOf(s.w.log).bytes|
    && s.r.received == DataOf(s.w.log[..|s.w.log| - 1]) + LastOf(s.w.log).bytes[..4 * s.r.offset]
  }

  /** The reader has taken a value that is not the last of an incremental transfer, and the
      writer has not been told. */
  ghost predicate Taken(s: System) {
    && s.cell.Absent? && s.deletes == 1 && s.notices == []
    && !s.w.freed && s.w.waitingForDelete && (s.w.started || s.w.waitingForIncr)
    && Awaiting(s.r, true) && s.r.received == DataOf(s.w.log)
  }

  /** The reader has everything. */
  ghost predicate Over(s: System) {
    && s.cell.Absent? && s.deletes <= 1 && s.notices == []
    && s.w.ended && (s.w.freed || s.deletes == 1)
    && (!s.w.freed ==> s.w.finished && s.w.waitingForDelete && !s.w.started)
    && !s.r.failed && !s.r.reading && !s.r.waitingForChunk
    && (s.r.outcome == Succeeded || (s.r.outcome == Pending && s.r.finished && !s.r.isIncr))
    && s.r.received == s.w.consumed
  }

  ghost predicate SystemInv(s: System) {
    Inv(s.w) && (WriterTurn(s) || Posted(s) || Reading(s) || Taken(s) || Over(s))
  }

  // ----- every move keeps the transfer in one of these phases -----

  /** w' has added one value to what w wrote, and now waits or is gone. */
  ghost predicate Wrote(w: Transfer, w': Transfer) {
    && |w'.log| == |w.log| + 1 && w'.log[..|w.log|] == w.log
    && (if w'.freed then w.flushed else w'.waitingForDelete) && w'.notified
  }

  /** w' has written nothing, and it is still its turn. */
  ghost predicate Waits(w: Transfer, w': Transfer) {
    && w'.log == w.log && !w'.waitingForDelete && !w'.freed
    && w'.flushed == w.flushed && w'.started == w.started
  }

  lemma FlushWrites(w: Transfer, force: bool)
    requires !w.waitingForDelete && !w.freed
    ensures Wrote(w, Flush(w, force))
  {
  }

  lemma ReadWrites(w: Transfer, c: Chunk)
    requires Inv(w) && !w.freed && !w.waitingForDelete
    ensures Wrote(w, BecomeReadable(w, c)) || Waits(w, BecomeReadable(w, c))
  {
    var w1 := w.(readable := false, buffer := w.buffer + c.bytes, consumed := w.consumed + c.bytes);
    if c.status == EndOfFile {
      FlushWrites(w1.(ended := true), true);
    } else if |w1.buffer| == w1.size || c.status == NeedBiggerBuffer {
      FlushWrites(w1.(readable := c.status == NeedBiggerBuffer), false);
    }
  }

  lemma DeleteWrites(w: Transfer, c: Chunk)
    requires Inv(w) && !w.freed && w.waitingForDelete && (w.started || w.waitingForIncr)
    ensures Wrote(w, PropertyDeleted(w, c)) || Waits(w, PropertyDeleted(w, c))
  {
    if w.waitingForIncr {
      FlushWrites(w.(started := true, waitingForIncr := false, waitingForDelete := false), false);
    } else if !w.finished && w.readable {
      ReadWrites(w.(waitingForDelete := false, readable := false), c);
    }
  }

  /** A write from a state in which the reader has taken everything is a post. */
  lemma WroteIsPosted(s: System, w': Transfer)
    requires Inv(s.w) && Wrote(s.w, w') && s.notices == [] && s.deletes == 0
    requires s.r.received == DataOf(s.w.log) && Awaiting(s.r, s.w.flushed)
    requires s.w.flushed == s.w.notified && (s.w.flushed ==> |s.w.log| > 0) && (!s.w.flushed ==> s.w.log == [])
    ensures Posted(WriterDid(s, w'))
  {
  }

  lemma SourceReadableKeeps(s: System, c: Chunk)
    requires SystemInv(s) && Enabled(s, SourceReadable(c))
    ensures SystemInv(Do(s, SourceReadable(c)))
    ensures s.cell.Holding? ==> |Do(s, SourceReadable(c)).w.log| == |s.w.log|
  {
    BecomeReadableKeeps(s.w, c);
    if WriterTurn(s) {
      ReadWrites(s.w, c);
      var w' := BecomeReadable(s.w, c);
      if Wrote(s.w, w') {
        WroteIsPosted(s, w');
      } else {
        assert WriterTurn(WriterDid(s, w'));
      }
    } else {
      assert s.w.waitingForDelete;
    }
  }

  lemma WriterSeesDeleteKeeps(s: System, c: Chunk)
    requires SystemInv(s) && Enabled(s, WriterSeesDelete(c))
    ensures SystemInv(Do(s, WriterSeesDelete(c)))
    ensures s.cell.Absent?
  {
    if !s.w.freed {
      PropertyDeletedKeeps(s.w, c);
      if Taken(s) {
        TakenDeleted(s, c);
      } else {
        OverDeleted(s, c);
      }
      hide Inv, PropertyDeleted, WriterTurn, Posted, Reading, Taken, Over;
    }
  }

  lemma TakenDeleted(s: System, c: Chunk)
    requires Inv(s.w) && Taken(s)
    ensures var s' := WriterDid(s.(deletes := s.deletes - 1), PropertyDeleted(s.w, c));
      s.cell.Absent? && (WriterTurn(s') || Posted(s'))
  {
    var s1, w' := s.(deletes := s.deletes - 1), PropertyDeleted(s.w, c);
    DeleteWrites(s.w, c);
    hide PropertyDeleted;
    if Wrote(s.w, w') {
      WroteIsPosted(s1, w');
    } else {
      assert WriterTurn(WriterDid(s1, w'));
    }
  }

  lemma OverDeleted(s: System, c: Chunk)
    requires SystemInv(s) && Enabled(s, WriterSeesDelete(c)) && !s.w.freed && !Taken(s)
    ensures s.cell.Absent? && Over(WriterDid(s.(deletes := s.deletes - 1), PropertyDeleted(s.w, c)))
  {
    assert Over(s);
  }

  lemma SeesFirstNotice(s: System)
    requires Posted(s) && s.notices == [PropertyNewValue, SelectionNotify]
    ensures Posted(Do(s, ReaderSeesEvent)) && Do(s, ReaderSeesEvent).w == s.w
  {
  }

  lemma SeesIncr(s: System)
    requires Inv(s.w) && Posted(s) && s.notices != [PropertyNewValue, SelectionNotify] && LastOf(s.w.log).Incr?
    ensures Taken(Do(s, ReaderSeesEvent)) && Do(s, ReaderSeesEvent).w == s.w
  {
    var front, last := s.w.log[..|s.w.log| - 1], LastOf(s.w.log);
    assert s.w.log == front + [last];
    DataOfSnoc(front, last);
  }

  lemma SeesEmpty(s: System)
    requires Inv(s.w) && Posted(s) && s.notices != [PropertyNewValue, SelectionNotify] && LastOf(s.w.log) == Data([])
    ensures Over(Do(s, ReaderSeesEvent)) && Do(s, ReaderSeesEvent).w == s.w
  {
    var front, last := s.w.log[..|s.w.log| - 1], LastOf(s.w.log);
    assert s.w.log == front + [last];
    DataOfSnoc(front, last);
    LastIsEmpty(s);
    hide Inv;
  }

  lemma SeesFull(s: System)
    requires Inv(s.w) && Posted(s) && s.notices != [PropertyNewValue, SelectionNotify]
    requires LastOf(s.w.log).Data? && LastOf(s.w.log).bytes != []
    ensures Reading(Do(s, ReaderSeesEvent)) && Do(s, ReaderSeesEvent).w == s.w
  {
    LastIsFull(s);
    hide Inv;
  }

  lemma ReaderSeesEventKeeps(s: System)
    requires SystemInv(s) && Enabled(s, ReaderSeesEvent)
    ensures SystemInv(Do(s, ReaderSeesEvent))
  {
    assert Posted(s) && s.w.log != [];
    hide Inv, Posted, Taken, Over, Reading, WriterTurn, Do;
    if s.notices == [PropertyNewValue, SelectionNotify] {
      SeesFirstNotice(s);
    } else if LastOf(s.w.log).Incr? {
      SeesIncr(s);
    } else if LastOf(s.w.log).bytes == [] {
      SeesEmpty(s);
    } else {
      SeesFull(s);
    }
  }

  lemma LastIsEmpty(s: System)
    requires Inv(s.w) && Posted(s) && LastOf(s.w.log) == Data([])
    ensures s.w.ended && DataOf(s.w.log) == s.w.consumed && (!s.w.freed ==> s.w.finished && !s.w.started)
    ensures |s.w.log| == 1 ==> !s.w.freed
  {
  }

  lemma LastIsFull(s: System)
    requires Inv(s.w) && Posted(s) && LastOf(s.w.log).Data? && LastOf(s.w.log).bytes != []
    ensures !s.w.freed && s.w.waitingForDelete && (s.w.started <==> |s.w.log| > 1)
  {
  }

  lemma SliceMore(front: seq<byte>, bytes: seq<byte>, k: nat, n: nat)
    requires k + n <= |bytes|
    ensures front + bytes[..k] + bytes[k..][..n] == front + bytes[..k + n]
  {
    assert bytes[..k] + bytes[k..][..n] == bytes[..k + n];
  }

  lemma ReadsSome(s: System, n: nat)
    requires Reading(s) && 4 * (s.r.offset + n) < |LastOf(s.w.log).bytes|
    ensures Reading(Do(s, ReaderReads(n)))
  {
    hide DataOf;
    SliceMore(DataOf(s.w.log[..|s.w.log| - 1]), LastOf(s.w.log).bytes, 4 * s.r.offset, 4 * n);
  }

  lemma ReadsRest(s: System, n: nat)
    requires Reading(s) && 4 * (s.r.offset + n) >= |LastOf(s.w.log).bytes|
    ensures var s' := Do(s, ReaderReads(n));
      && s'.r.received == DataOf(s.w.log) && s'.cell == Absent && s'.deletes == 1 && !s'.r.reading
      && s'.w == s.w && s'.notices == [] && s'.r.outcome == Pending && !s'.r.failed && s'.r.isIncr == s.r.isIncr
      && s'.r.waitingForChunk == s.r.isIncr && s'.r.finished == !s.r.isIncr
  {
    LastWritten(s.w.log);
    hide DataOf;
    RestJoins(DataOf(s.w.log[..|s.w.log| - 1]), LastOf(s.w.log).bytes, 4 * s.r.offset);
  }

  lemma RestJoins(front: seq<byte>, bytes: seq<byte>, n: nat)
    requires n <= |bytes|
    ensures (front + bytes[..n]) + bytes[n..] == front + bytes
  {
  }

  lemma ReaderReadsKeeps(s: System, n: nat)
    requires SystemInv(s) && Enabled(s, ReaderReads(n))
    ensures SystemInv(Do(s, ReaderReads(n)))
  {
    assert Reading(s);
    if 4 * (s.r.offset + n) < |LastOf(s.w.log).bytes| {
      ReadsSome(s, n);
    } else {
      ReadsRest(s, n);
      if s.r.isIncr {
        assert Taken(Do(s, ReaderReads(n)));
      } else {
        SingleIsAll(s);
        assert Over(Do(s, ReaderReads(n)));
      }
    }
  }

  lemma SingleIsAll(s: System)
    requires Inv(s.w) && Reading(s) && !s.r.isIncr
    ensures s.w.ended && s.w.finished && DataOf(s.w.log) == s.w.consumed
  {
  }

  lemma MoveKeeps(s: System, m: Move)
    requires SystemInv(s) && Enabled(s, m)
    ensures SystemInv(Do(s, m))
    ensures Do(s, m).w.log != s.w.log ==> s.cell.Absent?
  {
    match m
    case SourceReadable(c) => SourceReadableKeeps(s, c);
    case WriterSeesDelete(c) => WriterSeesDeleteKeeps(s, c);
    case ReaderSeesEvent => ReaderSeesEventKeeps(s);
    case ReaderReads(n) => ReaderReadsKeeps(s, n);
    case ReaderFinishes => assert Over(Do(s, m));
  }

  lemma {:induction false} PlayKeeps(size: nat, ms: seq<Move>)
    requires size > 0 && CanPlay(Start(size), ms)
    ensures SystemInv(Play(Start(size), ms))
  {
    if ms == [] {
      assert WriterTurn(Start(size));
    } else {
      PlayKeeps(size, ms[..|ms| - 1]);
      MoveKeeps(Play(Start(size), ms[..|ms| - 1]), ms[|ms| - 1]);
    }
  }

  // ----- what follows for whole transfers -----

  lemma WrittenIsPrefix(w: Transfer)
    requires Inv(w)
    ensures DataOf(w.log) <= w.consumed
  {
    if w.freed && w.log == [Data(w.consumed)] {
      DataOfSnoc([], Data(w.consumed));
      assert [] + [Data(w.consumed)] == [Data(w.consumed)];
    } else if w.freed {
      var front := w.log[..|w.log| - 1];
      DataOfSnoc(front, Data([]));
      assert w.log == front + [Data([])];
    } else if w.waitingForIncr {
      DataOfIncr(w.size);
    } else if w.flushed && !w.started {
      DataOfSnoc([], Data(w.consumed));
      assert [] + [Data(w.consumed)] == [Data(w.consumed)];
    }
  }

  lemma PrefixTransitive(a: seq<byte>, b: seq<byte>, c: seq<byte>)
    requires a <= b <= c
    ensures a <= c
  {
  }

  lemma TurnReceived(s: System)
    requires WriterTurn(s) || Taken(s)
    ensures s.r.received == DataOf(s.w.log)
  {
    hide DataOf;
  }

  /** front is what was written before the last value. */
  lemma PostedReceived(s: System, front: seq<byte>, all: seq<byte>)
    requires Posted(s) && front == DataOf(s.w.log[..|s.w.log| - 1]) && front <= all
    ensures s.r.received <= all
  {
    hide DataOf;
  }

  lemma ReadingReceived(s: System, front: seq<byte>, all: seq<byte>)
    requires Reading(s) && front == DataOf(s.w.log[..|s.w.log| - 1]) && all == front + LastOf(s.w.log).bytes
    ensures s.r.received <= all
  {
    hide DataOf;
  }

  lemma LastWritten(log: seq<Prop>)
    requires log != []
    ensures DataOf(log) == DataOf(log[..|log| - 1]) + if LastOf(log).Data? then LastOf(log).bytes else []
  {
    assert log == log[..|log| - 1] + [LastOf(log)];
    DataOfSnoc(log[..|log| - 1], LastOf(log));
  }

  lemma ReceivedIsPrefix(s: System)
    requires SystemInv(s)
    ensures s.r.received <= s.w.consumed
  {
    WrittenIsPrefix(s.w);
    if Over(s) {
      assert s.r.received == s.w.consumed;
    } else {
      ReceivedOfWritten(s);
      hide *;
      PrefixTransitive(s.r.received, DataOf(s.w.log), s.w.consumed);
    }
  }

  lemma ReceivedOfWritten(s: System)
    requires WriterTurn(s) || Taken(s) || Posted(s) || Reading(s)
    ensures s.r.received <= DataOf(s.w.log)
  {
    if WriterTurn(s) || Taken(s) {
      TurnReceived(s);
    } else {
      var log := s.w.log;
      assert log != [];
      LastWritten(log);
      if Posted(s) {
        hide *;
        PostedReceived(s, DataOf(log[..|log| - 1]), DataOf(log));
      } else {
        assert LastOf(log).Data?;
        hide *;
        ReadingReceived(s, DataOf(log[..|log| - 1]), DataOf(log));
      }
    }
  }

  lemma NothingMoreWritten(s: System, m: Move)
    requires SystemInv(s) && Over(s) && Enabled(s, m)
    ensures Do(s, m).w.log == s.w.log
  {
  }

  /** Success is reported only once the data source has said that it is at its end and the reader has
      received exactly the bytes that it gave, in order; and without a timeout failure is never
      reported. */
  lemma SuccessIsComplete(size: nat, ms: seq<Move>)
    requires size > 0 && CanPlay(Start(size), ms)
    ensures var s, es := Play(Start(size), ms), EventsOf(Start(size), ms);
      && s.w == Run(NewTransfer(size), es)
      && s.r.outcome != Failed
      && (s.r.outcome == Succeeded ==>
            SaidEnd(NewTransfer(size), es) && s.r.received == SourceBytes(NewTransfer(size), es))
      && s.r.received <= SourceBytes(NewTransfer(size), es)
  {
    PlayKeeps(size, ms);
    PlayIsRun(Start(size), ms);
    var s, es := Play(Start(size), ms), EventsOf(Start(size), ms);
    OutcomeOf(s);
    ReceivedIsPrefix(s);
    hide *;
    EndedIsSaid(size, es);
    ConsumedIsSource(size, es);
  }

  lemma OutcomeOf(s: System)
    requires SystemInv(s)
    ensures s.r.outcome != Failed && (s.r.outcome == Succeeded ==> s.w.ended && s.r.received == s.w.consumed)
  {
  }

  /** In every run, collecting a transfer that is finished reports success. */
  lemma CollectedSucceeds(size: nat, ms: seq<Move>)
    requires size > 0 && CanPlay(Start(size), ms) && Enabled(Play(Start(size), ms), ReaderFinishes)
    ensures Do(Play(Start(size), ms), ReaderFinishes).r.outcome == Succeeded
  {
    PlayKeeps(size, ms);
  }

  /** The writer changes the property only after the reader has taken and deleted the value
      before. */
  lemma NeverOverwrites(size: nat, ms: seq<Move>, m: Move)
    requires size > 0 && CanPlay(Start(size), ms) && Enabled(Play(Start(size), ms), m)
    ensures var s := Play(Start(size), ms);
      Do(s, m).w.log != s.w.log ==> s.cell.Absent? && s.r.received == DataOf(s.w.log)
  {
    PlayKeeps(size, ms);
    var s := Play(Start(size), ms);
    MoveKeeps(s, m);
    if s.cell.Absent? && Over(s) {
      NothingMoreWritten(s, m);
    }
  }

  /** What the moves are for the writer. */
  function EventsOf(s: System, ms: seq<Move>): seq<Event>
    requires CanPlay(s, ms)
  {
    if ms == [] then []
    else
      var front := ms[..|ms| - 1];
      EventsOf(s, front) +
      match ms[|ms| - 1]
      case SourceReadable(c) => [Readable(c)]
      case WriterSeesDelete(c) => if Play(s, front).w.freed then [] else [Deleted(c)]
      case _ => []
  }

  lemma RunOneMore(w: Transfer, es: seq<Event>, e: Event)
    requires PossibleRun(w, es) && Possible(Run(w, es), e)
    ensures PossibleRun(w, es + [e]) && Run(w, es + [e]) == Step(Run(w, es), e)
  {
    assert (es + [e])[..|es|] == es;
  }

  lemma {:induction false} PlayIsRun(s: System, ms: seq<Move>)
    requires CanPlay(s, ms)
    ensures PossibleRun(s.w, EventsOf(s, ms)) && Run(s.w, EventsOf(s, ms)) == Play(s, ms).w
  {
    if ms != [] {
      var front, m := ms[..|ms| - 1], ms[|ms| - 1];
      PlayIsRun(s, front);
      hide Step, Possible, Run, PossibleRun;
      var s1, es := Play(s, front), EventsOf(s, front);
      match m
      case SourceReadable(c) => RunOneMore(s.w, es, Readable(c));
      case WriterSeesDelete(c) =>
        if !s1.w.freed {
          RunOneMore(s.w, es, Deleted(c));
        } else {
          assert es + [] == es;
        }
      case _ => assert es + [] == es;
    }
  }

  /** Nothing is on its way, and the caller has nothing to read or to collect. */
  predicate Still(s: System) {
    s.deletes == 0 && s.notices == [] && !s.r.reading && !(s.r.finished && s.r.outcome == Pending)
  }

  /** The two ends never wait for each other: when nothing is on its way and the caller has
      nothing to read, either the reader has succeeded or the writer waits only for its data
      source, has room for what that gives, and has asked it again after every word from it, and
      after every answer that called for a bigger buffer. */
  lemma NeverStuck(size: nat, ms: seq<Move>)
    requires size > 0 && CanPlay(Start(size), ms)
    ensures var s, es := Play(Start(size), ms), EventsOf(Start(size), ms);
      Still(s) && s.r.outcome != Succeeded ==>
        && !s.w.ended && !s.w.waitingForDelete && !s.w.freed && !s.w.readable && |s.w.buffer| < s.w.size
        && s.w == Run(NewTransfer(size), es)
        && forall i :: 0 <= i < |es| && Calls(NewTransfer(size), es, i) ==> exists j :: Answered(size, es, i, j)
  {
    PlayKeeps(size, ms);
    PlayIsRun(Start(size), ms);
    var s, es := Play(Start(size), ms), EventsOf(Start(size), ms);
    if Still(s) && s.r.outcome != Succeeded {
      StillWaits(s);
      hide *;
      forall i | 0 <= i < |es| && Calls(NewTransfer(size), es, i)
        ensures exists j :: Answered(size, es, i, j)
      {
        var j := CallsAreAnswered(size, es, i);
        IsAnswered(size, es, i, j);
      }
    }
  }

  predicate Answered(size: nat, es: seq<Event>, i: nat, j: int)
    requires i < |es|
  {
    0 <= j < |es| && Answers(NewTransfer(size), es, i, j)
  }

  lemma IsAnswered(size: nat, es: seq<Event>, i: nat, j: nat)
    requires i < |es| && j < |es| && Answers(NewTransfer(size), es, i, j)
    ensures Answered(size, es, i, j)
  {
  }

  lemma StillWaits(s: System)
    requires SystemInv(s) && Still(s) && s.r.outcome != Succeeded
    ensures !s.w.ended && !s.w.waitingForDelete && !s.w.freed && !s.w.readable && |s.w.buffer| < s.w.size
  {
  }
}
