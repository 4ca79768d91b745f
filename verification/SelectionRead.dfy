/** The requestor's side of a selection transfer, as a value and as the object the program
    keeps.  The property on the requestor's window is passed in and handed back. */
module SelectionRead {
  import opened SelectionWrite

  datatype Cell = Absent | Holding(prop: Prop)

  datatype Outcome = Pending | Succeeded | Failed

  /** The flags of a read transfer, the read offset in units of four bytes, and the bytes
      handed to the caller.  reading says that data has been announced to the caller and not
      all of it has been read. */
  datatype Reader = Reader(
    isIncr: bool, waitingForChunk: bool, finished: bool, failed: bool, reading: bool,
    offset: nat, received: seq<byte>, outcome: Outcome)

  function NewReader(): Reader {
    Reader(false, false, false, false, false, 0, [], Pending)
  }

  /** Looks at the property without reading it.  Asking for an empty property deletes it. */
  function StartRead(r: Reader, cell: Cell): (Reader, Cell) {
    match cell
    case Absent => (r.(outcome := Failed), cell)
    case Holding(Incr(_)) => (r.(isIncr := true, waitingForChunk := true), Absent)
    case Holding(Data(b)) =>
      if b == [] then (r.(outcome := Succeeded), Absent)
      else (r.(offset := 0, reading := true), cell)
  }

  /** Reads n units of four bytes; reading the last byte deletes the property. */
  function ReadUnits(r: Reader, cell: Cell, n: nat): (Reader, Cell) {
    if cell.Absent? || cell.prop.Incr? || 4 * r.offset > |cell.prop.bytes| then
      (r.(failed := true, finished := true), Absent)
    else
      var b := cell.prop.bytes[4 * r.offset..];
      if 4 * n >= |b| then
        var r' := r.(received := r.received + b, offset := r.offset + n, reading := false);
        (if r.isIncr then r'.(waitingForChunk := true) else r'.(finished := true), Absent)
      else
        (r.(received := r.received + b[..4 * n], offset := r.offset + n), cell)
  }

  /** A new value of the property matters only while a chunk is awaited. */
  function SeeNewValue(r: Reader, cell: Cell): (Reader, Cell) {
    if r.isIncr && r.waitingForChunk then StartRead(r.(waitingForChunk := false), cell)
    else (r, cell)
  }

  function FinishPending(r: Reader): Reader {
    if r.finished then r.(outcome := if r.failed then Failed else Succeeded) else r
  }

  class ReadTransfer {
    var isIncr: bool
    var isWaitingForChunk: bool
    var isFinished: bool
    var isFailed: bool
    var readOffset: nat
    var outcome: Outcome
    ghost var reading: bool
    ghost var received: seq<byte>

    ghost function Value(): Reader
      reads this
    {
      Reader(isIncr, isWaitingForChunk, isFinished, isFailed, reading, readOffset, received, outcome)
    }

    constructor ()
      ensures Value() == NewReader()
    {
      isIncr, isWaitingForChunk, isFinished, isFailed := false, false, false, false;
      readOffset, outcome, reading, received := 0, Pending, false, [];
    }

    method FinishReadTransfer(success: bool)
      modifies this`outcome
      ensures outcome == if success then Succeeded else Failed
    {
      outcome := if success then Succeeded else Failed;
    }

    method FinishTransfers()
      modifies this`outcome
      ensures Value() == FinishPending(old(Value()))
    {
      if isFinished {
        FinishReadTransfer(!isFailed);
      }
    }

    method FinishChunk()
      modifies this
      ensures Value() == if old(isIncr) then old(Value()).(waitingForChunk := true) else old(Value()).(finished := true)
    {
      if isIncr {
        isWaitingForChunk := true;
        return;
      }
      isFinished := true;
    }

    method StartSelectionRead(cell: Cell) returns (cell': Cell)
      modifies this
      ensures (Value(), cell') == StartRead(old(Value()), cell)
    {
      cell' := cell;
      match cell
      case Absent =>
        FinishReadTransfer(false);
      case Holding(Incr(_)) =>
        isIncr := true;
        isWaitingForChunk := true;
        cell' := Absent;
      case Holding(Data(b)) =>
        if b == [] {
          cell' := Absent;
          FinishReadTransfer(true);
        } else {
          readOffset := 0;
          reading := true;
        }
    }

    method ReadChunk(cell: Cell, longLength: nat) returns (data: seq<byte>, bytesAfter: nat, cell': Cell)
      modifies this
      ensures (Value(), cell') == ReadUnits(old(Value()), cell, longLength)
      ensures received == old(received) + data
      ensures !isFailed ==> bytesAfter == if cell'.Absent? then 0 else |cell'.prop.bytes| - 4 * readOffset
    {
      if cell.Absent? || cell.prop.Incr? || 4 * readOffset > |cell.prop.bytes| {
        isFailed, isFinished := true, true;
        return [], 0, Absent;
      }
      var b := cell.prop.bytes[4 * readOffset..];
      var n := if 4 * longLength >= |b| then |b| else 4 * longLength;
      data := b[..n];
      assert n == |b| ==> data == b;
      bytesAfter := |b| - n;
      received := received + data;
      cell' := cell;
      if bytesAfter == 0 {
        cell' := Absent;
        reading := false;
        FinishChunk();
      }
      readOffset := readOffset + longLength;
    }

    method HandlePropertyNotify(cell: Cell) returns (cell': Cell)
      modifies this
      ensures (Value(), cell') == SeeNewValue(old(Value()), cell)
    {
      cell' := cell;
      if isIncr && isWaitingForChunk {
        isWaitingForChunk := false;
        cell' := StartSelectionRead(cell);
      }
    }
  }
}
