/** A write transfer as the object the program keeps: flags and a buffer that the handlers
    change in place.  Every handler does to the object what SelectionWrite says.  The
    preconditions of FlushTransfer and FillBuffer are the program's assertions. */
module WriteTransfers {
  import opened SelectionWrite

  class WriteTransfer {
    var isFinished: bool
    var isStarted: bool
    var isWaitingForDelete: bool
    var isWaitingForIncr: bool
    var isReadable: bool
    var isFlushed: bool
    var eventPending: bool  // the SelectionNotify event has not been sent
    var unlinked: bool      // the transfer has been freed
    const buffer: array<byte>
    var offset: nat
    ghost var log: seq<Prop>
    ghost var consumed: seq<byte>
    ghost var ended: bool

    ghost predicate Valid()
      reads this
    {
      offset <= buffer.Length
    }

    ghost function Value(): Transfer
      reads this, buffer
      requires Valid()
    {
      Transfer(isFinished, isStarted, isWaitingForDelete, isWaitingForIncr, isReadable, isFlushed,
               unlinked, !eventPending, buffer[..offset], buffer.Length, log, consumed, ended)
    }

    constructor (quantum: nat)
      ensures Valid() && Value() == NewTransfer(quantum) && fresh(buffer)
    {
      isFinished, isStarted, isWaitingForDelete, isWaitingForIncr := false, false, false, false;
      isReadable, isFlushed, unlinked, eventPending := false, false, false, true;
      buffer := new byte[quantum];
      offset := 0;
      log, consumed, ended := [], [], false;
    }

    method SignalConversionPerformed()
      modifies this`eventPending
      ensures !eventPending
    {
      eventPending := false;
    }

    method FlushTransfer(force: bool)
      requires Valid() && !isWaitingForDelete
      modifies this
      ensures Valid() && Value() == Flush(old(Value()), force)
    {
      if isStarted || force {
        log := log + [Data(buffer[..offset])];
        SignalConversionPerformed();
        offset := 0;
      } else {
        log := log + [Incr(buffer.Length)];
        SignalConversionPerformed();
        isWaitingForIncr := true;
      }
      isWaitingForDelete := true;
      isFlushed := true;
    }

    method FreeTransfer()
      requires Valid()
      modifies this
      ensures Valid() && Value() == Free(old(Value()))
    {
      unlinked := true;
      if isStarted {
        log := log + [Data([])];
      }
    }

    method TransferFinished()
      requires Valid()
      modifies this
      ensures Valid() && Value() == Finish(old(Value()))
    {
      if isWaitingForDelete {
        isFinished := true;
      } else if offset != 0 || !isFlushed {
        FlushTransfer(true);
        isFinished := true;
      } else {
        FreeTransfer();
      }
    }

    /** The data source puts what it has behind what is buffered already. */
    method FillBuffer(bytes: seq<byte>)
      requires Valid() && offset + |bytes| <= buffer.Length
      modifies this`offset, this`consumed, buffer
      ensures Valid() && buffer[..offset] == old(buffer[..offset]) + bytes
      ensures consumed == old(consumed) + bytes
    {
      forall k | 0 <= k < |bytes| {
        buffer[offset + k] := bytes[k];
      }
      offset := offset + |bytes|;
      consumed := consumed + bytes;
    }

    method UseStatus(status: ReadStatus)
      requires Valid() && !isWaitingForDelete && !isReadable
      modifies this
      ensures Valid() && Value() == UseAnswer(old(Value()), status)
    {
      hide Flush, Finish;
      if status != EndOfFile {
        if offset == buffer.Length || status == NeedBiggerBuffer {
          if status == NeedBiggerBuffer {
            isReadable := true;
          }
          FlushTransfer(false);
        }
      } else {
        ended := true;
        TransferFinished();
      }
    }

    method TransferBecameReadable(c: Chunk)
      requires Valid() && (!isWaitingForDelete ==> offset + |c.bytes| <= buffer.Length)
      modifies this, buffer
      ensures Valid() && Value() == BecomeReadable(old(Value()), c)
    {
      hide UseAnswer;
      if isWaitingForDelete {
        isReadable := true;
        return;
      }
      isReadable := false;
      FillBuffer(c.bytes);
      UseStatus(c.status);
    }

    /** What HandlePropertyDelete does to one transfer. */
    method HandlePropertyDelete(c: Chunk)
      requires Valid()
      requires !isFinished && !isWaitingForIncr && isReadable ==> offset + |c.bytes| <= buffer.Length
      modifies this, buffer
      ensures Valid() && Value() == PropertyDeleted(old(Value()), c)
    {
      if isFinished {
        FreeTransfer();
      } else if isWaitingForIncr {
        isStarted := true;
        isWaitingForIncr := false;
        isWaitingForDelete := false;
        FlushTransfer(false);
      } else {
        isWaitingForDelete := false;
        if isReadable {
          TransferBecameReadable(c);
        }
      }
    }
  }
}
