/** The ring buffer itself: wrapped 32-bit counters over a byte array, updated in place. */
module MailboxModel {
  import opened Bytes
  import opened Wrappers
  import opened MailboxHeader
  import opened Mailbox

  class Model {
    const bufferSize: nat
    const buildId: nat
    const buffer: array<byte>
    var sessionId: nat
    var writeCount: nat
    var readCount: nat
    var overflowCount: nat
    var droppedBytes: nat

    /** What the ring stands for. */
    ghost var box: Box

    ghost predicate Valid()
      reads this, buffer
    {
      && box.Valid()
      && buffer.Length == bufferSize == box.size
      && buildId == box.build
      && sessionId == SessionOf(box.resets)
      && writeCount == U32(|box.log|)
      && readCount == U32(box.committed)
      && overflowCount == U32(box.overflows)
      && droppedBytes == U32(box.dropped)
      && RingHolds(buffer[..], box)
    }

    constructor (size: nat, build: nat)
      requires size in SUPPORTED_BUFFER_SIZES
      ensures Valid() && fresh(buffer)
      ensures box == PowerUp(size, U32(build))
    {
      bufferSize := size;
      buildId := U32(build);
      buffer := new byte[size](_ => 0);
      sessionId, writeCount, readCount := 1, 0, 0;
      overflowCount, droppedBytes := 0, 0;
      box := PowerUp(size, U32(build));
    }

    method AvailableBytes() returns (n: nat)
      requires Valid()
      ensures n == box.Available()
    {
      U32Distance(|box.log|, box.committed);
      n := CounterDelta(writeCount, readCount);
    }

    method Header() returns (h: Header)
      requires Valid()
      ensures h == HeaderOf(box)
      ensures h.magic == 0x544A464F && h.transportVersion == 1 && h.capabilities == 15
      ensures h.sessionId == sessionId && h.bufferSize == bufferSize && h.buildId == buildId
      ensures h.writeCount == |box.log| % 0x1_0000_0000 && h.readCount == box.committed % 0x1_0000_0000
      ensures h.availableBytes == |box.log| - box.committed
      ensures h.overflowCount == box.overflows % 0x1_0000_0000 && h.droppedBytes == box.dropped % 0x1_0000_0000
    {
      var available := AvailableBytes();
      h := MailboxHeader.Header(MAGIC, TRANSPORT_VERSION, CAPABILITIES_V1, sessionId, bufferSize,
                                writeCount, readCount, available, overflowCount, droppedBytes, buildId);
    }

    /** Stores one byte in the next slot, which no unread byte occupies. */
    method Push(value: byte)
      requires Valid() && box.Available() < box.size
      modifies this, buffer
      ensures Valid()
      ensures box == old(box).(log := old(box).log + [value])
    {
      var n := |box.log|;
      U32Sum(n, 1);
      WrappedIndex(n, bufferSize);
      StoreKeepsUnread(buffer[..], box, value);
      hide U32, RingHolds, SessionOf;
      ghost var before := buffer[..];
      buffer[writeCount % bufferSize] := value;
      assert buffer[..] == before[n % bufferSize := value];
      writeCount := U32(writeCount + 1);
      box := box.(log := box.log + [value]);
    }

    /** Accounts for the bytes of one write that did not fit. */
    method CountDropped(dropped: nat)
      requires Valid()
      modifies this`overflowCount, this`droppedBytes, this`box
      ensures Valid()
      ensures box == old(box).(overflows := old(box).overflows + 1, dropped := old(box).dropped + dropped)
    {
      U32Sum(box.overflows, 1);
      U32Sum(box.dropped, dropped);
      hide U32, RingHolds, SessionOf;
      overflowCount := U32(overflowCount + 1);
      droppedBytes := U32(droppedBytes + dropped);
      box := box.(overflows := box.overflows + 1, dropped := box.dropped + dropped);
    }

    method Write(data: bytes) returns (accepted: nat)
      requires Valid()
      modifies this, buffer
      ensures Valid()
      ensures accepted == Accepted(old(box), data)
      ensures box == Offer(old(box), data)
      ensures accepted <= |data| && box.log == old(box.log) + data[..accepted]
      ensures accepted == |data| || |box.log| - box.committed == bufferSize
      ensures box.dropped == old(box.dropped) + |data| - accepted
      ensures box.overflows == old(box.overflows) + (if accepted < |data| then 1 else 0)
      ensures box.committed == old(box.committed) && box.resets == old(box.resets)
    {
      var available := AvailableBytes();
      accepted := if |data| <= bufferSize - available then |data| else bufferSize - available;
      ghost var before := box;
      for i := 0 to accepted
        invariant Valid()
        invariant box == before.(log := before.log + data[..i])
      {
        Push(data[i]);
        assert before.log + data[..i + 1] == before.log + data[..i] + [data[i]];
      }
      if |data| > accepted {
        CountDropped(|data| - accepted);
      }
    }

    method BeginRead(length: int) returns (r: Result<ReadTransaction, MailboxError>)
      requires Valid()
      ensures r == Mailbox.BeginRead(box, length)
      ensures r.Ok? <==> 1 <= length <= 1024 && length <= |box.log| - box.committed
      ensures r == Err(EmptyRead) <==> 1 <= length <= 1024 && |box.log| == box.committed
      ensures r.Err? ==> r.error == EmptyRead || r.error == InvalidRead
      ensures r.Ok? ==> r.value == ReadTransaction(sessionId, readCount, box.log[box.committed..box.committed + length])
    {
      if length <= 0 || length > DEFAULT_MAX_BLOCK_SIZE {
        return Err(InvalidRead);
      }
      var available := AvailableBytes();
      if available == 0 {
        return Err(EmptyRead);
      }
      if length > available {
        return Err(InvalidRead);
      }
      var data := Unread(length);
      r := Ok(ReadTransaction(sessionId, readCount, data));
    }

    /** The next `length` bytes, gathered one by one. */
    method Unread(length: nat) returns (data: bytes)
      requires Valid() && length <= |box.log| - box.committed
      ensures data == box.log[box.committed..box.committed + length]
    {
      hide Valid;
      data := [];
      for offset := 0 to length
        invariant data == box.log[box.committed..box.committed + offset]
      {
        var next := UnreadAt(offset);
        data := data + [next];
      }
    }

    method UnreadAt(offset: nat) returns (b: byte)
      requires Valid() && offset < |box.log| - box.committed
      ensures b == box.log[box.committed + offset]
    {
      hide U32, SessionOf, RingHolds;
      var k := box.committed + offset;
      U32Sum(box.committed, offset);
      WrappedIndex(k, bufferSize);
      RingAt(buffer[..], box, k);
      b := buffer[U32(readCount + offset) % bufferSize];
    }

    method Commit(tx: ReadTransaction) returns (r: Result<(), MailboxError>)
      requires Valid()
      modifies this
      ensures Valid()
      ensures match Mailbox.Commit(old(box), tx)
              case Ok(next) => r.Ok? && box == next
              case Err(e) => r == Err(e) && box == old(box)
      ensures r.Ok? <==> && tx.sessionId == old(sessionId) && tx.startCount == old(readCount)
                         && |tx.data| <= old(|box.log| - box.committed)
      ensures r.Ok? ==> box == old(box).(committed := old(box.committed) + |tx.data|)
      ensures r.Err? ==> r == Err(StaleTransaction) && box == old(box)
    {
      if tx.sessionId != sessionId || tx.startCount != readCount {
        return Err(StaleTransaction);
      }
      var available := AvailableBytes();
      if |tx.data| > available {
        return Err(StaleTransaction);
      }
      U32Sum(box.committed, |tx.data|);
      readCount := U32(readCount + |tx.data|);
      box := box.(committed := box.committed + |tx.data|);
      r := Ok(());
    }

    method Reset()
      requires Valid()
      modifies this, buffer
      ensures Valid()
      ensures box == Mailbox.Reset(old(box))
      ensures sessionId == (if old(sessionId) == 0xFFFF_FFFF then 1 else old(sessionId) + 1)
      ensures writeCount == readCount == overflowCount == droppedBytes == 0 && box.log == [] && box.committed == 0
      ensures forall i :: 0 <= i < buffer.Length ==> buffer[i] == 0
    {
      sessionId := if U32(sessionId + 1) == 0 then 1 else U32(sessionId + 1);
      writeCount, readCount, overflowCount, droppedBytes := 0, 0, 0, 0;
      forall i | 0 <= i < buffer.Length { buffer[i] := 0; }
      box := Mailbox.Reset(box);
    }
  }
}
