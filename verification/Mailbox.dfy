/**
 The mailbox as a value: what one session accepted and how much of it was committed.
 Counters here are unbounded; the header and the transactions show them modulo 2^32.
 */
module Mailbox {
  import opened Arithmetic
  import opened Bytes
  import opened Wrappers
  import opened MailboxHeader

  const DEFAULT_MAX_BLOCK_SIZE: nat := 1024
  /** Session ids run 1, 2, .. 2^32 - 1 and then start again at 1; 0 is never used. */
  const SESSION_PERIOD: nat := 0xFFFF_FFFF

  datatype MailboxError = EmptyRead | InvalidRead | StaleTransaction

  datatype ReadTransaction = ReadTransaction(sessionId: nat, startCount: nat, data: bytes)

  /**
   `resets` counts the resets since power-up, `log` is everything the current session
   accepted, `committed` the length of the prefix of it that the host has taken.
   */
  datatype Box = Box(size: nat, build: nat, resets: nat, log: bytes, committed: nat,
                     overflows: nat, dropped: nat)
  {
    predicate Valid() {
      && size in SUPPORTED_BUFFER_SIZES
      && build < U32_RANGE
      && committed <= |log| <= committed + size
    }

    function Available(): nat
      requires Valid()
    {
      |log| - committed
    }

    /** The bytes that are in the ring: accepted, not yet committed. */
    function Unread(): bytes
      requires Valid()
    {
      log[committed..]
    }
  }

  function SessionOf(resets: nat): (r: nat)
    ensures 1 <= r < U32_RANGE
  {
    resets % SESSION_PERIOD + 1
  }

  function PowerUp(size: nat, build: nat): (box: Box)
    requires size in SUPPORTED_BUFFER_SIZES && build < U32_RANGE
    ensures box.Valid()
  {
    Box(size, build, 0, [], 0, 0, 0)
  }

  function Accepted(box: Box, data: bytes): (n: nat)
    requires box.Valid()
    ensures n <= |data|
  {
    if |data| <= box.size - box.Available() then |data| else box.size - box.Available()
  }

  /** Drop-newest: the front of `data` that fits is accepted, the rest is counted and lost. */
  function Offer(box: Box, data: bytes): (r: Box)
    requires box.Valid()
    ensures r.Valid()
    ensures r.Unread() == box.Unread() + data[..Accepted(box, data)]
  {
    var n := Accepted(box, data);
    var lost := |data| - n;
    box.(log := box.log + data[..n],
         overflows := box.overflows + (if lost > 0 then 1 else 0),
         dropped := box.dropped + lost)
  }

  function BeginRead(box: Box, length: int): (r: Result<ReadTransaction, MailboxError>)
    requires box.Valid()
    ensures r.Ok? ==> |r.value.data| == length && r.value.data <= box.Unread()
  {
    if length <= 0 || length > DEFAULT_MAX_BLOCK_SIZE then Err(InvalidRead)
    else if box.Available() == 0 then Err(EmptyRead)
    else if length > box.Available() then Err(InvalidRead)
    else Ok(ReadTransaction(SessionOf(box.resets), U32(box.committed),
                            box.log[box.committed..box.committed + length]))
  }

  function Commit(box: Box, tx: ReadTransaction): (r: Result<Box, MailboxError>)
    requires box.Valid()
    ensures r.Ok? ==> r.value.Valid()
  {
    if tx.sessionId != SessionOf(box.resets) then Err(StaleTransaction)
    else if tx.startCount != U32(box.committed) then Err(StaleTransaction)
    else if |tx.data| > box.Available() then Err(StaleTransaction)
    else Ok(box.(committed := box.committed + |tx.data|))
  }

  function Reset(box: Box): (r: Box)
    requires box.Valid()
    ensures r.Valid() && r.Unread() == []
  {
    box.(resets := box.resets + 1, log := [], committed := 0, overflows := 0, dropped := 0)
  }

  function HeaderOf(box: Box): Header
    requires box.Valid()
  {
    Header(MAGIC, TRANSPORT_VERSION, CAPABILITIES_V1, SessionOf(box.resets), box.size,
           U32(|box.log|), U32(box.committed), box.Available(), U32(box.overflows),
           U32(box.dropped), box.build)
  }

  /** The header a mailbox shows is accepted by the host and read back unchanged. */
  lemma HeaderSurvives(box: Box)
    requires box.Valid()
    ensures Pack(HeaderOf(box)).Ok?
    ensures Unpack(Pack(HeaderOf(box)).value) == Ok(HeaderOf(box))
  {
    var h := HeaderOf(box);
    assert CounterDelta(h.writeCount, h.readCount) == h.availableBytes by {
      U32Distance(|box.log|, box.committed);
    }
    assert Pow256(2) == 0x1_0000;
    assert Pow256(4) == 0x1_0000_0000 by { assert Pow256(4) == 0x1_0000 * Pow256(2); }
    UnpackOfPack(h);
  }

  /** Adding to a wrapped counter is adding to the counter and wrapping. */
  lemma U32Sum(count: nat, n: nat)
    ensures U32(U32(count) + n) == U32(count + n)
  {
  }

  /** The distance between two wrapped counters is their true distance, if that is below 2^32. */
  lemma U32Distance(newer: nat, older: nat)
    requires older <= newer < older + U32_RANGE
    ensures U32(U32(newer) - U32(older)) == newer - older
  {
  }

  /** Indexing the ring by the wrapped counter or by the true one is the same. */
  lemma WrappedIndex(count: nat, size: nat)
    requires size in SUPPORTED_BUFFER_SIZES
    ensures U32(count) % size == count % size
  {
    var high := count / U32_RANGE;
    var slots := U32_RANGE / size;
    assert count == size * (slots * high) + U32(count) by {
      assert size * slots == U32_RANGE;
      assert count == (size * slots) * high + U32(count);
    }
    WholeTurns(slots * high, size, U32(count));
  }

  /** Two positions less than one buffer apart never share a slot. */
  lemma SlotsDistinct(low: nat, high: nat, size: nat)
    requires low < high < low + size
    ensures low % size != high % size
  {
    var gap := high / size - low / size;
    assert size * gap == (high - low) - (high % size - low % size) by {
      assert high == size * (high / size) + high % size;
      assert low == size * (low / size) + low % size;
      assert size * gap == size * (high / size) - size * (low / size);
    }
    SmallMultiple(size, gap);
  }

  /** Every unread byte sits in its slot of the ring. */
  ghost predicate RingHolds(ring: bytes, box: Box)
    requires box.Valid()
  {
    && |ring| == box.size
    && forall k :: box.committed <= k < |box.log| ==> ring[k % box.size] == box.log[k]
  }

  /** Where the ring holds the `k`th byte. */
  lemma RingAt(ring: bytes, box: Box, k: nat)
    requires box.Valid() && RingHolds(ring, box) && box.committed <= k < |box.log|
    ensures k % box.size < |ring| && ring[k % box.size] == box.log[k]
  {
  }

  /** Storing at the write position keeps every unread byte. */
  lemma StoreKeepsUnread(ring: bytes, box: Box, value: byte)
    requires box.Valid() && RingHolds(ring, box) && box.Available() < box.size
    ensures RingHolds(ring[|box.log| % box.size := value], box.(log := box.log + [value]))
  {
    var n, size := |box.log|, box.size;
    var stored := ring[n % size := value];
    var next := box.(log := box.log + [value]);
    forall k | next.committed <= k < |next.log| ensures stored[k % size] == next.log[k] {
      if k < n {
        SlotsDistinct(k, n, size);
        assert ring[k % size] == box.log[k];
      }
    }
  }
}
