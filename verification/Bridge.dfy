/** The resident bridge: one transaction, its publication, and the bounded client queues. */
module Bridge {
  import opened Bytes
  import opened Wrappers
  import opened MailboxHeader
  import opened Mailbox
  import opened Backend
  import opened BackendClasses
  import opened Clients

  datatype TransactionError = Failing(error: BackendError) | IdentityChanged | StaleOrShort

  /** The checks of `_read_transaction` that need no call. */
  function BlockLength(h: Header, blockSize: nat): nat {
    if h.availableBytes < blockSize then h.availableBytes else blockSize
  }

  predicate Matches(h: Header, block: Block, blockSize: nat) {
    block.sessionId == h.sessionId && block.startCount == h.readCount && |block.data| == BlockLength(h, blockSize)
  }

  function DataOf(block: Option<Block>): Option<bytes> {
    match block case None => None case Some(b) => Some(b.data)
  }

  datatype Faults = Faults(header: Fault, block: Fault, commit: Fault)

  type Answer = Result<(Header, Option<Block>), TransactionError>

  /** One transaction with nothing happening in between: header, block, checks, commit. */
  function Transaction(b: State, box: Box, identity: nat, blockSize: nat, f: Faults): (Answer, State, Box)
    requires box.Valid()
  {
    match ReadHeader(b, box, f.header)
    case (Err(e), b1) => (Err(Failing(e)), b1, box)
    case (Ok(h), b1) =>
      if h.buildId != identity then (Err(IdentityChanged), b1, box)
      else if h.availableBytes == 0 then (Ok((h, None)), b1, box)
      else
        match ReadBlock(b1, box, BlockLength(h, blockSize), f.block)
        case (Err(e), b2, box2) => (Err(Failing(e)), b2, box2)
        case (Ok(block), b2, box2) =>
          if !Matches(h, block, blockSize) then (Err(StaleOrShort), b2, box2)
          else
            match CommitBlock(b2, box2, block, f.commit)
            case (Err(e), b3, box3) => (Err(Failing(e)), b3, box3)
            case (Ok(_), b3, box3) => (Ok((h, Some(block))), b3, box3)
  }

  /** Close, find the one target, open it again, and check the header before anything is consumed. */
  function Reconnected(b: State, targets: seq<TargetIdentity>, wanted: TargetIdentity, box: Box,
                       opening: Fault, recheck: Fault): (bool, State)
    requires box.Valid()
  {
    if Occurrences(targets, wanted) != 1 then (false, Close(b))
    else
      match Backend.Open(Close(b), box, opening)
      case (Err(_), b1) => (false, b1)
      case (Ok(_), b1) =>
        match ReadHeader(b1, box, recheck)
        case (Err(_), b2) => (false, b2)
        case (Ok(h), b2) => if h.buildId != wanted.buildId then (false, Close(b2)) else (true, b2)
  }

  datatype Stats = Stats(blocks: nat, payloadBytes: nat, overflowCount: nat, droppedBytes: nat,
                         bufferUsed: nat, slowClients: nat, reconnects: nat)

  /** The listed clients a broadcast would overflow. */
  function Overflowing(h: Hub): set<nat> {
    set id | id in h.clients && h.clients[id].listed && |h.clients[id].queue| >= h.depth
  }

  /** The clients a publication cuts off: by the SESSION record, then by the DATA record. */
  function SlowOnes(h: Hub, session: nat, payload: Option<bytes>): nat {
    var changed := session != h.session;
    var announced := if changed then Clients.Broadcast(h, Session(h.session, session)) else h;
    (if changed then |Overflowing(h)| else 0) + (if payload.Some? then |Overflowing(announced)| else 0)
  }

  // ----- what these amount to -----

  /** As much as there is, but not more than a block. */
  predicate Fills(length: nat, available: nat, blockSize: nat) {
    length <= available && length <= blockSize && (length == available || length == blockSize)
  }

  /** A block that answers a header: same session and start, and as long as it can be. */
  predicate Answers(h: Header, b: Block, blockSize: nat) {
    b.sessionId == h.sessionId && b.startCount == h.readCount && Fills(|b.data|, h.availableBytes, blockSize)
  }

  lemma MatchesMeans(h: Header, block: Block, blockSize: nat)
    ensures Matches(h, block, blockSize) <==> Answers(h, block, blockSize)
  {
  }

  /** What a transaction that succeeds has read and committed, from the device as it was. */
  predicate Transacted(before: Box, after: Box, identity: nat, blockSize: nat, h: Header, result: Option<Block>)
    requires before.Valid()
  {
    && h == HeaderOf(before) && h.buildId == identity
    && match result
       case None => before.committed == |before.log| && after == before
       case Some(b) =>
         && Answers(h, b, blockSize) && 0 < |b.data| <= |before.log| - before.committed
         && b.data == before.log[before.committed..before.committed + |b.data|]
         && after == before.(committed := before.committed + |b.data|)
  }

  /** A transaction that failed may have committed, but never wrote or reset. */
  predicate Spared(before: Box, after: Box, identity: nat, e: TransactionError) {
    && after.log == before.log && after.resets == before.resets && after.committed >= before.committed
    && (e == IdentityChanged ==> before.build != identity)
  }

  lemma TransactionMeans(b: State, box: Box, identity: nat, blockSize: nat, f: Faults)
    requires box.Valid()
    ensures match Transaction(b, box, identity, blockSize, f)
            case (Ok((h, result)), _, after) => Transacted(box, after, identity, blockSize, h, result)
            case (Err(e), _, after) => Spared(box, after, identity, e)
    ensures box.build != identity ==> Transaction(b, box, identity, blockSize, f).0.Err?
  {
    var (read, b1) := ReadHeader(b, box, f.header);
    if read.Ok? && box.build == identity && read.value.availableBytes > 0 {
      var h := read.value;
      assert h == HeaderOf(box);
      BlockMeans(b1, box, h, blockSize, f);
      hide ReadBlock, CommitBlock, Matches, BlockLength, Transacted, Spared, HeaderOf;
      assert box.Valid();
    }
  }

  lemma BlockMeans(b: State, box: Box, h: Header, blockSize: nat, f: Faults)
    requires box.Valid() && h == HeaderOf(box) && h.availableBytes > 0
    ensures match ReadBlock(b, box, BlockLength(h, blockSize), f.block)
            case (Err(e), _, after) => Spared(box, after, box.build, Failing(e))
            case (Ok(block), b2, box2) =>
              && box2.log == box.log && box2.resets == box.resets && box2.committed >= box.committed
              && Spared(box, box2, box.build, StaleOrShort)
              && match CommitBlock(b2, box2, block, f.commit)
                 case (Err(e), _, after) => Spared(box, after, box.build, Failing(e))
                 case (Ok(_), _, after) =>
                   Matches(h, block, blockSize) ==> Transacted(box, after, box.build, blockSize, h, Some(block))
  {
  }

  /** Reconnecting succeeds exactly if the target is there once, it is the right one, and both calls succeed. */
  lemma ReconnectMeans(b: State, targets: seq<TargetIdentity>, wanted: TargetIdentity, box: Box,
                       opening: Fault, recheck: Fault)
    requires box.Valid()
    ensures var (ok, after) := Reconnected(b, targets, wanted, box, opening, recheck);
            && (ok <==> && multiset(targets)[wanted] == 1 && opening.Clean? && recheck.Clean?
                        && box.build == wanted.buildId && (b.Ftdi? ==> box.build == b.build))
            && (ok ==> IsOpen(after))
            && (after.Ftdi? ==> after.last.None? && after.expected.None?)
            && (IsOpen(after) && !ok ==> opening.Clean? && !recheck.Clean?)
  {
    OccurrencesMeans(targets, wanted);
  }

  lemma {:induction false} OccurrencesMeans(targets: seq<TargetIdentity>, wanted: TargetIdentity)
    ensures Occurrences(targets, wanted) == multiset(targets)[wanted]
    decreases |targets|
  {
    if targets == [] {
    } else {
      var n := |targets| - 1;
      OccurrencesMeans(targets[..n], wanted);
      assert targets == targets[..n] + [targets[n]];
    }
  }

  /** What offering a record does to one client. */
  predicate WasOffered(before: Client, after: Client, item: Item, depth: nat) {
    if !before.listed then after == before
    else if |before.queue| < depth then after == before.(queue := before.queue + [Some(item)])
    else after == before.(listed := false, queue := [None])
  }

  lemma BroadcastMeans(h: Hub, item: Item)
    ensures var r := Clients.Broadcast(h, item);
            && r.log == h.log + [item] && r.session == h.session && r.depth == h.depth
            && r.clients.Keys == h.clients.Keys
            && forall id :: id in h.clients ==> WasOffered(h.clients[id], r.clients[id], item, h.depth)
  {
  }

  /** The clients served before and no longer served after. */
  function Lost(before: map<nat, Client>, after: map<nat, Client>): set<nat> {
    set id | id in before && before[id].listed && !(id in after && after[id].listed)
  }

  lemma OverflowLost(h: Hub, item: Item)
    ensures Overflowing(h) == Lost(h.clients, Clients.Broadcast(h, item).clients)
  {
  }

  /** Nobody comes back, so who is lost over two steps is lost in one of them. */
  lemma LostTwice(a: map<nat, Client>, b: map<nat, Client>, c: map<nat, Client>)
    requires a.Keys == b.Keys == c.Keys
    requires forall id :: id in a && !a[id].listed ==> !b[id].listed
    requires forall id :: id in b && !b[id].listed ==> !c[id].listed
    ensures |Lost(a, c)| == |Lost(a, b)| + |Lost(b, c)|
  {
    assert Lost(a, c) == Lost(a, b) + Lost(b, c) && Lost(a, b) !! Lost(b, c);
  }

  lemma NoneLost(a: map<nat, Client>)
    ensures Lost(a, a) == {}
  {
  }

  lemma SlowMeans(h: Hub, session: nat, payload: Option<bytes>)
    ensures SlowOnes(h, session, payload) == |Lost(h.clients, Clients.Publish(h, session, payload).clients)|
  {
    var news := Session(h.session, session);
    var b1 := Clients.Broadcast(h, news);
    var announced := if session != h.session then b1.(session := session) else h;
    OverflowLost(h, news);
    NoneLost(h.clients);
    if payload.Some? {
      var item := Data(payload.value, session);
      OverflowLost(announced, item);
      assert Overflowing(announced) == Overflowing(if session != h.session then b1 else h);
      BroadcastMeans(h, news);
      BroadcastMeans(announced, item);
      hide Clients.Broadcast, Lost, Overflowing;
      LostTwice(h.clients, announced.clients, Clients.Broadcast(announced, item).clients);
    }
  }

  /** One line of the capture's metadata; its time is left out. */
  datatype CaptureLine = CaptureLine(sessionId: nat, startCount: nat, length: nat)

  class Bridge {
    const backend: Device
    const identity: TargetIdentity
    const blockSize: nat
    const queueDepth: nat
    const capturing: bool
    var sessionId: nat
    var clients: map<nat, Client>
    var stats: Stats
    var captured: bytes
    var metadata: seq<CaptureLine>
    /** Everything broadcast so far; only the proofs look at it. */
    var log: seq<Item>

    constructor (backend: Device, identity: TargetIdentity, blockSize: nat, queueDepth: nat, capturing: bool)
      ensures this.backend == backend && this.identity == identity && this.blockSize == blockSize
      ensures this.capturing == capturing && captured == [] && metadata == []
      ensures Hub() == Opened(queueDepth)
    {
      this.backend, this.identity, this.blockSize, this.queueDepth := backend, identity, blockSize, queueDepth;
      this.capturing := capturing;
      captured, metadata := [], [];
      sessionId, clients, log := 0, map[], [];
      stats := Stats(0, 0, 0, 0, 0, 0, 0);
    }

    ghost function Hub(): Hub
      reads this
    {
      Clients.Hub(queueDepth, sessionId, clients, log)
    }

    /** Stops serving one client: forget it, empty its queue, tell its writer to stop. */
    method Disconnect(id: nat)
      requires id in clients
      modifies this`clients
      ensures clients == old(clients)[id := CutOff(old(clients[id]))]
    {
      var queue := clients[id].queue;
      while queue != []
      {
        queue := queue[1..];
      }
      queue := queue + [None];
      assert queue == [None];
      clients := clients[id := clients[id].(listed := false, queue := queue)];
    }

    /** Offers a record to every listed client; a full queue costs the client its connection. */
    method Broadcast(item: Item)
      modifies this`clients, this`stats, this`log
      ensures Hub() == Clients.Broadcast(old(Hub()), item)
      ensures stats == old(stats).(slowClients := old(stats.slowClients) + |Overflowing(old(Hub()))|)
      ensures log == old(log) + [item] && clients.Keys == old(clients).Keys
      ensures forall id :: id in clients ==> WasOffered(old(clients)[id], clients[id], item, queueDepth)
    {
      ghost var h := Hub();
      BroadcastMeans(h, item);
      var todo := Listed(clients);
      NoneOffered(h, item);
      ghost var slow := OfferAll(todo, item, h);
      AllOffered(h, item, clients, slow);
      log := log + [item];
    }

    static function Listed(clients: map<nat, Client>): set<nat> {
      set id | id in clients && clients[id].listed
    }

    method OfferAll(listed: set<nat>, item: Item, ghost h: Hub) returns (ghost slow: set<nat>)
      requires Halfway(h, item, clients, listed, {}) && h.depth == queueDepth
      modifies this`clients, this`stats
      ensures Halfway(h, item, clients, {}, slow)
      ensures stats == old(stats).(slowClients := old(stats.slowClients) + |slow|)
    {
      var todo := listed;
      slow := {};
      while todo != {}
        invariant Halfway(h, item, clients, todo, slow)
        invariant stats == old(stats).(slowClients := old(stats.slowClients) + |slow|)
      {
        var id :| id in todo;
        slow := OfferTo(id, item, h, todo, slow);
        todo := todo - {id};
      }
    }

    static lemma NoneOffered(h: Hub, item: Item)
      ensures Halfway(h, item, h.clients, Listed(h.clients), {})
    {
    }

    /** The clients in `todo` have not been offered `item` yet; `slow` are those it was too much for. */
    ghost static predicate Halfway(h: Hub, item: Item, now: map<nat, Client>, todo: set<nat>, slow: set<nat>) {
      && now.Keys == h.clients.Keys && todo <= h.clients.Keys
      && (forall id :: id in todo ==> h.clients[id].listed && now[id] == h.clients[id])
      && (forall id :: id in h.clients && id !in todo ==> now[id] == Deliver(h.clients[id], item, h.depth))
      && slow == Overflowing(h) - todo
    }

    static lemma HalfwayNext(h: Hub, item: Item, now: map<nat, Client>, todo: set<nat>, slow: set<nat>, id: nat)
      requires Halfway(h, item, now, todo, slow) && id in todo
      ensures var full := |now[id].queue| >= h.depth;
              && Halfway(h, item, now[id := Deliver(now[id], item, h.depth)], todo - {id},
                         if full then slow + {id} else slow)
              && id !in slow
    {
    }

    static lemma AllOffered(h: Hub, item: Item, now: map<nat, Client>, slow: set<nat>)
      requires Halfway(h, item, now, {}, slow)
      ensures now == Clients.Broadcast(h, item).clients && slow == Overflowing(h)
    {
    }

    method OfferTo(id: nat, item: Item, ghost h: Hub, ghost todo: set<nat>, ghost slow: set<nat>)
        returns (ghost slow': set<nat>)
      requires Halfway(h, item, clients, todo, slow) && id in todo && h.depth == queueDepth
      modifies this`clients, this`stats
      ensures Halfway(h, item, clients, todo - {id}, slow')
      ensures |slow'| >= |slow| && stats == old(stats).(slowClients := old(stats.slowClients) + (|slow'| - |slow|))
    {
      HalfwayNext(h, item, clients, todo, slow, id);
      var full := Put(id, item);
      slow' := if full then slow + {id} else slow;
    }

    /** `put_nowait` for one client, and the reaction to a full queue. */
    method Put(id: nat, item: Item) returns (full: bool)
      requires id in clients && clients[id].listed
      modifies this`clients, this`stats
      ensures full == (|old(clients[id]).queue| >= queueDepth)
      ensures clients == old(clients)[id := Deliver(old(clients[id]), item, queueDepth)]
      ensures stats == old(stats).(slowClients := old(stats.slowClients) + (if full then 1 else 0))
    {
      var c := clients[id];
      full := |c.queue| >= queueDepth;
      if full {
        stats := stats.(slowClients := stats.slowClients + 1);
        Disconnect(id);
      } else {
        clients := clients[id := c.(queue := c.queue + [Some(item)])];
      }
    }

    /** What `pump_once` does after its await: nothing else runs in between. */
    method Publish(header: Header, block: Option<Block>) returns (count: nat)
      modifies this
      ensures Hub() == Clients.Publish(old(Hub()), header.sessionId, DataOf(block))
      ensures count == match block case None => 0 case Some(b) => |b.data|
      ensures stats == Stats(old(stats.blocks) + (if block.Some? then 1 else 0), old(stats.payloadBytes) + count,
                             header.overflowCount, header.droppedBytes, header.availableBytes,
                             old(stats.slowClients) + SlowOnes(old(Hub()), header.sessionId, DataOf(block)),
                             old(stats.reconnects))
      ensures if capturing && block.Some?
              then captured == old(captured) + block.value.data
                   && metadata == old(metadata) + [CaptureLine(block.value.sessionId, block.value.startCount, count)]
              else captured == old(captured) && metadata == old(metadata)
      ensures sessionId == header.sessionId
      ensures stats.slowClients == old(stats.slowClients) + |Lost(old(clients), clients)|
      ensures log == old(log)
                     + (if header.sessionId != old(sessionId) then [Session(old(sessionId), header.sessionId)] else [])
                     + (if block.Some? then [Data(block.value.data, header.sessionId)] else [])
    {
      SlowMeans(Hub(), header.sessionId, DataOf(block));
      hide Lost, WasOffered;
      if header.sessionId != sessionId {
        var previous := sessionId;
        sessionId := header.sessionId;
        Broadcast(Session(previous, sessionId));
      }
      stats := stats.(overflowCount := header.overflowCount, droppedBytes := header.droppedBytes,
                      bufferUsed := header.availableBytes);
      if block.None? {
        return 0;
      }
      if capturing {
        captured := captured + block.value.data;
        metadata := metadata + [CaptureLine(block.value.sessionId, block.value.startCount, |block.value.data|)];
      }
      stats := stats.(blocks := stats.blocks + 1, payloadBytes := stats.payloadBytes + |block.value.data|);
      Broadcast(Data(block.value.data, sessionId));
      count := |block.value.data|;
    }

    /** Reads and commits one mailbox block. */
    method ReadTransaction(f: Faults) returns (r: Answer)
      requires backend.Model().Valid()
      modifies backend.Owner(), backend.Model(), backend.Model().buffer
      ensures backend.Model().Valid()
      ensures (r, backend.State(), backend.Model().box)
           == Transaction(old(backend.State()), old(backend.Model().box), identity.buildId, blockSize, f)
      ensures r.Ok? ==> Transacted(old(backend.Model().box), backend.Model().box, identity.buildId, blockSize,
                                   r.value.0, r.value.1)
    {
      TransactionMeans(backend.State(), backend.Model().box, identity.buildId, blockSize, f);
      var header := backend.ReadHeader(f.header);
      if header.Err? {
        return Err(Failing(header.error));
      }
      var h := header.value;
      if h.buildId != identity.buildId {
        return Err(IdentityChanged);
      }
      if h.availableBytes == 0 {
        return Ok((h, None));
      }
      var length := BlockLength(h, blockSize);
      var block := backend.ReadBlock(length, f.block);
      if block.Err? {
        return Err(Failing(block.error));
      }
      if block.value.sessionId != h.sessionId || block.value.startCount != h.readCount || |block.value.data| != length {
        return Err(StaleOrShort);
      }
      var committed := backend.Commit(block.value, f.commit);
      if committed.Err? {
        return Err(Failing(committed.error));
      }
      r := Ok((h, Some(block.value)));
    }

    /** Counts the targets that are the one the bridge was started for. */
    static method CountMatches(targets: seq<TargetIdentity>, wanted: TargetIdentity) returns (n: nat)
      ensures n == Occurrences(targets, wanted) == multiset(targets)[wanted]
    {
      OccurrencesMeans(targets, wanted);
      n := 0;
      for i := 0 to |targets|
        invariant n == Occurrences(targets[..i], wanted)
      {
        assert targets[..i + 1][..i] == targets[..i];
        if targets[i] == wanted {
          n := n + 1;
        }
      }
      assert targets[..|targets|] == targets;
    }

    static lemma OncePresent(targets: seq<TargetIdentity>, wanted: TargetIdentity)
      requires Occurrences(targets, wanted) > 0
      ensures wanted in targets
    {
    }

    /** Some of the clients listed before have been cut off, those in `todo` not yet. */
    static ghost predicate Stopping(before: map<nat, Client>, now: map<nat, Client>, todo: set<nat>) {
      && now.Keys == before.Keys && todo <= Listed(before)
      && forall id :: id in before ==>
           now[id] == if before[id].listed && id !in todo then CutOff(before[id]) else before[id]
    }

    /** Shutting down cuts every client off and closes the backend. */
    method Close()
      modifies backend.Owner(), this`clients
      ensures Hub() == Shutdown(old(Hub())) && backend.State() == Backend.Close(old(backend.State()))
      ensures Listed(clients) == {} && !IsOpen(backend.State())
    {
      ghost var before := clients;
      var todo := Listed(clients);
      while todo != {}
        modifies this`clients
        invariant Stopping(before, clients, todo)
      {
        var id :| id in todo;
        Disconnect(id);
        todo := todo - {id};
      }
      assert clients == Shutdown(Clients.Hub(queueDepth, sessionId, before, log)).clients;
      backend.Close();
    }

    method ReconnectOnce(opening: Fault, recheck: Fault) returns (ok: bool)
      requires backend.Model().Valid()
      modifies backend.Owner(), this`stats
      ensures (ok, backend.State())
           == Reconnected(old(backend.State()), backend.Targets(), identity, backend.Model().box, opening, recheck)
      ensures stats == old(stats).(reconnects := old(stats.reconnects) + (if ok then 1 else 0))
      ensures ok <==> && multiset(backend.Targets())[identity] == 1 && opening.Clean? && recheck.Clean?
                      && backend.Model().box.build == identity.buildId
                      && (old(backend.State()).Ftdi? ==> backend.Model().box.build == old(backend.State()).build)
      ensures ok ==> IsOpen(backend.State())
    {
      ReconnectMeans(backend.State(), backend.Targets(), identity, backend.Model().box, opening, recheck);
      backend.Close();
      var targets := backend.Enumerate();
      var matches := CountMatches(targets, identity);
      if matches != 1 {
        return false;
      }
      OncePresent(targets, identity);
      var reopened := backend.Open(identity, opening);
      if reopened.Err? {
        return false;
      }
      var header := backend.ReadHeader(recheck);
      if header.Err? {
        return false;
      }
      if header.value.buildId != identity.buildId {
        backend.Close();
        return false;
      }
      stats := stats.(reconnects := stats.reconnects + 1);
      ok := true;
    }

    /** A client connects: it is listed and greeted in one step. */
    method Greet(id: nat)
      requires id !in clients
      modifies this`clients
      ensures Hub() == Clients.Join(old(Hub()), id)
    {
      clients := clients[id := Client(true, [], [Hello(sessionId)], false, |log|, sessionId)];
    }

    /** One turn of a client's writer. */
    method WriteNext(id: nat)
      requires id in clients && !clients[id].closed && clients[id].queue != []
      modifies this`clients
      ensures Hub() == Clients.Pop(old(Hub()), id)
    {
      var c := clients[id];
      var record := c.queue[0];
      if record.None? {
        clients := clients[id := c.(closed := true, listed := false, queue := c.queue[1..])];
      } else {
        clients := clients[id := c.(sent := c.sent + [record.value], queue := c.queue[1..])];
      }
    }
  }
}
