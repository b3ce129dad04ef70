/** From the device's writes to the frames a client's decoder delivers. */
module EndToEnd {
  import opened Bytes
  import opened Sequences
  import opened Wrappers
  import opened Mailbox
  import Clients
  import opened Bridge
  import opened BridgeSystem
  import opened BridgeOrigins
  import opened BridgeSafety
  import opened BridgeDelivery
  import opened BridgeProtocol
  import opened DebugFrames
  import opened FrameFeed
  import opened FrameStream

  type Item = Clients.Item

  /** The DATA records of a stream with their sessions, in order. */
  function DataItems(stream: seq<Item>): seq<(bytes, nat)> {
    if stream == [] then []
    else
      var last := stream[|stream| - 1];
      DataItems(stream[..|stream| - 1]) + (if last.Data? then [(last.payload, last.session)] else [])
  }

  function PublishedItems(published: seq<Published>): (r: seq<(bytes, nat)>)
    ensures |r| == |published|
  {
    seq(|published|, k requires 0 <= k < |published| => (published[k].data, published[k].session))
  }

  lemma DataSnoc(stream: seq<Item>, item: Item)
    ensures DataItems(stream + [item]) == DataItems(stream) + (if item.Data? then [(item.payload, item.session)] else [])
  {
    assert (stream + [item])[..|stream|] == stream;
  }

  /** What was broadcast as DATA is what was published. */
  ghost predicate HubMatches(s: System) {
    DataItems(s.hub.log) == PublishedItems(s.published)
  }

  ghost predicate StreamInv(s: System) {
    OriginInv(s) && Clients.HubInv(s.hub) && HubMatches(s)
  }

  lemma NextMatches(s: System, a: Action)
    requires s.box.Valid() && PhaseTraced(s) && HubMatches(s)
    ensures HubMatches(Next(s, a))
  {
    match a
    case PublishResult =>
      if s.phase.Ready? {
        PublishMatches(s);
      }
    case ClientStep(op) => ClientMatches(s, op);
    case _ =>
      hide PhaseTraced, DataItems, PublishedItems;
      assert Next(s, a).hub == s.hub && Next(s, a).published == s.published;
  }

  lemma ClientMatches(s: System, op: Clients.Op)
    requires s.box.Valid() && HubMatches(s)
    ensures HubMatches(Next(s, ClientStep(op)))
  {
    if op.OpStatus? {
      DataSnoc(s.hub.log, Clients.Status);
    }
  }

  lemma PublishMatches(s: System)
    requires s.box.Valid() && PhaseTraced(s) && HubMatches(s) && s.phase.Ready?
    ensures HubMatches(Next(s, PublishResult))
  {
    var h, session, result := s.hub, s.phase.header.sessionId, s.phase.result;
    var log := h.log;
    if session != h.session {
      var announcement := Clients.Item.Session(h.session, session);
      DataSnoc(log, announcement);
      log := log + [announcement];
    }
    if result.Some? {
      DataSnoc(log, Clients.Data(result.value.data, session));
    }
  }

  lemma NextHub(s: System, a: Action)
    requires s.box.Valid() && Clients.HubInv(s.hub)
    ensures Clients.HubInv(Next(s, a).hub)
  {
    match a
    case PublishResult =>
      if s.phase.Ready? {
        Clients.PublishKeeps(s.hub, s.phase.header.sessionId, DataOf(s.phase.result));
      }
    case ClientStep(op) => Clients.StepKeeps(s.hub, op);
    case _ => assert Next(s, a).hub == s.hub;
  }

  /** Every step keeps the streams in accord with what was published, whatever fails or is reset. */
  lemma NextStreams(s: System, a: Action)
    requires StreamInv(s)
    ensures StreamInv(Next(s, a))
  {
    NextTraced(s, a);
    NextHub(s, a);
    NextMatches(s, a);
  }

  lemma {:induction false} RunStreams(s: System, actions: seq<Action>)
    requires StreamInv(s)
    ensures StreamInv(Run(s, actions))
    decreases |actions|
  {
    if actions == [] {
    } else {
      NextStreams(s, actions[0]);
      RunStreams(Next(s, actions[0]), actions[1..]);
    }
  }

  lemma StartedStreams(blockSize: nat, depth: nat, size: nat, build: nat, ftdi: bool)
    requires Configured(blockSize, depth, size, build)
    ensures StreamInv(Started(blockSize, depth, size, build, ftdi))
  {
  }

  /** A DATA record of a stream is the item its predecessors count. */
  lemma {:induction false} DataAt(stream: seq<Item>, i: nat)
    requires i < |stream| && stream[i].Data?
    ensures |DataItems(stream[..i])| < |DataItems(stream)|
    ensures DataItems(stream)[|DataItems(stream[..i])|] == (stream[i].payload, stream[i].session)
    decreases |stream|
  {
    var n := |stream| - 1;
    if i >= n {
    } else {
      DataAt(stream[..n], i);
      assert stream[..n][..i] == stream[..i];
    }
  }

  /** The published block that the `i`th record sent to client `c` carries, if it is a DATA record. */
  function BlockSent(s: System, c: Clients.Client, i: nat): nat
    requires c.since <= |s.hub.log| && 1 <= i <= |s.hub.log| - c.since
  {
    |DataItems(s.hub.log[..c.since + i - 1])|
  }

  lemma SentBlock(s: System, c: Clients.Client, i: nat)
    requires HubMatches(s) && Clients.Served(c, s.hub.log, s.hub.depth) && i < |c.sent| && c.sent[i].Data?
    ensures 1 <= i <= |s.hub.log| - c.since && BlockSent(s, c, i) < |s.published|
    ensures var p := s.published[BlockSent(s, c, i)]; c.sent[i].payload == p.data && c.sent[i].session == p.session
  {
    var log := s.hub.log;
    assert c.sent[0] == Clients.Owed(c, log)[0];
    assert c.sent[i] == Clients.Owed(c, log)[i] == log[c.since + i - 1];
    DataAt(log, c.since + i - 1);
    assert DataItems(log)[BlockSent(s, c, i)] == PublishedItems(s.published)[BlockSent(s, c, i)];
  }

  /**
   Session isolation, in every run and on every client's stream: a DATA record is a published
   block, whose bytes are a segment of one session's log, and its label is the session announced
   last on the same stream. If the device is reset at no bad moment that is the session of the
   bytes; always so with the mock.
   */
  lemma {:induction false} SessionIsolation(blockSize: nat, depth: nat, size: nat, build: nat, ftdi: bool,
                                            actions: seq<Action>,
                                            id: nat, i: nat)
    requires Configured(blockSize, depth, size, build)
    requires var s := Run(Started(blockSize, depth, size, build, ftdi), actions);
             id in s.hub.clients && i < |s.hub.clients[id].sent| && s.hub.clients[id].sent[i].Data?
    ensures var s := Run(Started(blockSize, depth, size, build, ftdi), actions);
            var c := s.hub.clients[id];
            && c.since <= |s.hub.log| && 1 <= i <= |s.hub.log| - c.since
            && BlockSent(s, c, i) < |s.published|
            && var p := s.published[BlockSent(s, c, i)];
               && c.sent[i].payload == p.data && Sliced(s, p.data, p.from)
               && p.session == Clients.InForce(c.sent, i, 0)
               && (!ftdi || Calm(Started(blockSize, depth, size, build, ftdi), actions) ==>
                     Clients.InForce(c.sent, i, 0) == SessionOf(p.from.epoch))
  {
    var start := Started(blockSize, depth, size, build, ftdi);
    StartedStreams(blockSize, depth, size, build, ftdi);
    RunStreams(start, actions);
    var s := Run(start, actions);
    StreamIsolated(s, id, i);
    PublishedExactly(blockSize, depth, size, build, ftdi, actions);
    if Calm(start, actions) {
      LabelsKept(blockSize, depth, size, build, ftdi, actions);
    }
  }

  lemma StreamIsolated(s: System, id: nat, i: nat)
    requires StreamInv(s) && id in s.hub.clients && i < |s.hub.clients[id].sent| && s.hub.clients[id].sent[i].Data?
    ensures var c := s.hub.clients[id];
            && c.since <= |s.hub.log| && 1 <= i <= |s.hub.log| - c.since && BlockSent(s, c, i) < |s.published|
            && var p := s.published[BlockSent(s, c, i)];
               c.sent[i].payload == p.data && p.session == Clients.InForce(c.sent, i, 0)
  {
    var c := s.hub.clients[id];
    assert Clients.Served(c, s.hub.log, s.hub.depth);
    SentBlock(s, c, i);
    Clients.StreamAnnounced(c, s.hub.log, s.hub.depth);
  }

  // ----- the bytes a client receives -----

  function PayloadsOf(items: seq<(bytes, nat)>): (r: seq<bytes>)
    ensures |r| == |items|
  {
    seq(|items|, k requires 0 <= k < |items| => items[k].0)
  }

  lemma {:induction false} PayloadsConcat(published: seq<Published>, epoch: nat)
    requires forall k :: 0 <= k < |published| ==> published[k].from.epoch == epoch
    ensures Concat(PayloadsOf(PublishedItems(published))) == DataOfEpoch(published, epoch)
    decreases |published|
  {
    if published == [] {
    } else {
      var n := |published| - 1;
      PayloadsConcat(published[..n], epoch);
      var all, front := PayloadsOf(PublishedItems(published)), PayloadsOf(PublishedItems(published[..n]));
      assert all == front + [published[n].data];
      ConcatSnoc(front, published[n].data);
    }
  }

  lemma {:induction false} DataPrefix(a: seq<Item>, b: seq<Item>)
    requires a <= b
    ensures DataItems(a) <= DataItems(b)
    decreases |b|
  {
    if |a| < |b| {
      DataPrefix(a, b[..|b| - 1]);
    } else {
      assert a == b;
    }
  }

  lemma ConcatPrefix(a: seq<bytes>, b: seq<bytes>)
    requires a <= b
    ensures Concat(a) <= Concat(b)
  {
    assert b == a + b[|a|..];
    ConcatAppend(a, b[|a|..]);
  }

  /** One record on the wire; the text of the JSON records is left to `json`. */
  function Encode(item: Item, json: Item -> bytes): Record {
    match item
    case Hello(_) => Record(TYPE_HELLO, json(item))
    case Session(_, _) => Record(TYPE_SESSION, json(item))
    case Status => Record(TYPE_STATUS, json(item))
    case Data(payload, _) => Record(TYPE_DATA, payload)
  }

  function EncodeAll(items: seq<Item>, json: Item -> bytes): (r: seq<Record>)
    ensures |r| == |items|
  {
    seq(|items|, k requires 0 <= k < |items| => Encode(items[k], json))
  }

  /** What a client hands to its decoder. */
  function DataPayloads(records: seq<Record>): seq<bytes> {
    if records == [] then []
    else
      var last := records[|records| - 1];
      DataPayloads(records[..|records| - 1]) + (if last.kind == TYPE_DATA then [last.payload] else [])
  }

  lemma {:induction false} PayloadsArrive(items: seq<Item>, json: Item -> bytes)
    ensures DataPayloads(EncodeAll(items, json)) == PayloadsOf(DataItems(items))
    decreases |items|
  {
    if items == [] {
    } else {
      var n := |items| - 1;
      PayloadsArrive(items[..n], json);
      assert EncodeAll(items, json)[..n] == EncodeAll(items[..n], json);
      assert items == items[..n] + [items[n]];
      DataSnoc(items[..n], items[n]);
      assert EncodeAll(items, json)[n] == Encode(items[n], json);
    }
  }

  // ----- what the device was given -----

  function Offered(actions: seq<Action>): bytes
    decreases |actions|
  {
    if actions == [] then []
    else (if actions[0].Write? then actions[0].data else []) + Offered(actions[1..])
  }

  predicate NoReset(actions: seq<Action>) {
    forall i :: 0 <= i < |actions| ==> !actions[i].Reset?
  }

  lemma {:induction false} NoResetCalm(s: System, actions: seq<Action>)
    requires s.box.Valid() && NoReset(actions)
    ensures Calm(s, actions)
    decreases |actions|
  {
    if actions == [] {
    } else {
      assert !actions[0].Reset?;
      NoResetCalm(Next(s, actions[0]), actions[1..]);
    }
  }

  lemma {:induction false} LogIsOffered(s: System, actions: seq<Action>)
    requires s.box.Valid() && NoReset(actions)
    ensures Run(s, actions).box.resets == s.box.resets && Run(s, actions).box.dropped >= s.box.dropped
    ensures Run(s, actions).box.dropped == s.box.dropped ==> Run(s, actions).box.log == s.box.log + Offered(actions)
    decreases |actions|
  {
    if actions != [] {
      var a, r := actions[0], Next(s, actions[0]);
      OneOffered(s, a);
      LogIsOffered(r, actions[1..]);
      AppendAssociates(s.box.log, if a.Write? then a.data else [], Offered(actions[1..]));
    } else {
      assert s.box.log + [] == s.box.log;
    }
  }

  lemma OneOffered(s: System, a: Action)
    requires s.box.Valid() && !a.Reset?
    ensures var r := Next(s, a);
            && r.box.resets == s.box.resets && r.box.dropped >= s.box.dropped
            && (r.box.dropped == s.box.dropped ==> r.box.log == s.box.log + (if a.Write? then a.data else []))
  {
    if a.Write? {
      assert a.data[..|a.data|] == a.data;
    } else {
      assert s.box.log + [] == s.box.log;
    }
  }

  /** The payload bytes a client connected from the start has been sent are a beginning of the device's log. */
  lemma {:induction false} SentIsLog(blockSize: nat, depth: nat, size: nat, build: nat, ftdi: bool,
                                     actions: seq<Action>, id: nat)
    requires Configured(blockSize, depth, size, build)
    requires AllFaultFree(actions) && NoReset(actions)
    requires var s := Run(Started(blockSize, depth, size, build, ftdi), actions);
             id in s.hub.clients && s.hub.clients[id].since == 0
    ensures var s := Run(Started(blockSize, depth, size, build, ftdi), actions);
            var c := s.hub.clients[id];
            && Concat(PayloadsOf(DataItems(c.sent))) <= s.box.log
            && (c.listed && c.queue == [] && s.phase.Idle? ==>
                  Concat(PayloadsOf(DataItems(c.sent))) == s.box.log[..s.box.committed])
  {
    var start := Started(blockSize, depth, size, build, ftdi);
    StartedStreams(blockSize, depth, size, build, ftdi);
    RunStreams(start, actions);
    NoResetCalm(start, actions);
    LogIsOffered(start, actions);
    var s := Run(start, actions);
    var c := s.hub.clients[id];
    NothingLost(blockSize, depth, size, build, ftdi, actions, 0);
    assert Clients.Served(c, s.hub.log, s.hub.depth);
    SentData(c, s.hub.log, s.hub.depth);
    OneSession(s);
    PayloadsConcat(s.published, 0);
    assert PayloadsOf(DataItems(c.sent)) <= PayloadsOf(DataItems(s.hub.log));
    ConcatPrefix(PayloadsOf(DataItems(c.sent)), PayloadsOf(DataItems(s.hub.log)));
  }

  lemma OneSession(s: System)
    requires AllTraced(s) && s.box.resets == 0
    ensures forall k :: 0 <= k < |s.published| ==> s.published[k].from.epoch == 0
  {
    forall k | 0 <= k < |s.published| ensures s.published[k].from.epoch == 0 {
      var p := s.published[k];
      assert Traced(s, p.session, p.start, p.data, p.from);
    }
  }

  lemma SentData(c: Clients.Client, log: seq<Item>, depth: nat)
    requires Clients.Served(c, log, depth) && c.since == 0
    ensures DataItems(c.sent) <= DataItems(log)
    ensures c.listed && c.queue == [] ==> DataItems(c.sent) == DataItems(log)
  {
    assert log[0..] == log;
    var owed := Clients.Owed(c, log);
    HelloCarriesNothing(c.greeting, log);
    DataPrefix(c.sent, owed);
    if c.listed && c.queue == [] {
      assert c.sent + [] == c.sent;
    }
  }

  lemma {:induction false} HelloCarriesNothing(session: nat, log: seq<Item>)
    ensures DataItems([Clients.Hello(session)] + log) == DataItems(log)
    decreases |log|
  {
    var hello := [Clients.Item.Hello(session)];
    if log == [] {
      assert hello + log == [] + hello;
      DataSnoc([], hello[0]);
    } else {
      var n := |log| - 1;
      HelloCarriesNothing(session, log[..n]);
      assert hello + log == (hello + log[..n]) + [log[n]];
      DataSnoc(hello + log[..n], log[n]);
    }
  }

  /** The texts of these records fit the protocol. */
  predicate Short(items: seq<Item>, json: Item -> bytes) {
    forall i :: 0 <= i < |items| && !items[i].Data? ==> |json(items[i])| <= MAX_RECORD
  }

  lemma SentSendable(s: System, c: Clients.Client, json: Item -> bytes)
    requires StreamInv(s) && Clients.Served(c, s.hub.log, s.hub.depth)
    requires Short(c.sent, json)
    ensures forall i :: 0 <= i < |c.sent| ==> EncodeAll(c.sent, json)[i].Sendable()
  {
    forall i | 0 <= i < |c.sent| ensures EncodeAll(c.sent, json)[i].Sendable() {
      if c.sent[i].Data? {
        SentBlock(s, c, i);
        var p := s.published[BlockSent(s, c, i)];
        assert Traced(s, p.session, p.start, p.data, p.from);
      }
    }
  }

  /** The first `k` messages are those that end within the first `n` bytes of the stream. */
  predicate Ended(messages: seq<Message>, k: nat, n: nat)
    requires AllCarried(messages)
  {
    && k <= |messages| && |Stream(messages[..k])| <= n
    && (k < |messages| ==> n < |Stream(messages[..k])| + |FrameBytes(messages[k])|)
  }

  /**
   End to end. Frames are written to the device in any pieces, between any steps of the pump,
   and the last one may be under way; nothing is dropped and no call fails. A client connected
   from the start has received some of the bytes sent to it, in any pieces and cut off anywhere,
   also inside a record. Its decoder then has delivered exactly the first `k` messages, once each
   and in order, with no error counted; and once pump, queue and socket are drained, these are
   all whose last byte was written.
   */
  lemma {:induction false} FramesArrive(blockSize: nat, depth: nat, size: nat, build: nat, ftdi: bool,
                                        actions: seq<Action>, messages: seq<Message>, id: nat,
                                        json: Item -> bytes, received: seq<bytes>)
      returns (records: seq<Record>, k: nat)
    requires Configured(blockSize, depth, size, build) && AllFaultFree(actions) && NoReset(actions)
    requires AllCarried(messages) && Offered(actions) <= Stream(messages)
    requires var s := Run(Started(blockSize, depth, size, build, ftdi), actions);
             && s.box.dropped == 0 && id in s.hub.clients && s.hub.clients[id].since == 0
             && Short(s.hub.clients[id].sent, json)
             && Concat(received) <= WireAll(EncodeAll(s.hub.clients[id].sent, json))
    ensures DecodeChunks([], received).Ok? && DecodeChunks([], received).value.records == records
    ensures k <= |messages|
    ensures FeedAll(Validator, FRESH, DataPayloads(records)).tally
         == Tally(AllDelivered(messages[..k]), 0, 0, k > 0, [])
    ensures var s := Run(Started(blockSize, depth, size, build, ftdi), actions);
            var c := s.hub.clients[id];
            (c.listed && c.queue == [] && s.phase.Idle? && s.box.Unread() == []
             && Concat(received) == WireAll(EncodeAll(c.sent, json))) ==>
              Ended(messages, k, |Offered(actions)|) && (Offered(actions) == Stream(messages) ==> k == |messages|)
  {
    var start := Started(blockSize, depth, size, build, ftdi);
    var s := Run(start, actions);
    var c := s.hub.clients[id];
    StartedStreams(blockSize, depth, size, build, ftdi);
    RunStreams(start, actions);
    assert Clients.Served(c, s.hub.log, s.hub.depth);
    SentSendable(s, c, json);
    var all := EncodeAll(c.sent, json);
    var m := RecordsPrefix(all, received);
    records := all[..m];
    SentIsLog(blockSize, depth, size, build, ftdi, actions, id);
    LogIsOffered(start, actions);
    assert s.box.log == Offered(actions);
    PayloadsReceived(c.sent, json, m);
    var drained := c.listed && c.queue == [] && s.phase.Idle? && s.box.Unread() == [] && Concat(received) == WireAll(all);
    assert drained ==> s.box.log[..s.box.committed] == s.box.log;
    k := PartDelivered(messages, DataPayloads(records), Concat(PayloadsOf(DataItems(c.sent))), Offered(actions), drained);
  }

  /** A decoder given part of what was sent, which is part of what was offered of the stream. */
  lemma PartDelivered(messages: seq<Message>, pieces: seq<bytes>, sent: bytes, offered: bytes, whole: bool)
      returns (k: nat)
    requires AllCarried(messages) && Concat(pieces) <= sent <= offered <= Stream(messages)
    requires whole ==> Concat(pieces) == sent == offered
    ensures k <= |messages| && (whole ==> Ended(messages, k, |offered|))
    ensures whole && offered == Stream(messages) ==> k == |messages|
    ensures FeedAll(Validator, FRESH, pieces).tally == Tally(AllDelivered(messages[..k]), 0, 0, k > 0, [])
  {
    PrefixTrans(Concat(pieces), sent, offered);
    PrefixTrans(Concat(pieces), offered, Stream(messages));
    k := PiecesDelivered(messages, pieces);
    hide Stream, FeedAll, AllDelivered, AllCarried, Concat;
    if whole && offered == Stream(messages) {
      AllEnded(messages, k);
    }
  }

  lemma AllEnded(messages: seq<Message>, k: nat)
    requires AllCarried(messages) && Ended(messages, k, |Stream(messages)|)
    ensures k == |messages|
  {
    if k < |messages| {
      StreamSplit(messages, k);
      assert false;
    }
  }

  lemma PayloadsReceived(items: seq<Item>, json: Item -> bytes, m: nat)
    requires m <= |items|
    ensures Concat(DataPayloads(EncodeAll(items, json)[..m])) <= Concat(PayloadsOf(DataItems(items)))
    ensures m == |items| ==> Concat(DataPayloads(EncodeAll(items, json)[..m])) == Concat(PayloadsOf(DataItems(items)))
  {
    var front := items[..m];
    assert EncodeAll(items, json)[..m] == EncodeAll(front, json);
    PayloadsArrive(front, json);
    DataPrefix(front, items);
    ConcatPrefix(PayloadsOf(DataItems(front)), PayloadsOf(DataItems(items)));
    if m == |items| {
      assert front == items;
    }
  }

  lemma PrefixTrans(a: bytes, b: bytes, c: bytes)
    requires a <= b <= c
    ensures a <= c
  {
  }

  lemma PiecesDelivered(messages: seq<Message>, pieces: seq<bytes>) returns (k: nat)
    requires AllCarried(messages) && Concat(pieces) <= Stream(messages)
    ensures Ended(messages, k, |Concat(pieces)|)
    ensures FeedAll(Validator, FRESH, pieces).tally == Tally(AllDelivered(messages[..k]), 0, 0, k > 0, [])
  {
    var s := Concat(pieces);
    CutIndependent(Validator, FRESH, pieces);
    assert [] + s == s && s == Stream(messages)[..|s|];
    k := PrefixDelivered(Validator, NOTHING, messages, |s|);
    assert [] + AllDelivered(messages[..k]) == AllDelivered(messages[..k]);
  }
}
