/** Bridge and viewer together: no decoded frame mixes bytes of two sessions. */
module ViewerIsolation {
  import opened Bytes
  import opened Wrappers
  import Clients
  import opened Bridge
  import opened BridgeSystem
  import opened BridgeProtocol
  import opened EndToEnd
  import opened SessionTurns
  import opened ViewerSession

  /** The text of the record tells the viewer the session it names. */
  predicate Tells(item: Item, json: Item -> bytes, j: Reader) {
    match item
    case Hello(s) => j.greeting(json(item)) == s
    case Session(_, next) => j.announced(json(item)) == next
    case _ => true
  }

  predicate Truthful(items: seq<Item>, json: Item -> bytes, j: Reader) {
    forall i :: 0 <= i < |items| ==> Tells(items[i], json, j)
  }

  function Plain(t: Tagged): Segment {
    Segment(t.session, PayloadsOf(t.pieces))
  }

  function PlainAll(tagged: seq<Tagged>): (r: seq<Segment>)
    ensures |r| == |tagged|
  {
    seq(|tagged|, k requires 0 <= k < |tagged| => Plain(tagged[k]))
  }

  /** The viewer cuts the encoded stream where the items change session. */
  lemma {:induction false} SplitsAgree(items: seq<Item>, json: Item -> bytes, j: Reader)
    requires Truthful(items, json, j)
    ensures Split(EncodeAll(items, json), j) == PlainAll(SplitItems(items))
    decreases |items|
  {
    if items == [] {
      assert PayloadsOf([]) == [];
    } else {
      var n := |items| - 1;
      SplitsAgree(items[..n], json, j);
      assert EncodeAll(items, json)[..n] == EncodeAll(items[..n], json);
      OneItemSplits(SplitItems(items[..n]), items[n], json, j);
      hide PlainAll, Placed, PlacedRecord, Encode, Tells;
    }
  }

  lemma OneItemSplits(front: seq<Tagged>, item: Item, json: Item -> bytes, j: Reader)
    requires |front| > 0 && Tells(item, json, j)
    ensures PlacedRecord(PlainAll(front), Encode(item, json), j) == PlainAll(Placed(front, item))
  {
    assert PayloadsOf([]) == [];
    if item.Data? {
      var piece, last := (item.payload, item.session), front[|front| - 1];
      assert PayloadsOf(last.pieces + [piece]) == PayloadsOf(last.pieces) + [item.payload];
    }
  }

  /** Every segment of an announced stream belongs to the session it is labelled with. */
  lemma {:induction false} SegmentsPure(items: seq<Item>)
    requires Clients.Announced(items, 0)
    requires items != [] ==> items[0].Hello?
    ensures forall k :: 0 <= k < |SplitItems(items)| ==> SplitItems(items)[k].OneSession()
    ensures var split := SplitItems(items);
            items != [] ==> split[|split| - 1].session == Some(Clients.InForce(items, |items|, 0))
    decreases |items|
  {
    if items == [] {
    } else {
      var n := |items| - 1;
      AnnouncedFront(items);
      SegmentsPure(items[..n]);
    }
  }

  /**
   A viewer that has received some part of what any client was sent, cut in any way by the
   socket, decodes exactly the frames of the segments of that stream, each parsed on its own.
   A segment holds published blocks in order and one session id. In every run, whatever fails
   or is reset; and if every change of the device's session was noticed when its next block was
   published, no segment, and so no frame, has bytes of two sessions.
   */
  lemma {:induction false} NoMixedFrames(blockSize: nat, depth: nat, size: nat, build: nat, ftdi: bool,
                                         actions: seq<Action>, id: nat,
                                         json: Item -> bytes, j: Reader, received: seq<bytes>)
      returns (n: nat, view: View, rest: bytes)
    requires Configured(blockSize, depth, size, build)
    requires id in Run(Started(blockSize, depth, size, build, ftdi), actions).hub.clients
    requires var s := Run(Started(blockSize, depth, size, build, ftdi), actions);
             && Truthful(s.hub.clients[id].sent, json, j) && Short(s.hub.clients[id].sent, json)
             && Concat(received) <= WireAll(EncodeAll(s.hub.clients[id].sent, json))
    ensures ReceiveAll(NEW_VIEW, [], received, j) == Ok((view, rest))
    ensures var s := Run(Started(blockSize, depth, size, build, ftdi), actions);
            var c := s.hub.clients[id];
            && n <= |c.sent| && c.since <= |s.hub.log|
            && (Concat(received) == WireAll(EncodeAll(c.sent, json)) ==> n == |c.sent|)
            && var segments, first := SplitItems(c.sent[..n]), FirstBlock(s, c);
               && view.parser.tally.frames == AllFrames(PlainAll(segments))
               && (forall k :: 0 <= k < |segments| ==> segments[k].OneSession())
               && AllHold(s, segments, first)
               && (AllNoticed(Started(blockSize, depth, size, build, ftdi), actions) ==>
                     AllOneEpoch(s, segments, first))
  {
    var start := Started(blockSize, depth, size, build, ftdi);
    StartedStreams(blockSize, depth, size, build, ftdi);
    RunStreams(start, actions);
    RunUnmixed(start, actions);
    var s := Run(start, actions);
    n, view, rest := StreamSeparate(s, id, json, j, received);
  }

  lemma StreamSeparate(s: System, id: nat, json: Item -> bytes, j: Reader, received: seq<bytes>)
      returns (n: nat, view: View, rest: bytes)
    requires StreamInv(s) && id in s.hub.clients
    requires Truthful(s.hub.clients[id].sent, json, j) && Short(s.hub.clients[id].sent, json)
    requires Concat(received) <= WireAll(EncodeAll(s.hub.clients[id].sent, json))
    ensures ReceiveAll(NEW_VIEW, [], received, j) == Ok((view, rest))
    ensures var c := s.hub.clients[id];
            && n <= |c.sent| && c.since <= |s.hub.log|
            && (Concat(received) == WireAll(EncodeAll(c.sent, json)) ==> n == |c.sent|)
            && var segments, first := SplitItems(c.sent[..n]), FirstBlock(s, c);
               && view.parser.tally.frames == AllFrames(PlainAll(segments))
               && (forall k :: 0 <= k < |segments| ==> segments[k].OneSession())
               && AllHold(s, segments, first)
               && (StreamUnmixed(s) ==> AllOneEpoch(s, segments, first))
  {
    var c := s.hub.clients[id];
    assert Clients.Served(c, s.hub.log, s.hub.depth);
    SentSendable(s, c, json);
    n, view, rest := PartParsed(c.sent, json, j, received);
    SentAnnounced(s, id, n);
    if n == 0 {
      JoinedWithin(s, c);
      NothingSent(s, c.sent[..n], FirstBlock(s, c));
    } else {
      ClientSegments(s, c, n);
    }
  }

  lemma JoinedWithin(s: System, c: Clients.Client)
    requires HubMatches(s) && c.since <= |s.hub.log|
    ensures FirstBlock(s, c) <= |s.published|
  {
    DataPrefix(s.hub.log[..c.since], s.hub.log);
  }

  /** The part of a stream that has arrived, parsed segment by segment. */
  lemma PartParsed(sent: seq<Item>, json: Item -> bytes, j: Reader, received: seq<bytes>)
      returns (n: nat, view: View, rest: bytes)
    requires Truthful(sent, json, j) && Concat(received) <= WireAll(EncodeAll(sent, json))
    requires forall i :: 0 <= i < |sent| ==> EncodeAll(sent, json)[i].Sendable()
    ensures n <= |sent| && (Concat(received) == WireAll(EncodeAll(sent, json)) ==> n == |sent|)
    ensures ReceiveAll(NEW_VIEW, [], received, j) == Ok((view, rest))
    ensures view.parser.tally.frames == AllFrames(PlainAll(SplitItems(sent[..n])))
  {
    var records := EncodeAll(sent, json);
    n := RecordsPrefix(records, received);
    assert records[..n] == EncodeAll(sent[..n], json);
    view, rest := ReceivedPart(records[..n], received, j);
    FramesPerSession(records[..n], j);
    SplitsAgree(sent[..n], json, j);
  }

  lemma SentAnnounced(s: System, id: nat, n: nat)
    requires Clients.HubInv(s.hub) && id in s.hub.clients && n <= |s.hub.clients[id].sent|
    ensures forall k :: 0 <= k < |SplitItems(s.hub.clients[id].sent[..n])| ==>
              SplitItems(s.hub.clients[id].sent[..n])[k].OneSession()
  {
    var c := s.hub.clients[id];
    assert Clients.Served(c, s.hub.log, s.hub.depth);
    Clients.StreamAnnounced(c, s.hub.log, s.hub.depth);
    assert c.sent[0] == Clients.Owed(c, s.hub.log)[0];
    AnnouncedPrefix(c.sent, n);
    SegmentsPure(c.sent[..n]);
  }

  lemma AnnouncedPrefix(items: seq<Item>, n: nat)
    requires n <= |items| && Clients.Announced(items, 0)
    ensures Clients.Announced(items[..n], 0)
  {
    var front := items[..n];
    assert items == front + items[n..];
    forall k | 0 <= k < n && front[k].Data? ensures front[k].session == Clients.InForce(front, k, 0) {
      Clients.InForceAppend(front, items[n..], k, 0);
      assert items[k] == front[k];
    }
  }

  lemma NothingSent(s: System, items: seq<Item>, first: nat)
    requires items == [] && first <= |s.published|
    ensures AllHold(s, SplitItems(items), first) && AllOneEpoch(s, SplitItems(items), first)
  {
    var segments := SplitItems(items);
    assert segments == [Tagged(None, [])] && segments[..0] == [];
  }

  lemma ReceivedPart(records: seq<Record>, received: seq<bytes>, j: Reader) returns (view: View, rest: bytes)
    requires DecodeChunks([], received).Ok? && DecodeChunks([], received).value.records == records
    ensures view == ConsumeAll(NEW_VIEW, records, j)
    ensures ReceiveAll(NEW_VIEW, [], received, j) == Ok((view, rest))
  {
    ReceiveCut(NEW_VIEW, [], received, j);
    ChunksIndependent([], received);
    view, rest := ConsumeAll(NEW_VIEW, records, j), DecodeChunks([], received).value.rest;
  }

  /**
   And only then: a client that was there from the start and has been sent everything shows a
   segment with blocks of two sessions if any change went unnoticed.
   */
  lemma {:induction false} MixedExactly(blockSize: nat, depth: nat, size: nat, build: nat, ftdi: bool,
                                        actions: seq<Action>, id: nat)
    requires Configured(blockSize, depth, size, build)
    requires var s := Run(Started(blockSize, depth, size, build, ftdi), actions);
             && id in s.hub.clients && s.hub.clients[id].since == 0
             && s.hub.clients[id].listed && s.hub.clients[id].queue == []
    ensures var s := Run(Started(blockSize, depth, size, build, ftdi), actions);
            var segments := SplitItems(s.hub.clients[id].sent);
            && AllHold(s, segments, 0)
            && (AllOneEpoch(s, segments, 0) <==> AllNoticed(Started(blockSize, depth, size, build, ftdi), actions))
  {
    var start := Started(blockSize, depth, size, build, ftdi);
    StartedStreams(blockSize, depth, size, build, ftdi);
    RunStreams(start, actions);
    RunUnmixed(start, actions);
    SentEverything(Run(start, actions), id);
  }

  lemma SentEverything(s: System, id: nat)
    requires StreamInv(s) && id in s.hub.clients && s.hub.clients[id].since == 0
    requires s.hub.clients[id].listed && s.hub.clients[id].queue == []
    ensures var segments := SplitItems(s.hub.clients[id].sent);
            AllHold(s, segments, 0) && (AllOneEpoch(s, segments, 0) <==> StreamUnmixed(s))
  {
    var c := s.hub.clients[id];
    assert Clients.Served(c, s.hub.log, s.hub.depth);
    assert c.sent + [] == c.sent && s.hub.log[0..] == s.hub.log;
    ClientSegments(s, c, |c.sent|);
    assert c.sent[..|c.sent|] == c.sent && s.hub.log[..0] == [];
  }

  // ----- there are such texts -----

  /** A text that tells the session: its id in four bytes. */
  function IdText(item: Item): bytes {
    match item
    case Hello(s) => Le(s, 4)
    case Session(_, next) => Le(next, 4)
    case _ => []
  }

  const IDS: Reader := Reader(FromLe, FromLe)

  predicate SmallId(item: Item) {
    match item
    case Hello(s) => s < U32_RANGE
    case Session(_, next) => next < U32_RANGE
    case _ => true
  }

  /** Every session id the bridge has seen or announced is a 32-bit number. */
  ghost predicate IdsSmall(s: System) {
    && s.hub.session < U32_RANGE
    && (forall i :: 0 <= i < |s.hub.log| ==> SmallId(s.hub.log[i]))
    && (forall id :: id in s.hub.clients ==> s.hub.clients[id].greeting < U32_RANGE)
    && match s.phase
       case HaveHeader(h, _) => h.sessionId < U32_RANGE
       case HaveBlock(h, _, _) => h.sessionId < U32_RANGE
       case Ready(h, _, _) => h.sessionId < U32_RANGE
       case _ => true
  }

  lemma PublishSmall(h: Clients.Hub, session: nat, payload: Option<bytes>)
    requires session < U32_RANGE && forall i :: 0 <= i < |h.log| ==> SmallId(h.log[i])
    requires forall id :: id in h.clients ==> h.clients[id].greeting < U32_RANGE
    ensures var r := Clients.Publish(h, session, payload);
            && r.session == session && (forall i :: 0 <= i < |r.log| ==> SmallId(r.log[i]))
            && forall id :: id in r.clients ==> r.clients[id].greeting < U32_RANGE
  {
  }

  lemma NextSmall(s: System, a: Action)
    requires s.box.Valid() && IdsSmall(s)
    ensures IdsSmall(Next(s, a))
  {
    match a
    case PublishResult =>
      if s.phase.Ready? {
        PublishSmall(s.hub, s.phase.header.sessionId, DataOf(s.phase.result));
      }
    case _ =>
  }

  lemma {:induction false} RunSmall(s: System, actions: seq<Action>)
    requires s.box.Valid() && IdsSmall(s)
    ensures IdsSmall(Run(s, actions))
    decreases |actions|
  {
    if actions == [] {
    } else {
      NextSmall(s, actions[0]);
      RunSmall(Next(s, actions[0]), actions[1..]);
    }
  }

  /** In every run some texts tell every client all it needs, in records that fit the protocol. */
  lemma TextsExist(blockSize: nat, depth: nat, size: nat, build: nat, ftdi: bool, actions: seq<Action>, id: nat)
    requires Configured(blockSize, depth, size, build)
    requires id in Run(Started(blockSize, depth, size, build, ftdi), actions).hub.clients
    ensures var c := Run(Started(blockSize, depth, size, build, ftdi), actions).hub.clients[id];
            Truthful(c.sent, IdText, IDS) && Short(c.sent, IdText)
  {
    var start := Started(blockSize, depth, size, build, ftdi);
    StartedStreams(blockSize, depth, size, build, ftdi);
    RunStreams(start, actions);
    RunSmall(start, actions);
    var s := Run(start, actions);
    var c := s.hub.clients[id];
    assert Clients.Served(c, s.hub.log, s.hub.depth);
    forall i | 0 <= i < |c.sent| ensures Tells(c.sent[i], IdText, IDS) && |IdText(c.sent[i])| <= MAX_RECORD {
      assert c.sent[i] == Clients.Owed(c, s.hub.log)[i] && SmallId(c.sent[i]);
      IdTold(c.sent[i]);
    }
  }

  lemma IdTold(item: Item)
    requires SmallId(item)
    ensures Tells(item, IdText, IDS) && |IdText(item)| <= MAX_RECORD
  {
    assert Pow256(4) == U32_RANGE;
    match item
    case Hello(s) => FromLeOfLe(s, 4);
    case Session(_, next) => FromLeOfLe(next, 4);
    case _ =>
  }
}
