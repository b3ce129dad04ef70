/**
 Where the sessions of a client's stream change, and when the device's changes all show there:
 exactly if no block of another session is published while the bridge still has its id.
 */
module SessionTurns {
  import opened Bytes
  import opened Wrappers
  import opened Mailbox
  import Clients
  import opened BridgeSystem
  import opened BridgeOrigins
  import opened EndToEnd

  /** A segment whose payloads remember the session they were read under. */
  datatype Tagged = Tagged(session: Option<nat>, pieces: seq<(bytes, nat)>)
  {
    predicate OneSession() {
      forall k :: 0 <= k < |pieces| ==> session == Some(pieces[k].1)
    }
  }

  function SplitItems(items: seq<Item>): (r: seq<Tagged>)
    ensures |r| > 0
  {
    if items == [] then [Tagged(None, [])] else Placed(SplitItems(items[..|items| - 1]), items[|items| - 1])
  }

  /** Where the next item of a stream goes. */
  function Placed(front: seq<Tagged>, item: Item): (r: seq<Tagged>)
    requires |front| > 0
    ensures |r| > 0
  {
    var last := front[|front| - 1];
    match item
    case Data(payload, session) => front[|front| - 1 := last.(pieces := last.pieces + [(payload, session)])]
    case Hello(s) =>
      if last.session.None? || last.session.value == s then front[|front| - 1 := last.(session := Some(s))]
      else front + [Tagged(Some(s), [])]
    case Session(_, s) => front + [Tagged(Some(s), [])]
    case Status => front
  }

  // ----- which published blocks a segment holds -----

  function AllPieces(segments: seq<Tagged>): seq<(bytes, nat)> {
    if segments == [] then [] else AllPieces(segments[..|segments| - 1]) + segments[|segments| - 1].pieces
  }

  lemma PiecesSnoc(segments: seq<Tagged>, last: Tagged)
    ensures AllPieces(segments + [last]) == AllPieces(segments) + last.pieces
  {
    assert (segments + [last])[..|segments|] == segments;
  }

  lemma LastPieces(segments: seq<Tagged>, session: Option<nat>, more: seq<(bytes, nat)>)
    requires |segments| > 0
    ensures var last := segments[|segments| - 1];
            AllPieces(segments[|segments| - 1 := Tagged(session, last.pieces + more)]) == AllPieces(segments) + more
  {
    var n := |segments| - 1;
    var grown := segments[n := Tagged(session, segments[n].pieces + more)];
    assert grown[..n] == segments[..n];
  }

  /** The segments of a stream hold its DATA records, in order. */
  lemma {:induction false} PiecesAreData(items: seq<Item>)
    ensures AllPieces(SplitItems(items)) == DataItems(items)
    decreases |items|
  {
    if items == [] {
      PiecesSnoc([], Tagged(None, []));
      assert [] + [Tagged(None, [])] == [Tagged(None, [])];
    } else {
      var n := |items| - 1;
      var front := SplitItems(items[..n]);
      PiecesAreData(items[..n]);
      match items[n]
      case Data(payload, session) => LastPieces(front, front[|front| - 1].session, [(payload, session)]);
      case Hello(s) =>
        LastPieces(front, Some(s), []);
        PiecesSnoc(front, Tagged(Some(s), []));
      case Session(_, s) => PiecesSnoc(front, Tagged(Some(s), []));
      case Status =>
    }
  }

  // ----- one session of the device per segment -----

  function EpochsOf(published: seq<Published>): (r: seq<nat>)
    ensures |r| == |published|
  {
    seq(|published|, k requires 0 <= k < |published| => published[k].from.epoch)
  }

  predicate Uniform(epochs: seq<nat>) {
    forall i :: 0 <= i < |epochs| ==> epochs[i] == epochs[0]
  }

  /** Each segment's blocks were read in one session; `epochs` tells the session of each block. */
  predicate Pure(segments: seq<Tagged>, epochs: seq<nat>)
    requires |epochs| == |AllPieces(segments)|
  {
    segments == [] ||
    var n := |epochs| - |segments[|segments| - 1].pieces|;
    Pure(segments[..|segments| - 1], epochs[..n]) && Uniform(epochs[n..])
  }

  /** The session of the block that the next DATA record would follow without a SESSION record in between. */
  function OpenEpoch(log: seq<Item>, epochs: seq<nat>): Option<nat> {
    if log == [] then None
    else
      var n := |log| - 1;
      match log[n]
      case Data(_, _) => if epochs == [] then None else Some(epochs[|epochs| - 1])
      case Session(_, _) => None
      case _ => OpenEpoch(log[..n], epochs)
  }

  /** No DATA record follows one of another session without a SESSION record in between. */
  predicate Unmixed(log: seq<Item>, epochs: seq<nat>) {
    if log == [] then true
    else
      var n := |log| - 1;
      if !log[n].Data? || epochs == [] then Unmixed(log[..n], epochs)
      else
        var m := |epochs| - 1;
        Unmixed(log[..n], epochs[..m]) && Joins(OpenEpoch(log[..n], epochs[..m]), epochs[m])
  }

  predicate Joins(open: Option<nat>, epoch: nat) {
    open.None? || open.value == epoch
  }

  lemma OtherSnoc(log: seq<Item>, epochs: seq<nat>, item: Item)
    requires !item.Data?
    ensures Unmixed(log + [item], epochs) == Unmixed(log, epochs)
    ensures OpenEpoch(log + [item], epochs) == if item.Session? then None else OpenEpoch(log, epochs)
  {
    assert (log + [item])[..|log|] == log;
  }

  lemma DataUnmixed(log: seq<Item>, epochs: seq<nat>, item: Item, e: nat)
    requires item.Data?
    ensures Unmixed(log + [item], epochs + [e]) <==> Unmixed(log, epochs) && Joins(OpenEpoch(log, epochs), e)
    ensures OpenEpoch(log + [item], epochs + [e]) == Some(e)
  {
    assert (log + [item])[..|log|] == log && (epochs + [e])[..|epochs|] == epochs;
  }

  // ----- over runs -----

  /**
   The guard of the branch that announces nothing: a block is about to be published under the
   session id the bridge already has, behind one of another session.
   */
  predicate Unnoticed(s: System, a: Action) {
    && a.PublishResult? && s.phase.Ready? && s.phase.result.Some?
    && s.phase.header.sessionId == s.hub.session
    && !Joins(OpenEpoch(s.hub.log, EpochsOf(s.published)), s.phase.from.epoch)
  }

  predicate AllNoticed(s: System, actions: seq<Action>)
    requires s.box.Valid()
    decreases |actions|
  {
    actions == [] || (!Unnoticed(s, actions[0]) && AllNoticed(Next(s, actions[0]), actions[1..]))
  }

  predicate StreamUnmixed(s: System) {
    Unmixed(s.hub.log, EpochsOf(s.published))
  }

  lemma NextUnmixed(s: System, a: Action)
    requires s.box.Valid()
    ensures StreamUnmixed(Next(s, a)) <==> StreamUnmixed(s) && !Unnoticed(s, a)
  {
    match a
    case PublishResult =>
      if s.phase.Ready? {
        PublishUnmixed(s);
      }
    case ClientStep(op) =>
      if op.OpStatus? {
        OtherSnoc(s.hub.log, EpochsOf(s.published), Clients.Status);
      }
    case _ => assert Next(s, a).hub == s.hub && Next(s, a).published == s.published;
  }

  lemma PublishUnmixed(s: System)
    requires s.box.Valid() && s.phase.Ready?
    ensures StreamUnmixed(Next(s, PublishResult)) <==> StreamUnmixed(s) && !Unnoticed(s, PublishResult)
  {
    var h, session, result := s.hub, s.phase.header.sessionId, s.phase.result;
    var r, log, epochs := Next(s, PublishResult), h.log, EpochsOf(s.published);
    if session != h.session {
      var announcement := Clients.Item.Session(h.session, session);
      OtherSnoc(log, epochs, announcement);
      log := log + [announcement];
    }
    if result.Some? {
      DataUnmixed(log, epochs, Clients.Data(result.value.data, session), s.phase.from.epoch);
      assert EpochsOf(r.published) == epochs + [s.phase.from.epoch];
    }
  }

  lemma {:induction false} RunUnmixed(s: System, actions: seq<Action>)
    requires s.box.Valid()
    ensures StreamUnmixed(Run(s, actions)) <==> StreamUnmixed(s) && AllNoticed(s, actions)
    decreases |actions|
  {
    if actions == [] {
    } else {
      NextUnmixed(s, actions[0]);
      RunUnmixed(Next(s, actions[0]), actions[1..]);
    }
  }

  // ----- from the bridge's log to the segments of one client -----

  /** How the segments of a client agree with the log so far; `first` if it was there from the start. */
  ghost predicate Linked(segments: seq<Tagged>, mine: seq<nat>, log: seq<Item>, epochs: seq<nat>, first: bool) {
    && |segments| > 0 && |AllPieces(segments)| == |mine|
    && (Unmixed(log, epochs) ==> Pure(segments, mine))
    && (segments[|segments| - 1].pieces != [] ==> mine != [] && OpenEpoch(log, epochs) == Some(mine[|mine| - 1]))
    && (first && segments[|segments| - 1].pieces == [] ==> OpenEpoch(log, epochs) == None)
    && (first && Pure(segments, mine) ==> Unmixed(log, epochs))
  }

  lemma LinkedData(segments: seq<Tagged>, mine: seq<nat>, log: seq<Item>, epochs: seq<nat>, first: bool,
                   item: Item, e: nat)
    requires Linked(segments, mine, log, epochs, first) && item.Data?
    ensures Linked(Placed(segments, item), mine + [e], log + [item], epochs + [e], first)
  {
    DataUnmixed(log, epochs, item, e);
    PureGrows(segments, mine, (item.payload, item.session), e);
    hide Pure, Unmixed, OpenEpoch, AllPieces;
  }

  lemma LinkedOther(segments: seq<Tagged>, mine: seq<nat>, log: seq<Item>, epochs: seq<nat>, first: bool, item: Item)
    requires Linked(segments, mine, log, epochs, first) && (item.Status? || item.Session?)
    ensures Linked(Placed(segments, item), mine, log + [item], epochs, first)
  {
    OtherSnoc(log, epochs, item);
    if item.Session? {
      PureOpens(segments, mine, Tagged(Some(item.next), []));
    }
    hide Pure, Unmixed, OpenEpoch, AllPieces;
  }

  /**
   `part` is what was broadcast after `before`. If the log is unmixed, so are the segments of a
   client that joined after `before`; for a client that joined first it is the same.
   */
  lemma {:induction false} SplitPure(greeting: nat, before: seq<Item>, eb: seq<nat>, part: seq<Item>, ep: seq<nat>)
    requires |ep| == |DataItems(part)| && forall i :: 0 <= i < |part| ==> !part[i].Hello?
    ensures Linked(SplitItems([Clients.Hello(greeting)] + part), ep, before + part, eb + ep, before == [])
    decreases |part|
  {
    var items := [Clients.Hello(greeting)] + part;
    if part == [] {
      NothingLinked(greeting, before, eb);
      assert items == [Clients.Hello(greeting)] && ep == [] && eb + ep == eb && before + part == before;
    } else {
      var n := |part| - 1;
      var front, item := part[..n], part[n];
      var es := if item.Data? then ep[..|ep| - 1] else ep;
      assert part == front + [item] && before + part == before + front + [item];
      assert items[..|items| - 1] == [Clients.Hello(greeting)] + front;
      DataSnoc(front, item);
      SplitPure(greeting, before, eb, front, es);
      var segments := SplitItems([Clients.Hello(greeting)] + front);
      assert SplitItems(items) == Placed(segments, item);
      hide Linked, SplitItems, Placed;
      if item.Data? {
        assert eb + ep == eb + es + [ep[|es|]] && ep == es + [ep[|es|]];
        LinkedData(segments, es, before + front, eb + es, before == [], item, ep[|es|]);
      } else {
        LinkedOther(segments, es, before + front, eb + es, before == [], item);
      }
    }
  }

  lemma NothingLinked(greeting: nat, before: seq<Item>, eb: seq<nat>)
    ensures Linked(SplitItems([Clients.Hello(greeting)]), [], before, eb, before == [])
  {
    var one, empty := [Clients.Item.Hello(greeting)], Tagged(Some(greeting), []);
    var segments, none := SplitItems(one), [];
    assert one[..|one| - 1] == [] && SplitItems([]) == [Tagged(None, [])];
    assert segments == [Tagged(None, [])][0 := empty];
    assert segments == none + [empty];
    PureOpens(none, [], empty);
  }

  lemma PureGrows(segments: seq<Tagged>, epochs: seq<nat>, piece: (bytes, nat), e: nat)
    requires |segments| > 0 && |epochs| == |AllPieces(segments)|
    ensures var last := segments[|segments| - 1];
            var grown := segments[|segments| - 1 := Tagged(last.session, last.pieces + [piece])];
            && |AllPieces(grown)| == |epochs| + 1
            && (Pure(grown, epochs + [e])
                <==> Pure(segments, epochs) && (last.pieces != [] ==> e == epochs[|epochs| - 1]))
  {
    var k := |segments| - 1;
    var last := segments[k];
    var grown := segments[k := Tagged(last.session, last.pieces + [piece])];
    LastPieces(segments, last.session, [piece]);
    var n := |epochs| - |last.pieces|;
    assert grown[..k] == segments[..k] && (epochs + [e])[..n] == epochs[..n];
    assert (epochs + [e])[n..] == epochs[n..] + [e];
    UniformSnoc(epochs[n..], e);
  }

  lemma UniformSnoc(epochs: seq<nat>, e: nat)
    ensures Uniform(epochs + [e]) <==> Uniform(epochs) && (epochs != [] ==> e == epochs[|epochs| - 1])
  {
    var more := epochs + [e];
    assert epochs != [] ==> more[0] == epochs[0] && more[|epochs|] == e;
    if Uniform(more) {
      forall i | 0 <= i < |epochs| ensures epochs[i] == epochs[0] {
        assert more[i] == more[0];
      }
      assert epochs != [] ==> more[|epochs|] == more[0] && more[|epochs| - 1] == more[0];
    }
  }

  lemma PureOpens(segments: seq<Tagged>, epochs: seq<nat>, empty: Tagged)
    requires |epochs| == |AllPieces(segments)| && empty.pieces == []
    ensures |AllPieces(segments + [empty])| == |epochs| && Pure(segments + [empty], epochs) == Pure(segments, epochs)
  {
    PiecesSnoc(segments, empty);
    assert (segments + [empty])[..|segments|] == segments && epochs[..|epochs|] == epochs;
  }

  /** A beginning of an unmixed log is unmixed. */
  lemma {:induction false} UnmixedFront(log: seq<Item>, epochs: seq<nat>, k: nat)
    requires |epochs| == |DataItems(log)| && k <= |log| && Unmixed(log, epochs)
    ensures |DataItems(log[..k])| <= |epochs| && Unmixed(log[..k], epochs[..|DataItems(log[..k])|])
    decreases |log|
  {
    if k == |log| {
      assert log[..k] == log && epochs[..|epochs|] == epochs;
    } else {
      var n := |log| - 1;
      var front := if log[n].Data? then epochs[..|epochs| - 1] else epochs;
      UnmixedFront(log[..n], front, k);
      assert log[..n][..k] == log[..k];
      assert front[..|DataItems(log[..k])|] == epochs[..|DataItems(log[..k])|];
    }
  }

  // ----- one client -----

  lemma {:induction false} DataAppend(a: seq<Item>, b: seq<Item>)
    ensures DataItems(a + b) == DataItems(a) + DataItems(b)
    decreases |b|
  {
    if b == [] {
      assert a + b == a;
    } else {
      var n := |b| - 1;
      DataAppend(a, b[..n]);
      assert a + b == a + b[..n] + [b[n]] && b == b[..n] + [b[n]];
      DataSnoc(a + b[..n], b[n]);
      DataSnoc(b[..n], b[n]);
    }
  }

  /** The block that the first DATA record after the client joined carries. */
  function FirstBlock(s: System, c: Clients.Client): nat
    requires c.since <= |s.hub.log|
  {
    |DataItems(s.hub.log[..c.since])|
  }

  /** The block that the first piece of segment `k` is. */
  function BlockAt(segments: seq<Tagged>, k: nat, first: nat): nat
    requires k <= |segments|
  {
    first + |AllPieces(segments[..k])|
  }

  /** The pieces of a segment are published blocks, one after the other, each a segment of its session's log. */
  ghost predicate Holds(s: System, segment: Tagged, at: nat) {
    && at + |segment.pieces| <= |s.published|
    && forall m :: 0 <= m < |segment.pieces| ==> Carries(s, segment.pieces[m], s.published[at + m])
  }

  predicate Carries(s: System, piece: (bytes, nat), p: Published) {
    piece == (p.data, p.session) && Sliced(s, p.data, p.from)
  }

  /** All blocks of a segment were read in one session of the device. */
  ghost predicate OneEpoch(s: System, segment: Tagged, at: nat)
    requires at + |segment.pieces| <= |s.published|
  {
    Uniform(EpochsOf(s.published)[at..at + |segment.pieces|])
  }

  ghost predicate AllHold(s: System, segments: seq<Tagged>, first: nat) {
    forall k :: 0 <= k < |segments| ==> Holds(s, segments[k], BlockAt(segments, k, first))
  }

  ghost predicate AllOneEpoch(s: System, segments: seq<Tagged>, first: nat)
    requires AllHold(s, segments, first)
  {
    forall k :: 0 <= k < |segments| ==> OneEpoch(s, segments[k], BlockAt(segments, k, first))
  }

  lemma {:induction false} PiecesUpTo(segments: seq<Tagged>, k: nat)
    requires k < |segments|
    ensures var at := |AllPieces(segments[..k])|;
            && at + |segments[k].pieces| <= |AllPieces(segments)|
            && AllPieces(segments)[at..at + |segments[k].pieces|] == segments[k].pieces
    decreases |segments|
  {
    var n := |segments| - 1;
    if k >= n {
    } else {
      PiecesUpTo(segments[..n], k);
      assert segments[..n][..k] == segments[..k];
    }
  }

  /** Segment by segment, pure means one session. */
  lemma {:induction false} PureEach(segments: seq<Tagged>, epochs: seq<nat>)
    requires |epochs| == |AllPieces(segments)|
    ensures Pure(segments, epochs) <==> EachUniform(segments, epochs, |segments|)
    decreases |segments|
  {
    if segments == [] {
    } else {
      var n := |segments| - 1;
      var front, m := segments[..n], |epochs| - |segments[n].pieces|;
      PureEach(front, epochs[..m]);
      LastUniform(segments, epochs, m);
      forall k | 0 <= k < n ensures UniformAt(segments, epochs, k) == UniformAt(front, epochs[..m], k) {
        UniformCut(segments, epochs, m, k);
      }
      assert Pure(segments, epochs) == (Pure(front, epochs[..m]) && Uniform(epochs[m..]));
      hide Pure, AllPieces, Uniform, UniformAt;
      assert EachUniform(segments, epochs, n) == EachUniform(front, epochs[..m], n);
      assert EachUniform(segments, epochs, n + 1) == (EachUniform(segments, epochs, n) && UniformAt(segments, epochs, n));
    }
  }

  ghost predicate EachUniform(segments: seq<Tagged>, epochs: seq<nat>, n: nat)
    requires n <= |segments|
  {
    forall k :: 0 <= k < n ==> UniformAt(segments, epochs, k)
  }

  lemma LastUniform(segments: seq<Tagged>, epochs: seq<nat>, m: nat)
    requires |epochs| == |AllPieces(segments)| && segments != []
    requires m == |epochs| - |segments[|segments| - 1].pieces|
    ensures UniformAt(segments, epochs, |segments| - 1) == Uniform(epochs[m..])
  {
    var n := |segments| - 1;
    assert |AllPieces(segments[..n])| == m && epochs[m..m + |segments[n].pieces|] == epochs[m..];
  }

  ghost predicate UniformAt(segments: seq<Tagged>, epochs: seq<nat>, k: nat)
    requires k < |segments|
  {
    var at := |AllPieces(segments[..k])|;
    at + |segments[k].pieces| <= |epochs| && Uniform(epochs[at..at + |segments[k].pieces|])
  }

  lemma UniformCut(segments: seq<Tagged>, epochs: seq<nat>, m: nat, k: nat)
    requires |epochs| == |AllPieces(segments)| && k < |segments| - 1
    requires m == |epochs| - |segments[|segments| - 1].pieces|
    ensures UniformAt(segments, epochs, k) == UniformAt(segments[..|segments| - 1], epochs[..m], k)
  {
    var front := segments[..|segments| - 1];
    PiecesUpTo(front, k);
    assert front[..k] == segments[..k];
    var at := |AllPieces(segments[..k])|;
    assert epochs[..m][at..at + |segments[k].pieces|] == epochs[at..at + |segments[k].pieces|];
  }

  /** What a client has been sent so far, cut where the session changes, against the bridge's log. */
  lemma ClientSegments(s: System, c: Clients.Client, n: nat)
    requires StreamInv(s) && Clients.Served(c, s.hub.log, s.hub.depth) && 1 <= n <= |c.sent|
    ensures var segments, first := SplitItems(c.sent[..n]), FirstBlock(s, c);
            && AllHold(s, segments, first)
            && (StreamUnmixed(s) ==> AllOneEpoch(s, segments, first))
            && (c.since == 0 && n == |s.hub.log| + 1 && AllOneEpoch(s, segments, first) ==> StreamUnmixed(s))
  {
    hide Linked, AllHold, AllOneEpoch, AllPieces, SplitItems, DataItems, FirstBlock, EpochsOf, StreamUnmixed;
    hide Clients.HubInv, OriginInv, HubMatches;
    var segments, first := SplitItems(c.sent[..n]), FirstBlock(s, c);
    hide Clients.Served;
    var count := PartLinked(s, c, n);
    StreamShape(s);
    ClientHolds(s, first, count, segments);
    ClientEpochs(s, segments, first, count, c.since + n - 1, c.since == 0);
  }

  lemma ClientEpochs(s: System, segments: seq<Tagged>, first: nat, count: nat, end: nat, always: bool)
    requires |DataItems(s.hub.log)| == |s.published| && end <= |s.hub.log| && AllHold(s, segments, first)
    requires first + count == |DataItems(s.hub.log[..end])| <= |s.published| && |AllPieces(segments)| == count
    requires Linked(segments, EpochsOf(s.published)[first..first + count], s.hub.log[..end],
                    EpochsOf(s.published)[..first + count], always)
    ensures StreamUnmixed(s) ==> AllOneEpoch(s, segments, first)
    ensures always && end == |s.hub.log| && AllOneEpoch(s, segments, first) ==> StreamUnmixed(s)
  {
    var epochs := EpochsOf(s.published);
    var mine := epochs[first..first + count];
    hide Linked, AllHold, AllOneEpoch, AllPieces, DataItems, EpochsOf, Pure, Unmixed;
    EpochsSplit(s, segments, first, mine);
    UnmixedPart(s.hub.log, epochs, end, segments, mine, always);
  }

  lemma ClientHolds(s: System, first: nat, count: nat, segments: seq<Tagged>)
    requires OriginInv(s) && HubMatches(s) && first + count <= |s.published|
    requires AllPieces(segments) == DataItems(s.hub.log)[first..first + count]
    ensures AllHold(s, segments, first)
  {
    PublishedPart(s, first, count);
    hide AllPieces, DataItems, OriginInv, Carries, AllHold;
    PiecesHeld(s, segments, AllPieces(segments), first);
  }

  lemma UnmixedPart(log: seq<Item>, epochs: seq<nat>, end: nat, segments: seq<Tagged>, mine: seq<nat>, first: bool)
    requires |epochs| == |DataItems(log)| && end <= |log| && |DataItems(log[..end])| <= |epochs|
    requires Linked(segments, mine, log[..end], epochs[..|DataItems(log[..end])|], first)
    ensures |AllPieces(segments)| == |mine| && (Unmixed(log, epochs) ==> Pure(segments, mine))
    ensures first && end == |log| && Pure(segments, mine) ==> Unmixed(log, epochs)
  {
    if Unmixed(log, epochs) {
      UnmixedFront(log, epochs, end);
    }
    if end == |log| {
      assert log[..end] == log && epochs[..|epochs|] == epochs;
    }
  }

  lemma PartLinked(s: System, c: Clients.Client, n: nat) returns (count: nat)
    requires StreamInv(s) && Clients.Served(c, s.hub.log, s.hub.depth) && 1 <= n <= |c.sent|
    ensures c.since + n - 1 <= |s.hub.log| && FirstBlock(s, c) + count <= |s.published|
    ensures FirstBlock(s, c) + count == |DataItems(s.hub.log[..c.since + n - 1])|
    ensures c.since + n - 1 == |s.hub.log| ==> FirstBlock(s, c) + count == |s.published|
    ensures var first, segments := FirstBlock(s, c), SplitItems(c.sent[..n]);
            && AllPieces(segments) == DataItems(s.hub.log)[first..first + count]
            && Linked(segments, EpochsOf(s.published)[first..first + count], s.hub.log[..c.since + n - 1],
                      EpochsOf(s.published)[..first + count], c.since == 0)
  {
    hide StreamInv, HubMatches, Clients.Served, Linked, AllPieces, DataItems, SplitItems, EpochsOf;
    var log, end := s.hub.log, c.since + n - 1;
    SentPart(c, log, s.hub.depth, n);
    StreamShape(s);
    count := |DataItems(log[c.since..end])|;
    SplitLinked(c.greeting, log, EpochsOf(s.published), c.since, end);
  }

  lemma StreamShape(s: System)
    requires StreamInv(s)
    ensures |DataItems(s.hub.log)| == |s.published|
    ensures forall i :: 0 <= i < |s.hub.log| ==> !s.hub.log[i].Hello?
  {
  }

  lemma SplitLinked(greeting: nat, log: seq<Item>, epochs: seq<nat>, a: nat, b: nat)
    requires a <= b <= |log| && |epochs| == |DataItems(log)| && forall i :: 0 <= i < |log| ==> !log[i].Hello?
    ensures var first, count := |DataItems(log[..a])|, |DataItems(log[a..b])|;
            var segments := SplitItems([Clients.Hello(greeting)] + log[a..b]);
            && first + count == |DataItems(log[..b])| <= |epochs| && (b == |log| ==> first + count == |epochs|)
            && AllPieces(segments) == DataItems(log)[first..first + count]
            && Linked(segments, epochs[first..first + count], log[..b], epochs[..first + count], a == 0)
  {
    var before, part := log[..a], log[a..b];
    ThreeParts(log, a, b);
    var first, count := |DataItems(before)|, |DataItems(part)|;
    var mine := epochs[first..first + count];
    hide Linked, Pure, Unmixed, OpenEpoch;
    SplitPure(greeting, before, epochs[..first], part, mine);
    assert log[..b] == before + part && epochs[..first + count] == epochs[..first] + mine;
    PiecesAreData([Clients.Hello(greeting)] + part);
    HelloCarriesNothing(greeting, part);
    if b == |log| {
      assert log[..b] == log;
    }
  }

  lemma ThreeParts(log: seq<Item>, a: nat, b: nat)
    requires a <= b <= |log|
    ensures var first, count := |DataItems(log[..a])|, |DataItems(log[a..b])|;
            && first + count == |DataItems(log[..b])| <= |DataItems(log)|
            && DataItems(log[a..b]) == DataItems(log)[first..first + count]
  {
    assert log[..b] == log[..a] + log[a..b] && log == log[..b] + log[b..];
    DataAppend(log[..a], log[a..b]);
    DataAppend(log[..b], log[b..]);
  }

  lemma SentPart(c: Clients.Client, log: seq<Item>, depth: nat, n: nat)
    requires Clients.Served(c, log, depth) && 1 <= n <= |c.sent|
    ensures c.since + n - 1 <= |log| && c.sent[..n] == [Clients.Hello(c.greeting)] + log[c.since..c.since + n - 1]
  {
    assert c.sent[..n] == Clients.Owed(c, log)[..n];
  }

  lemma PublishedPart(s: System, first: nat, count: nat)
    requires OriginInv(s) && HubMatches(s) && first + count <= |s.published|
    ensures var part := DataItems(s.hub.log)[first..first + count];
            forall m :: 0 <= m < count ==> Carries(s, part[m], s.published[first + m])
  {
    var part := DataItems(s.hub.log)[first..first + count];
    forall m | 0 <= m < count ensures Carries(s, part[m], s.published[first + m]) {
      var p := s.published[first + m];
      assert Traced(s, p.session, p.start, p.data, p.from);
    }
  }

  lemma PiecesHeld(s: System, segments: seq<Tagged>, all: seq<(bytes, nat)>, first: nat)
    requires all == AllPieces(segments) && first + |all| <= |s.published|
    requires forall m :: 0 <= m < |all| ==> Carries(s, all[m], s.published[first + m])
    ensures AllHold(s, segments, first)
  {
    hide Holds, Carries, AllPieces;
    forall k | 0 <= k < |segments| ensures Holds(s, segments[k], BlockAt(segments, k, first)) {
      var at := |AllPieces(segments[..k])|;
      PiecesUpTo(segments, k);
      assert all[at..at + |segments[k].pieces|] == segments[k].pieces;
      PieceHeld(s, all, first, at, segments[k]);
    }
  }

  lemma PieceHeld(s: System, all: seq<(bytes, nat)>, first: nat, at: nat, segment: Tagged)
    requires first + |all| <= |s.published|
    requires forall m :: 0 <= m < |all| ==> Carries(s, all[m], s.published[first + m])
    requires at + |segment.pieces| <= |all| && all[at..at + |segment.pieces|] == segment.pieces
    ensures Holds(s, segment, first + at)
  {
    hide Carries;
    forall m | 0 <= m < |segment.pieces| ensures Carries(s, segment.pieces[m], s.published[first + at + m]) {
      var x := at + m;
      assert Carries(s, all[x], s.published[first + x]);
      assert segment.pieces[m] == all[at..at + |segment.pieces|][m];
    }
  }

  lemma EpochsSplit(s: System, segments: seq<Tagged>, first: nat, mine: seq<nat>)
    requires AllHold(s, segments, first) && |mine| == |AllPieces(segments)| && first + |mine| <= |s.published|
    requires mine == EpochsOf(s.published)[first..first + |mine|]
    ensures AllOneEpoch(s, segments, first) <==> Pure(segments, mine)
  {
    PureEach(segments, mine);
    hide Pure, Uniform, AllPieces, Holds;
    assert EachUniform(segments, mine, |segments|) == forall k :: 0 <= k < |segments| ==> UniformAt(segments, mine, k);
    forall k | 0 <= k < |segments|
      ensures OneEpoch(s, segments[k], BlockAt(segments, k, first)) == UniformAt(segments, mine, k)
    {
      SameUniform(s, segments, first, mine, k);
    }
    hide OneEpoch, UniformAt, BlockAt;
  }

  lemma SameUniform(s: System, segments: seq<Tagged>, first: nat, mine: seq<nat>, k: nat)
    requires k < |segments| && |mine| == |AllPieces(segments)| && first + |mine| <= |s.published|
    requires mine == EpochsOf(s.published)[first..first + |mine|]
    ensures BlockAt(segments, k, first) + |segments[k].pieces| <= |s.published|
    ensures OneEpoch(s, segments[k], BlockAt(segments, k, first)) == UniformAt(segments, mine, k)
  {
    PiecesUpTo(segments, k);
    hide AllPieces, Uniform;
    var at, n := |AllPieces(segments[..k])|, |segments[k].pieces|;
    SubSlice(EpochsOf(s.published), first, |mine|, at, n);
  }

  lemma SubSlice(all: seq<nat>, first: nat, count: nat, at: nat, n: nat)
    requires first + count <= |all| && at + n <= count
    ensures all[first + at..first + at + n] == all[first..first + count][at..at + n]
  {
    var part, out := all[first..first + count], all[first + at..first + at + n];
    forall i | 0 <= i < n ensures out[i] == part[at..at + n][i] {
      assert part[at + i] == all[first + (at + i)];
    }
  }

  lemma AnnouncedFront(log: seq<Item>)
    requires log != [] && Clients.Announced(log, 0)
    ensures var n := |log| - 1;
            && Clients.Announced(log[..n], 0)
            && Clients.InForce(log, n, 0) == Clients.InForce(log[..n], n, 0)
            && (log[n].Data? ==> log[n].session == Clients.InForce(log[..n], n, 0))
  {
    var n := |log| - 1;
    var front := log[..n];
    assert log == front + [log[n]];
    forall k | 0 <= k < n && front[k].Data? ensures front[k].session == Clients.InForce(front, k, 0) {
      Clients.InForceAppend(front, [log[n]], k, 0);
      assert log[k] == front[k];
    }
    Clients.InForceAppend(front, [log[n]], n, 0);
  }
}
