/**
 What the viewer decodes at the end of it all: of each session of the device the messages that
 were written there, once each and in order.
 */
module ViewerDelivery {
  import opened Bytes
  import opened Wrappers
  import opened Mailbox
  import Clients
  import opened BridgeSystem
  import opened BridgeOrigins
  import opened BridgeSafety
  import opened BridgeCommits
  import opened BridgeDelivery
  import opened BridgeProtocol
  import opened DebugFrames
  import opened FrameFeed
  import opened FrameStream
  import opened EndToEnd
  import opened SessionTurns
  import opened FullTurns
  import opened SessionFrames
  import opened ViewerSession
  import opened ViewerIsolation

  // ----- a segment is a beginning of its session's log -----

  /** The payload bytes of the first `m` pieces of a segment. */
  function BytesOf(pieces: seq<(bytes, nat)>, m: nat): bytes
    requires m <= |pieces|
  {
    Concat(PayloadsOf(pieces[..m]))
  }

  lemma BytesNext(pieces: seq<(bytes, nat)>, m: nat)
    requires m < |pieces|
    ensures BytesOf(pieces, m + 1) == BytesOf(pieces, m) + pieces[m].0
  {
    assert PayloadsOf(pieces[..m + 1]) == PayloadsOf(pieces[..m]) + [pieces[m].0];
    ConcatSnoc(PayloadsOf(pieces[..m]), pieces[m].0);
  }

  /** The blocks from `at` on, of one session, of which nothing was published before. */
  ghost predicate FromFirst(s: System, segment: Tagged, at: nat) {
    && segment.pieces != [] && Holds(s, segment, at) && OneEpoch(s, segment, at)
    && (at > 0 ==> s.published[at - 1].from.epoch != s.published[at].from.epoch)
  }

  ghost predicate AllFromFirst(s: System, segments: seq<Tagged>) {
    forall k :: 0 <= k < |segments| && segments[k].pieces != [] ==>
      FromFirst(s, segments[k], BlockAt(segments, k, 0))
  }

  lemma EpochAt(s: System, segment: Tagged, at: nat, m: nat)
    requires at + |segment.pieces| <= |s.published| && OneEpoch(s, segment, at) && m < |segment.pieces|
    ensures s.published[at + m].from.epoch == s.published[at].from.epoch
  {
    var epochs := EpochsOf(s.published)[at..at + |segment.pieces|];
    assert epochs[m] == epochs[0];
  }

  /** Where the first `m` blocks from `at` on end. */
  function EndAfter(published: seq<Published>, at: nat, m: nat): nat
    requires at + m <= |published|
  {
    if m == 0 then 0 else published[at + m - 1].End()
  }

  /** Where piece `m` of such a segment lies in the log. */
  lemma PieceInLog(s: System, segment: Tagged, at: nat, m: nat)
    requires AllTraced(s) && Tiled(s.published) && FromFirst(s, segment, at) && m < |segment.pieces|
    ensures at + m < |s.published|
    ensures var log := LogOf(s, s.published[at].from.epoch);
            var a, b := EndAfter(s.published, at, m), EndAfter(s.published, at, m + 1);
            a <= b <= |log| && segment.pieces[m].0 == log[a..b]
  {
    hide AllTraced, Tiled, OneEpoch, LogOf, Sliced;
    assert Carries(s, segment.pieces[m], s.published[at + m]);
    PublishedAt(s, at + m);
    EpochAt(s, segment, at, m);
    if m > 0 {
      EpochAt(s, segment, at, m - 1);
      assert s.published[at + (m - 1)] == s.published[at + m - 1];
    }
    hide Holds;
  }

  lemma NothingSent(s: System, segment: Tagged, at: nat)
    requires FromFirst(s, segment, at)
    ensures at <= |s.published| && BytesOf(segment.pieces, 0) == [] && EndAfter(s.published, at, 0) == 0
  {
    hide OneEpoch, Carries;
  }

  lemma {:induction false} SegmentIsLog(s: System, segment: Tagged, at: nat, m: nat)
    requires AllTraced(s) && Tiled(s.published) && FromFirst(s, segment, at) && m <= |segment.pieces|
    ensures at + m <= |s.published|
    ensures var log := LogOf(s, s.published[at].from.epoch);
            var end := EndAfter(s.published, at, m);
            end <= |log| && BytesOf(segment.pieces, m) == log[..end]
    decreases m
  {
    hide AllTraced, Tiled, FromFirst, BytesOf, EndAfter, LogOf;
    if m == 0 {
      NothingSent(s, segment, at);
    } else {
      SegmentIsLog(s, segment, at, m - 1);
      PieceInLog(s, segment, at, m - 1);
      BytesNext(segment.pieces, m - 1);
      var log := LogOf(s, s.published[at].from.epoch);
      CutOnce(log, EndAfter(s.published, at, m - 1), EndAfter(s.published, at, m));
    }
  }

  lemma CutOnce(log: bytes, a: nat, b: nat)
    requires a <= b <= |log|
    ensures log[..a] + log[a..b] == log[..b]
  {
  }

  // ----- what the viewer decodes of a segment -----

  /** The session of the device a segment's bytes come from; any, if it has none. */
  function EpochOf(s: System, segment: Tagged, at: nat): nat {
    if segment.pieces != [] && at < |s.published| then s.published[at].from.epoch else 0
  }

  /** Each session's log is a beginning of the frames of the messages written in it. */
  ghost predicate Written(s: System, messages: nat -> seq<Message>) {
    forall e: nat :: AllCarried(messages(e)) && (e <= s.box.resets ==> LogOf(s, e) <= Stream(messages(e)))
  }

  /** The segment is a beginning of its session's log, and its frames are the `count` messages that end in it. */
  ghost predicate Delivers(s: System, segment: Tagged, at: nat, messages: nat -> seq<Message>, count: nat)
    requires Written(s, messages)
  {
    var e, data := EpochOf(s, segment, at), BytesOf(segment.pieces, |segment.pieces|);
    && (segment.pieces != [] ==> e <= s.box.resets) && data <= LogOf(s, e)
    && Ended(messages(e), count, |data|)
    && SegmentFrames(Plain(segment)) == AllDelivered(messages(e)[..count])
  }

  /** A viewer that parses the beginning of a stream of frames delivers the complete ones. */
  lemma PartDecoded(messages: seq<Message>, data: bytes) returns (count: nat)
    requires AllCarried(messages) && data <= Stream(messages)
    ensures Ended(messages, count, |data|)
    ensures Drain(Viewer, Parser(data, NOTHING)).tally.frames == AllDelivered(messages[..count])
  {
    assert data == Stream(messages)[..|data|];
    count := PrefixDelivered(Viewer, NOTHING, messages, |data|);
    assert [] + AllDelivered(messages[..count]) == AllDelivered(messages[..count]);
  }

  lemma NothingDecoded(s: System, segment: Tagged, at: nat, messages: nat -> seq<Message>)
    requires Written(s, messages) && segment.pieces == []
    ensures Delivers(s, segment, at, messages, 0)
  {
    assert PayloadsOf(segment.pieces) == [] && segment.pieces[..0] == [];
    EmptySegment(Plain(segment));
    CarriedNotEmpty(messages(0));
    assert messages(0)[..0] == [];
  }

  lemma CarriedNotEmpty(messages: seq<Message>)
    requires AllCarried(messages)
    ensures messages != [] ==> |FrameBytes(messages[0])| > 0
    ensures Stream([]) == [] && AllDelivered([]) == []
  {
  }

  lemma SegmentDelivers(s: System, segment: Tagged, at: nat, messages: nat -> seq<Message>) returns (count: nat)
    requires AllTraced(s) && Tiled(s.published) && FromFirst(s, segment, at) && Written(s, messages)
    ensures Delivers(s, segment, at, messages, count)
  {
    var n, e := |segment.pieces|, EpochOf(s, segment, at);
    SegmentIsLog(s, segment, at, n);
    assert Carries(s, segment.pieces[0], s.published[at]);
    var data := BytesOf(segment.pieces, n);
    assert e <= s.box.resets && data <= LogOf(s, e) <= Stream(messages(e));
    hide AllTraced, Tiled, FromFirst, LogOf;
    count := PartDecoded(messages(e), data);
    assert segment.pieces[..n] == segment.pieces;
  }

  ghost predicate AllDeliver(s: System, segments: seq<Tagged>, messages: nat -> seq<Message>)
    requires Written(s, messages)
  {
    forall k :: 0 <= k < |segments| ==> IsDelivered(s, segments[k], BlockAt(segments, k, 0), messages)
  }

  ghost predicate IsDelivered(s: System, segment: Tagged, at: nat, messages: nat -> seq<Message>)
    requires Written(s, messages)
  {
    exists count: nat :: Delivers(s, segment, at, messages, count)
  }

  lemma SegmentsDeliver(s: System, segments: seq<Tagged>, messages: nat -> seq<Message>)
    requires AllTraced(s) && Tiled(s.published) && Written(s, messages) && AllFromFirst(s, segments)
    ensures AllDeliver(s, segments, messages)
  {
    hide AllTraced, Tiled, Written, FromFirst, Delivers;
    forall k | 0 <= k < |segments| ensures IsDelivered(s, segments[k], BlockAt(segments, k, 0), messages) {
      var count := OneDelivers(s, segments[k], BlockAt(segments, k, 0), messages);
    }
  }

  lemma OneDelivers(s: System, segment: Tagged, at: nat, messages: nat -> seq<Message>) returns (count: nat)
    requires AllTraced(s) && Tiled(s.published) && Written(s, messages)
    requires segment.pieces != [] ==> FromFirst(s, segment, at)
    ensures Delivers(s, segment, at, messages, count)
  {
    if segment.pieces == [] {
      NothingDecoded(s, segment, at, messages);
      count := 0;
    } else {
      count := SegmentDelivers(s, segment, at, messages);
    }
  }

  // ----- one client -----

  /** Two segments with data are of different sessions, the later one of a later session. */
  ghost predicate Apart(s: System, segments: seq<Tagged>) {
    forall j, k :: 0 <= j < k < |segments| && segments[j].pieces != [] && segments[k].pieces != [] ==>
      EpochOf(s, segments[j], BlockAt(segments, j, 0)) < EpochOf(s, segments[k], BlockAt(segments, k, 0))
  }

  lemma {:induction false} EpochsForward(s: System, i: nat, j: nat)
    requires AllTraced(s) && i <= j < |s.published|
    ensures s.published[i].from.epoch <= s.published[j].from.epoch
  {
    if i < j {
      assert Precedes(s.published[i], s.published[j].from);
    }
  }

  lemma {:induction false} PiecesForward(segments: seq<Tagged>, j: nat, k: nat)
    requires j < k <= |segments|
    ensures |AllPieces(segments[..j])| + |segments[j].pieces| <= |AllPieces(segments[..k])|
    decreases k
  {
    assert segments[..k][..k - 1] == segments[..k - 1];
    if j == k - 1 {
    } else {
      PiecesForward(segments, j, k - 1);
    }
  }

  lemma SegmentsApart(s: System, segments: seq<Tagged>)
    requires AllTraced(s)
    requires AllFromFirst(s, segments)
    ensures Apart(s, segments)
  {
    forall j, k | 0 <= j < k < |segments| && segments[j].pieces != [] && segments[k].pieces != []
      ensures EpochOf(s, segments[j], BlockAt(segments, j, 0)) < EpochOf(s, segments[k], BlockAt(segments, k, 0))
    {
      PiecesForward(segments, j, k);
      hide AllTraced, FromFirst;
      TwoApart(s, segments[j], BlockAt(segments, j, 0), segments[k], BlockAt(segments, k, 0));
    }
  }

  lemma TwoApart(s: System, first: Tagged, a: nat, second: Tagged, b: nat)
    requires AllTraced(s) && FromFirst(s, first, a) && FromFirst(s, second, b) && a + |first.pieces| <= b
    ensures EpochOf(s, first, a) < EpochOf(s, second, b)
  {
    assert Holds(s, second, b) && Holds(s, first, a);
    hide AllTraced, OneEpoch, Carries;
    EpochsForward(s, a, b - 1);
    EpochsForward(s, b - 1, b);
  }

  /** The segments of a client that was there from the start each begin with a session's first block. */
  lemma ClientBegins(s: System, c: Clients.Client, n: nat)
    requires StreamInv(s) && Together(s) && StreamUnmixed(s)
    requires Clients.Served(c, s.hub.log, s.hub.depth) && c.since == 0 && n <= |c.sent|
    ensures var segments := SplitItems(c.sent[..n]);
            AllFromFirst(s, segments)
  {
    var segments := SplitItems(c.sent[..n]);
    if n == 0 {
      assert segments == [Tagged(None, [])];
    } else {
      SentPart(c, s.hub.log, s.hub.depth, n);
      var part := s.hub.log[..n - 1];
      assert s.hub.log[0..n - 1] == part && c.sent[..n] == [Clients.Item.Hello(c.greeting)] + part;
      StreamShape(s);
      UnsplitFront(s.hub.log, EpochsOf(s.published), n - 1);
      var epochs := EpochsOf(s.published)[..|DataItems(part)|];
      SegmentsBegin(c.greeting, part, epochs);
      hide Unsplit, AllBegin;
      ClientSegments(s, c, n);
      assert s.hub.log[..0] == [] && FirstBlock(s, c) == 0;
      hide StreamInv, Together, StreamUnmixed, Clients.Served, SplitItems;
      BeginFromFirst(s, segments, epochs);
    }
  }

  lemma BeginFromFirst(s: System, segments: seq<Tagged>, epochs: seq<nat>)
    requires AllBegin(segments, epochs) && epochs <= EpochsOf(s.published)
    requires AllHold(s, segments, 0) && AllOneEpoch(s, segments, 0)
    ensures AllFromFirst(s, segments)
  {
    forall k | 0 <= k < |segments| && segments[k].pieces != []
      ensures FromFirst(s, segments[k], BlockAt(segments, k, 0))
    {
      var at := BlockAt(segments, k, 0);
      assert Begins(segments, epochs, k) && Holds(s, segments[k], at) && OneEpoch(s, segments[k], at);
      assert epochs[at] == EpochsOf(s.published)[at];
      assert at > 0 ==> epochs[at - 1] == EpochsOf(s.published)[at - 1];
    }
  }

  // ----- all that was published -----

  lemma NextSegment(segments: seq<Tagged>, k: nat) returns (next: nat)
    requires k < |segments| && |AllPieces(segments[..k + 1])| < |AllPieces(segments)|
    ensures k < next < |segments| && segments[next].pieces != []
    ensures |AllPieces(segments[..next])| == |AllPieces(segments[..k + 1])|
    decreases |segments| - k
  {
    AllOfThem(segments);
    next := k + 1;
    if segments[next].pieces == [] {
      assert segments[..next + 1][..next] == segments[..next];
      next := NextSegment(segments, next);
    }
  }

  lemma AllOfThem(segments: seq<Tagged>)
    ensures AllPieces(segments[..|segments|]) == AllPieces(segments)
  {
    assert segments[..|segments|] == segments;
  }

  /** The segment that holds piece `i`. */
  lemma {:induction false} SegmentWith(segments: seq<Tagged>, i: nat) returns (k: nat)
    requires i < |AllPieces(segments)|
    ensures k < |segments|
    ensures |AllPieces(segments[..k])| <= i < |AllPieces(segments[..k])| + |segments[k].pieces|
    decreases |segments|
  {
    var n := |segments| - 1;
    if i < |AllPieces(segments[..n])| {
      k := SegmentWith(segments[..n], i);
      assert segments[..n][..k] == segments[..k];
    } else {
      k := n;
    }
  }

  /** Exactly the blocks from `a` to `b` are of this session. */
  predicate OnlyIn(published: seq<Published>, e: nat, a: nat, b: nat) {
    forall i :: 0 <= i < |published| ==> (published[i].from.epoch == e <==> a <= i < b)
  }

  /** The bytes of the blocks from `a` to `b`. */
  function BlockBytes(published: seq<Published>, a: nat, b: nat): bytes
    requires a <= b <= |published|
  {
    Concat(PayloadsOf(PublishedItems(published[a..b])))
  }

  /** If exactly the blocks from `a` to `b` are of a session, theirs are the bytes published of it. */
  lemma {:induction false} DataOfRange(published: seq<Published>, e: nat, a: nat, b: nat)
    requires a <= b <= |published| && OnlyIn(published, e, a, b)
    ensures DataOfEpoch(published, e) == BlockBytes(published, a, b)
    decreases |published|
  {
    if published == [] {
      assert published[a..b] == [] && PayloadsOf(PublishedItems([])) == [];
    } else {
      var n := |published| - 1;
      if b <= n {
        DataOfRange(published[..n], e, a, b);
        assert published[..n][a..b] == published[a..b];
      } else if a == b {
        DataOfRange(published[..n], e, n, n);
        assert published[..n][n..n] == published[a..b];
      } else {
        DataOfRange(published[..n], e, a, n);
        hide OnlyIn, Concat;
        assert published[a..b] == published[..n][a..n] + [published[n]];
        MoreBytes(published[..n][a..n], published[n]);
      }
    }
  }

  lemma MoreBytes(part: seq<Published>, p: Published)
    ensures Concat(PayloadsOf(PublishedItems(part + [p]))) == Concat(PayloadsOf(PublishedItems(part))) + p.data
  {
    assert PayloadsOf(PublishedItems(part + [p])) == PayloadsOf(PublishedItems(part)) + [p.data];
    ConcatSnoc(PayloadsOf(PublishedItems(part)), p.data);
  }

  /** Each segment with data holds all that was published of its session, and each session with data has one. */
  ghost predicate Complete(s: System, segments: seq<Tagged>) {
    && (forall k :: 0 <= k < |segments| && segments[k].pieces != [] ==>
          HoldsAll(s, segments[k], BlockAt(segments, k, 0)))
    && (forall i :: 0 <= i < |s.published| ==> Shows(s, segments, s.published[i].from.epoch))
  }

  predicate HoldsAll(s: System, segment: Tagged, at: nat) {
    BytesOf(segment.pieces, |segment.pieces|) == DataOfEpoch(s.published, EpochOf(s, segment, at))
  }

  ghost predicate Shows(s: System, segments: seq<Tagged>, epoch: nat) {
    exists k :: 0 <= k < |segments| && segments[k].pieces != []
                && EpochOf(s, segments[k], BlockAt(segments, k, 0)) == epoch
  }

  /** The block behind a segment is of another session. */
  lemma OtherBehind(s: System, segments: seq<Tagged>, k: nat)
    requires AllFromFirst(s, segments) && |AllPieces(segments)| == |s.published|
    requires k < |segments| && segments[k].pieces != []
    ensures var at := BlockAt(segments, k, 0);
            var end := at + |segments[k].pieces|;
            && FromFirst(s, segments[k], at) && end <= |s.published|
            && (end < |s.published| ==> s.published[end - 1].from.epoch != s.published[end].from.epoch)
  {
    hide AllPieces, FromFirst;
    var at := BlockAt(segments, k, 0);
    var end := at + |segments[k].pieces|;
    EndOf(segments, k);
    if end < |s.published| {
      var next := NextSegment(segments, k);
      BehindIsFirst(s, segments[next], end);
    }
  }

  lemma EndOf(segments: seq<Tagged>, k: nat)
    requires k < |segments|
    ensures |AllPieces(segments[..k + 1])| == BlockAt(segments, k, 0) + |segments[k].pieces| <= |AllPieces(segments)|
  {
    assert segments[..k + 1][..k] == segments[..k];
    PiecesUpTo(segments, k);
  }

  lemma BehindIsFirst(s: System, segment: Tagged, at: nat)
    requires FromFirst(s, segment, at)
    ensures at < |s.published| && (at > 0 ==> s.published[at - 1].from.epoch != s.published[at].from.epoch)
  {
  }

  lemma SegmentComplete(s: System, segments: seq<Tagged>, k: nat)
    requires AllTraced(s) && AllFromFirst(s, segments) && |AllPieces(segments)| == |s.published|
    requires k < |segments| && segments[k].pieces != []
    ensures HoldsAll(s, segments[k], BlockAt(segments, k, 0))
  {
    hide AllFromFirst, AllPieces, AllTraced, FromFirst;
    OtherBehind(s, segments, k);
    BlocksComplete(s, segments[k], BlockAt(segments, k, 0));
  }

  lemma BlocksComplete(s: System, segment: Tagged, at: nat)
    requires AllTraced(s) && FromFirst(s, segment, at) && at + |segment.pieces| <= |s.published|
    requires var end := at + |segment.pieces|;
             end < |s.published| && end > 0 ==> s.published[end - 1].from.epoch != s.published[end].from.epoch
    ensures HoldsAll(s, segment, at)
  {
    assert segment.pieces != [] && Holds(s, segment, at);
    hide AllTraced, FromFirst, Holds, BytesOf, DataOfEpoch, BlockBytes;
    SessionData(s, segment, at);
    SamePayloads(s, segment, at);
  }

  lemma SessionData(s: System, segment: Tagged, at: nat)
    requires AllTraced(s) && FromFirst(s, segment, at) && at + |segment.pieces| <= |s.published|
    requires var end := at + |segment.pieces|;
             end < |s.published| && end > 0 ==> s.published[end - 1].from.epoch != s.published[end].from.epoch
    ensures at < |s.published|
    ensures DataOfEpoch(s.published, s.published[at].from.epoch) == BlockBytes(s.published, at, at + |segment.pieces|)
  {
    hide AllTraced, FromFirst, DataOfEpoch, BlockBytes, OnlyIn;
    SessionBlocks(s, segment, at);
    DataOfRange(s.published, s.published[at].from.epoch, at, at + |segment.pieces|);
  }

  lemma SessionBlocks(s: System, segment: Tagged, at: nat)
    requires AllTraced(s) && FromFirst(s, segment, at) && at + |segment.pieces| <= |s.published|
    requires var end := at + |segment.pieces|;
             end < |s.published| && end > 0 ==> s.published[end - 1].from.epoch != s.published[end].from.epoch
    ensures at < |s.published| && OnlyIn(s.published, s.published[at].from.epoch, at, at + |segment.pieces|)
  {
    assert segment.pieces != [];
    hide AllTraced, FromFirst;
    forall i | 0 <= i < |s.published|
      ensures s.published[i].from.epoch == s.published[at].from.epoch <==> at <= i < at + |segment.pieces|
    {
      OnlyThese(s, segment, at, i);
    }
  }

  lemma OnlyThese(s: System, segment: Tagged, at: nat, i: nat)
    requires AllTraced(s) && FromFirst(s, segment, at) && i < |s.published| && at + |segment.pieces| <= |s.published|
    requires var end := at + |segment.pieces|;
             end < |s.published| && end > 0 ==> s.published[end - 1].from.epoch != s.published[end].from.epoch
    ensures s.published[i].from.epoch == s.published[at].from.epoch <==> at <= i < at + |segment.pieces|
  {
    hide AllTraced, Holds, OneEpoch;
    var end := at + |segment.pieces|;
    if i < at {
      EpochsForward(s, i, at - 1);
      EpochsForward(s, at - 1, at);
    } else if i < end {
      EpochAt(s, segment, at, i - at);
      assert s.published[at + (i - at)] == s.published[i];
    } else {
      EpochAt(s, segment, at, |segment.pieces| - 1);
      assert s.published[at + (|segment.pieces| - 1)] == s.published[end - 1];
      EpochsForward(s, end - 1, end);
      EpochsForward(s, end, i);
    }
  }

  lemma SamePayloads(s: System, segment: Tagged, at: nat)
    requires Holds(s, segment, at)
    ensures var end := at + |segment.pieces|;
            BytesOf(segment.pieces, |segment.pieces|) == BlockBytes(s.published, at, end)
  {
    var n := |segment.pieces|;
    var part := PublishedItems(s.published[at..at + n]);
    forall m | 0 <= m < n ensures PayloadsOf(segment.pieces)[m] == PayloadsOf(part)[m] {
      assert Carries(s, segment.pieces[m], s.published[at + m]);
    }
    assert PayloadsOf(segment.pieces) == PayloadsOf(part) && segment.pieces[..n] == segment.pieces;
  }

  /** The session of each published block has a segment. */
  lemma SessionShown(s: System, segments: seq<Tagged>, i: nat)
    requires AllFromFirst(s, segments) && |AllPieces(segments)| == |s.published| && i < |s.published|
    ensures Shows(s, segments, s.published[i].from.epoch)
  {
    var k := SegmentWith(segments, i);
    var at := BlockAt(segments, k, 0);
    assert FromFirst(s, segments[k], at) && Holds(s, segments[k], at);
    hide AllFromFirst, AllPieces, OneEpoch, Holds;
    EpochAt(s, segments[k], at, i - at);
    assert s.published[at + (i - at)] == s.published[i];
  }

  lemma AllComplete(s: System, segments: seq<Tagged>)
    requires AllTraced(s) && AllFromFirst(s, segments) && |AllPieces(segments)| == |s.published|
    ensures Complete(s, segments)
  {
    hide AllTraced, AllFromFirst, AllPieces, HoldsAll, Shows;
    forall k | 0 <= k < |segments| && segments[k].pieces != []
      ensures HoldsAll(s, segments[k], BlockAt(segments, k, 0))
    {
      SegmentComplete(s, segments, k);
    }
    forall i | 0 <= i < |s.published| ensures Shows(s, segments, s.published[i].from.epoch) {
      SessionShown(s, segments, i);
    }
  }

  // ----- over whole runs -----

  /** What every undisturbed run without a failing call keeps. */
  ghost predicate Flows(s: System) {
    StreamInv(s) && Together(s) && Tiled(s.published)
  }

  lemma RunFlows(blockSize: nat, depth: nat, size: nat, build: nat, ftdi: bool, actions: seq<Action>)
    requires Configured(blockSize, depth, size, build)
    requires AllFaultFree(actions) && Calm(Started(blockSize, depth, size, build, ftdi), actions)
    ensures Flows(Run(Started(blockSize, depth, size, build, ftdi), actions))
  {
    var start := Started(blockSize, depth, size, build, ftdi);
    StartedStreams(blockSize, depth, size, build, ftdi);
    StartedInv(blockSize, depth, size, build, ftdi);
    StartedRemembered(blockSize, depth, size, build, ftdi);
    RunTogether(start, actions);
    RunNoGap(start, actions);
  }

  /**
   Frames across resets. Calls succeed, the device is reset at no bad moment and less than a turn
   of the ids between two blocks; in each of its sessions frames are written, perhaps cut short by
   the reset, and the mailbox has room for them. A viewer connected from the start that has
   received any part of its stream, cut in any way, has decoded segment by segment: of each
   session exactly the messages that end in what has arrived of it, once each and in order, no
   session twice, and the sessions in their order. If it has received everything sent to it and
   nothing waits, what has arrived of each session is all that was published of it.
   */
  lemma {:induction false} SessionFramesArrive(blockSize: nat, depth: nat, size: nat, build: nat, ftdi: bool,
                                               actions: seq<Action>, messages: nat -> seq<Message>, id: nat,
                                               json: Item -> bytes, j: Reader, received: seq<bytes>)
      returns (n: nat, view: View, rest: bytes)
    requires Configured(blockSize, depth, size, build)
    requires AllFaultFree(actions) && Calm(Started(blockSize, depth, size, build, ftdi), actions)
    requires var s := Run(Started(blockSize, depth, size, build, ftdi), actions);
             && id in s.hub.clients && s.hub.clients[id].since == 0
             && Truthful(s.hub.clients[id].sent, json, j) && Short(s.hub.clients[id].sent, json)
             && Concat(received) <= WireAll(EncodeAll(s.hub.clients[id].sent, json))
             && Written(s, messages) && InWindow(s.published)
    ensures ReceiveAll(NEW_VIEW, [], received, j) == Ok((view, rest))
    ensures var s := Run(Started(blockSize, depth, size, build, ftdi), actions);
            var c := s.hub.clients[id];
            && n <= |c.sent| && (Concat(received) == WireAll(EncodeAll(c.sent, json)) ==> n == |c.sent|)
            && var segments := SplitItems(c.sent[..n]);
               && view.parser.tally.frames == AllFrames(PlainAll(segments))
               && AllDeliver(s, segments, messages) && Apart(s, segments)
               && (n == |c.sent| && c.listed && c.queue == [] ==> Complete(s, segments))
  {
    var start := Started(blockSize, depth, size, build, ftdi);
    RunFlows(blockSize, depth, size, build, ftdi, actions);
    NoticedInWindow(blockSize, depth, size, build, ftdi, actions);
    RunUnmixed(start, actions);
    assert StreamUnmixed(start);
    n, view, rest := NoMixedFrames(blockSize, depth, size, build, ftdi, actions, id, json, j, received);
    hide Run, Started, AllNoticed;
    ClientDelivered(Run(start, actions), id, n, messages);
  }

  /** No two neighbouring blocks are a turn of the session ids apart. */
  predicate InWindow(published: seq<Published>) {
    forall i :: 0 < i < |published| ==> published[i].from.epoch < published[i - 1].from.epoch + SESSION_PERIOD
  }

  lemma ClientDelivered(s: System, id: nat, n: nat, messages: nat -> seq<Message>)
    requires Flows(s) && StreamUnmixed(s) && Written(s, messages)
    requires id in s.hub.clients && s.hub.clients[id].since == 0 && n <= |s.hub.clients[id].sent|
    ensures var segments := SplitItems(s.hub.clients[id].sent[..n]);
            var c := s.hub.clients[id];
            && AllDeliver(s, segments, messages) && Apart(s, segments)
            && (n == |c.sent| && c.listed && c.queue == [] ==> Complete(s, segments))
  {
    var c := s.hub.clients[id];
    var segments := SplitItems(c.sent[..n]);
    assert Clients.Served(c, s.hub.log, s.hub.depth);
    ClientBegins(s, c, n);
    if n == |c.sent| && c.listed && c.queue == [] {
      AllPiecesSent(s, c);
      assert c.sent[..n] == c.sent;
    }
    hide Together, StreamUnmixed, HubMatches, AllTraced, AllFromFirst, Tiled, Complete, SplitItems;
    SegmentsDeliver(s, segments, messages);
    SegmentsApart(s, segments);
    if n == |c.sent| && c.listed && c.queue == [] {
      AllComplete(s, segments);
    }
  }

  lemma AllPiecesSent(s: System, c: Clients.Client)
    requires StreamInv(s) && Clients.Served(c, s.hub.log, s.hub.depth) && c.since == 0 && c.listed && c.queue == []
    ensures |AllPieces(SplitItems(c.sent))| == |s.published|
  {
    assert c.sent + [] == c.sent && s.hub.log[0..] == s.hub.log;
    PiecesAreData(c.sent);
    HelloCarriesNothing(c.greeting, s.hub.log);
  }

  // ----- without a reset -----

  predicate OneWithData(segments: seq<Tagged>) {
    forall j, k :: 0 <= j < k < |segments| ==> segments[j].pieces == [] || segments[k].pieces == []
  }

  lemma {:induction false} NoPieces(segments: seq<Tagged>)
    requires forall k :: 0 <= k < |segments| ==> segments[k].pieces == []
    ensures AllPieces(segments) == []
    decreases |segments|
  {
    if segments == [] {
    } else {
      NoPieces(segments[..|segments| - 1]);
    }
  }

  /** If only one segment has data, its frames are all there are. */
  lemma {:induction false} OneSegmentFrames(segments: seq<Tagged>)
    requires OneWithData(segments)
    ensures AllFrames(PlainAll(segments)) == DataFrames(AllPieces(segments))
    decreases |segments|
  {
    if segments == [] {
      NoDataFrames();
    } else {
      hide AllFrames, PlainAll, DataFrames, AllPieces;
      var n := |segments| - 1;
      OneSegmentFrames(segments[..n]);
      assert segments == segments[..n] + [segments[n]];
      LastSegmentFrames(segments[..n], segments[n]);
    }
  }

  /** What the viewer decodes of these pieces in one go. */
  ghost function DataFrames(pieces: seq<(bytes, nat)>): seq<Frame> {
    SegmentFrames(Segment(None, PayloadsOf(pieces)))
  }

  lemma NoDataFrames()
    ensures DataFrames([]) == []
  {
    assert PayloadsOf([]) == [];
    EmptySegment(Segment(None, []));
  }

  lemma LastSegmentFrames(front: seq<Tagged>, last: Tagged)
    requires OneWithData(front + [last]) && AllFrames(PlainAll(front)) == DataFrames(AllPieces(front))
    ensures AllFrames(PlainAll(front + [last])) == DataFrames(AllPieces(front + [last]))
  {
    hide OneWithData, AllFrames, SegmentFrames, DataFrames, AllPieces;
    assert PlainAll(front + [last]) == PlainAll(front) + [Plain(last)];
    AllFramesSnoc(PlainAll(front), Plain(last));
    PiecesSnoc(front, last);
    NoDataFrames();
    assert SegmentFrames(Plain(last)) == DataFrames(last.pieces) by { PlainFrames(last); }
    if last.pieces == [] {
      assert AllPieces(front) + [] == AllPieces(front);
    } else {
      OnlyTheLast(front, last);
      assert [] + last.pieces == last.pieces;
    }
  }

  lemma PlainFrames(segment: Tagged)
    ensures SegmentFrames(Plain(segment)) == DataFrames(segment.pieces)
  {
  }

  lemma OnlyTheLast(front: seq<Tagged>, last: Tagged)
    requires OneWithData(front + [last]) && last.pieces != []
    ensures AllPieces(front) == []
  {
    var segments := front + [last];
    assert segments[|front|].pieces != [];
    forall k | 0 <= k < |front| ensures front[k].pieces == [] {
      assert segments[k] == front[k];
    }
    NoPieces(front);
  }

  lemma WrittenOnce(s: System, messages: seq<Message>)
    requires s.box.resets == 0 && AllTraced(s) && AllCarried(messages) && s.box.log <= Stream(messages)
    ensures Written(s, _ => messages) && InWindow(s.published)
  {
    EndToEnd.OneSession(s);
  }

  lemma ApartIsOne(s: System, segments: seq<Tagged>)
    requires Apart(s, segments) && forall i :: 0 <= i < |s.published| ==> s.published[i].from.epoch == 0
    ensures OneWithData(segments)
  {
    forall segment: Tagged, at: nat ensures EpochOf(s, segment, at) == 0 {
    }
  }

  /** The payload bytes in a beginning of a stream are a beginning of those in the stream. */
  lemma SentBytes(sent: seq<Item>, n: nat)
    requires n <= |sent|
    ensures Concat(PayloadsOf(DataItems(sent[..n]))) <= Concat(PayloadsOf(DataItems(sent)))
    ensures n == |sent| ==> sent[..n] == sent
  {
    DataPrefix(sent[..n], sent);
    ConcatPrefix(PayloadsOf(DataItems(sent[..n])), PayloadsOf(DataItems(sent)));
  }

  /**
   The viewer's end of the line without a reset: what the validator's decoder delivers the viewer
   delivers, from whatever part of the stream has arrived; and once everything has, all messages
   whose last byte was written.
   */
  lemma {:induction false} ViewerFramesArrive(blockSize: nat, depth: nat, size: nat, build: nat, ftdi: bool,
                                              actions: seq<Action>, messages: seq<Message>, id: nat,
                                              json: Item -> bytes, j: Reader, received: seq<bytes>)
      returns (view: View, rest: bytes, k: nat)
    requires Configured(blockSize, depth, size, build) && AllFaultFree(actions) && NoReset(actions)
    requires AllCarried(messages) && Offered(actions) <= Stream(messages)
    requires var s := Run(Started(blockSize, depth, size, build, ftdi), actions);
             && s.box.dropped == 0 && id in s.hub.clients && s.hub.clients[id].since == 0
             && Truthful(s.hub.clients[id].sent, json, j) && Short(s.hub.clients[id].sent, json)
             && Concat(received) <= WireAll(EncodeAll(s.hub.clients[id].sent, json))
    ensures ReceiveAll(NEW_VIEW, [], received, j) == Ok((view, rest))
    ensures k <= |messages| && view.parser.tally.frames == AllDelivered(messages[..k])
    ensures var s := Run(Started(blockSize, depth, size, build, ftdi), actions);
            var c := s.hub.clients[id];
            (c.listed && c.queue == [] && s.phase.Idle? && s.box.Unread() == []
             && Concat(received) == WireAll(EncodeAll(c.sent, json))) ==>
              Ended(messages, k, |Offered(actions)|) && (Offered(actions) == Stream(messages) ==> k == |messages|)
  {
    var s := QuietRun(blockSize, depth, size, build, ftdi, actions, messages, id);
    var n, seen, left := SessionFramesArrive(blockSize, depth, size, build, ftdi, actions, _ => messages, id,
                                             json, j, received);
    view, rest := seen, left;
    hide Run, Started, Written, AllDeliver, Apart, Complete, Calm;
    k := OneDelivered(s, s.hub.clients[id], n, messages, Offered(actions));
  }

  /** What is to be known of a run with one session. */
  lemma {:induction false} QuietRun(blockSize: nat, depth: nat, size: nat, build: nat, ftdi: bool,
                                    actions: seq<Action>, messages: seq<Message>, id: nat) returns (s: System)
    requires Configured(blockSize, depth, size, build) && AllFaultFree(actions) && NoReset(actions)
    requires AllCarried(messages) && Offered(actions) <= Stream(messages)
    requires var r := Run(Started(blockSize, depth, size, build, ftdi), actions);
             r.box.dropped == 0 && id in r.hub.clients && r.hub.clients[id].since == 0
    ensures s == Run(Started(blockSize, depth, size, build, ftdi), actions)
    ensures Calm(Started(blockSize, depth, size, build, ftdi), actions)
    ensures Written(s, _ => messages) && InWindow(s.published)
    ensures forall i :: 0 <= i < |s.published| ==> s.published[i].from.epoch == 0
    ensures var c, bytes := s.hub.clients[id], Concat(PayloadsOf(DataItems(s.hub.clients[id].sent)));
            && bytes <= Offered(actions)
            && (c.listed && c.queue == [] && s.phase.Idle? && s.box.Unread() == [] ==> bytes == Offered(actions))
  {
    var start := Started(blockSize, depth, size, build, ftdi);
    s := Run(start, actions);
    assert start.box.log == [];
    hide Run, Started, Calm;
    NoResetCalm(start, actions);
    RunFlows(blockSize, depth, size, build, ftdi, actions);
    LogIsOffered(start, actions);
    assert s.box.log == Offered(actions);
    SentIsLog(blockSize, depth, size, build, ftdi, actions, id);
    assert s.box.Unread() == [] ==> s.box.log[..s.box.committed] == s.box.log;
    WrittenOnce(s, messages);
    EndToEnd.OneSession(s);
  }

  lemma OneDelivered(s: System, c: Clients.Client, n: nat, messages: seq<Message>, offered: bytes) returns (k: nat)
    requires n <= |c.sent| && AllCarried(messages)
    requires Concat(PayloadsOf(DataItems(c.sent))) <= offered <= Stream(messages)
    requires Apart(s, SplitItems(c.sent[..n])) && forall i :: 0 <= i < |s.published| ==> s.published[i].from.epoch == 0
    ensures k <= |messages| && AllFrames(PlainAll(SplitItems(c.sent[..n]))) == AllDelivered(messages[..k])
    ensures n == |c.sent| && Concat(PayloadsOf(DataItems(c.sent))) == offered ==>
              Ended(messages, k, |offered|) && (offered == Stream(messages) ==> k == |messages|)
  {
    var segments, sent := SplitItems(c.sent[..n]), Concat(PayloadsOf(DataItems(c.sent)));
    var data := Concat(PayloadsOf(DataItems(c.sent[..n])));
    ApartIsOne(s, segments);
    OneSegmentFrames(segments);
    assert DataFrames(AllPieces(segments))
        == Drain(Viewer, Parser(Concat(PayloadsOf(AllPieces(segments))), NOTHING)).tally.frames;
    PiecesAreData(c.sent[..n]);
    SentBytes(c.sent, n);
    PrefixTrans(data, sent, offered);
    PrefixTrans(data, offered, Stream(messages));
    k := PartDecoded(messages, data);
    if n == |c.sent| && sent == Stream(messages) {
      AllEnded(messages, k);
    }
  }
}
