/**
 Delivery to the viewer across resets: what it decodes of each session of the device is a
 beginning of what was written in that session.
 */
module SessionFrames {
  import opened Bytes
  import opened Wrappers
  import opened Mailbox
  import opened Backend
  import Clients
  import opened Bridge
  import opened BridgeSystem
  import opened BridgeOrigins
  import opened BridgeSafety
  import opened EndToEnd
  import opened SessionTurns
  import opened FullTurns

  // ----- no session of the device is split -----

  /** Where a DATA record opens a segment it carries the first block of its session. */
  predicate Opens(open: Option<nat>, before: seq<nat>, epoch: nat) {
    open.None? && before != [] ==> before[|before| - 1] != epoch
  }

  predicate Unsplit(log: seq<Item>, epochs: seq<nat>) {
    if log == [] then true
    else
      var n := |log| - 1;
      if !log[n].Data? || epochs == [] then Unsplit(log[..n], epochs)
      else
        var m := |epochs| - 1;
        Unsplit(log[..n], epochs[..m]) && Opens(OpenEpoch(log[..n], epochs[..m]), epochs[..m], epochs[m])
  }

  lemma OtherUnsplit(log: seq<Item>, epochs: seq<nat>, item: Item)
    requires !item.Data?
    ensures Unsplit(log + [item], epochs) == Unsplit(log, epochs)
  {
    assert (log + [item])[..|log|] == log;
  }

  lemma DataUnsplit(log: seq<Item>, epochs: seq<nat>, item: Item, e: nat)
    requires item.Data?
    ensures Unsplit(log + [item], epochs + [e]) <==> Unsplit(log, epochs) && Opens(OpenEpoch(log, epochs), epochs, e)
  {
    assert (log + [item])[..|log|] == log && (epochs + [e])[..|epochs|] == epochs;
  }

  /** The session that the next block to be published can be of, at the earliest. */
  function Now(s: System): nat {
    match s.phase
    case HaveHeader(_, seen) => seen.epoch
    case HaveBlock(_, _, from) => from.epoch
    case Ready(_, _, from) => from.epoch
    case _ => s.box.resets
  }

  ghost predicate Together(s: System) {
    var epochs := EpochsOf(s.published);
    && Unsplit(s.hub.log, epochs) && Now(s) <= s.box.resets
    && (s.phase.Ready? ==> s.phase.header.sessionId == SessionOf(s.phase.from.epoch))
    && (epochs != [] ==> epochs[|epochs| - 1] <= Now(s))
    && (epochs != [] && OpenEpoch(s.hub.log, epochs).None? ==> epochs[|epochs| - 1] < Now(s))
  }

  /** Steps that publish nothing only move on. */
  lemma TogetherMoves(s: System, r: System)
    requires Together(s) && r.hub.log == s.hub.log && r.published == s.published
    requires Now(s) <= Now(r) <= r.box.resets
    requires r.phase.Ready? ==> r.phase.header.sessionId == SessionOf(r.phase.from.epoch)
    ensures Together(r)
  {
  }

  lemma NowMoves(s: System, a: Action)
    requires SystemInv(s) && Together(s) && !a.PublishResult? && !a.ClientStep?
    ensures var r := Next(s, a);
            && Now(s) <= Now(r) <= r.box.resets && r.hub.log == s.hub.log && r.published == s.published
            && (r.phase.Ready? ==> r.phase.header.sessionId == SessionOf(r.phase.from.epoch))
  {
    match a
    case CommitRead(fault) =>
      if s.phase.HaveBlock? {
        CommitMovesOn(s, fault);
        assert InFlight(s, s.phase.header, s.phase.block, s.phase.from, s.backend.Ftdi?);
      }
      hide CommitBlock, SystemInv;
    case ScanBlock(fault) =>
      if s.phase.HaveHeader? {
        ScanMovesOn(s, fault);
      }
      hide ReadBlock, SystemInv;
    case _ => hide SystemInv;
  }

  lemma StatusTogether(s: System, op: Clients.Op)
    requires s.box.Valid() && Together(s)
    ensures Together(Next(s, ClientStep(op)))
  {
    var r := Next(s, ClientStep(op));
    if op.OpStatus? {
      OtherSnoc(s.hub.log, EpochsOf(s.published), Clients.Status);
      OtherUnsplit(s.hub.log, EpochsOf(s.published), Clients.Status);
    }
  }

  /** An announced id is new, and so is the session of the block behind it. */
  lemma AnnouncedIsNew(s: System)
    requires StreamInv(s) && SystemInv(s) && Together(s) && s.phase.Ready?
    requires s.phase.header.sessionId != s.hub.session && s.published != []
    ensures s.published[|s.published| - 1].from.epoch < Now(s)
  {
    var log, epochs := s.hub.log, EpochsOf(s.published);
    if OpenEpoch(log, epochs).Some? {
      forall i | 0 <= i < |s.published| ensures s.published[i].session == SessionOf(s.published[i].from.epoch) {
        var p := s.published[i];
        assert Exact(s, p.session, p.start, p.data, p.from);
      }
      OpenInForce(log, s.published);
    }
  }

  lemma PublishTogether(s: System)
    requires StreamInv(s) && SystemInv(s) && Together(s) && s.phase.Ready?
    ensures Together(Next(s, PublishResult))
  {
    if s.phase.header.sessionId != s.hub.session && s.published != [] {
      AnnouncedIsNew(s);
    }
    assert s.box.Valid();
    hide SystemInv, StreamInv;
    PublishKeepsTogether(s);
  }

  lemma PublishKeepsTogether(s: System)
    requires s.box.Valid() && Together(s) && s.phase.Ready?
    requires s.phase.header.sessionId != s.hub.session && s.published != [] ==>
               s.published[|s.published| - 1].from.epoch < Now(s)
    ensures Together(Next(s, PublishResult))
  {
    var h, session, result := s.hub, s.phase.header.sessionId, s.phase.result;
    var r, log, epochs := Next(s, PublishResult), h.log, EpochsOf(s.published);
    if session != h.session {
      var announcement := Clients.Item.Session(h.session, session);
      OtherSnoc(log, epochs, announcement);
      OtherUnsplit(log, epochs, announcement);
      log := log + [announcement];
    }
    if result.Some? {
      var item := Clients.Data(result.value.data, session);
      DataUnmixed(log, epochs, item, s.phase.from.epoch);
      DataUnsplit(log, epochs, item, s.phase.from.epoch);
      assert EpochsOf(r.published) == epochs + [s.phase.from.epoch] && r.hub.log == log + [item];
    } else {
      assert r.hub.log == log && r.published == s.published;
    }
  }

  lemma NextTogether(s: System, a: Action)
    requires StreamInv(s) && SystemInv(s) && Together(s)
    ensures Together(Next(s, a))
  {
    match a
    case PublishResult =>
      if s.phase.Ready? {
        PublishTogether(s);
      }
    case ClientStep(op) => StatusTogether(s, op);
    case _ =>
      NowMoves(s, a);
      hide SystemInv, StreamInv, Next;
      TogetherMoves(s, Next(s, a));
  }

  lemma {:induction false} RunTogether(s: System, actions: seq<Action>)
    requires StreamInv(s) && SystemInv(s) && Together(s) && Calm(s, actions)
    ensures Together(Run(s, actions)) && SystemInv(Run(s, actions)) && StreamInv(Run(s, actions))
    decreases |actions|
  {
    if actions == [] {
    } else {
      NextTogether(s, actions[0]);
      NextStreams(s, actions[0]);
      NextKeeps(s, actions[0]);
      hide StreamInv, SystemInv, Together, Undisturbed;
      RunTogether(Next(s, actions[0]), actions[1..]);
    }
  }

  // ----- where the segments of a client begin -----

  /** The first block of segment `k` is of another session than the block before it. */
  predicate Begins(segments: seq<Tagged>, epochs: seq<nat>, k: nat)
    requires k < |segments|
  {
    var at := |AllPieces(segments[..k])|;
    at < |epochs| && (at > 0 ==> epochs[at - 1] != epochs[at])
  }

  ghost predicate AllBegin(segments: seq<Tagged>, epochs: seq<nat>) {
    forall k :: 0 <= k < |segments| && segments[k].pieces != [] ==> Begins(segments, epochs, k)
  }

  lemma BeginsStays(a: seq<Tagged>, b: seq<Tagged>, epochs: seq<nat>, more: seq<nat>, k: nat)
    requires k < |a| && k < |b| && a[..k] == b[..k] && Begins(a, epochs, k)
    ensures Begins(b, epochs + more, k)
  {
  }

  lemma BeginGrows(segments: seq<Tagged>, epochs: seq<nat>, piece: (bytes, nat), e: nat)
    requires |segments| > 0 && |epochs| == |AllPieces(segments)| && AllBegin(segments, epochs)
    requires segments[|segments| - 1].pieces == [] && epochs != [] ==> epochs[|epochs| - 1] != e
    ensures var n := |segments| - 1;
            var last := segments[n];
            AllBegin(segments[n := Tagged(last.session, last.pieces + [piece])], epochs + [e])
  {
    var n := |segments| - 1;
    var grown := segments[n := Tagged(segments[n].session, segments[n].pieces + [piece])];
    assert grown[..n] == segments[..n];
    forall k | 0 <= k < |grown| && grown[k].pieces != [] ensures Begins(grown, epochs + [e], k) {
      if segments[k].pieces != [] {
        assert grown[..k] == segments[..k];
        BeginsStays(segments, grown, epochs, [e], k);
      }
    }
  }

  lemma BeginOpens(segments: seq<Tagged>, epochs: seq<nat>, empty: Tagged)
    requires AllBegin(segments, epochs) && empty.pieces == []
    ensures AllBegin(segments + [empty], epochs)
  {
    var longer := segments + [empty];
    forall k | 0 <= k < |longer| && longer[k].pieces != [] ensures Begins(longer, epochs, k) {
      assert longer[..k] == segments[..k] && epochs + [] == epochs;
      BeginsStays(segments, longer, epochs, [], k);
    }
  }

  lemma {:induction false} SegmentsBegin(greeting: nat, part: seq<Item>, epochs: seq<nat>)
    requires |epochs| == |DataItems(part)| && Unsplit(part, epochs) && forall i :: 0 <= i < |part| ==> !part[i].Hello?
    ensures AllBegin(SplitItems([Clients.Hello(greeting)] + part), epochs)
    decreases |part|
  {
    var items := [Clients.Item.Hello(greeting)] + part;
    if part == [] {
      assert items[..0] == [] && SplitItems([]) == [Tagged(None, [])];
      assert SplitItems(items) == Placed(SplitItems([]), items[0]);
    } else {
      var n := |part| - 1;
      var front, item := part[..n], part[n];
      var es := if item.Data? then epochs[..|epochs| - 1] else epochs;
      DataSnoc(front, item);
      assert part == front + [item] && items[..|items| - 1] == [Clients.Item.Hello(greeting)] + front;
      SegmentsBegin(greeting, front, es);
      SplitPure(greeting, [], [], front, es);
      assert [] + front == front && [] + es == es;
      var segments := SplitItems([Clients.Item.Hello(greeting)] + front);
      assert SplitItems(items) == Placed(segments, item);
      OneMore(segments, es, front, item, epochs);
    }
  }

  lemma OneMore(segments: seq<Tagged>, es: seq<nat>, front: seq<Item>, item: Item, epochs: seq<nat>)
    requires AllBegin(segments, es) && Linked(segments, es, front, es, true) && !item.Hello?
    requires if item.Data? then epochs != [] && es == epochs[..|epochs| - 1] else es == epochs
    requires Unsplit(front + [item], epochs)
    ensures AllBegin(Placed(segments, item), epochs)
  {
    match item
    case Data(payload, session) =>
      var e := epochs[|epochs| - 1];
      assert epochs == es + [e];
      DataUnsplit(front, es, item, e);
      hide AllBegin, Unsplit, OpenEpoch;
      BeginGrows(segments, es, (payload, session), e);
    case Session(_, next) => BeginOpens(segments, es, Tagged(Some(next), []));
    case _ =>
  }

  /** A beginning of an unsplit log is unsplit. */
  lemma {:induction false} UnsplitFront(log: seq<Item>, epochs: seq<nat>, k: nat)
    requires |epochs| == |DataItems(log)| && k <= |log| && Unsplit(log, epochs)
    ensures |DataItems(log[..k])| <= |epochs| && Unsplit(log[..k], epochs[..|DataItems(log[..k])|])
    decreases |log|
  {
    if k == |log| {
      assert log[..k] == log && epochs[..|epochs|] == epochs;
    } else {
      var n := |log| - 1;
      var front := if log[n].Data? then epochs[..|epochs| - 1] else epochs;
      UnsplitFront(log[..n], front, k);
      assert log[..n][..k] == log[..k];
      assert front[..|DataItems(log[..k])|] == epochs[..|DataItems(log[..k])|];
    }
  }
}
