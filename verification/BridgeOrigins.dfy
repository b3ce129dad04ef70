/**
 What holds of every published block in every run, with no assumption on when the device is
 reset: where its bytes come from, in which order, and which place its labels name.
 */
module BridgeOrigins {
  import opened Bytes
  import opened Wrappers
  import opened Mailbox
  import opened Backend
  import opened Bridge
  import opened BridgeSystem
  import opened BridgeSafety

  /** The bytes of a block are the log of the session they were read in, from where they were read. */
  predicate Sliced(s: System, data: bytes, from: Origin) {
    && from.epoch <= s.box.resets && 0 < |data| <= DEFAULT_MAX_BLOCK_SIZE
    && from.at + |data| <= |LogOf(s, from.epoch)|
    && data == LogOf(s, from.epoch)[from.at..from.at + |data|]
  }

  /** Labels read at `seen`: at the block itself, or in an earlier session whose successor starts with the block. */
  predicate Named(session: nat, start: nat, from: Origin, seen: Origin) {
    && session == SessionOf(seen.epoch) && start == U32(seen.at)
    && (seen == from || (seen.epoch < from.epoch && from.at == 0))
  }

  /** At `seen` the device had at least `length` bytes that it kept. */
  predicate Held(s: System, seen: Origin, length: nat) {
    seen.epoch <= s.box.resets && seen.at + length <= |LogOf(s, seen.epoch)|
  }

  /** The labels of a block name bytes that a session really accepted, as many as the block has. */
  ghost predicate NamesPlace(s: System, session: nat, start: nat, length: nat, from: Origin) {
    exists seen :: Named(session, start, from, seen) && Held(s, seen, length)
  }

  predicate Right(session: nat, start: nat, from: Origin) {
    session == SessionOf(from.epoch) && start == U32(from.at)
  }

  ghost predicate Traced(s: System, session: nat, start: nat, data: bytes, from: Origin) {
    && Sliced(s, data, from)
    && NamesPlace(s, session, start, |data|, from)
    && (s.backend.Mock? ==> Right(session, start, from))
  }

  ghost predicate PhaseTraced(s: System) {
    match s.phase
    case HaveHeader(h, seen) =>
      && seen.epoch <= s.box.resets && h.sessionId == SessionOf(seen.epoch) && h.readCount == U32(seen.at)
      && h.availableBytes > 0 && Held(s, seen, h.availableBytes)
      && s.box.committed == (if seen.epoch == s.box.resets then seen.at else 0)
      && (s.backend.Ftdi? ==> s.backend.header == Some(h))
    case HaveBlock(h, block, from) =>
      && Traced(s, block.sessionId, block.startCount, block.data, from) && block.sessionId == h.sessionId
      && (from.epoch == s.box.resets ==>
            s.box.committed == from.at + (if s.backend.Ftdi? then |block.data| else 0))
    case Ready(h, result, from) =>
      result.Some? ==>
        && Traced(s, result.value.sessionId, result.value.startCount, result.value.data, from)
        && result.value.sessionId == h.sessionId
        && (from.epoch == s.box.resets ==> s.box.committed == from.at + |result.value.data|)
    case _ => true
  }

  ghost predicate AllTraced(s: System) {
    && (forall k :: 0 <= k < |s.published| ==>
          var p := s.published[k];
          Traced(s, p.session, p.start, p.data, p.from) && Precedes(p, Frontier(s)))
    && (forall j, k :: 0 <= j < k < |s.published| ==> Precedes(s.published[j], s.published[k].from))
  }

  ghost predicate OriginInv(s: System) {
    && s.box.Valid() && |s.past| == s.box.resets && 1 <= s.blockSize <= DEFAULT_MAX_BLOCK_SIZE
    && PhaseTraced(s) && AllTraced(s)
  }

  lemma TraceStays(s: System, r: System, session: nat, start: nat, data: bytes, from: Origin)
    requires Extends(s, r) && r.backend.Mock? == s.backend.Mock? && Traced(s, session, start, data, from)
    ensures Traced(r, session, start, data, from)
  {
    assert LogOf(s, from.epoch) <= LogOf(r, from.epoch);
    var seen :| Named(session, start, from, seen) && Held(s, seen, |data|);
    HeldStays(s, r, seen, |data|);
  }

  lemma HeldStays(s: System, r: System, seen: Origin, length: nat)
    requires Extends(s, r) && Held(s, seen, length)
    ensures Held(r, seen, length)
  {
    assert LogOf(s, seen.epoch) <= LogOf(r, seen.epoch);
  }

  lemma AllStay(s: System, r: System)
    requires AllTraced(s) && Extends(s, r) && r.backend.Mock? == s.backend.Mock? && r.published == s.published
    requires forall k :: 0 <= k < |s.published| ==> Precedes(s.published[k], Frontier(r))
    ensures AllTraced(r)
  {
    forall k | 0 <= k < |r.published|
      ensures var p := r.published[k]; Traced(r, p.session, p.start, p.data, p.from) && Precedes(p, Frontier(r))
    {
      var p := s.published[k];
      TraceStays(s, r, p.session, p.start, p.data, p.from);
    }
  }

  /** A block that waits keeps its trace while the device goes on. */
  lemma PhaseStays(s: System, r: System)
    requires PhaseTraced(s) && Extends(s, r) && r.phase == s.phase && r.backend == s.backend
    requires r.box.resets == s.box.resets && r.box.committed == s.box.committed
    ensures PhaseTraced(r)
  {
    match s.phase
    case HaveHeader(h, seen) => HeldStays(s, r, seen, h.availableBytes);
    case HaveBlock(_, block, from) => TraceStays(s, r, block.sessionId, block.startCount, block.data, from);
    case Ready(_, result, from) =>
      if result.Some? {
        TraceStays(s, r, result.value.sessionId, result.value.startCount, result.value.data, from);
      }
    case _ =>
  }

  lemma DeviceKeeps(s: System, a: Action)
    requires OriginInv(s) && (a.Write? || a.Reset?)
    ensures OriginInv(Next(s, a))
  {
    var r := Next(s, a);
    assert Extends(s, r);
    AllStay(s, r);
    if a.Write? {
      PhaseStays(s, r);
    } else {
      ResetTraced(s);
    }
  }

  lemma ResetTraced(s: System)
    requires PhaseTraced(s) && s.box.Valid() && |s.past| == s.box.resets
    ensures PhaseTraced(Next(s, Reset))
  {
    var r := Next(s, Reset);
    assert Extends(s, r);
    match s.phase
    case HaveHeader(h, seen) => HeldStays(s, r, seen, h.availableBytes);
    case HaveBlock(_, block, from) => TraceStays(s, r, block.sessionId, block.startCount, block.data, from);
    case Ready(_, result, from) =>
      if result.Some? {
        TraceStays(s, r, result.value.sessionId, result.value.startCount, result.value.data, from);
      }
    case _ =>
  }

  lemma HeaderKeeps(s: System, fault: Fault)
    requires OriginInv(s)
    ensures OriginInv(Next(s, ScanHeader(fault)))
  {
    var r := Next(s, ScanHeader(fault));
    if s.phase.Idle? {
      assert Extends(s, r);
      AllStay(s, r);
    }
  }

  lemma BlockKeeps(s: System, fault: Fault)
    requires OriginInv(s)
    ensures OriginInv(Next(s, ScanBlock(fault)))
  {
    var r := Next(s, ScanBlock(fault));
    if s.phase.HaveHeader? {
      ScanMovesOn(s, fault);
      assert Extends(s, r);
      AllStay(s, r);
      if r.phase.HaveBlock? {
        ScannedTraced(s, fault);
      }
    }
  }

  lemma ScanMovesOn(s: System, fault: Fault)
    requires s.box.Valid() && s.phase.HaveHeader?
    ensures var r := Next(s, ScanBlock(fault));
            && (r.phase.HaveBlock? || r.phase.Failed?) && r.backend.Mock? == s.backend.Mock?
            && r.box.(committed := s.box.committed) == s.box && r.box.committed >= s.box.committed
            && (r.phase.HaveBlock? ==> r.phase.from == Here(s.box))
  {
  }

  lemma ScannedTraced(s: System, fault: Fault)
    requires s.box.Valid() && PhaseTraced(s) && s.phase.HaveHeader? && Next(s, ScanBlock(fault)).phase.HaveBlock?
    ensures PhaseTraced(Next(s, ScanBlock(fault)))
  {
    var r := Next(s, ScanBlock(fault));
    var block, from := r.phase.block, Here(s.box);
    assert LogOf(r, from.epoch) == s.box.log;
    assert Sliced(r, block.data, from);
    if s.backend.Mock? {
      assert Named(block.sessionId, block.startCount, from, from) && Held(r, from, |block.data|);
    } else {
      assert Named(block.sessionId, block.startCount, from, s.phase.seen) && Held(r, s.phase.seen, |block.data|);
    }
  }

  lemma CommitMovesOn(s: System, fault: Fault)
    requires s.box.Valid() && s.phase.HaveBlock?
    ensures var r := Next(s, CommitRead(fault));
            && r.backend.Mock? == s.backend.Mock? && r.published == s.published && r.past == s.past
            && r.box.(committed := s.box.committed) == s.box && r.box.committed >= s.box.committed
            && (r.phase.Failed? || (
                 && r.phase == Ready(s.phase.header, Some(s.phase.block), s.phase.from)
                 && r.box.committed == s.box.committed + (if s.backend.Mock? then |s.phase.block.data| else 0)))
  {
  }

  lemma CommitTraced(s: System, fault: Fault)
    requires OriginInv(s)
    ensures OriginInv(Next(s, CommitRead(fault)))
  {
    if s.phase.HaveBlock? {
      var r, block, from := Next(s, CommitRead(fault)), s.phase.block, s.phase.from;
      CommitMovesOn(s, fault);
      hide CommitBlock, Next;
      assert Extends(s, r);
      TraceStays(s, r, block.sessionId, block.startCount, block.data, from);
      forall k | 0 <= k < |s.published| ensures Precedes(s.published[k], Frontier(r)) {
        assert Precedes(s.published[k], from);
      }
      AllStay(s, r);
    }
  }

  lemma PublishTraced(s: System)
    requires OriginInv(s) && s.phase.Ready?
    ensures OriginInv(Next(s, PublishResult))
  {
    var r := Next(s, PublishResult);
    assert Extends(s, r);
    if s.phase.result.None? {
      AllStay(s, r);
    } else {
      PublishedTraced(s);
    }
  }

  lemma PublishedTraced(s: System)
    requires OriginInv(s) && s.phase.Ready? && s.phase.result.Some?
    ensures AllTraced(Next(s, PublishResult))
  {
    var r, block, from := Next(s, PublishResult), s.phase.result.value, s.phase.from;
    var n := |s.published|;
    assert r.published == s.published + [Published(block.sessionId, block.startCount, block.data, from)];
    assert r.box == s.box && r.past == s.past && r.backend == s.backend && r.phase == Idle;
    hide Next;
    assert Extends(s, r);
    forall k | 0 <= k < |r.published|
      ensures var p := r.published[k]; Traced(r, p.session, p.start, p.data, p.from) && Precedes(p, Frontier(r))
    {
      var p := r.published[k];
      if k < n {
        assert p == s.published[k] && Precedes(p, from);
      }
      TraceStays(s, r, p.session, p.start, p.data, p.from);
    }
    forall j, k | 0 <= j < k < |r.published| ensures Precedes(r.published[j], r.published[k].from) {
      if k == n {
        assert Precedes(s.published[j], from);
      }
    }
  }

  lemma RecoveryTraced(s: System, a: Action)
    requires OriginInv(s) && (a.CloseBackend? || a.OpenBackend? || a.RecheckHeader? || a.ClientStep?)
    ensures OriginInv(Next(s, a))
  {
    var r := Next(s, a);
    assert Extends(s, r) && Frontier(r) == Frontier(s);
    AllStay(s, r);
    if r.phase == s.phase && r.backend == s.backend {
      PhaseStays(s, r);
    }
  }

  lemma NextTraced(s: System, a: Action)
    requires OriginInv(s)
    ensures OriginInv(Next(s, a))
  {
    hide OriginInv;
    match a
    case Write(_) => DeviceKeeps(s, a);
    case Reset => DeviceKeeps(s, a);
    case ScanHeader(fault) => HeaderKeeps(s, fault);
    case ScanBlock(fault) => BlockKeeps(s, fault);
    case CommitRead(fault) => CommitTraced(s, fault);
    case PublishResult =>
      if s.phase.Ready? {
        PublishTraced(s);
      }
    case _ => RecoveryTraced(s, a);
  }

  lemma {:induction false} RunTraced(s: System, actions: seq<Action>)
    requires OriginInv(s)
    ensures OriginInv(Run(s, actions)) && Run(s, actions).backend.Mock? == s.backend.Mock?
    decreases |actions|
  {
    if actions == [] {
    } else {
      NextTraced(s, actions[0]);
      SameBackend(s, actions[0]);
      RunTraced(Next(s, actions[0]), actions[1..]);
    }
  }

  lemma SameBackend(s: System, a: Action)
    requires s.box.Valid()
    ensures Next(s, a).backend.Mock? == s.backend.Mock?
  {
  }

  /**
   In every run, whatever fails and whenever the device writes or resets: each published block
   is a segment of the log of the session it was read in, and the blocks follow each other in
   the order of the sessions and of their logs, so nothing is repeated or reordered. The labels
   of the mock are always right; those of the direct backend name the block's own place, or as
   many bytes that an earlier session accepted, and then the block is the beginning of its own.
   */
  lemma {:induction false} PublishedExactly(blockSize: nat, depth: nat, size: nat, build: nat, ftdi: bool,
                                            actions: seq<Action>)
    requires Configured(blockSize, depth, size, build)
    ensures var s := Run(Started(blockSize, depth, size, build, ftdi), actions);
            && (forall k :: 0 <= k < |s.published| ==>
                  var p := s.published[k];
                  && Sliced(s, p.data, p.from)
                  && NamesPlace(s, p.session, p.start, |p.data|, p.from)
                  && (!ftdi ==> Right(p.session, p.start, p.from)))
            && (forall j, k :: 0 <= j < k < |s.published| ==>
                  var p, q := s.published[j], s.published[k];
                  p.from.epoch < q.from.epoch || (p.from.epoch == q.from.epoch && p.End() <= q.from.at))
  {
    var start := Started(blockSize, depth, size, build, ftdi);
    RunTraced(start, actions);
    OriginsShown(Run(start, actions));
  }

  lemma OriginsShown(s: System)
    requires OriginInv(s)
    ensures forall k :: 0 <= k < |s.published| ==>
              var p := s.published[k];
              && Sliced(s, p.data, p.from)
              && NamesPlace(s, p.session, p.start, |p.data|, p.from)
              && (s.backend.Mock? ==> Right(p.session, p.start, p.from))
    ensures forall j, k :: 0 <= j < k < |s.published| ==>
              var p, q := s.published[j], s.published[k];
              p.from.epoch < q.from.epoch || (p.from.epoch == q.from.epoch && p.End() <= q.from.at)
  {
    hide PhaseTraced;
    forall k | 0 <= k < |s.published|
      ensures var p := s.published[k];
              && Sliced(s, p.data, p.from)
              && NamesPlace(s, p.session, p.start, |p.data|, p.from)
              && (s.backend.Mock? ==> Right(p.session, p.start, p.from))
    {
      var p := s.published[k];
      assert Traced(s, p.session, p.start, p.data, p.from);
    }
    forall j, k | 0 <= j < k < |s.published|
      ensures var p, q := s.published[j], s.published[k];
              p.from.epoch < q.from.epoch || (p.from.epoch == q.from.epoch && p.End() <= q.from.at)
    {
      assert Precedes(s.published[j], s.published[k].from);
    }
  }

  /** Labels read at `seen` are right exactly if no reset, or whole turns of the ids and no count, lie between. */
  lemma NamedRight(session: nat, start: nat, from: Origin, seen: Origin)
    requires Named(session, start, from, seen)
    ensures Right(session, start, from) <==>
              seen.epoch == from.epoch || ((from.epoch - seen.epoch) % SESSION_PERIOD == 0 && start == 0)
  {
  }

  /**
   A listener sees every loss, in every run: between two neighbouring blocks of one session the
   two labels differ by the number of log bytes that were never published, modulo 2^32, exactly
   if the first start label is right; and by that very number exactly if it is smaller as well.
   The second block's labels always are right.
   */
  lemma {:induction false} LossIsVisible(blockSize: nat, depth: nat, size: nat, build: nat, ftdi: bool,
                                         actions: seq<Action>, k: nat)
    requires Configured(blockSize, depth, size, build)
    requires var s := Run(Started(blockSize, depth, size, build, ftdi), actions);
             k + 1 < |s.published| && s.published[k].from.epoch == s.published[k + 1].from.epoch
    ensures var s := Run(Started(blockSize, depth, size, build, ftdi), actions);
            LossShown(s, s.published[k], s.published[k + 1])
  {
    PublishedExactly(blockSize, depth, size, build, ftdi, actions);
    hide Run, Started, Sliced, NamesPlace, LogOf, Configured, U32, LossShown;
    var s := Run(Started(blockSize, depth, size, build, ftdi), actions);
    LossBetween(s, s.published[k], s.published[k + 1]);
  }

  /** The bytes lost between two blocks of a session, and what the labels tell of them. */
  predicate LossShown(s: System, p: Published, q: Published) {
    var log, lost, shown := LogOf(s, p.from.epoch), q.from.at - p.End(), U32(q.start - (p.start + |p.data|));
    && lost >= 0 && q.End() <= |log| && Right(q.session, q.start, q.from)
    && (p.session == q.session <==> p.session == SessionOf(p.from.epoch))
    && p.data + log[p.End()..p.End() + lost] + q.data == log[p.from.at..q.End()]
    && (shown == U32(lost) <==> p.start == U32(p.from.at))
    && (shown == lost <==> p.start == U32(p.from.at) && lost < U32_RANGE)
  }

  lemma LossBetween(s: System, p: Published, q: Published)
    requires Sliced(s, p.data, p.from) && Sliced(s, q.data, q.from)
    requires NamesPlace(s, p.session, p.start, |p.data|, p.from)
    requires NamesPlace(s, q.session, q.start, |q.data|, q.from)
    requires p.from.epoch == q.from.epoch && p.End() <= q.from.at
    ensures LossShown(s, p, q)
  {
    LaterIsRight(s, p, q);
    LabelBounded(s, p.session, p.start, |p.data|, p.from);
    GapShown(p, q);
    JoinedSegments(LogOf(s, p.from.epoch), p.from.at, p.End(), q.from.at, q.End());
  }

  lemma LabelBounded(s: System, session: nat, start: nat, length: nat, from: Origin)
    requires NamesPlace(s, session, start, length, from)
    ensures start < U32_RANGE
  {
  }

  /** A block that is not the first of its session is labelled right. */
  lemma LaterIsRight(s: System, p: Published, q: Published)
    requires NamesPlace(s, q.session, q.start, |q.data|, q.from) && p.from.epoch == q.from.epoch
    requires p.data != [] && p.End() <= q.from.at
    ensures Right(q.session, q.start, q.from)
  {
    var seen :| Named(q.session, q.start, q.from, seen) && Held(s, seen, |q.data|);
  }

  lemma GapShown(p: Published, q: Published)
    requires p.start < U32_RANGE && q.start == U32(q.from.at) && p.End() <= q.from.at
    ensures var lost, shown := q.from.at - p.End(), U32(q.start - (p.start + |p.data|));
            && (shown == U32(lost) <==> p.start == U32(p.from.at))
            && (shown == lost <==> p.start == U32(p.from.at) && lost < U32_RANGE)
  {
  }

  lemma JoinedSegments(log: bytes, a: nat, b: nat, c: nat, d: nat)
    requires a <= b <= c <= d <= |log|
    ensures log[a..b] + log[b..c] + log[c..d] == log[a..d]
  {
  }
}
