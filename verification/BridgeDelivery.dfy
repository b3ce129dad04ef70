/** When no call fails nothing is lost, and what the clients are owed is the log itself. */
module BridgeDelivery {
  import opened Bytes
  import opened Wrappers
  import opened MailboxHeader
  import opened Mailbox
  import opened Backend
  import opened Bridge
  import opened BridgeSystem
  import opened BridgeSafety
  import opened BridgeOrigins
  import opened BridgeCommits

  predicate FaultFree(a: Action) {
    match a
    case ScanHeader(f) => f.Clean?
    case ScanBlock(f) => f.Clean?
    case CommitRead(f) => f.Clean?
    case OpenBackend(f) => f.Clean?
    case RecheckHeader(f) => f.Clean?
    case _ => true
  }

  predicate AllFaultFree(actions: seq<Action>) {
    forall i :: 0 <= i < |actions| ==> FaultFree(actions[i])
  }

  /** Where the next block of session `epoch` must start if nothing is to be missing. */
  function Due(published: seq<Published>, epoch: nat): nat {
    if published == [] then 0
    else
      var last := published[|published| - 1];
      if last.from.epoch == epoch then last.End() else 0
  }

  /** Every block starts where it was due. */
  ghost predicate Tiled(published: seq<Published>) {
    forall k :: 0 <= k < |published| ==> published[k].from.at == Due(published[..k], published[k].from.epoch)
  }

  lemma TiledSnoc(published: seq<Published>, p: Published)
    requires Tiled(published) && p.from.at == Due(published, p.from.epoch)
    ensures Tiled(published + [p]) && Due(published + [p], p.from.epoch) == p.End()
    ensures forall epoch :: epoch != p.from.epoch ==> Due(published + [p], epoch) == 0
  {
    var longer := published + [p];
    forall k | 0 <= k < |longer| ensures longer[k].from.at == Due(longer[..k], longer[k].from.epoch) {
      assert longer[..k] == published[..k];
      assert published[..|published|] == published;
    }
  }

  ghost predicate NoGap(s: System) {
    && Tiled(s.published)
    && Frontier(s).at == Due(s.published, Frontier(s).epoch)
    && (Frontier(s).epoch < s.box.resets ==> s.box.committed == 0)
  }

  /** A session nothing was published from yet is due from its beginning. */
  lemma DueAhead(s: System, epoch: nat)
    requires AllTraced(s) && epoch > Frontier(s).epoch
    ensures Due(s.published, epoch) == 0
  {
    if s.published != [] {
      assert Precedes(s.published[|s.published| - 1], Frontier(s));
    }
  }

  /** Steps that publish nothing only have to keep the frontier where the next block is due. */
  lemma FrontierDue(s: System, r: System)
    requires NoGap(s) && AllTraced(s) && r.published == s.published
    requires Frontier(r) == Frontier(s) || (Frontier(r).epoch > Frontier(s).epoch && Frontier(r).at == 0)
    requires Frontier(r).epoch < r.box.resets ==> r.box.committed == 0
    ensures NoGap(r)
  {
    if Frontier(r) != Frontier(s) {
      DueAhead(s, Frontier(r).epoch);
    }
  }

  /** Every run is steady, if the mock does not go through all session ids in one transaction. */
  ghost predicate Steady(s: System) {
    && OriginInv(s) && Remembered(s)
    && (s.backend.Mock? && s.phase.HaveBlock? ==> s.box.resets - s.phase.from.epoch < SESSION_PERIOD)
  }

  lemma NextSteady(s: System, a: Action)
    requires Steady(s) && (s.backend.Mock? ==> Undisturbed(s, a))
    ensures Steady(Next(s, a))
  {
    NextTraced(s, a);
    NextRemembered(s, a);
    hide OriginInv, Remembered;
  }

  lemma NextNoGap(s: System, a: Action)
    requires Steady(s) && FaultFree(a) && NoGap(s)
    ensures NoGap(Next(s, a))
  {
    match a
    case CommitRead(_) =>
      if s.phase.HaveBlock? {
        CommitNoGap(s);
      }
    case PublishResult =>
      if s.phase.Ready? && s.phase.result.Some? {
        PublishNoGap(s);
      }
    case ScanBlock(_) =>
      if s.phase.HaveHeader? {
        ScanNoGap(s);
      }
    case Reset => ResetNoGap(s);
    case _ => QuietNoGap(s, a);
  }

  lemma ResetNoGap(s: System)
    requires Steady(s) && NoGap(s)
    ensures NoGap(Next(s, Reset))
  {
    FrontierDue(s, Next(s, Reset));
  }

  /** Steps that move no byte. */
  lemma QuietNoGap(s: System, a: Action)
    requires Steady(s) && FaultFree(a) && NoGap(s)
    requires !a.Reset? && !a.ScanBlock? && !a.CommitRead?
    requires a.PublishResult? && s.phase.Ready? ==> s.phase.result.None?
    ensures NoGap(Next(s, a))
  {
    FrontierStays(s, a);
    FrontierDue(s, Next(s, a));
  }

  lemma FrontierStays(s: System, a: Action)
    requires s.box.Valid() && FaultFree(a)
    requires !a.Reset? && !a.ScanBlock? && !a.CommitRead?
    requires a.PublishResult? && s.phase.Ready? ==> s.phase.result.None?
    ensures var r := Next(s, a);
            && r.box.resets == s.box.resets && r.box.committed == s.box.committed
            && r.published == s.published && Frontier(r) == Frontier(s)
  {
    match a
    case Write(_) =>
    case ScanHeader(_) =>
    case OpenBackend(_) =>
    case RecheckHeader(_) =>
    case _ =>
  }

  lemma CommitNoGap(s: System)
    requires Steady(s) && NoGap(s) && s.phase.HaveBlock?
    ensures NoGap(Next(s, CommitRead(Clean)))
  {
    if s.backend.Mock? {
      MockCommitMoves(s);
    } else {
      FtdiCommitDone(s, Clean);
    }
    FrontierDue(s, Next(s, CommitRead(Clean)));
  }

  /** The other backend's commit is refused only if a reset has already moved the frontier. */
  lemma MockCommitMoves(s: System)
    requires s.box.Valid() && s.phase.HaveBlock? && s.backend.Mock?
    requires var block, from := s.phase.block, s.phase.from;
             && Right(block.sessionId, block.startCount, from)
             && from.epoch <= s.box.resets < from.epoch + SESSION_PERIOD
             && s.box.committed == if from.epoch == s.box.resets then from.at else 0
    ensures var r := Next(s, CommitRead(Clean));
            && r.published == s.published && r.box.resets == s.box.resets
            && (Frontier(r) == Frontier(s) || (Frontier(r).epoch > Frontier(s).epoch && Frontier(r).at == 0))
            && (Frontier(r).epoch < r.box.resets ==> r.box.committed == 0)
  {
    SameSession(s.phase.from.epoch, s.box.resets);
  }

  /** A scan that fails by itself has taken nothing from the device. */
  lemma ScanTakes(s: System)
    requires Steady(s) && s.phase.HaveHeader?
    ensures var r := Next(s, ScanBlock(Clean));
            && Frontier(r) == Here(s.box) && r.published == s.published && r.box.resets == s.box.resets
            && (r.phase.HaveBlock? || r.box == s.box)
  {
  }

  lemma ScanNoGap(s: System)
    requires Steady(s) && NoGap(s) && s.phase.HaveHeader?
    ensures NoGap(Next(s, ScanBlock(Clean)))
  {
    ScanTakes(s);
    FrontierDue(s, Next(s, ScanBlock(Clean)));
  }

  lemma PublishNoGap(s: System)
    requires s.box.Valid() && PhaseTraced(s) && NoGap(s) && s.phase.Ready? && s.phase.result.Some?
    ensures NoGap(Next(s, PublishResult))
  {
    var block, from := s.phase.result.value, s.phase.from;
    var p := Published(block.sessionId, block.startCount, block.data, from);
    PublishedNext(s, p);
    hide Next, Tiled, Due;
    TiledSnoc(s.published, p);
  }

  lemma PublishedNext(s: System, p: Published)
    requires s.box.Valid() && s.phase.Ready? && s.phase.result.Some?
    requires var block := s.phase.result.value;
             p == Published(block.sessionId, block.startCount, block.data, s.phase.from)
    ensures var r := Next(s, PublishResult);
            && r.published == s.published + [p] && r.phase.Idle? && r.box == s.box && r.past == s.past
            && r.backend == s.backend
  {
  }

  lemma {:induction false} RunNoGap(s: System, actions: seq<Action>)
    requires Steady(s) && (s.backend.Mock? ==> Calm(s, actions)) && AllFaultFree(actions) && NoGap(s)
    ensures Steady(Run(s, actions)) && NoGap(Run(s, actions))
    decreases |actions|
  {
    if actions == [] {
      assert Run(s, actions) == s;
    } else {
      NextSteady(s, actions[0]);
      SameBackend(s, actions[0]);
      NextNoGap(s, actions[0]);
      hide Steady, NoGap, Next;
      RunNoGap(Next(s, actions[0]), actions[1..]);
    }
  }

  function DataOfEpoch(published: seq<Published>, epoch: nat): bytes {
    if published == [] then []
    else
      var last := published[|published| - 1];
      DataOfEpoch(published[..|published| - 1], epoch) + (if last.from.epoch == epoch then last.data else [])
  }

  /** The blocks of one session tile a beginning of its log, and sessions do not interleave. */
  ghost predicate Contiguous(published: seq<Published>, epoch: nat, log: bytes) {
    && (forall k :: 0 <= k < |published| && published[k].from.epoch == epoch ==> Continues(published, k, log))
    && (forall k :: 0 < k < |published| ==> published[k - 1].from.epoch <= published[k].from.epoch)
  }

  ghost predicate Continues(published: seq<Published>, k: nat, log: bytes)
    requires k < |published|
  {
    var p := published[k];
    && p.from.at == (if k > 0 && published[k - 1].from.epoch == p.from.epoch then published[k - 1].End() else 0)
    && p.End() <= |log| && p.data == log[p.from.at..p.End()]
  }

  /** Then what was published of the session is a beginning of its log. */
  lemma {:induction false} DataIsPrefix(published: seq<Published>, epoch: nat, log: bytes)
    requires Contiguous(published, epoch, log)
    ensures var data, n := DataOfEpoch(published, epoch), |published|;
            && data <= log
            && (n > 0 && published[n - 1].from.epoch == epoch ==> |data| == published[n - 1].End())
            && (n == 0 || published[n - 1].from.epoch < epoch ==> data == [])
    decreases |published|
  {
    var n := |published|;
    if n == 0 {
    } else {
      var front, p := published[..n - 1], published[n - 1];
      FrontContiguous(published, epoch, log);
      DataIsPrefix(front, epoch, log);
      if p.from.epoch == epoch {
        assert Continues(published, n - 1, log);
        PrefixJoins(log, DataOfEpoch(front, epoch), p.data);
      }
    }
  }

  lemma FrontContiguous(published: seq<Published>, epoch: nat, log: bytes)
    requires Contiguous(published, epoch, log) && published != []
    ensures Contiguous(published[..|published| - 1], epoch, log)
  {
    var front := published[..|published| - 1];
    forall k | 0 <= k < |front| && front[k].from.epoch == epoch ensures Continues(front, k, log) {
      assert Continues(published, k, log);
    }
  }

  lemma SystemContiguous(s: System, epoch: nat)
    requires AllTraced(s) && NoGap(s) && epoch <= s.box.resets
    ensures Contiguous(s.published, epoch, LogOf(s, epoch))
  {
    forall k | 0 <= k < |s.published| && s.published[k].from.epoch == epoch
      ensures Continues(s.published, k, LogOf(s, epoch))
    {
      PublishedAt(s, k);
    }
    forall k | 0 < k < |s.published| ensures s.published[k - 1].from.epoch <= s.published[k].from.epoch {
      assert Precedes(s.published[k - 1], s.published[k].from);
    }
  }

  lemma PublishedAt(s: System, k: nat)
    requires AllTraced(s) && Tiled(s.published) && k < |s.published|
    ensures var p := s.published[k];
            && p.from.at == (if k > 0 && s.published[k - 1].from.epoch == p.from.epoch then s.published[k - 1].End() else 0)
            && p.from.epoch <= s.box.resets && p.End() <= |LogOf(s, p.from.epoch)|
            && p.data == LogOf(s, p.from.epoch)[p.from.at..p.End()]
  {
    var p := s.published[k];
    assert Traced(s, p.session, p.start, p.data, p.from);
    DueAt(s.published, k);
  }

  lemma DueAt(published: seq<Published>, k: nat)
    requires k < |published|
    ensures var epoch := published[k].from.epoch;
            Due(published[..k], epoch) ==
              if k > 0 && published[k - 1].from.epoch == epoch then published[k - 1].End() else 0
  {
  }

  lemma PrefixJoins(log: bytes, a: bytes, b: bytes)
    requires a <= log && |a| + |b| <= |log| && b == log[|a|..|a| + |b|]
    ensures a + b <= log
  {
  }

  /**
   If no call fails, no byte is skipped: in every session the published blocks start at its
   first byte and each begins where the one before it ended. That needs nothing of the device if
   it is read directly: a reset between the two scans may mislabel a block but loses no byte.
   */
  lemma {:induction false} NothingLost(blockSize: nat, depth: nat, size: nat, build: nat, ftdi: bool,
                                       actions: seq<Action>, epoch: nat)
    requires Configured(blockSize, depth, size, build)
    requires AllFaultFree(actions) && (!ftdi ==> Calm(Started(blockSize, depth, size, build, ftdi), actions))
    requires epoch <= Run(Started(blockSize, depth, size, build, ftdi), actions).box.resets
    ensures var s := Run(Started(blockSize, depth, size, build, ftdi), actions);
            && DataOfEpoch(s.published, epoch) <= LogOf(s, epoch)
            && (epoch == s.box.resets && !s.phase.HaveBlock? && !s.phase.Ready? ==>
                  DataOfEpoch(s.published, epoch) == s.box.log[..s.box.committed])
  {
    var start := Started(blockSize, depth, size, build, ftdi);
    StartedRemembered(blockSize, depth, size, build, ftdi);
    RunNoGap(start, actions);
    var s := Run(start, actions);
    var n := |s.published|;
    SystemContiguous(s, epoch);
    DataIsPrefix(s.published, epoch, LogOf(s, epoch));
    if epoch == s.box.resets && !s.phase.HaveBlock? && !s.phase.Ready? {
      if n > 0 {
        assert Precedes(s.published[n - 1], Frontier(s));
      }
    }
  }

  // ----- the labels of the direct backend -----

  /** What may happen on the device's and the clients' side while the host waits. */
  predicate Outside(a: Action) {
    a.Write? || a.Reset? || a.ClientStep?
  }

  function ResetsIn(actions: seq<Action>): nat {
    if actions == [] then 0 else (if actions[0].Reset? then 1 else 0) + ResetsIn(actions[1..])
  }

  lemma {:induction false} OutsideRun(s: System, actions: seq<Action>)
    requires s.box.Valid() && forall i :: 0 <= i < |actions| ==> Outside(actions[i])
    ensures var r := Run(s, actions);
            && r.phase == s.phase && r.backend == s.backend && r.blockSize == s.blockSize
            && r.box.resets == s.box.resets + ResetsIn(actions)
    decreases |actions|
  {
    if actions == [] {
      assert Run(s, actions) == s;
    } else {
      OutsideRun(Next(s, actions[0]), actions[1..]);
    }
  }

  /**
   The direct backend labels a block from the header it read before the payload scan. Whatever
   has happened before and whatever happens in between, the labels name the place the bytes come
   from exactly when no reset came since the header was read, or whole turns of the session ids
   did and the header showed read count zero. The bytes are always those the device shows next.
   */
  lemma LabelsRight(s: System, between: seq<Action>)
    requires OriginInv(s) && s.backend.Ftdi? && s.phase.HaveHeader?
    requires forall i :: 0 <= i < |between| ==> Outside(between[i])
    requires Next(Run(s, between), ScanBlock(Clean)).phase.HaveBlock?
    ensures var mid := Run(s, between);
            var r, n := Next(mid, ScanBlock(Clean)), s.box.resets + ResetsIn(between) - s.phase.seen.epoch;
            var block, from := r.phase.block, r.phase.from;
            && from == Here(mid.box) && from.at + |block.data| <= |mid.box.log|
            && block.data == mid.box.log[from.at..from.at + |block.data|]
            && (block.sessionId == SessionOf(from.epoch) && block.startCount == U32(from.at)
                <==> n == 0 || (n % SESSION_PERIOD == 0 && s.phase.header.readCount == 0))
  {
    var mid := HeaderKept(s, between);
    hide OriginInv, Next, Run, SessionOf, U32, ResetsIn, Named;
    DirectLabels(mid);
    NamedRight(s.phase.header.sessionId, s.phase.header.readCount, Here(mid.box), s.phase.seen);
  }

  /** The header in hand still names the place it was read at. */
  lemma HeaderKept(s: System, between: seq<Action>) returns (mid: System)
    requires OriginInv(s) && s.backend.Ftdi? && s.phase.HaveHeader?
    requires forall i :: 0 <= i < |between| ==> Outside(between[i])
    ensures s.box.Valid() && mid == Run(s, between) && mid.phase == s.phase && mid.backend == s.backend
    ensures mid.backend.header == Some(s.phase.header) && mid.box.resets == s.box.resets + ResetsIn(between)
    ensures Named(s.phase.header.sessionId, s.phase.header.readCount, Here(mid.box), s.phase.seen)
  {
    assert s.box.Valid();
    hide OriginInv, Next, Run, SessionOf, U32, ResetsIn, Outside, Named;
    RunTraced(s, between);
    mid := Run(s, between);
    OutsideRun(s, between);
    HeaderInHand(mid);
  }

  lemma HeaderInHand(s: System)
    requires OriginInv(s) && s.backend.Ftdi? && s.phase.HaveHeader?
    ensures s.box.Valid() && s.backend.header == Some(s.phase.header)
    ensures Named(s.phase.header.sessionId, s.phase.header.readCount, Here(s.box), s.phase.seen)
  {
  }

  lemma DirectLabels(s: System)
    requires s.box.Valid() && s.backend.Ftdi? && s.phase.HaveHeader? && s.backend.header == Some(s.phase.header)
    requires Next(s, ScanBlock(Clean)).phase.HaveBlock?
    ensures var r := Next(s, ScanBlock(Clean));
            && r.phase.from == Here(s.box) && r.phase.block.sessionId == s.phase.header.sessionId
            && r.phase.block.startCount == s.phase.header.readCount
            && s.box.committed + |r.phase.block.data| <= |s.box.log|
            && r.phase.block.data == s.box.log[s.box.committed..s.box.committed + |r.phase.block.data|]
  {
  }

  /** A reset and a write between the two scans go unnoticed: the old labels are published. */
  lemma ResetUnnoticed(s: System, data: bytes)
    requires OriginInv(s) && Remembered(s) && s.backend.Ftdi? && s.backend.scanning && s.phase.HaveHeader?
    requires BlockLength(s.phase.header, s.blockSize) <= |data| <= s.box.size
    ensures var length, h := BlockLength(s.phase.header, s.blockSize), s.phase.header;
            Run(s, AroundScan(data)).published
            == s.published + [Published(h.sessionId, h.readCount, data[..length], Origin(s.box.resets + 1, 0))]
  {
    var r := ResetRuns(s, data);
  }

  /** The next header scan finds it out, by a failing commit check, unless the old read count was zero. */
  lemma ResetFound(s: System, data: bytes)
    requires OriginInv(s) && Remembered(s) && s.backend.Ftdi? && s.backend.scanning && s.phase.HaveHeader?
    requires BlockLength(s.phase.header, s.blockSize) <= |data| <= s.box.size
    ensures var r := Run(s, AroundScan(data));
            ReadHeader(r.backend, r.box, Clean).0 == Err(CommitMismatch) <==> s.phase.header.readCount != 0
  {
    RunRemembered(s, AroundScan(data));
    hide OriginInv, Remembered, Run, BlockLength, ReadHeader;
    var r := ResetRuns(s, data);
    CheckedAgainst(r);
  }

  function AroundScan(data: bytes): seq<Action> {
    [Reset, Write(data), ScanBlock(Clean), CommitRead(Clean), PublishResult]
  }

  lemma ResetRuns(s: System, data: bytes) returns (r: System)
    requires OriginInv(s) && Remembered(s) && s.backend.Ftdi? && s.backend.scanning && s.phase.HaveHeader?
    requires BlockLength(s.phase.header, s.blockSize) <= |data| <= s.box.size
    ensures s.box.Valid() && r == Run(s, AroundScan(data))
    ensures r.phase.Idle? && r.backend.Ftdi? && r.backend.expected.Some? && r.box.resets == s.box.resets + 1
    ensures var length, h := BlockLength(s.phase.header, s.blockSize), s.phase.header;
            r.published
            == s.published + [Published(h.sessionId, h.readCount, data[..length], Origin(s.box.resets + 1, 0))]
  {
    var h, length := s.phase.header, BlockLength(s.phase.header, s.blockSize);
    var written := FreshWritten(s, data);
    hide OriginInv, Remembered, Next, Run, BlockLength;
    FreshScan(written, data, length);
    var block := Block(h.sessionId, h.readCount, data[..length], s.backend.minted);
    CommitPublishes(Next(written, ScanBlock(Clean)), h, block, Origin(s.box.resets + 1, 0));
    RunFive(s, Reset, Write(data), ScanBlock(Clean), CommitRead(Clean), PublishResult);
    r := Run(s, AroundScan(data));
  }

  /** What the device and the host hold after a reset and a write that the host has not seen. */
  lemma FreshWritten(s: System, data: bytes) returns (r: System)
    requires OriginInv(s) && Remembered(s) && s.backend.Ftdi? && s.backend.scanning && s.phase.HaveHeader?
    requires BlockLength(s.phase.header, s.blockSize) <= |data| <= s.box.size
    ensures s.box.Valid() && r == Next(Next(s, Reset), Write(data))
    ensures r.box.Valid() && r.box.log == data && r.box.committed == 0 && r.box.resets == s.box.resets + 1
    ensures r.phase == s.phase && r.published == s.published && r.blockSize == s.blockSize
    ensures r.backend == s.backend && s.backend.last.None? && s.backend.header == Some(s.phase.header)
    ensures var length := BlockLength(s.phase.header, s.blockSize);
            1 <= length <= DEFAULT_MAX_BLOCK_SIZE && length <= s.phase.header.availableBytes
  {
    r := Next(Next(s, Reset), Write(data));
  }

  lemma CommitPublishes(s: System, h: Header, block: Block, from: Origin)
    requires s.box.Valid() && s.phase == HaveBlock(h, block, from)
    requires s.backend.Ftdi? && s.backend.scanning && s.backend.last == Some(block)
    ensures var r := Next(Next(s, CommitRead(Clean)), PublishResult);
            && r.published == s.published + [Published(block.sessionId, block.startCount, block.data, from)]
            && r.phase.Idle? && r.backend.Ftdi? && r.backend.expected.Some? && r.box == s.box
  {
    assert Next(s, CommitRead(Clean)).phase == Ready(h, Some(block), from);
  }

  lemma FreshScan(s: System, data: bytes, length: nat)
    requires s.box.Valid() && s.box.log == data && s.box.committed == 0 && s.phase.HaveHeader?
    requires s.backend.Ftdi? && s.backend.scanning && s.backend.last.None? && s.backend.header == Some(s.phase.header)
    requires length == BlockLength(s.phase.header, s.blockSize) && 1 <= length <= |data|
    requires length <= DEFAULT_MAX_BLOCK_SIZE && length <= s.phase.header.availableBytes
    ensures var h := s.phase.header;
            var block := Block(h.sessionId, h.readCount, data[..length], s.backend.minted);
            var r := Next(s, ScanBlock(Clean));
            && r.phase == HaveBlock(h, block, Origin(s.box.resets, 0)) && r.published == s.published
            && r.box.resets == s.box.resets
            && r.backend == s.backend.(last := Some(block), minted := s.backend.minted + 1)
  {
    assert BeginRead(s.box, length) == Ok(ReadTransaction(SessionOf(s.box.resets), 0, data[..length]));
  }

  /** So without the assumption labels can be wrong: a byte of session 2 is published as session 1's. */
  lemma ResetMislabels()
    ensures var seen := Run(Started(1024, 1, 4096, 0, true), [Write([7]), ScanHeader(Clean)]);
            Run(seen, AroundScan([9])).published == [Published(SessionOf(0), 0, [9], Origin(1, 0))]
  {
    var start := Started(1024, 1, 4096, 0, true);
    HeaderSeen(start, [7]);
    hide OriginInv, Remembered, Next, Run, SessionOf;
    SecondLost(Run(start, [Write([7]), ScanHeader(Clean)]), [9]);
  }

  lemma SecondLost(seen: System, data: bytes)
    requires OriginInv(seen) && Remembered(seen)
    requires seen.phase.HaveHeader? && seen.backend.Ftdi? && seen.backend.scanning
    requires seen.phase.header.availableBytes == |data| == 1 && seen.phase.header.readCount == 0
    requires seen.phase.header.sessionId == SessionOf(0) && seen.published == []
    requires seen.box.resets == 0 && seen.box.size == 4096 && seen.blockSize == 1024
    ensures seen.box.Valid()
    ensures Run(seen, AroundScan(data)).published == [Published(SessionOf(0), 0, data, Origin(1, 0))]
  {
    assert seen.box.Valid();
    hide OriginInv, Remembered, Next, Run, SessionOf;
    assert BlockLength(seen.phase.header, 1024) == 1 && data[..1] == data;
    ResetUnnoticed(seen, data);
  }

  lemma HeaderSeen(start: System, data: bytes)
    requires start == Started(1024, 1, 4096, 0, true) && |data| == 1
    ensures var seen := Run(start, [Write(data), ScanHeader(Clean)]);
            && OriginInv(seen) && Remembered(seen)
            && seen.phase.HaveHeader? && seen.backend.Ftdi? && seen.backend.scanning
            && seen.phase.header.availableBytes == 1 && seen.phase.header.readCount == 0
            && seen.phase.header.sessionId == SessionOf(0)
            && seen.box.resets == 0 && seen.box.size == 4096 && seen.blockSize == 1024 && seen.published == []
  {
    StartedRemembered(1024, 1, 4096, 0, true);
    RunRemembered(start, [Write(data), ScanHeader(Clean)]);
    hide OriginInv, Remembered;
    var written := Next(start, Write(data));
    assert written.box.log == data;
    RunCons(start, Write(data), [ScanHeader(Clean)]);
    RunCons(written, ScanHeader(Clean), []);
  }

  lemma RunFive(s: System, a: Action, b: Action, c: Action, d: Action, e: Action)
    requires s.box.Valid()
    ensures Run(s, [a, b, c, d, e]) == Next(Next(Next(Next(Next(s, a), b), c), d), e)
  {
    var s2 := Next(Next(s, a), b);
    RunCons(s, a, [b, c, d, e]);
    RunCons(Next(s, a), b, [c, d, e]);
    RunThree(s2, c, d, e);
  }

  lemma RunThree(s: System, a: Action, b: Action, c: Action)
    requires s.box.Valid()
    ensures Run(s, [a, b, c]) == Next(Next(Next(s, a), b), c)
  {
    RunCons(s, a, [b, c]);
    RunCons(Next(s, a), b, [c]);
    RunCons(Next(Next(s, a), b), c, []);
  }

  lemma RunCons(s: System, a: Action, rest: seq<Action>)
    requires s.box.Valid()
    ensures Run(s, [a] + rest) == Run(Next(s, a), rest)
    ensures Run(s, []) == s
  {
    assert ([a] + rest)[1..] == rest;
  }

  lemma {:induction false} RunAppend(s: System, a: seq<Action>, b: seq<Action>)
    requires s.box.Valid()
    ensures Run(s, a + b) == Run(Run(s, a), b)
    decreases |a|
  {
    if a == [] {
      assert a + b == b;
    } else {
      assert (a + b)[1..] == a[1..] + b;
      RunAppend(Next(s, a[0]), a[1..], b);
    }
  }

  /** With nothing in between, the three steps are one call of `_read_transaction`. */
  lemma StepsAreTransaction(s: System, f: Faults)
    requires s.box.Valid() && s.phase.Idle?
    ensures var r := Next(Next(Next(s, ScanHeader(f.header)), ScanBlock(f.block)), CommitRead(f.commit));
            var (answer, backend, box) := Transaction(s.backend, s.box, s.identity, s.blockSize, f);
            && r.backend == backend && r.box == box
            && (match answer
                case Err(_) => r.phase.Failed?
                case Ok((h, result)) => r.phase.Ready? && r.phase.header == h && r.phase.result == result)
  {
    var one := Next(s, ScanHeader(f.header));
    var two := Next(one, ScanBlock(f.block));
  }

  /**
   After a failure, the three recovery steps are one call of `reconnect_once`; if the target is
   not present exactly once, they are the steps of a failed opening.
   */
  lemma StepsAreReconnect(s: System, targets: seq<TargetIdentity>, wanted: TargetIdentity, opening: Fault, recheck: Fault)
    requires s.box.Valid() && s.phase.Failed? && wanted.buildId == s.identity
    ensures var present := Occurrences(targets, wanted) == 1;
            var r := Next(Next(Next(s, CloseBackend), OpenBackend(if present then opening else Unsent)),
                          RecheckHeader(recheck));
            && r.phase.Idle? && r.box == s.box && r.published == s.published
            && r.backend == Reconnected(s.backend, targets, wanted, s.box, opening, recheck).1
  {
    var closed := Next(s, CloseBackend);
    assert closed.backend == Close(s.backend) && closed.phase == Closed;
  }
}
