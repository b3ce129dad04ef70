/** Every step of the bridge keeps its blocks exact, in order and never repeated. */
module BridgeSafety {
  import opened Bytes
  import opened Wrappers
  import opened MailboxHeader
  import opened Mailbox
  import opened Backend
  import Clients
  import opened Bridge
  import opened BridgeSystem

  /** Logs only grow: what was exact stays exact. */
  predicate Extends(s: System, r: System) {
    && s.box.resets <= r.box.resets
    && forall e :: 0 <= e <= s.box.resets ==> LogOf(s, e) <= LogOf(r, e)
  }

  lemma ExactStays(s: System, r: System, session: nat, start: nat, data: bytes, from: Origin)
    requires Extends(s, r) && Exact(s, session, start, data, from)
    ensures Exact(r, session, start, data, from)
  {
    assert LogOf(s, from.epoch) <= LogOf(r, from.epoch);
  }

  lemma PublishedStays(s: System, r: System)
    requires PublishedInv(s) && Extends(s, r) && r.published == s.published
    requires forall k :: 0 <= k < |s.published| ==> Precedes(s.published[k], Frontier(r))
    ensures PublishedInv(r)
  {
    forall k | 0 <= k < |r.published|
      ensures var p := r.published[k]; Exact(r, p.session, p.start, p.data, p.from) && Precedes(p, Frontier(r))
    {
      var p := s.published[k];
      ExactStays(s, r, p.session, p.start, p.data, p.from);
    }
  }

  lemma WriteKeeps(s: System, data: bytes)
    requires SystemInv(s)
    ensures SystemInv(Next(s, Write(data)))
  {
    var r := Next(s, Write(data));
    assert Extends(s, r);
    FlightStays(s, r);
    PublishedStays(s, r);
  }

  lemma FlightStays(s: System, r: System)
    requires Extends(s, r) && r.box.resets == s.box.resets && r.box.committed == s.box.committed
    ensures forall h, block, from, taken ::
              InFlight(s, h, block, from, taken) ==> InFlight(r, h, block, from, taken)
  {
    forall h, block: Block, from, taken | InFlight(s, h, block, from, taken) ensures InFlight(r, h, block, from, taken) {
      ExactStays(s, r, block.sessionId, block.startCount, block.data, from);
    }
  }

  lemma ResetKeeps(s: System)
    requires SystemInv(s) && Undisturbed(s, Reset)
    ensures SystemInv(Next(s, Reset))
  {
    var r := Next(s, Reset);
    assert Extends(s, r);
    forall h, block: Block, from, taken | InFlight(s, h, block, from, taken) ensures InFlight(r, h, block, from, taken) {
      ExactStays(s, r, block.sessionId, block.startCount, block.data, from);
    }
    PublishedStays(s, r);
  }

  lemma Unchanged(s: System, r: System)
    requires PublishedInv(s) && r.box == s.box && r.past == s.past && r.published == s.published
    requires Frontier(r) == Frontier(s)
    ensures PublishedInv(r)
  {
    assert Extends(s, r);
    PublishedStays(s, r);
  }

  lemma ScanHeaderKeeps(s: System, fault: Fault)
    requires SystemInv(s)
    ensures SystemInv(Next(s, ScanHeader(fault)))
  {
    var r := Next(s, ScanHeader(fault));
    if s.phase.Idle? {
      Unchanged(s, r);
    }
  }

  /** A scanned block comes from the place its labels name. */
  lemma ScanBlockKeeps(s: System, fault: Fault)
    requires SystemInv(s)
    ensures SystemInv(Next(s, ScanBlock(fault)))
  {
    if s.phase.HaveHeader? {
      var r := Next(s, ScanBlock(fault));
      ScanMoves(s, fault);
      if r.phase.HaveBlock? {
        BlockRead(s, fault);
      }
      hide Clients.HubInv, Exact, ReadBlock, BackendInv;
      assert Extends(s, r);
      PublishedStays(s, r);
    }
  }

  lemma ScanMoves(s: System, fault: Fault)
    requires s.box.Valid() && BackendInv(s) && s.phase.HaveHeader?
    ensures var r := Next(s, ScanBlock(fault));
            && BackendInv(r) && (r.phase.HaveBlock? || r.phase.Failed?)
            && r.box.(committed := s.box.committed) == s.box && r.box.committed >= s.box.committed
            && (r.phase.HaveBlock? ==> r.phase.from == Here(s.box))
  {
  }

  lemma BlockRead(s: System, fault: Fault)
    requires SystemInv(s) && s.phase.HaveHeader? && Next(s, ScanBlock(fault)).phase.HaveBlock?
    ensures PhaseInv(Next(s, ScanBlock(fault)))
  {
    var r := Next(s, ScanBlock(fault));
    var h, seen, block, from := s.phase.header, s.phase.seen, r.phase.block, Here(s.box);
    assert block.data == s.box.log[s.box.committed..s.box.committed + |block.data|];
    if s.backend.Mock? {
      SameSession(seen.epoch, s.box.resets);
    }
    assert Exact(r, block.sessionId, block.startCount, block.data, from);
  }

  /** Within the window, equal session ids mean equal sessions. */
  lemma SameSession(a: nat, b: nat)
    requires a <= b < a + SESSION_PERIOD
    ensures SessionOf(a) == SessionOf(b) <==> a == b
  {
  }

  /** A successful commit takes exactly the block that was read. */
  lemma CommitTakes(s: System, fault: Fault)
    requires s.box.Valid() && BackendInv(s) && PhaseInv(s) && s.phase.HaveBlock?
    ensures var r := Next(s, CommitRead(fault));
            && r.box.(committed := s.box.committed) == s.box && r.box.committed >= s.box.committed
            && (r.phase.Failed? || (r.phase.Ready? && PhaseInv(r)))
            && BackendInv(r)
  {
    if s.backend.Mock? {
      MockCommitTakes(s, fault);
    } else {
      FtdiCommitTakes(s, fault);
    }
  }

  lemma FtdiCommitTakes(s: System, fault: Fault)
    requires s.box.Valid() && BackendInv(s) && PhaseInv(s) && s.phase.HaveBlock? && s.backend.Ftdi?
    ensures var r := Next(s, CommitRead(fault));
            r.box == s.box && r.phase.Ready? && PhaseInv(r) && BackendInv(r)
  {
    var r := Next(s, CommitRead(fault));
    var block, from := s.phase.block, s.phase.from;
    FtdiCommitDone(s, fault);
    assert InFlight(s, s.phase.header, block, from, true);
    FlightUnmoved(s, r, s.phase.header, block, from);
    U32Sum(from.at, |block.data|);
  }

  /** The direct backend commits by remembering which count the next header must show. */
  lemma FtdiCommitDone(s: System, fault: Fault)
    requires s.box.Valid() && s.phase.HaveBlock? && s.backend.Ftdi? && s.backend.last == Some(s.phase.block)
    ensures var block, from := s.phase.block, s.phase.from;
            Next(s, CommitRead(fault)) ==
              s.(backend := s.backend.(expected := Some(U32(block.startCount + |block.data|)), last := None),
                 phase := Ready(s.phase.header, Some(block), from),
                 confirmed := Origin(from.epoch, from.at + |block.data|))
  {
  }

  lemma FlightUnmoved(s: System, r: System, h: Header, block: Block, from: Origin)
    requires InFlight(s, h, block, from, true) && r.box == s.box && r.past == s.past
    ensures InFlight(r, h, block, from, true)
  {
    assert LogOf(r, from.epoch) == LogOf(s, from.epoch);
  }

  lemma MockCommitTakes(s: System, fault: Fault)
    requires s.box.Valid() && BackendInv(s) && PhaseInv(s) && s.phase.HaveBlock? && s.backend.Mock?
    ensures var r := Next(s, CommitRead(fault));
            && r.box.(committed := s.box.committed) == s.box && r.box.committed >= s.box.committed
            && (r.phase.Failed? || (r.phase.Ready? && PhaseInv(r)))
            && BackendInv(r)
  {
    SameSession(s.phase.from.epoch, s.box.resets);
  }

  lemma CommitKeeps(s: System, fault: Fault)
    requires SystemInv(s)
    ensures SystemInv(Next(s, CommitRead(fault)))
  {
    if s.phase.HaveBlock? {
      var r := Next(s, CommitRead(fault));
      CommitTakes(s, fault);
      assert Extends(s, r);
      forall k | 0 <= k < |s.published| ensures Precedes(s.published[k], Frontier(r)) {
        assert Precedes(s.published[k], s.phase.from);
      }
      PublishedStays(s, r);
    }
  }

  lemma PublishKeepsAll(s: System)
    requires SystemInv(s)
    ensures SystemInv(Next(s, PublishResult))
  {
    if s.phase.Ready? {
      var r := Next(s, PublishResult);
      Clients.PublishKeeps(s.hub, s.phase.header.sessionId, DataOf(s.phase.result));
      if s.phase.result.None? {
        Unchanged(s, r);
      } else {
        PublishedGrows(s);
      }
    }
  }

  lemma PublishedGrows(s: System)
    requires SystemInv(s) && s.phase.Ready? && s.phase.result.Some?
    ensures PublishedInv(Next(s, PublishResult))
  {
    var r := Next(s, PublishResult);
    var from := s.phase.from;
    assert Extends(s, r);
    forall k | 0 <= k < |r.published|
      ensures var p := r.published[k]; Exact(r, p.session, p.start, p.data, p.from) && Precedes(p, Frontier(r))
    {
      var p := r.published[k];
      if k < |s.published| {
        assert p == s.published[k];
        assert Precedes(p, from);
      }
      ExactStays(s, r, p.session, p.start, p.data, p.from);
    }
    forall j, k | 0 <= j < k < |r.published| ensures Precedes(r.published[j], r.published[k].from) {
      if k == |s.published| {
        assert Precedes(s.published[j], from);
      }
    }
  }

  lemma RecoveryKeeps(s: System, a: Action)
    requires SystemInv(s) && (a.CloseBackend? || a.OpenBackend? || a.RecheckHeader?)
    ensures SystemInv(Next(s, a))
  {
    Unchanged(s, Next(s, a));
  }

  lemma NextKeeps(s: System, a: Action)
    requires SystemInv(s) && Undisturbed(s, a)
    ensures SystemInv(Next(s, a))
  {
    match a
    case Write(data) => WriteKeeps(s, data);
    case Reset => ResetKeeps(s);
    case ScanHeader(fault) => ScanHeaderKeeps(s, fault);
    case ScanBlock(fault) => ScanBlockKeeps(s, fault);
    case CommitRead(fault) => CommitKeeps(s, fault);
    case PublishResult => PublishKeepsAll(s);
    case CloseBackend => RecoveryKeeps(s, a);
    case OpenBackend(_) => RecoveryKeeps(s, a);
    case RecheckHeader(_) => RecoveryKeeps(s, a);
    case ClientStep(op) =>
      if !op.OpPublish? {
        Clients.StepKeeps(s.hub, op);
        Unchanged(s, Next(s, a));
      }
  }

  lemma {:induction false} RunKeepsAll(s: System, actions: seq<Action>)
    requires SystemInv(s) && Calm(s, actions)
    ensures SystemInv(Run(s, actions))
    decreases |actions|
  {
    if actions == [] {
    } else {
      NextKeeps(s, actions[0]);
      RunKeepsAll(Next(s, actions[0]), actions[1..]);
    }
  }

  lemma StartedInv(blockSize: nat, depth: nat, size: nat, build: nat, ftdi: bool)
    requires Configured(blockSize, depth, size, build)
    ensures SystemInv(Started(blockSize, depth, size, build, ftdi))
  {
  }

  /** If the device is reset at no bad moment, every block is the segment its labels name. */
  lemma {:induction false} LabelsKept(blockSize: nat, depth: nat, size: nat, build: nat, ftdi: bool, actions: seq<Action>)
    requires Configured(blockSize, depth, size, build)
    requires Calm(Started(blockSize, depth, size, build, ftdi), actions)
    ensures var s := Run(Started(blockSize, depth, size, build, ftdi), actions);
            forall k :: 0 <= k < |s.published| ==>
              var p := s.published[k];
              && p.session == SessionOf(p.from.epoch) && p.start == U32(p.from.at)
              && p.End() <= |LogOf(s, p.from.epoch)|
              && p.data == LogOf(s, p.from.epoch)[p.from.at..p.End()]
  {
    StartedInv(blockSize, depth, size, build, ftdi);
    RunKeepsAll(Started(blockSize, depth, size, build, ftdi), actions);
  }
}
