/**
 What is in the device reaches the clients: once no call fails and the device is not reset, a
 bounded number of turns of the pump's loop empties mailbox and queue, whatever went before.
 */
module Draining {
  import opened Arithmetic
  import opened Bytes
  import opened Sequences
  import opened Wrappers
  import opened Mailbox
  import opened Backend
  import Clients
  import opened Bridge
  import opened BridgeSystem
  import opened BridgeOrigins
  import opened BridgeCommits
  import opened BridgeDelivery
  import opened BridgeProtocol
  import opened DebugFrames
  import opened FrameFeed
  import opened FrameStream
  import opened EndToEnd
  import FullTurns

  /** What holds in every run, whatever failed and whenever the device was reset. */
  ghost predicate Sound(s: System) {
    && StreamInv(s) && Remembered(s) && s.identity == s.box.build
    && (s.phase.Reopened? ==> IsOpen(s.backend))
  }

  /** The backend is open, what is under way belongs to the session that runs, and the next check will pass. */
  ghost predicate Fit(s: System) {
    IsOpen(s.backend)
    && match s.phase
       case Idle => s.backend.Ftdi? && s.backend.expected.Some? ==> s.backend.expected.value == U32(s.box.committed)
       case HaveHeader(_, seen) => seen.epoch == s.box.resets
       case HaveBlock(_, block, from) => from.epoch == s.box.resets && Right(block.sessionId, block.startCount, from)
       case Ready(_, result, from) =>
         result.Some? ==> from.epoch == s.box.resets && Right(result.value.sessionId, result.value.startCount, from)
       case _ => false
  }

  ghost predicate Healthy(s: System) {
    Sound(s) && Fit(s)
  }

  /** Only the commit counter of the device moves, and only forwards. */
  predicate Taken(s: System, r: System) {
    r.box.committed >= s.box.committed && r.box == s.box.(committed := r.box.committed)
  }

  lemma NextSound(s: System, a: Action)
    requires Sound(s)
    ensures Sound(Next(s, a))
  {
    hide Remembered;
    NextRemembered(s, a);
    NextStreams(s, a);
    NextWired(s, a);
    hide StreamInv;
  }

  lemma NextWired(s: System, a: Action)
    requires s.box.Valid() && (s.phase.Reopened? ==> IsOpen(s.backend))
    ensures var r := Next(s, a);
            && r.identity == s.identity && r.box.build == s.box.build
            && (r.phase.Reopened? ==> IsOpen(r.backend))
  {
  }

  lemma {:induction false} RunSound(s: System, actions: seq<Action>)
    requires Sound(s)
    ensures Sound(Run(s, actions))
    decreases |actions|
  {
    if actions == [] {
    } else {
      NextSound(s, actions[0]);
      RunSound(Next(s, actions[0]), actions[1..]);
    }
  }

  lemma StartedHealthy(blockSize: nat, depth: nat, size: nat, build: nat, ftdi: bool)
    requires Configured(blockSize, depth, size, build)
    ensures Healthy(Started(blockSize, depth, size, build, ftdi))
  {
    StartedStreams(blockSize, depth, size, build, ftdi);
    StartedRemembered(blockSize, depth, size, build, ftdi);
  }

  // ----- the steps of a pump, if nothing is wrong -----

  lemma HeaderStep(s: System)
    requires Healthy(s) && s.phase.Idle?
    ensures var r := Next(s, ScanHeader(Clean));
            && Healthy(r) && r.box == s.box && r.hub == s.hub && r.blockSize == s.blockSize
            && (if s.box.Unread() == [] then r.phase.Ready? && r.phase.result.None?
                else r.phase.HaveHeader? && r.phase.header.availableBytes == |s.box.Unread()|)
  {
    NextSound(s, ScanHeader(Clean));
    HeaderFits(s);
  }

  lemma HeaderFits(s: System)
    requires s.box.Valid() && Remembered(s) && s.identity == s.box.build && Fit(s) && s.phase.Idle?
    ensures var r := Next(s, ScanHeader(Clean));
            && Fit(r) && r.box == s.box && r.hub == s.hub && r.blockSize == s.blockSize
            && (if s.box.Unread() == [] then r.phase.Ready? && r.phase.result.None?
                else r.phase.HaveHeader? && r.phase.header.availableBytes == |s.box.Unread()|)
  {
  }

  lemma BlockStep(s: System)
    requires Healthy(s) && s.phase.HaveHeader?
    ensures var r := Next(s, ScanBlock(Clean));
            && Healthy(r) && Taken(s, r) && r.hub == s.hub && r.phase.HaveBlock?
            && r.phase.from.at == s.box.committed && Answers(s.phase.header, r.phase.block, s.blockSize)
  {
    NextSound(s, ScanBlock(Clean));
    BlockFits(s);
  }

  lemma BlockFits(s: System)
    requires s.box.Valid() && 1 <= s.blockSize <= DEFAULT_MAX_BLOCK_SIZE
    requires PhaseTraced(s) && Remembered(s) && Fit(s) && s.phase.HaveHeader?
    ensures var r := Next(s, ScanBlock(Clean));
            && Fit(r) && Taken(s, r) && r.hub == s.hub && r.phase.HaveBlock?
            && r.phase.from.at == s.box.committed && Answers(s.phase.header, r.phase.block, s.blockSize)
  {
  }

  lemma CommitStep(s: System)
    requires Healthy(s) && s.phase.HaveBlock?
    ensures var r := Next(s, CommitRead(Clean));
            && Healthy(r) && Taken(s, r) && r.hub == s.hub && r.phase.Ready? && r.phase.result.Some?
            && r.box.committed == s.phase.from.at + |s.phase.block.data| > s.phase.from.at
  {
    NextSound(s, CommitRead(Clean));
    CommitFits(s);
  }

  lemma CommitFits(s: System)
    requires s.box.Valid() && PhaseTraced(s) && Remembered(s) && Fit(s) && s.phase.HaveBlock?
    ensures var r := Next(s, CommitRead(Clean));
            && Fit(r) && Taken(s, r) && r.hub == s.hub && r.phase.Ready? && r.phase.result.Some?
            && r.box.committed == s.phase.from.at + |s.phase.block.data| > s.phase.from.at
  {
  }

  lemma PublishStep(s: System)
    requires Healthy(s) && s.phase.Ready?
    ensures var r := Next(s, PublishResult);
            && Healthy(r) && r.box == s.box && r.phase.Idle?
            && r.hub == Clients.Publish(s.hub, s.phase.header.sessionId, DataOf(s.phase.result))
  {
    NextSound(s, PublishResult);
    PublishFits(s);
  }

  lemma PublishFits(s: System)
    requires s.box.Valid() && PhaseTraced(s) && Remembered(s) && Fit(s) && s.phase.Ready?
    ensures var r := Next(s, PublishResult);
            && Fit(r) && r.box == s.box && r.phase.Idle?
            && r.hub == Clients.Publish(s.hub, s.phase.header.sessionId, DataOf(s.phase.result))
  {
    if s.phase.result.Some? {
      U32Sum(s.phase.from.at, |s.phase.result.value.data|);
    }
  }

  lemma NextHealthy(s: System, a: Action)
    requires Healthy(s) && FaultFree(a) && !a.Reset?
    ensures Healthy(Next(s, a))
  {
    NextSound(s, a);
    match a
    case ScanHeader(_) =>
      if s.phase.Idle? {
        HeaderStep(s);
      }
    case ScanBlock(_) =>
      if s.phase.HaveHeader? {
        BlockStep(s);
      }
    case CommitRead(_) =>
      if s.phase.HaveBlock? {
        CommitStep(s);
      }
    case PublishResult =>
      if s.phase.Ready? {
        PublishStep(s);
      }
    case _ => hide Sound;
  }

  lemma {:induction false} RunHealthy(s: System, actions: seq<Action>)
    requires Healthy(s) && AllFaultFree(actions) && NoReset(actions)
    ensures Healthy(Run(s, actions))
    decreases |actions|
  {
    if actions == [] {
    } else {
      assert FaultFree(actions[0]) && !actions[0].Reset?;
      NextHealthy(s, actions[0]);
      RunHealthy(Next(s, actions[0]), actions[1..]);
    }
  }

  // ----- one pump -----

  const PUMP: seq<Action> := [ScanHeader(Clean), ScanBlock(Clean), CommitRead(Clean), PublishResult]

  function Pumped(s: System): (r: System)
    requires s.box.Valid()
    ensures r.box.Valid()
  {
    Next(Next(Next(Next(s, ScanHeader(Clean)), ScanBlock(Clean)), CommitRead(Clean)), PublishResult)
  }

  lemma PumpRuns(s: System)
    requires s.box.Valid()
    ensures Run(s, PUMP) == Pumped(s)
  {
    RunCons(s, ScanHeader(Clean), [ScanBlock(Clean), CommitRead(Clean), PublishResult]);
    RunThree(Next(s, ScanHeader(Clean)), ScanBlock(Clean), CommitRead(Clean), PublishResult);
  }

  /** One pump finishes what is under way and, from rest, takes a block if there is one. */
  lemma PumpDone(s: System) returns (session: nat, payload: Option<bytes>)
    requires Healthy(s)
    ensures var r := Pumped(s);
            && Healthy(r) && r.phase.Idle? && Taken(s, r) && r.hub == Clients.Publish(s.hub, session, payload)
            && (s.phase.Idle? ==> Fills(r.box.committed - s.box.committed, |s.box.Unread()|, s.blockSize))
  {
    var one := Next(s, ScanHeader(Clean));
    if s.phase.Idle? {
      HeaderStep(s);
    }
    var two := Next(one, ScanBlock(Clean));
    if one.phase.HaveHeader? {
      BlockStep(one);
    }
    var three := Next(two, CommitRead(Clean));
    if two.phase.HaveBlock? {
      CommitStep(two);
    }
    PublishStep(three);
    session, payload := three.phase.header.sessionId, DataOf(three.phase.result);
  }

  // ----- one pump and the recovery behind it, whatever was wrong -----

  const RECOVERY: seq<Action> := [CloseBackend, OpenBackend(Clean), RecheckHeader(Clean)]

  function Recovered(s: System): (r: System)
    requires s.box.Valid()
    ensures r.box.Valid()
  {
    Next(Next(Next(s, CloseBackend), OpenBackend(Clean)), RecheckHeader(Clean))
  }

  /** No transaction is under way. */
  predicate Between(s: System) {
    s.phase.Idle? || s.phase.Failed? || s.phase.Closed? || s.phase.Reopened?
  }

  /** Closing, opening and checking again leaves nothing wrong. */
  lemma RecoveryDone(s: System)
    requires Sound(s) && Between(s)
    ensures var r := Recovered(s);
            && Sound(r) && r.phase.Idle? && r.box == s.box && r.hub == s.hub
            && (if s.phase.Idle? then r == s else Fit(r))
  {
    var closed := Next(s, CloseBackend);
    NextSound(s, CloseBackend);
    var open := Next(closed, OpenBackend(Clean));
    NextSound(closed, OpenBackend(Clean));
    NextSound(open, RecheckHeader(Clean));
    RecoveryFits(s);
  }

  lemma RecoveryFits(s: System)
    requires s.box.Valid() && Remembered(s) && s.identity == s.box.build && Between(s)
    requires s.phase.Reopened? ==> IsOpen(s.backend)
    ensures var r := Recovered(s);
            && r.phase.Idle? && r.box == s.box && r.hub == s.hub && (if s.phase.Idle? then r == s else Fit(r))
  {
  }

  /** A pump from any state: it fails or publishes at most one result, and takes nothing twice. */
  lemma PumpMoves(s: System) returns (session: nat, payload: Option<bytes>)
    requires Sound(s)
    ensures var r := Pumped(s);
            Sound(r) && Between(r) && Taken(s, r) && r.hub == Clients.Publish(s.hub, session, payload)
  {
    var one := Next(s, ScanHeader(Clean));
    NextSound(s, ScanHeader(Clean));
    HeaderMoves(s);
    var two := Next(one, ScanBlock(Clean));
    NextSound(one, ScanBlock(Clean));
    BlockMoves(one);
    var three := Next(two, CommitRead(Clean));
    NextSound(two, CommitRead(Clean));
    CommitMoves(two);
    NextSound(three, PublishResult);
    hide Sound;
    if three.phase.Ready? {
      session, payload := three.phase.header.sessionId, DataOf(three.phase.result);
    } else {
      session, payload := s.hub.session, None;
    }
  }

  lemma HeaderMoves(s: System)
    requires s.box.Valid()
    ensures var r := Next(s, ScanHeader(Clean)); r.box == s.box && r.hub == s.hub && !r.phase.Idle?
  {
  }

  lemma BlockMoves(s: System)
    requires s.box.Valid() && !s.phase.Idle?
    ensures var r := Next(s, ScanBlock(Clean));
            Taken(s, r) && r.hub == s.hub && !r.phase.Idle? && !r.phase.HaveHeader?
  {
  }

  lemma CommitMoves(s: System)
    requires s.box.Valid() && !s.phase.Idle? && !s.phase.HaveHeader?
    ensures var r := Next(s, CommitRead(Clean));
            Taken(s, r) && r.hub == s.hub && !r.phase.Idle? && !r.phase.HaveHeader? && !r.phase.HaveBlock?
  {
  }

  /** From rest a pump fails at once, or nothing is wrong. */
  lemma PumpFromRest(s: System)
    requires Sound(s) && s.phase.Idle?
    ensures Pumped(s).phase.Failed? || Fit(Pumped(s))
  {
    var one := Next(s, ScanHeader(Clean));
    NextSound(s, ScanHeader(Clean));
    HeaderFailsOrFits(s);
    if one.phase.Failed? {
      assert Pumped(s) == one;
    } else {
      assert Pumped(s) == Pumped(one);
      var session, payload := PumpDone(one);
    }
  }

  lemma HeaderFailsOrFits(s: System)
    requires s.box.Valid() && Remembered(s) && s.phase.Idle?
    ensures var r := Next(s, ScanHeader(Clean));
            r.phase.Failed? || (Fit(r) && (r.phase.HaveHeader? || r.phase.Ready?))
  {
  }

  /** One turn of the pump's loop: a pump, and the recovery if it failed. */
  lemma TurnDone(s: System) returns (r: System, session: nat, payload: Option<bytes>)
    requires Sound(s)
    ensures r == Run(s, PUMP + RECOVERY) && Sound(r) && r.phase.Idle? && Taken(s, r)
    ensures r.hub == Clients.Publish(s.hub, session, payload)
    ensures Fit(s) || s.phase.Idle? ==> Fit(r)
    ensures Fit(s) && s.phase.Idle? ==> Fills(r.box.committed - s.box.committed, |s.box.Unread()|, s.blockSize)
  {
    var pumped := Pumped(s);
    PumpRuns(s);
    RunAppend(s, PUMP, RECOVERY);
    RunThree(pumped, CloseBackend, OpenBackend(Clean), RecheckHeader(Clean));
    r := Recovered(pumped);
    if Fit(s) {
      session, payload := PumpDone(s);
    } else {
      session, payload := PumpMoves(s);
      if s.phase.Idle? {
        PumpFromRest(s);
      }
    }
    hide Fit, Sound, Next;
    RecoveryDone(pumped);
  }

  // ----- one client -----

  /** A served client whose queue has been sent. */
  predicate Waiting(h: Clients.Hub, id: nat) {
    id in h.clients && h.clients[id].listed && !h.clients[id].closed && h.clients[id].queue == []
  }

  /** A served client with at most `n` records to be sent. */
  predicate Behind(h: Clients.Hub, id: nat, n: nat) {
    && id in h.clients && h.clients[id].listed && !h.clients[id].closed
    && |h.clients[id].queue| <= n && None !in h.clients[id].queue
  }

  /**
   A publication puts a SESSION and a DATA record into a queue at once. A client that has been
   sent everything survives it exactly if it has room for both, or needs room for one only.
   */
  lemma PublishRoom(h: Clients.Hub, id: nat, session: nat, payload: Option<bytes>)
    requires Waiting(h, id) && h.depth >= 1
    ensures Clients.Publish(h, session, payload).clients.Keys == h.clients.Keys
    ensures Clients.Publish(h, session, payload).clients[id].since == h.clients[id].since
    ensures Clients.Publish(h, session, payload).clients[id].listed
       <==> h.depth >= 2 || session == h.session || payload.None?
    ensures h.depth >= 2 ==> Behind(Clients.Publish(h, session, payload), id, 2)
  {
  }

  /** A client whose queue holds one record is lost with the first block it could have got. */
  lemma QueueOfOneCutsOff()
    ensures var joined := Next(Started(1024, 1, 4096, 0, true), ClientStep(Clients.OpJoin(0)));
            var r := Run(joined, FullTurns.FirstPump([7]));
            Waiting(joined.hub, 0) && 0 in r.hub.clients && !r.hub.clients[0].listed && r.published != []
  {
    var start := Started(1024, 1, 4096, 0, true);
    var joined := Next(start, ClientStep(Clients.OpJoin(0)));
    FullTurns.FirstPumped(joined, [7]);
    PublishRoom(joined.hub, 0, SessionOf(0), Some([7]));
  }

  function Pops(id: nat, n: nat): seq<Action> {
    seq(n, _ => ClientStep(Clients.OpPop(id)))
  }

  lemma {:induction false} PopsSend(s: System, id: nat, n: nat)
    requires s.box.Valid() && Behind(s.hub, id, n)
    ensures var r := Run(s, Pops(id, n));
            && r == s.(hub := r.hub) && Waiting(r.hub, id) && r.hub.depth == s.hub.depth
            && r.hub.clients[id].since == s.hub.clients[id].since
    decreases n
  {
    if n == 0 {
    } else {
      assert Pops(id, n)[1..] == Pops(id, n - 1);
      var queue := s.hub.clients[id].queue;
      assert queue != [] ==> queue[0] in queue && forall x :: x in queue[1..] ==> x in queue;
      PopsSend(Next(s, ClientStep(Clients.OpPop(id))), id, n - 1);
    }
  }

  // ----- rounds -----

  /** One turn of the pump's loop, and of the client's writer two. */
  function Round(id: nat): seq<Action> {
    PUMP + RECOVERY + Pops(id, 2)
  }

  function Rounds(id: nat, n: nat): seq<Action> {
    if n == 0 then [] else Round(id) + Rounds(id, n - 1)
  }

  lemma OneRound(s: System, id: nat) returns (r: System)
    requires Sound(s) && s.hub.depth >= 2 && Waiting(s.hub, id)
    ensures r == Run(s, Round(id)) && Sound(r) && r.phase.Idle? && Taken(s, r)
    ensures r.hub.depth == s.hub.depth && Waiting(r.hub, id)
    ensures r.hub.clients[id].since == s.hub.clients[id].since
    ensures Left(r) < Left(s) || Left(r) == Left(s) == 0
  {
    var turned, session, payload := TurnDone(s);
    PublishRoom(s.hub, id, session, payload);
    PublishDepth(s.hub, session, payload);
    PopsSend(turned, id, 2);
    RunAppend(s, PUMP + RECOVERY, Pops(id, 2));
    RunSound(turned, Pops(id, 2));
    r := Run(turned, Pops(id, 2));
    assert Fit(r) == Fit(turned);
    DepthKept(s, Round(id));
    hide Fit, Sound, Run;
    LeftFalls(s, r);
  }

  lemma LeftFalls(s: System, r: System)
    requires s.box.Valid() && r.box.Valid() && Taken(s, r) && r.phase.Idle? && (Fit(s) || s.phase.Idle? ==> Fit(r))
    requires s.blockSize == r.blockSize >= 1
    requires Fit(s) && s.phase.Idle? ==> Fills(r.box.committed - s.box.committed, |s.box.Unread()|, s.blockSize)
    ensures Left(r) < Left(s) || Left(r) == Left(s) == 0
  {
    var n, taken := |s.box.Unread()|, r.box.committed - s.box.committed;
    assert |r.box.Unread()| == n - taken;
    FewerBlocks(n, taken, s.blockSize);
  }

  /** When nothing is left, nothing is under way either. */
  lemma NothingLeft(s: System)
    requires s.box.Valid() && s.blockSize >= 1 && Left(s) == 0
    ensures s.box.Unread() == [] && s.phase.Idle? && Fit(s)
  {
    BlocksBound(|s.box.Unread()|, s.blockSize);
  }

  lemma LeftBound(s: System, blockSize: nat)
    requires s.box.Valid() && s.blockSize == blockSize >= 1
    ensures Left(s) <= Blocks(|s.box.Unread()|, blockSize) + 2
    ensures Fit(s) ==> Left(s) <= Blocks(|s.box.Unread()|, blockSize) + 1
  {
  }

  lemma LeftSame(s: System, r: System)
    requires s.box.Valid() && r == s.(hub := r.hub)
    ensures Left(r) == Left(s)
  {
    hide Blocks;
  }

  /** How many blocks `n` bytes need. */
  function Blocks(n: nat, blockSize: nat): nat
    requires blockSize >= 1
  {
    (n + blockSize - 1) / blockSize
  }

  lemma FewerBlocks(n: nat, taken: nat, blockSize: nat)
    requires taken <= n && blockSize >= 1
    ensures Blocks(n - taken, blockSize) <= Blocks(n, blockSize)
    ensures n > 0 && Fills(taken, n, blockSize) ==> Blocks(n - taken, blockSize) < Blocks(n, blockSize)
    ensures Blocks(n, blockSize) == 0 <==> n == 0
  {
    BlocksBound(n, blockSize);
    BlocksBound(n - taken, blockSize);
    hide Blocks;
    CountsFall(n, taken, blockSize, Blocks(n, blockSize), Blocks(n - taken, blockSize));
  }

  lemma CountsFall(n: nat, taken: nat, size: nat, more: nat, less: nat)
    requires taken <= n && size >= 1
    requires n <= size * more < n + size && n - taken <= size * less < n - taken + size
    requires (more == 0 <==> n == 0) && (less == 0 <==> n == taken)
    ensures less <= more && (n > 0 && Fills(taken, n, size) ==> less < more)
  {
    assert size * (more + 1) == size * more + size;
    if less > more {
      Multiples(size, more + 1, less);
    }
  }

  /** Exactly enough blocks, one fewer is too few. */
  lemma BlocksBound(n: nat, blockSize: nat)
    requires blockSize >= 1
    ensures var k := Blocks(n, blockSize); n <= blockSize * k < n + blockSize && (k == 0 <==> n == 0)
  {
    var value := n + blockSize - 1;
    var k := value / blockSize;
    assert value == blockSize * k + value % blockSize;
    assert k == 0 ==> blockSize * k == 0;
    if n == 0 {
      QuotientUnique(value, blockSize, 0, value);
    }
  }

  lemma Multiples(size: nat, a: int, b: int)
    requires a <= b
    ensures size * a <= size * b
  {
    assert size * (b - a) >= 0;
    assert size * b == size * a + size * (b - a);
  }

  lemma PublishDepth(h: Clients.Hub, session: nat, payload: Option<bytes>)
    ensures Clients.Publish(h, session, payload).depth == h.depth
  {
  }

  /** Rounds that may pass before blocks are taken: one to finish what is under way, one to recover. */
  ghost function Lag(s: System): nat {
    (if s.phase.Idle? then 0 else 1) + (if Fit(s) then 0 else 1)
  }

  /** Enough rounds to empty the mailbox. */
  ghost function Left(s: System): nat
    requires s.box.Valid()
  {
    (if s.blockSize == 0 then 0 else Blocks(|s.box.Unread()|, s.blockSize)) + Lag(s)
  }

  /** `n` rounds were made for a waiting client. */
  ghost predicate Rounded(s: System, r: System, id: nat, n: nat) {
    && Sound(s) && Sound(r) && Taken(s, r) && Waiting(s.hub, id) && Waiting(r.hub, id)
    && r.hub.depth == s.hub.depth && r.hub.clients[id].since == s.hub.clients[id].since
    && Left(r) <= if n <= Left(s) then Left(s) - n else 0
  }

  lemma RoundedNone(s: System, id: nat)
    requires Sound(s) && Waiting(s.hub, id)
    ensures Rounded(s, s, id, 0) && Run(s, Rounds(id, 0)) == s
  {
    hide Sound;
    SoundBox(s);
  }

  lemma SoundBox(s: System)
    requires Sound(s)
    ensures s.box.Valid()
  {
  }

  lemma FirstRound(s: System, id: nat) returns (r: System)
    requires Sound(s) && s.hub.depth >= 2 && Waiting(s.hub, id)
    ensures r == Run(s, Round(id)) && Rounded(s, r, id, 1)
    ensures Sound(r) && r.hub.depth >= 2 && Waiting(r.hub, id)
  {
    hide Sound, Left, Run, Round;
    SoundBox(s);
    r := OneRound(s, id);
    SoundBox(r);
  }

  lemma RoundedFurther(s: System, once: System, r: System, id: nat, n: nat)
    requires Rounded(s, once, id, 1) && Rounded(once, r, id, n)
    ensures Rounded(s, r, id, n + 1)
  {
    hide Sound, Left;
    SoundBox(s);
    SoundBox(once);
    SoundBox(r);
  }

  lemma {:induction false} RoundsDrain(s: System, id: nat, n: nat) returns (r: System)
    requires Sound(s) && s.hub.depth >= 2 && Waiting(s.hub, id)
    ensures r == Run(s, Rounds(id, n)) && Rounded(s, r, id, n)
    decreases n
  {
    hide Sound, Left, Waiting, Round, Rounds, Run, Rounded;
    SoundBox(s);
    if n == 0 {
      r := s;
      RoundedNone(s, id);
    } else {
      var once := FirstRound(s, id);
      r := RoundsDrain(once, id, n - 1);
      RoundedFurther(s, once, r, id, n - 1);
      RoundsGoOn(s, id, n);
    }
  }

  lemma RoundsGoOn(s: System, id: nat, n: nat)
    requires s.box.Valid() && n > 0
    ensures Run(Run(s, Round(id)), Rounds(id, n - 1)) == Run(s, Rounds(id, n))
  {
    RunAppend(s, Round(id), Rounds(id, n - 1));
  }

  /** First what is in the queue, then rounds. */
  function Emptying(id: nat, queued: nat, n: nat): seq<Action> {
    Pops(id, queued) + Rounds(id, n)
  }

  lemma Drained(s: System, id: nat, n: nat) returns (r: System)
    requires Sound(s) && s.hub.depth >= 2 && id in s.hub.clients && s.hub.clients[id].listed
    requires n >= Left(s)
    ensures r == Run(s, Emptying(id, |s.hub.clients[id].queue|, n))
    ensures Sound(r) && Taken(s, r) && Waiting(r.hub, id) && r.box.Unread() == []
    ensures r.phase.Idle? && Fit(r) && r.hub.clients[id].since == s.hub.clients[id].since
  {
    var queued := |s.hub.clients[id].queue|;
    assert Clients.Served(s.hub.clients[id], s.hub.log, s.hub.depth);
    PopsSend(s, id, queued);
    RunSound(s, Pops(id, queued));
    var sent := Run(s, Pops(id, queued));
    hide Left, Blocks, Run;
    LeftSame(s, sent);
    r := RoundsDrain(sent, id, n);
    DepthKept(sent, Rounds(id, n));
    NothingLeft(r);
    hide Sound;
    RunAppend(s, Pops(id, queued), Rounds(id, n));
  }

  /**
   Whatever has failed and however often the device was reset: once calls succeed again and the
   device stays up, two rounds more than the blocks that the unread bytes fill bring the bridge
   back and empty the mailbox, and a client still served, with room for two records, is sent it all.
   */
  lemma {:induction false} AlwaysDrains(blockSize: nat, depth: nat, size: nat, build: nat, ftdi: bool,
                                        actions: seq<Action>, id: nat, n: nat)
    requires Configured(blockSize, depth, size, build) && depth >= 2
    requires var s := Run(Started(blockSize, depth, size, build, ftdi), actions);
             && id in s.hub.clients && s.hub.clients[id].listed && n >= Blocks(|s.box.Unread()|, blockSize) + 2
    ensures var s := Run(Started(blockSize, depth, size, build, ftdi), actions);
            var r := Run(s, Emptying(id, |s.hub.clients[id].queue|, n));
            && r.phase.Idle? && IsOpen(r.backend) && Taken(s, r) && r.box.Unread() == []
            && Waiting(r.hub, id) && r.hub.clients[id].since <= |r.hub.log|
            && r.hub.clients[id].sent == Clients.Owed(r.hub.clients[id], r.hub.log)
  {
    var start := Started(blockSize, depth, size, build, ftdi);
    StartedHealthy(blockSize, depth, size, build, ftdi);
    RunSound(start, actions);
    DepthKept(start, actions);
    hide Run, Left, Blocks;
    LeftBound(Run(start, actions), blockSize);
    var r := Drained(Run(start, actions), id, n);
    var c := r.hub.clients[id];
    assert Clients.Served(c, r.hub.log, r.hub.depth);
    assert c.sent + [] == c.sent;
  }

  // ----- everything arrives -----

  lemma {:induction false} RoundsQuiet(id: nat, n: nat)
    ensures AllFaultFree(Rounds(id, n)) && NoReset(Rounds(id, n)) && Offered(Rounds(id, n)) == []
  {
    if n == 0 {
    } else {
      RoundsQuiet(id, n - 1);
      PumpQuiet();
      PopsQuiet(id, 2);
      OfferedAppend(PUMP, RECOVERY);
      OfferedAppend(PUMP + RECOVERY, Pops(id, 2));
      OfferedAppend(Round(id), Rounds(id, n - 1));
    }
  }

  lemma PumpQuiet()
    ensures AllFaultFree(PUMP) && NoReset(PUMP) && Offered(PUMP) == []
    ensures AllFaultFree(RECOVERY) && NoReset(RECOVERY) && Offered(RECOVERY) == []
  {
    assert RECOVERY[1..] == [OpenBackend(Clean), RecheckHeader(Clean)] && RECOVERY[1..][1..] == [RecheckHeader(Clean)];
    assert Offered(RECOVERY) == Offered(RECOVERY[1..]) == Offered(RECOVERY[1..][1..]);
    var two := [CommitRead(Clean), PublishResult];
    assert PUMP[1..][1..] == two && two[1..][1..] == [];
    assert Offered(two) == Offered(two[1..]) == Offered(two[1..][1..]);
    assert Offered(PUMP) == Offered(PUMP[1..]) == Offered(PUMP[1..][1..]);
  }

  lemma {:induction false} PopsQuiet(id: nat, n: nat)
    ensures AllFaultFree(Pops(id, n)) && NoReset(Pops(id, n)) && Offered(Pops(id, n)) == []
  {
    if n == 0 {
    } else {
      assert Pops(id, n)[1..] == Pops(id, n - 1);
      PopsQuiet(id, n - 1);
    }
  }

  lemma {:induction false} OfferedAppend(a: seq<Action>, b: seq<Action>)
    ensures Offered(a + b) == Offered(a) + Offered(b)
    decreases |a|
  {
    if a == [] {
      assert a + b == b;
    } else {
      assert (a + b)[1..] == a[1..] + b;
      OfferedAppend(a[1..], b);
      AppendAssociates(if a[0].Write? then a[0].data else [], Offered(a[1..]), Offered(b));
    }
  }

  lemma DrainQuiet(actions: seq<Action>, id: nat, queued: nat, n: nat)
    requires AllFaultFree(actions) && NoReset(actions)
    ensures var all := actions + Emptying(id, queued, n);
            AllFaultFree(all) && NoReset(all) && Offered(all) == Offered(actions)
  {
    PopsQuiet(id, queued);
    RoundsQuiet(id, n);
    OfferedAppend(Pops(id, queued), Rounds(id, n));
    OfferedAppend(actions, Emptying(id, queued, n));
    assert Offered(actions) + [] == Offered(actions);
  }

  /**
   Everything arrives: after any such run, more rounds than the unread bytes fill blocks bring every
   message that was written to its end to a client that was there from the start and has not been
   cut off, if its queue has room for two records. However the socket cuts what it is then sent,
   its decoder delivers these messages, once each and in order.
   */
  lemma {:induction false} AllFramesArrive(blockSize: nat, depth: nat, size: nat, build: nat, ftdi: bool,
                                           actions: seq<Action>, messages: seq<Message>, id: nat, n: nat,
                                           json: Item -> bytes, received: seq<bytes>)
      returns (k: nat)
    requires Configured(blockSize, depth, size, build) && depth >= 2 && AllFaultFree(actions) && NoReset(actions)
    requires AllCarried(messages) && Offered(actions) <= Stream(messages)
    requires var s := Run(Started(blockSize, depth, size, build, ftdi), actions);
             && s.box.dropped == 0 && n > Blocks(|s.box.Unread()|, blockSize)
             && id in s.hub.clients && s.hub.clients[id].since == 0 && s.hub.clients[id].listed
             && var r := Run(s, Emptying(id, |s.hub.clients[id].queue|, n));
                && id in r.hub.clients && Short(r.hub.clients[id].sent, json)
                && Concat(received) == WireAll(EncodeAll(r.hub.clients[id].sent, json))
    ensures DecodeChunks([], received).Ok?
    ensures Ended(messages, k, |Offered(actions)|) && (Offered(actions) == Stream(messages) ==> k == |messages|)
    ensures FeedAll(Validator, FRESH, DataPayloads(DecodeChunks([], received).value.records)).tally
         == Tally(AllDelivered(messages[..k]), 0, 0, k > 0, [])
  {
    var start := Started(blockSize, depth, size, build, ftdi);
    var s := Run(start, actions);
    var queued := |s.hub.clients[id].queue|;
    StartedHealthy(blockSize, depth, size, build, ftdi);
    RunHealthy(start, actions);
    DepthKept(start, actions);
    hide Left, Blocks;
    LeftBound(s, blockSize);
    var r := Drained(s, id, n);
    var all := actions + Emptying(id, queued, n);
    RunAppend(start, actions, Emptying(id, queued, n));
    DrainQuiet(actions, id, queued, n);
    var records, count := FramesArrive(blockSize, depth, size, build, ftdi, all, messages, id, json, received);
    k := count;
  }

  lemma {:induction false} DepthKept(s: System, actions: seq<Action>)
    requires s.box.Valid()
    ensures Run(s, actions).hub.depth == s.hub.depth && Run(s, actions).blockSize == s.blockSize
    decreases |actions|
  {
    if actions == [] {
    } else {
      DepthKept(Next(s, actions[0]), actions[1..]);
    }
  }
}
