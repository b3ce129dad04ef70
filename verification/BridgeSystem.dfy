/**
 Device, transport, bridge and clients together, one step at a time. Device writes and
 resets may fall between any two steps of a transaction, and any call may fail.
 */
module BridgeSystem {
  import opened Bytes
  import opened Wrappers
  import opened MailboxHeader
  import opened Mailbox
  import opened Backend
  import opened Clients
  import opened Bridge

  /** Where a block really came from: the session it was read in, and its place in that session's log. */
  datatype Origin = Origin(epoch: nat, at: nat)

  /** How far the pump is. `seen` and `from` are what an observer of the device would note. */
  datatype Phase =
    | Idle
    | HaveHeader(header: Header, seen: Origin)
    | HaveBlock(header: Header, block: Block, from: Origin)
    | Ready(header: Header, result: Option<Block>, from: Origin)
    | Failed
    | Closed
    | Reopened

  /** A published block with its labels and its origin. */
  datatype Published = Published(session: nat, start: nat, data: bytes, from: Origin)
  {
    function End(): nat {
      from.at + |data|
    }
  }

  /** `past` keeps the final logs of earlier sessions, `committed` the last commit the host made. */
  datatype System = System(identity: nat, blockSize: nat, box: Box, backend: State, phase: Phase, hub: Hub,
                           past: seq<bytes>, published: seq<Published>, confirmed: Origin)

  datatype Action =
    | Write(data: bytes)
    | Reset
    | ScanHeader(fault: Fault)
    | ScanBlock(fault: Fault)
    | CommitRead(fault: Fault)
    | PublishResult
    | CloseBackend
    | OpenBackend(fault: Fault)
    | RecheckHeader(fault: Fault)
    | ClientStep(op: Clients.Op)

  function Here(box: Box): Origin {
    Origin(box.resets, box.committed)
  }

  function HeaderDone(s: System, r: (Result<Header, BackendError>, State)): System {
    match r
    case (Err(_), b) => s.(backend := b, phase := Failed)
    case (Ok(h), b) =>
      s.(backend := b,
         phase := if h.buildId != s.identity then Failed
                  else if h.availableBytes == 0 then Ready(h, None, Here(s.box))
                  else HaveHeader(h, Here(s.box)))
  }

  function BlockDone(s: System, h: Header, r: (Result<Block, BackendError>, State, Box)): System {
    match r
    case (Err(_), b, box) => s.(backend := b, box := box, phase := Failed)
    case (Ok(block), b, box) =>
      s.(backend := b, box := box,
         phase := if Matches(h, block, s.blockSize) then HaveBlock(h, block, Here(s.box)) else Failed)
  }

  function CommitDone(s: System, r: (Result<(), BackendError>, State, Box)): System
    requires s.phase.HaveBlock?
  {
    match r
    case (Err(_), b, box) => s.(backend := b, box := box, phase := Failed)
    case (Ok(_), b, box) =>
      s.(backend := b, box := box, phase := Ready(s.phase.header, Some(s.phase.block), s.phase.from),
         confirmed := Origin(s.phase.from.epoch, s.phase.from.at + |s.phase.block.data|))
  }

  /** One step; an action that does not fit the phase does nothing. */
  function Next(s: System, a: Action): (r: System)
    requires s.box.Valid()
    ensures r.box.Valid()
  {
    match a
    case Write(data) => s.(box := Offer(s.box, data))
    case Reset => s.(box := Mailbox.Reset(s.box), past := s.past + [s.box.log])
    case ScanHeader(fault) =>
      if s.phase.Idle? then HeaderDone(s, ReadHeader(s.backend, s.box, fault)) else s
    case ScanBlock(fault) =>
      if s.phase.HaveHeader? then
        BlockDone(s, s.phase.header, ReadBlock(s.backend, s.box, BlockLength(s.phase.header, s.blockSize), fault))
      else s
    case CommitRead(fault) =>
      if s.phase.HaveBlock? then CommitDone(s, CommitBlock(s.backend, s.box, s.phase.block, fault)) else s
    case PublishResult =>
      if !s.phase.Ready? then s
      else
        s.(hub := Clients.Publish(s.hub, s.phase.header.sessionId, DataOf(s.phase.result)),
           published := if s.phase.result.None? then s.published
                        else s.published + [Published(s.phase.result.value.sessionId, s.phase.result.value.startCount,
                                                      s.phase.result.value.data, s.phase.from)],
           phase := Idle)
    case CloseBackend => if s.phase.Failed? then s.(backend := Close(s.backend), phase := Closed) else s
    case OpenBackend(fault) =>
      if !s.phase.Closed? then s
      else
        (match Open(s.backend, s.box, fault)
         case (Err(_), b) => s.(backend := b, phase := Idle)
         case (Ok(_), b) => s.(backend := b, phase := Reopened))
    case RecheckHeader(fault) =>
      if !s.phase.Reopened? then s
      else
        (match ReadHeader(s.backend, s.box, fault)
         case (Err(_), b) => s.(backend := b, phase := Idle)
         case (Ok(h), b) => s.(backend := if h.buildId != s.identity then Close(b) else b, phase := Idle))
    case ClientStep(op) => if op.OpPublish? then s else s.(hub := Clients.Step(s.hub, op))
  }

  function Run(s: System, actions: seq<Action>): (r: System)
    requires s.box.Valid()
    ensures r.box.Valid()
    decreases |actions|
  {
    if actions == [] then s else Run(Next(s, actions[0]), actions[1..])
  }

  predicate Configured(blockSize: nat, depth: nat, size: nat, build: nat) {
    && 1 <= blockSize <= DEFAULT_MAX_BLOCK_SIZE && depth >= 1
    && size in SUPPORTED_BUFFER_SIZES && build < U32_RANGE
  }

  /** A bridge started on a freshly powered device through either transport. */
  function Started(blockSize: nat, depth: nat, size: nat, build: nat, ftdi: bool): (s: System)
    requires Configured(blockSize, depth, size, build)
    ensures s.box.Valid()
  {
    var box := PowerUp(size, build);
    var backend := if ftdi then Ftdi(build, true, Some(HeaderOf(box)), None, None, 0) else Mock(true);
    System(build, blockSize, box, backend, Idle, Opened(depth), [], [], Origin(0, 0))
  }

  /**
   The two assumptions on the device. The direct backend labels a payload scan from the header
   it read before, so the device must not reset between those two scans. The other backend
   notices resets by the session id, so it must not go through all ids in one transaction.
   */
  predicate Undisturbed(s: System, a: Action) {
    match s.phase
    case HaveHeader(_, seen) =>
      if s.backend.Ftdi? then !a.Reset?
      else a.Reset? ==> s.box.resets + 1 - seen.epoch < SESSION_PERIOD
    case HaveBlock(_, _, from) =>
      s.backend.Mock? && a.Reset? ==> s.box.resets + 1 - from.epoch < SESSION_PERIOD
    case _ => true
  }

  predicate Calm(s: System, actions: seq<Action>)
    requires s.box.Valid()
    decreases |actions|
  {
    actions == [] || (Undisturbed(s, actions[0]) && Calm(Next(s, actions[0]), actions[1..]))
  }

  /** What the session numbered `epoch` has accepted. */
  function LogOf(s: System, epoch: nat): bytes {
    if epoch == s.box.resets then s.box.log else if epoch < |s.past| then s.past[epoch] else []
  }

  ghost predicate Exact(s: System, session: nat, start: nat, data: bytes, from: Origin) {
    && from.epoch <= s.box.resets
    && session == SessionOf(from.epoch) && start == U32(from.at) && 0 < |data| <= DEFAULT_MAX_BLOCK_SIZE
    && from.at + |data| <= |LogOf(s, from.epoch)|
    && data == LogOf(s, from.epoch)[from.at..from.at + |data|]
  }

  ghost predicate BackendInv(s: System) {
    match s.backend
    case Mock(_) => true
    case Ftdi(build, _, header, last, expected, _) =>
      && build == s.box.build
      && (last.Some? <==> s.phase.HaveBlock?) && (last.Some? ==> last == Some(s.phase.block))
      && (s.phase.HaveHeader? ==> header == Some(s.phase.header))
      && (expected.Some? ==>
            && expected.value == U32(s.confirmed.at) && s.confirmed.epoch <= s.box.resets
            && (s.phase.Idle? || s.phase.Ready? || s.phase.Failed?)
            && (s.confirmed.epoch == s.box.resets ==> s.confirmed.at == s.box.committed))
  }

  /** A block that is read but not yet published. */
  ghost predicate InFlight(s: System, h: Header, block: Block, from: Origin, taken: bool) {
    && Exact(s, block.sessionId, block.startCount, block.data, from)
    && block.sessionId == h.sessionId
    && (from.epoch == s.box.resets ==> s.box.committed == if taken then from.at + |block.data| else from.at)
    && (from.epoch < s.box.resets ==> s.box.committed == 0)
  }

  ghost predicate PhaseInv(s: System) {
    match s.phase
    case HaveHeader(h, seen) =>
      && seen.epoch <= s.box.resets && h.sessionId == SessionOf(seen.epoch) && h.readCount == U32(seen.at)
      && h.availableBytes > 0
      && (seen.epoch == s.box.resets ==>
            seen.at == s.box.committed && h.availableBytes <= |s.box.log| - s.box.committed)
      && (s.backend.Ftdi? ==> seen.epoch == s.box.resets)
      && (s.backend.Mock? ==> s.box.resets - seen.epoch < SESSION_PERIOD)
      && (seen.epoch < s.box.resets ==> s.box.committed == 0)
    case HaveBlock(h, block, from) =>
      && InFlight(s, h, block, from, s.backend.Ftdi?)
      && (s.backend.Mock? ==> s.box.resets - from.epoch < SESSION_PERIOD)
    case Ready(h, result, from) => result.Some? ==> InFlight(s, h, result.value, from, true)
    case _ => true
  }

  /** The first position nothing published or lost has reached yet. */
  function Frontier(s: System): Origin {
    match s.phase
    case HaveBlock(_, _, from) => from
    case Ready(_, result, from) => if result.Some? then from else Here(s.box)
    case _ => Here(s.box)
  }

  predicate Precedes(p: Published, o: Origin) {
    p.from.epoch < o.epoch || (p.from.epoch == o.epoch && p.End() <= o.at)
  }

  ghost predicate PublishedInv(s: System) {
    && (forall k :: 0 <= k < |s.published| ==>
          var p := s.published[k];
          Exact(s, p.session, p.start, p.data, p.from) && Precedes(p, Frontier(s)))
    && (forall j, k :: 0 <= j < k < |s.published| ==> Precedes(s.published[j], s.published[k].from))
  }

  ghost predicate SystemInv(s: System) {
    && s.box.Valid() && |s.past| == s.box.resets && 1 <= s.blockSize <= DEFAULT_MAX_BLOCK_SIZE
    && s.identity == s.box.build
    && BackendInv(s) && PhaseInv(s) && PublishedInv(s) && HubInv(s.hub)
  }
}
