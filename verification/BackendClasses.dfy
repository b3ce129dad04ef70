/** The backends over a live mailbox, each method doing what its function says. */
module BackendClasses {
  import opened Bytes
  import opened Wrappers
  import opened MailboxHeader
  import opened Mailbox
  import MailboxModel
  import opened Backend

  /** The USER2 scanner as its fake twin drives the reference mailbox. */
  class Scanner {
    const model: MailboxModel.Model

    constructor (model: MailboxModel.Model)
      ensures this.model == model
    {
      this.model := model;
    }

    /** Opcode 1: the packed header. */
    method HeaderScan(fault: Fault) returns (r: Option<bytes>)
      requires model.Valid()
      ensures !fault.Clean? ==> r == None
      ensures fault.Clean? ==> r.Some? && Unpack(r.value) == Ok(HeaderOf(model.box))
    {
      if !fault.Clean? {
        return None;
      }
      var h := model.Header();
      HeaderSurvives(model.box);
      r := Some(Pack(h).value);
    }

    /** A header scan and its unpacking. */
    method Header(fault: Fault) returns (r: Option<Header>)
      requires model.Valid()
      ensures r == if fault.Clean? then Some(HeaderOf(model.box)) else None
    {
      hide Unpack, HeaderOf;
      var packed := HeaderScan(fault);
      r := if packed.None? then None else Some(Unpack(packed.value).value);
    }

    /** Opcode 2: the device reads and commits atomically. */
    method PayloadCommand(length: int, fault: Fault) returns (r: Result<bytes, BackendError>)
      requires model.Valid()
      modifies model, model.buffer
      ensures model.Valid()
      ensures fault.Unsent? ==> r == Err(Transport) && model.box == old(model.box)
      ensures !fault.Unsent? ==>
                match PayloadScan(old(model.box), length)
                case Err(e) => r == Err(Refused(e)) && model.box == old(model.box)
                case Ok((data, next)) => model.box == next && r == if fault.Clean? then Ok(data) else Err(Transport)
    {
      if fault.Unsent? {
        return Err(Transport);
      }
      var read := model.BeginRead(length);
      match read
      case Err(e) => r := Err(Refused(e));
      case Ok(tx) =>
        var done := model.Commit(tx);
        match done {
          case Err(e) => r := Err(Refused(e));
          case Ok(_) => r := if fault.Clean? then Ok(tx.data) else Err(Transport);
        }
    }
  }

  class FtdiMpsseBackend {
    const scanner: Scanner
    const identity: TargetIdentity
    var scanning: bool
    var header: Option<Header>
    var lastBlock: Option<Block>
    var expectedReadCount: Option<nat>
    var minted: nat

    constructor (scanner: Scanner, identity: TargetIdentity)
      ensures this.scanner == scanner && this.identity == identity
      ensures State() == Ftdi(identity.buildId, false, None, None, None, 0)
    {
      this.scanner, this.identity := scanner, identity;
      scanning, minted := false, 0;
      header, lastBlock, expectedReadCount := None, None, None;
    }

    function State(): State
      reads this
    {
      Ftdi(identity.buildId, scanning, header, lastBlock, expectedReadCount, minted)
    }

    method Enumerate() returns (targets: seq<TargetIdentity>)
      ensures targets == [identity]
    {
      targets := [identity];
    }

    method Close()
      modifies this
      ensures State() == Backend.Close(old(State()))
      ensures !scanning && header == None && lastBlock == None && expectedReadCount == None && minted == old(minted)
    {
      scanning := false;
      header := None;
      lastBlock := None;
      expectedReadCount := None;
    }

    method Open(wanted: TargetIdentity, fault: Fault) returns (r: Result<(), BackendError>)
      requires scanner.model.Valid()
      modifies this
      ensures wanted != identity ==> r == Err(WrongTarget) && State() == old(State())
      ensures wanted == identity ==> (r, State()) == Backend.Open(old(State()), scanner.model.box, fault)
      ensures r.Ok? <==> wanted == identity && fault.Clean? && scanner.model.box.build == identity.buildId
      ensures r.Ok? ==> scanning && header == Some(HeaderOf(scanner.model.box))
      ensures wanted == identity ==>
                lastBlock == None && expectedReadCount == None && (r.Err? ==> !scanning && header == None)
      ensures r.Err? && wanted == identity ==> r == Err(if fault.Clean? then BuildChanged else Transport)
    {
      if wanted != identity {
        return Err(WrongTarget);
      }
      hide HeaderOf, MailboxModel.Model.Valid;
      Close();
      scanning := true;
      var read := scanner.Header(fault);
      if read.None? {
        Close();
        return Err(Transport);
      }
      var h := read.value;
      if h.buildId != identity.buildId {
        Close();
        return Err(BuildChanged);
      }
      header := Some(h);
      r := Ok(());
    }

    method ReadHeader(fault: Fault) returns (r: Result<Header, BackendError>)
      requires scanner.model.Valid()
      modifies this
      ensures (r, State()) == Backend.ReadHeader(old(State()), scanner.model.box, fault)
      ensures var h, due := HeaderOf(scanner.model.box), old(expectedReadCount);
              r == if !old(scanning) then Err(NotOpen)
                   else if !fault.Clean? then Err(Transport)
                   else if h.buildId != identity.buildId then Err(BuildChanged)
                   else if due.Some? && due.value != h.readCount then Err(CommitMismatch)
                   else Ok(h)
      ensures r.Ok? ==> header == Some(r.value) && expectedReadCount == None
      ensures r.Err? ==> header == old(header) && expectedReadCount == old(expectedReadCount)
      ensures scanning == old(scanning) && lastBlock == old(lastBlock)
    {
      hide HeaderOf;
      if !scanning {
        return Err(NotOpen);
      }
      var read := scanner.Header(fault);
      if read.None? {
        return Err(Transport);
      }
      var h := read.value;
      if h.buildId != identity.buildId {
        return Err(BuildChanged);
      }
      if expectedReadCount.Some? && h.readCount != expectedReadCount.value {
        return Err(CommitMismatch);
      }
      expectedReadCount := None;
      header := Some(h);
      r := Ok(h);
    }

    method ReadBlock(length: int, fault: Fault) returns (r: Result<Block, BackendError>)
      requires scanner.model.Valid()
      modifies this, scanner.model, scanner.model.buffer
      ensures scanner.model.Valid()
      ensures (r, State(), scanner.model.box) == Backend.ReadBlock(old(State()), old(scanner.model.box), length, fault)
      ensures old(lastBlock).Some? ==> r == Err(NotCommitted)
      ensures old(lastBlock).None? && old(header).None? ==> r == Err(NoHeader)
      ensures old(lastBlock).None? && old(header).Some? && !(1 <= length <= old(header).value.availableBytes) ==>
                r == Err(InvalidLength)
      ensures r.Ok? ==>
                && old(scanning) && fault.Clean? && |r.value.data| == length && lastBlock == Some(r.value)
                && r.value.sessionId == old(header).value.sessionId && r.value.startCount == old(header).value.readCount
                && old(scanner.model.box.committed) + length <= |old(scanner.model.box.log)|
                && r.value.data == old(scanner.model.box.log[scanner.model.box.committed..])[..length]
                && scanner.model.box == old(scanner.model.box).(committed := old(scanner.model.box.committed) + length)
      ensures r.Err? ==> lastBlock == old(lastBlock)
      ensures scanning == old(scanning) && header == old(header) && expectedReadCount == old(expectedReadCount)
    {
      if lastBlock.Some? {
        return Err(NotCommitted);
      }
      if header.None? {
        return Err(NoHeader);
      }
      if length < 1 || length > header.value.availableBytes {
        return Err(InvalidLength);
      }
      if !scanning {
        return Err(NotOpen);
      }
      var data := scanner.PayloadCommand(length, fault);
      if data.Err? {
        return Err(data.error);
      }
      var block := Block(header.value.sessionId, header.value.readCount, data.value, minted);
      lastBlock := Some(block);
      minted := minted + 1;
      r := Ok(block);
    }

    method Commit(block: Block) returns (r: Result<(), BackendError>)
      requires scanner.model.Valid()
      modifies this
      ensures (r, State(), scanner.model.box) == CommitBlock(old(State()), scanner.model.box, block, Clean)
      ensures r == if old(lastBlock) == Some(block) then Ok(()) else Err(WrongBlock)
      ensures r.Ok? ==> lastBlock == None
                        && expectedReadCount == Some((block.startCount + |block.data|) % 0x1_0000_0000)
      ensures r.Err? ==> lastBlock == old(lastBlock) && expectedReadCount == old(expectedReadCount)
      ensures scanning == old(scanning) && header == old(header)
    {
      if lastBlock != Some(block) {
        return Err(WrongBlock);
      }
      expectedReadCount := Some(U32(block.startCount + |block.data|));
      lastBlock := None;
      r := Ok(());
    }
  }

  class MockBackend {
    const model: MailboxModel.Model
    const targets: seq<TargetIdentity>
    var current: Option<TargetIdentity>

    constructor (model: MailboxModel.Model, targets: seq<TargetIdentity>)
      ensures this.model == model && this.targets == targets && State() == Mock(false)
    {
      this.model, this.targets := model, targets;
      current := None;
    }

    function State(): State
      reads this
    {
      Mock(current.Some?)
    }

    method Enumerate() returns (targets: seq<TargetIdentity>)
      ensures targets == this.targets
    {
      targets := this.targets;
    }

    method Open(wanted: TargetIdentity) returns (r: Result<(), BackendError>)
      requires model.Valid()
      modifies this
      ensures wanted !in targets ==> r == Err(WrongTarget) && State() == old(State())
      ensures wanted in targets ==> (r, State()) == Backend.Open(old(State()), model.box, Clean)
      ensures wanted in targets ==> r == Ok(()) && current == Some(wanted)
    {
      if wanted !in targets {
        return Err(WrongTarget);
      }
      current := Some(wanted);
      r := Ok(());
    }

    method ReadHeader() returns (r: Result<Header, BackendError>)
      requires model.Valid()
      ensures (r, State()) == Backend.ReadHeader(State(), model.box, Clean)
      ensures r == if current.None? then Err(NotOpen) else Ok(HeaderOf(model.box))
    {
      if current.None? {
        return Err(NotOpen);
      }
      var h := model.Header();
      r := Ok(h);
    }

    method ReadBlock(length: int) returns (r: Result<Block, BackendError>)
      requires model.Valid()
      ensures (r, State(), model.box) == Backend.ReadBlock(State(), model.box, length, Clean)
      ensures r.Ok? <==> current.Some? && 1 <= length <= 1024 && length <= |model.box.log| - model.box.committed
      ensures r.Ok? ==> && r.value.sessionId == model.sessionId && r.value.startCount == model.readCount
                        && r.value.data == model.box.log[model.box.committed..model.box.committed + length]
    {
      if current.None? {
        return Err(NotOpen);
      }
      var read := model.BeginRead(length);
      match read
      case Err(e) => r := Err(Refused(e));
      case Ok(tx) => r := Ok(Block(tx.sessionId, tx.startCount, tx.data, 0));
    }

    method Commit(block: Block) returns (r: Result<(), BackendError>)
      requires model.Valid()
      modifies model
      ensures model.Valid()
      ensures (r, State(), model.box) == CommitBlock(State(), old(model.box), block, Clean)
      ensures r.Ok? <==> && current.Some? && block.sessionId == old(model.sessionId)
                         && block.startCount == old(model.readCount)
                         && |block.data| <= old(|model.box.log| - model.box.committed)
      ensures r.Ok? ==> model.box == old(model.box).(committed := old(model.box.committed) + |block.data|)
      ensures r.Err? ==> r.error == (if current.None? then NotOpen else Refused(StaleTransaction))
                         && model.box == old(model.box)
    {
      if current.None? {
        return Err(NotOpen);
      }
      var done := model.Commit(block.Transaction());
      match done
      case Err(e) => r := Err(Refused(e));
      case Ok(_) => r := Ok(());
    }

    method Close()
      modifies this
      ensures State() == Backend.Close(old(State()))
    {
      current := None;
    }
  }

  /** The bridge's backend: either of the two. A call to the mock can be made to fail from outside. */
  datatype Device = Direct(ftdi: FtdiMpsseBackend) | Reference(mock: MockBackend)
  {
    function Model(): MailboxModel.Model {
      match this
      case Direct(ftdi) => ftdi.scanner.model
      case Reference(mock) => mock.model
    }

    function Owner(): object {
      match this
      case Direct(ftdi) => ftdi
      case Reference(mock) => mock
    }

    function Targets(): seq<TargetIdentity> {
      match this
      case Direct(ftdi) => [ftdi.identity]
      case Reference(mock) => mock.targets
    }

    function State(): State
      reads Owner()
    {
      match this
      case Direct(ftdi) => ftdi.State()
      case Reference(mock) => mock.State()
    }

    method Enumerate() returns (targets: seq<TargetIdentity>)
      ensures targets == Targets()
    {
      match this
      case Direct(ftdi) => targets := ftdi.Enumerate();
      case Reference(mock) => targets := mock.Enumerate();
    }

    method Close()
      modifies Owner()
      ensures State() == Backend.Close(old(State()))
    {
      match this
      case Direct(ftdi) => ftdi.Close();
      case Reference(mock) => mock.Close();
    }

    method Open(wanted: TargetIdentity, fault: Fault) returns (r: Result<(), BackendError>)
      requires Model().Valid()
      modifies Owner()
      ensures wanted !in Targets() && fault.Clean? ==> r == Err(WrongTarget) && State() == old(State())
      ensures wanted in Targets() ==> (r, State()) == Backend.Open(old(State()), Model().box, fault)
    {
      match this
      case Direct(ftdi) => r := ftdi.Open(wanted, fault);
      case Reference(mock) =>
        if !fault.Clean? {
          return Err(Transport);
        }
        r := mock.Open(wanted);
    }

    method ReadHeader(fault: Fault) returns (r: Result<Header, BackendError>)
      requires Model().Valid()
      modifies Owner()
      ensures (r, State()) == Backend.ReadHeader(old(State()), Model().box, fault)
    {
      match this
      case Direct(ftdi) => r := ftdi.ReadHeader(fault);
      case Reference(mock) =>
        r := mock.ReadHeader();
        if r.Ok? && !fault.Clean? {
          r := Err(Transport);
        }
    }

    method ReadBlock(length: int, fault: Fault) returns (r: Result<Block, BackendError>)
      requires Model().Valid()
      modifies Owner(), Model(), Model().buffer
      ensures Model().Valid()
      ensures (r, State(), Model().box) == Backend.ReadBlock(old(State()), old(Model().box), length, fault)
    {
      match this
      case Direct(ftdi) => r := ftdi.ReadBlock(length, fault);
      case Reference(mock) =>
        if mock.current.Some? && !fault.Clean? {
          return Err(Transport);
        }
        r := mock.ReadBlock(length);
    }

    method Commit(block: Block, fault: Fault) returns (r: Result<(), BackendError>)
      requires Model().Valid()
      modifies Owner(), Model()
      ensures Model().Valid()
      ensures (r, State(), Model().box) == CommitBlock(old(State()), old(Model().box), block, fault)
    {
      match this
      case Direct(ftdi) => r := ftdi.Commit(block);
      case Reference(mock) =>
        if mock.current.Some? && fault.Unsent? {
          return Err(Transport);
        }
        r := mock.Commit(block);
        if r.Ok? && fault.Unanswered? {
          r := Err(Transport);
        }
    }
  }
}
