/**
 The two transports the bridge can read a mailbox through, as functions of their own state
 and the device. A call may fail before it reaches the device or after the device obeyed it.
 */
module Backend {
  import opened Bytes
  import opened Wrappers
  import opened MailboxHeader
  import opened Mailbox

  datatype Fault = Clean | Unsent | Unanswered

  datatype TargetIdentity = TargetIdentity(stableId: string, buildId: nat)

  /** How often a target is present; reconnecting wants exactly one. */
  function Occurrences(targets: seq<TargetIdentity>, wanted: TargetIdentity): nat {
    if targets == [] then 0
    else Occurrences(targets[..|targets| - 1], wanted) + (if targets[|targets| - 1] == wanted then 1 else 0)
  }

  datatype BackendError =
    | NotOpen
    | WrongTarget
    | Transport
    | BuildChanged
    | CommitMismatch
    | NotCommitted
    | NoHeader
    | InvalidLength
    | WrongBlock
    | Refused(error: MailboxError)

  datatype Block = Block(sessionId: nat, startCount: nat, data: bytes, token: nat)
  {
    function Transaction(): ReadTransaction {
      ReadTransaction(sessionId, startCount, data)
    }
  }

  datatype State =
    | Mock(attached: bool)
    | Ftdi(build: nat, scanning: bool, header: Option<Header>, last: Option<Block>, expected: Option<nat>, minted: nat)

  predicate IsOpen(b: State) {
    match b
    case Mock(attached) => attached
    case Ftdi(_, scanning, _, _, _, _) => scanning
  }

  function ReadHeader(b: State, box: Box, fault: Fault): (Result<Header, BackendError>, State)
    requires box.Valid()
  {
    if !IsOpen(b) then (Err(NotOpen), b)
    else if !fault.Clean? then (Err(Transport), b)
    else
      var h := HeaderOf(box);
      match b
      case Mock(_) => (Ok(h), b)
      case Ftdi(build, _, _, _, expected, _) =>
        if h.buildId != build then (Err(BuildChanged), b)
        else if expected.Some? && h.readCount != expected.value then (Err(CommitMismatch), b)
        else (Ok(h), b.(expected := None, header := Some(h)))
  }

  /** The device's side of a payload scan: it reads and commits in one go. */
  function PayloadScan(box: Box, length: int): (r: Result<(bytes, Box), MailboxError>)
    requires box.Valid()
    ensures r.Ok? ==> r.value.1.Valid() && |r.value.0| == length
    ensures r.Ok? ==> r.value.1 == box.(committed := box.committed + |r.value.0|) && r.value.0 <= box.Unread()
  {
    match BeginRead(box, length)
    case Err(e) => Err(e)
    case Ok(tx) =>
      match Mailbox.Commit(box, tx)
      case Err(e) => Err(e)
      case Ok(next) => Ok((tx.data, next))
  }

  function ReadBlock(b: State, box: Box, length: int, fault: Fault): (r: (Result<Block, BackendError>, State, Box))
    requires box.Valid()
    ensures r.2.Valid()
  {
    match b
    case Mock(attached) =>
      if !attached then (Err(NotOpen), b, box)
      else if !fault.Clean? then (Err(Transport), b, box)
      else
        (match BeginRead(box, length)
         case Err(e) => (Err(Refused(e)), b, box)
         case Ok(tx) => (Ok(Block(tx.sessionId, tx.startCount, tx.data, 0)), b, box))
    case Ftdi(_, scanning, header, last, _, minted) =>
      if last.Some? then (Err(NotCommitted), b, box)
      else if header.None? then (Err(NoHeader), b, box)
      else if length < 1 || length > header.value.availableBytes then (Err(InvalidLength), b, box)
      else if !scanning then (Err(NotOpen), b, box)
      else if fault.Unsent? then (Err(Transport), b, box)
      else
        match PayloadScan(box, length)
        case Err(e) => (Err(Refused(e)), b, box)
        case Ok((data, next)) =>
          if fault.Unanswered? then (Err(Transport), b, next)
          else
            var block := Block(header.value.sessionId, header.value.readCount, data, minted);
            (Ok(block), b.(last := Some(block), minted := minted + 1), next)
  }

  function CommitBlock(b: State, box: Box, block: Block, fault: Fault): (r: (Result<(), BackendError>, State, Box))
    requires box.Valid()
    ensures r.2.Valid()
  {
    match b
    case Mock(attached) =>
      if !attached then (Err(NotOpen), b, box)
      else if fault.Unsent? then (Err(Transport), b, box)
      else
        (match Mailbox.Commit(box, block.Transaction())
         case Err(e) => (Err(Refused(e)), b, box)
         case Ok(next) => (if fault.Unanswered? then Err(Transport) else Ok(()), b, next))
    case Ftdi(_, _, _, last, _, _) =>
      if last != Some(block) then (Err(WrongBlock), b, box)
      else (Ok(()), b.(expected := Some(U32(block.startCount + |block.data|)), last := None), box)
  }

  function Close(b: State): State {
    match b
    case Mock(_) => Mock(false)
    case Ftdi(_, _, _, _, _, _) => b.(scanning := false, header := None, last := None, expected := None)
  }

  /** Opening checks the target before anything is consumed; a failed opening leaves it closed. */
  function Open(b: State, box: Box, fault: Fault): (Result<(), BackendError>, State)
    requires box.Valid()
  {
    match b
    case Mock(_) => if fault.Clean? then (Ok(()), Mock(true)) else (Err(Transport), b)
    case Ftdi(build, _, _, _, _, _) =>
      var h := HeaderOf(box);
      if !fault.Clean? then (Err(Transport), Close(b))
      else if h.buildId != build then (Err(BuildChanged), Close(b))
      else (Ok(()), Close(b).(scanning := true, header := Some(h)))
  }
}
