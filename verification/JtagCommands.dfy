/** The operations of the adapter driver: scans, mailbox commands, reset and chain selection. */
module JtagCommands {
  import opened Bytes
  import opened Bits
  import opened Wrappers
  import opened Tap
  import opened Mpsse
  import opened ScanPieces
  import opened ScanEffect
  import opened ScanBatch
  import opened ScanEngine

  datatype CommandError = InvalidScan | InvalidRequest | Failed

  lemma {:induction false} AllReadTotal(scans: seq<Scan>, n: nat)
    requires n <= |scans| && AllValid(scans)
    ensures ReadTotal(AllPieces(scans, n)) == Answered(scans, n)
    decreases n
  {
    if n == 0 {
    } else {
      hide PiecesOf;
      AllReadTotal(scans, n - 1);
      LastReadTotal(scans[n - 1].outgoing, scans[n - 1].total, n - 1, AllPieces(scans, n - 1));
    }
  }

  lemma LastReadTotal(outgoing: bytes, total: nat, scan: nat, front: seq<Piece>)
    requires ValidScan(outgoing, total)
    ensures ReadTotal(front + PiecesOf(outgoing, total, scan)) == ReadTotal(front) + ScanReplyLength(total)
  {
    ReadTotalAppend(front, PiecesOf(outgoing, total, scan));
    OneReadTotal(outgoing, total, scan);
  }

  lemma OneReadTotal(outgoing: bytes, total: nat, scan: nat)
    requires ValidScan(outgoing, total)
    ensures ReadTotal(PiecesOf(outgoing, total, scan)) == ScanReplyLength(total)
  {
    var link := Link(RunTestIdle, false, 0, 0);
    var target := Target(_ => false, _ => false);
    var pieces, cmds := PiecesOf(outgoing, total, scan), CommandsOf(outgoing, total);
    PiecesCompile(outgoing, total, scan);
    forall i | 0 <= i < |pieces|
      ensures Compiles(pieces[i], cmds[i], pieces[i].scan) && pieces[i].scan < scan + 1
    {
      assert Compiles(pieces[i], cmds[i], scan);
    }
    BatchRuns(link, pieces, cmds, scan + 1, [], target);
    OneScan(link, outgoing, total, target);
  }

  /** The bits scan `i` captures, given how many bits the port has clocked before. */
  function Captured(target: Target, shifted: nat, scans: seq<Scan>, i: nat): bytes
    requires i < |scans| && AllValid(scans)
  {
    PackBits(Window(target.tdo, shifted + Offset(scans, i), scans[i].total))
  }

  /** Every scan shifts at least one bit, and there is an outgoing bit for each. */
  predicate Supplied(scans: seq<Scan>) {
    forall i :: 0 <= i < |scans| ==> 1 <= scans[i].total <= 8 * |scans[i].outgoing|
  }

  lemma SuppliedIsValid(scans: seq<Scan>)
    ensures Supplied(scans) <==> AllValid(scans)
  {
  }

  /**
   Runs adjacent scans in bounded exchanges. Each scan returns exactly the bits the target
   presented while it shifted, whatever the exchanges and whatever the unused reply bits.
   */
  method ScanMany(scans: seq<Scan>, port: Port) returns (r: Result<seq<bytes>, CommandError>, ghost asked: seq<nat>)
    requires Idle(port.link) && port.pending == []
    modifies port
    ensures r.Ok? <==> Supplied(scans)
    ensures !AllValid(scans) ==> r == Err(InvalidScan) && unchanged(port)
    ensures AllValid(scans) ==>
              && r.Ok? && |r.value| == |scans|
              && forall i :: 0 <= i < |scans| ==> r.value[i] == Captured(port.target, old(port.link.shifted), scans, i)
    ensures AllValid(scans) ==>
              && port.link == LinkAfter(old(port.link), scans, |scans|)
              && port.events == old(port.events) + AllEvents(scans, |scans|)
              && port.pending == []
    ensures AllValid(scans) ==>
              && port.asked == old(port.asked) + asked
              && Packed(asked) && Sum(asked) == Answered(scans, |scans|)
              && forall i :: 0 <= i < |asked| ==> 0 < asked[i] <= 256
  {
    asked := [];
    SuppliedIsValid(scans);
    hide Supplied;
    var compiled := CompileAll(scans);
    if compiled.Err? {
      return Err(InvalidScan), [];
    }
    var raw := new bytes[|scans|](_ => []);
    AllCompiled(scans, |scans|);
    AllReadTotal(scans, |scans|);
    ghost var cmds := AllCommands(scans, |scans|);
    ghost var start := port.link;
    AllScans(start, scans, |scans|, port.target);
    var ok;
    ok, asked := RunPieces(compiled.value, raw, port, cmds);
    OwnReplies(raw[..], start, scans, port.target);
    var results := RebuildAll(scans, raw, start, port.target);
    r := Ok(results);
  }

  method CompileAll(scans: seq<Scan>) returns (r: Result<seq<Piece>, CommandError>)
    ensures AllValid(scans) ==> r == Ok(AllPieces(scans, |scans|))
    ensures !AllValid(scans) ==> r == Err(InvalidScan)
  {
    var pieces: seq<Piece> := [];
    for index := 0 to |scans|
      invariant forall k :: 0 <= k < index ==> ValidScan(scans[k].outgoing, scans[k].total)
      invariant AllValid(scans) ==> pieces == AllPieces(scans, index)
    {
      var scan := scans[index];
      if scan.total < 1 || scan.total > |scan.outgoing| * 8 {
        return Err(InvalidScan);
      }
      var more := CompileScan(scan.outgoing, scan.total, index);
      pieces := pieces + more;
    }
    r := Ok(pieces);
  }

  lemma OwnReplies(raw: seq<bytes>, start: Link, scans: seq<Scan>, target: Target)
    requires Idle(start) && AllValid(scans) && |raw| == |scans|
    requires |AllPieces(scans, |scans|)| == |AllCommands(scans, |scans|)|
    requires var t := ExecuteAll(start, AllCommands(scans, |scans|), target);
             forall i :: 0 <= i < |raw| ==> raw[i] == Gather(AllPieces(scans, |scans|), t.replies, i)
    ensures forall i :: 0 <= i < |raw| ==> raw[i] == ReplyOf(start, scans, i, target)
  {
    forall i | 0 <= i < |raw| ensures raw[i] == ReplyOf(start, scans, i, target) {
      AllReplies(start, scans, |scans|, i, target);
    }
  }

  method RebuildAll(scans: seq<Scan>, raw: array<bytes>, ghost start: Link, ghost target: Target)
      returns (results: seq<bytes>)
    requires AllValid(scans) && raw.Length == |scans|
    requires forall i :: 0 <= i < |scans| ==> raw[i] == ReplyOf(start, scans, i, target)
    ensures |results| == |scans|
    ensures forall i :: 0 <= i < |scans| ==> results[i] == Captured(target, start.shifted, scans, i)
  {
    results := [];
    for index := 0 to |scans|
      invariant |results| == index
      invariant forall i :: 0 <= i < index ==> results[i] == Captured(target, start.shifted, scans, i)
    {
      var bits := RebuildOne(scans, index, raw[index], start, target);
      results := results + [bits];
    }
  }

  method RebuildOne(scans: seq<Scan>, index: nat, incoming: bytes, ghost start: Link, ghost target: Target)
      returns (bits: bytes)
    requires AllValid(scans) && index < |scans| && incoming == ReplyOf(start, scans, index, target)
    ensures bits == Captured(target, start.shifted, scans, index)
  {
    RebuiltExactly(incoming, scans[index].total, target,
                   start.shifted + Offset(scans, index), start.replied + Answered(scans, index));
    bits := Rebuild(incoming, scans[index].total);
  }

  function Zeros(n: nat): (r: bytes)
    ensures |r| == n
  {
    seq(n, _ => 0)
  }

  function Request(opcode: byte, length: nat): (r: bytes)
    requires length < 0x1_0000
    ensures |r| == 4
  {
    [0xA6, opcode, length % 0x100, length / 0x100]
  }

  /** The 32 bits of a request, as one number: magic, opcode and length. */
  function RequestWord(opcode: byte, length: nat): nat {
    0xA6 + 0x100 * opcode as nat + 0x1_0000 * length
  }

  /** A complete data scan as the target sees it. */
  function DataScan(tdi: bits): seq<TapEvent> {
    [TapEvent.Captured] + ShiftsOf(tdi) + [Updated]
  }

  lemma RequestIsLe(opcode: byte, length: nat)
    requires length < 0x1_0000
    ensures Request(opcode, length) == Le(RequestWord(opcode, length), 4)
  {
    var rest, high := opcode as nat + 0x100 * length, length / 0x100;
    LeFirst(RequestWord(opcode, length), 3, 0xA6, rest);
    LeFirst(rest, 2, opcode, length);
    LeFirst(length, 1, length % 0x100, high);
    LeFirst(high, 0, high, 0);
    assert Le(0, 0) == [];
  }

  lemma LeFirst(value: nat, n: nat, low: byte, rest: nat)
    requires value == low as nat + 0x100 * rest
    ensures Le(value, n + 1) == [low] + Le(rest, n)
  {
    LowAndRest(value, low, rest);
  }

  lemma LowAndRest(value: nat, low: byte, rest: nat)
    requires value == low as nat + 0x100 * rest
    ensures value % 0x100 == low as nat && value / 0x100 == rest
  {
  }

  /** What goes out are the bits of that number, least significant first. */
  lemma RequestBits(opcode: byte, length: nat)
    requires length < 0x1_0000
    ensures ScanEvents(Request(opcode, length), 32) == DataScan(ToBits(RequestWord(opcode, length), 32))
  {
    hide Request, RequestWord, Le, Unpack, ToBits;
    var word := RequestWord(opcode, length);
    RequestIsLe(opcode, length);
    UnpackLe(word, 4);
    assert UnpackBits(Le(word, 4), 32) == Unpack(Le(word, 4));
  }

  lemma ZerosBits(n: nat)
    ensures Unpack(Zeros(n)) == seq(8 * n, _ => false)
    decreases n
  {
    if n == 0 {
    } else {
      ZeroBits(8);
      ZerosBits(n - 1);
      assert Zeros(n)[1..] == Zeros(n - 1);
    }
  }

  lemma PayloadBits(length: nat)
    requires length > 0
    ensures ScanEvents(Zeros(length), 8 * length) == DataScan(seq(8 * length, _ => false))
  {
    ZerosBits(length);
    assert UnpackBits(Zeros(length), 8 * length) == Unpack(Zeros(length));
  }

  /** The two scans of a mailbox command: the request, then the payload. */
  function CommandScans(opcode: byte, length: nat): seq<Scan>
    requires length < 0x1_0000
  {
    [Scan(Request(opcode, length), 32), Scan(Zeros(length), 8 * length)]
  }

  /**
   A mailbox command. The target sees one complete data scan that spells the request and
   then one that reads `length` bytes, and the caller gets exactly those bytes.
   */
  method UserCommand(opcode: byte, length: nat, port: Port) returns (r: Result<bytes, CommandError>)
    requires Idle(port.link) && port.pending == []
    modifies port
    ensures length >= 0x1_0000 ==> r == Err(InvalidRequest) && unchanged(port)
    ensures length == 0 ==> r == Err(InvalidScan) && unchanged(port)
    ensures 0 < length < 0x1_0000 ==>
              && r == Ok(PackBits(Window(port.target.tdo, old(port.link.shifted) + 32, 8 * length)))
              && port.events == old(port.events) + ScanEvents(Request(opcode, length), 32)
                                + ScanEvents(Zeros(length), 8 * length)
              && Idle(port.link) && port.pending == []
              && port.link.shifted == old(port.link.shifted) + 32 + 8 * length
    ensures 0 < length < 0x1_0000 ==>
              port.events == old(port.events)
                             + DataScan(ToBits(0xA6 + 0x100 * opcode as nat + 0x1_0000 * length, 32))
                             + DataScan(seq(8 * length, _ => false))
  {
    if length >= 0x1_0000 {
      return Err(InvalidRequest);
    }
    if length == 0 {
      TwoScans(opcode, length);
      var refused, _ := ScanMany(CommandScans(opcode, length), port);
      return Err(InvalidScan);
    }
    hide Request, ScanEvents, DataScan, ToBits, Window, PackBits, Zeros;
    RequestBits(opcode, length);
    PayloadBits(length);
    r := RequestAndPayload(opcode, length, port);
  }

  method RequestAndPayload(opcode: byte, length: nat, port: Port) returns (r: Result<bytes, CommandError>)
    requires 0 < length < 0x1_0000 && Idle(port.link) && port.pending == []
    modifies port
    ensures r == Ok(PackBits(Window(port.target.tdo, old(port.link.shifted) + 32, 8 * length)))
    ensures port.events == old(port.events) + ScanEvents(Request(opcode, length), 32)
                           + ScanEvents(Zeros(length), 8 * length)
    ensures Idle(port.link) && port.pending == []
    ensures port.link.shifted == old(port.link.shifted) + 32 + 8 * length
  {
    hide Request, ScanEvents, Window, PackBits, Supplied, AllValid, Captured, LinkAfter, AllEvents, Offset, CommandScans,
      Packed, Sum, Answered;
    TwoScans(opcode, length);
    CommandDone(opcode, length, port.link, port.target);
    var results, asked := ScanMany(CommandScans(opcode, length), port);
    r := Ok(results.value[1]);
  }

  lemma CommandDone(opcode: byte, length: nat, link: Link, target: Target)
    requires 0 < length < 0x1_0000
    ensures var scans := CommandScans(opcode, length);
            && AllValid(scans)
            && Captured(target, link.shifted, scans, 1) == PackBits(Window(target.tdo, link.shifted + 32, 8 * length))
            && Idle(LinkAfter(link, scans, 2)) && LinkAfter(link, scans, 2).shifted == link.shifted + 32 + 8 * length
  {
    hide PackBits, Window, Request, AllEvents, ScanEvents, Zeros, AllValid;
    TwoScans(opcode, length);
  }

  lemma TwoScans(opcode: byte, length: nat)
    requires length < 0x1_0000
    ensures var scans := CommandScans(opcode, length);
            && |scans| == 2 && AllValid(scans) == (length > 0)
            && (length > 0 ==>
                  && Offset(scans, 1) == 32 && Offset(scans, 2) == 32 + 8 * length
                  && AllEvents(scans, 2) == ScanEvents(Request(opcode, length), 32) + ScanEvents(Zeros(length), 8 * length))
  {
    var scans := CommandScans(opcode, length);
    assert ValidScan(scans[0].outgoing, scans[0].total);
    assert ValidScan(scans[1].outgoing, scans[1].total) == (length > 0);
    if length > 0 {
      PairAdds(scans);
    }
  }

  lemma PairAdds(scans: seq<Scan>)
    requires |scans| == 2 && AllValid(scans)
    ensures Offset(scans, 1) == scans[0].total && Offset(scans, 2) == scans[0].total + scans[1].total
    ensures AllEvents(scans, 2)
         == ScanEvents(scans[0].outgoing, scans[0].total) + ScanEvents(scans[1].outgoing, scans[1].total)
  {
    assert Offset(scans, 0) == 0 && AllEvents(scans, 0) == [];
    assert AllEvents(scans, 1) == [] + ScanEvents(scans[0].outgoing, scans[0].total);
  }

  /** The target can read magic, opcode and length back from the bits it was shifted. */
  lemma RequestArrives(opcode: byte, length: nat)
    requires length < 0x1_0000
    ensures var tdi := ToBits(0xA6 + 0x100 * opcode as nat + 0x1_0000 * length, 32);
            && FromBits(tdi) % 0x100 == 0xA6 && FromBits(tdi) / 0x100 % 0x100 == opcode as nat
            && FromBits(tdi) / 0x1_0000 == length
    ensures PackBits(UnpackBits(Request(opcode, length), 32)) == Request(opcode, length)
    ensures FromLe(Request(opcode, length)[2..]) == length
  {
    hide ToBits, FromBits, PowTwo, Unpack, PackBits, Le, FromLe, Request;
    WordReadBack(opcode, length);
    BytesReadBack(Request(opcode, length), opcode, length);
  }

  lemma BytesReadBack(request: bytes, opcode: byte, length: nat)
    requires length < 0x1_0000 && request == Request(opcode, length)
    ensures PackBits(UnpackBits(request, 32)) == request && FromLe(request[2..]) == length
  {
    assert UnpackBits(request, 32) == Unpack(request);
    PackOfUnpack(request);
    hide PackBits, Unpack;
    FromLeMeans(request[2..]);
  }

  lemma WordReadBack(opcode: byte, length: nat)
    requires length < 0x1_0000
    ensures FromBits(ToBits(RequestWord(opcode, length), 32)) == RequestWord(opcode, length)
  {
    PowTwoThirtyTwo();
    hide PowTwo, ToBits, FromBits;
    FromBitsOfToBits(RequestWord(opcode, length), 32);
  }

  lemma PowTwoThirtyTwo()
    ensures PowTwo(32) == 0x1_0000_0000
  {
    PowTwoSum(8, 8);
    PowTwoSum(16, 16);
    PowTwoEight();
  }

  lemma {:induction false} PowTwoSum(m: nat, n: nat)
    ensures PowTwo(m + n) == PowTwo(m) * PowTwo(n)
    decreases m
  {
    if m == 0 {
    } else {
      PowTwoSum(m - 1, n);
      assert 2 * (PowTwo(m - 1) * PowTwo(n)) == (2 * PowTwo(m - 1)) * PowTwo(n);
    }
  }

  function Walk(tap: TapState, tms: bits): TapState
    decreases |tms|
  {
    if tms == [] then tap else Walk(Next(tap, tms[0]), tms[1..])
  }

  lemma {:induction false} PlayWalks(tap: TapState, shifted: nat, tms: bits, tdi: bool, tdo: nat -> bool)
    ensures Play(tap, shifted, TmsPulses(tms, tdi), tdo).tap == Walk(tap, tms)
    decreases |tms|
  {
    if tms == [] {
    } else {
      assert TmsPulses(tms, tdi)[1..] == TmsPulses(tms[1..], tdi);
      PlayWalks(Next(tap, tms[0]), if tap.ShiftDR? then shifted + 1 else shifted, tms[1..], tdi, tdo);
    }
  }

  /** The `_tms` helper without a read: `count` TMS levels, TDI held low. */
  method Tms(pattern: byte, count: nat, port: Port)
    requires 1 <= count <= 7 && pattern < 0x80 && port.pending == []
    modifies port
    ensures var cmd := TmsOut(ToBits(pattern, 8)[..count], ToBits(pattern, 8)[7]);
            var done := Perform(old(port.link), cmd, port.target);
            && port.link == done.link && port.events == old(port.events) + done.events && port.pending == []
    ensures port.written == old(port.written) + [[0x4B, count - 1, pattern, 0x87]]
  {
    var cmd := TmsOut(ToBits(pattern, 8)[..count], ToBits(pattern, 8)[7]);
    var encoding: bytes := [TMS_OUT, count - 1, pattern];
    assert Spells(encoding, cmd);
    hide Spells, Decode, ToBits, Execute;
    FlushedCommand(port.link, encoding, cmd, port.target);
    assert encoding + [SEND_IMMEDIATE] == [0x4B, count - 1, pattern, 0x87];
    port.Write(encoding + [SEND_IMMEDIATE]);
    hide Perform;
  }

  lemma FlushedCommand(link: Link, encoding: bytes, cmd: Command, target: Target)
    requires Spells(encoding, cmd)
    ensures var done := Perform(link, cmd, target);
            Execute(link, encoding + [SEND_IMMEDIATE], target) == done
  {
    DecodePrefix(encoding, cmd, [SEND_IMMEDIATE]);
    var done := Perform(link, cmd, target);
    assert (encoding + [SEND_IMMEDIATE])[|encoding|..] == [SEND_IMMEDIATE];
    ExecuteFlush(done.link, [SEND_IMMEDIATE], target);
    assert done.events + [] == done.events && done.reply + [] == done.reply;
  }

  lemma FiveOnes(tap: TapState)
    ensures Walk(tap, [true, true, true, true, true]) == TestLogicReset
  {
    var once, twice := Next(tap, true), Next(Next(tap, true), true);
    var five := [true, true, true, true, true];
    assert five[1..][1..] == [true, true, true];
    assert [true, true, true][1..][1..] == [true];
    assert Walk(tap, five) == Walk(twice, [true, true, true]);
    assert Walk(twice, [true, true, true]) == Walk(Next(Next(twice, true), true), [true]);
    assert [true][1..] == [];
  }

  /** From any state, known or not, the port ends in Run-Test/Idle. */
  method TapReset(port: Port)
    requires port.pending == []
    modifies port
    ensures Idle(port.link) && port.pending == []
  {
    PlayWalks(port.link.tap, port.link.shifted, ToBits(0x1F, 8)[..5], ToBits(0x1F, 8)[7], port.target.tdo);
    ResetBits();
    FiveOnes(port.link.tap);
    Tms(0x1F, 5, port);
    PlayWalks(TestLogicReset, port.link.shifted, ToBits(0, 8)[..1], ToBits(0, 8)[7], port.target.tdo);
    assert Walk(TestLogicReset, [false]) == Walk(RunTestIdle, [false][1..]);
    Tms(0, 1, port);
  }

  lemma ResetBits()
    ensures ToBits(0x1F, 8)[..5] == [true, true, true, true, true]
    ensures ToBits(0, 8)[..1] == [false]
  {
    BitsCons(0x0F, true, 7);
    BitsCons(0x07, true, 6);
    BitsCons(0x03, true, 5);
    BitsCons(0x01, true, 4);
    BitsCons(0x00, true, 3);
    BitsCons(0x00, false, 7);
  }

  /** Data bits with TMS low stay in Shift-IR. */
  lemma {:induction false} PlayShiftingIR(shifted: nat, tdi: bits, tdo: nat -> bool)
    ensures var played := Play(ShiftIR, shifted, DataPulses(false, tdi), tdo);
            && played.tap == ShiftIR && played.shifted == shifted
            && played.events == InstructionShifts(tdi)
    decreases |tdi|
  {
    if tdi == [] {
    } else {
      PlayShiftingIR(shifted, tdi[1..], tdo);
      assert DataPulses(false, tdi)[1..] == DataPulses(false, tdi[1..]);
    }
  }

  lemma IrSetup(shifted: nat, tdo: nat -> bool)
    ensures var played := Play(RunTestIdle, shifted, TmsPulses([true, true, false, false], false), tdo);
            played.tap == ShiftIR && played.shifted == shifted && played.events == [CapturedIR]
  {
    var p := TmsPulses([true, true, false, false], false);
    assert p == ([p[0]] + [p[1]]) + ([p[2]] + [p[3]]);
    PlayAppend(RunTestIdle, shifted, [p[0]] + [p[1]], [p[2]] + [p[3]], tdo);
    PlayAppend(RunTestIdle, shifted, [p[0]], [p[1]], tdo);
    PlayAppend(SelectIR, shifted, [p[2]], [p[3]], tdo);
    PlayOne(RunTestIdle, shifted, p[0], tdo);
    PlayOne(SelectDR, shifted, p[1], tdo);
    PlayOne(SelectIR, shifted, p[2], tdo);
    PlayOne(CaptureIR, shifted, p[3], tdo);
  }

  lemma IrExit(shifted: nat, tdo: nat -> bool)
    ensures Play(ShiftIR, shifted, TmsPulses([true], false), tdo).tap == Exit1IR
    ensures Play(ShiftIR, shifted, TmsPulses([true], false), tdo).events == [ShiftedIR(false)]
    ensures var played := Play(Exit1IR, shifted, TmsPulses([true, false], false), tdo);
            played.tap == RunTestIdle && played.events == [UpdatedIR]
  {
    var one, two := TmsPulses([true], false), TmsPulses([true, false], false);
    assert one == [one[0]] && two == [two[0]] + [two[1]];
    PlayOne(ShiftIR, shifted, one[0], tdo);
    PlayOne(Exit1IR, shifted, two[0], tdo);
    PlayOne(UpdateIR, shifted, two[1], tdo);
    hide Play, TmsPulses;
    PlayAppend(Exit1IR, shifted, [two[0]], [two[1]], tdo);
  }

  lemma IrBits()
    ensures ToBits(3, 8)[..4] == [true, true, false, false] && !ToBits(3, 8)[7]
    ensures ToBits(3, 8)[..5] == [true, true, false, false, false]
    ensures ToBits(1, 8)[..1] == [true] && ToBits(1, 8)[..2] == [true, false] && !ToBits(1, 8)[7]
  {
    OneBits();
    BitsCons(1, true, 7);
    BitsCons(0, true, 6);
    ZeroBits(6);
  }

  lemma {:induction false} ZeroBits(n: nat)
    ensures ToBits(0, n) == seq(n, _ => false)
  {
    if n == 0 {
    } else {
      ZeroBits(n - 1);
    }
  }

  /** The six instruction bits that select the USER2 register, least significant first. */
  const USER2: bits := [true, true, false, false, false, false]

  /** From Run-Test/Idle, exactly the six bits of USER2 are shifted into the instruction register. */
  method SelectUser2(port: Port)
    requires Idle(port.link) && port.pending == []
    modifies port
    ensures Idle(port.link) && port.pending == []
    ensures port.events == old(port.events) + [CapturedIR] + InstructionShifts(USER2) + [UpdatedIR]
    ensures FromBits(USER2) == 3
  {
    EnterShiftIR(port);
    FiveBits(port);
    LeaveShiftIR(port);
    User2Value();
    assert InstructionShifts(USER2[..5]) + [ShiftedIR(USER2[5])] == InstructionShifts(USER2);
  }

  function InstructionShifts(tdi: bits): seq<TapEvent> {
    seq(|tdi|, i requires 0 <= i < |tdi| => ShiftedIR(tdi[i]))
  }

  /** Idle, Select-DR, Select-IR, Capture-IR, Shift-IR. */
  method EnterShiftIR(port: Port)
    requires Idle(port.link) && port.pending == []
    modifies port
    ensures port.link.tap == ShiftIR && !port.link.tms && port.pending == []
    ensures port.events == old(port.events) + [CapturedIR]
  {
    IrBits();
    IrSetup(port.link.shifted, port.target.tdo);
    Tms(3, 4, port);
  }

  /** The last instruction bit leaves Shift-IR; then Update-IR and back to idle. */
  method LeaveShiftIR(port: Port)
    requires port.link.tap == ShiftIR && port.pending == []
    modifies port
    ensures Idle(port.link) && port.pending == []
    ensures port.events == old(port.events) + [ShiftedIR(false), UpdatedIR]
  {
    IrBits();
    IrExit(port.link.shifted, port.target.tdo);
    Tms(1, 1, port);
    IrExit(port.link.shifted, port.target.tdo);
    Tms(1, 2, port);
  }

  lemma User2Value()
    ensures FromBits(USER2) == 3
  {
    PadFromBits([true, true], 4);
    assert USER2 == [true, true] + seq(4, _ => false);
    assert FromBits([true, true]) == 1 + 2 * FromBits([true, true][1..]);
    assert [true, true][1..] == [true] && FromBits([true]) == 1 + 2 * FromBits([true][1..]);
  }

  /** The first five instruction bits go out as one unread data command. */
  method FiveBits(port: Port)
    requires port.link.tap == ShiftIR && !port.link.tms && port.pending == []
    modifies port
    ensures port.link.tap == ShiftIR && port.pending == []
    ensures port.events == old(port.events) + InstructionShifts(USER2[..5])
  {
    assert USER2[..5] == [true, true, false, false, false];
    PlayShiftingIR(port.link.shifted, USER2[..5], port.target.tdo);
    IrBits();
    var encoding: bytes := [BITS_OUT, 4, 3];
    var cmd := BitsOut(ToBits(3, 8)[..5]);
    DecodePrefix(encoding, cmd, []);
    assert encoding + [] == encoding && encoding[3..] == [];
    var done := Perform(port.link, cmd, port.target);
    assert Execute(done.link, [], port.target) == Outcome(done.link, [], []);
    assert done.events + [] == done.events && done.reply + [] == done.reply;
    port.Write(encoding);
  }
}
