/** What the compiled commands of a scan do to the port and what they answer. */
module ScanEffect {
  import opened Bytes
  import opened Bits
  import opened Tap
  import opened Mpsse
  import opened ScanPieces

  predicate Idle(link: Link) {
    link.tap.RunTestIdle?
  }

  predicate Shifting(link: Link) {
    link.tap.ShiftDR? && !link.tms
  }

  lemma CapturePlays(shifted: nat, tdo: nat -> bool)
    ensures var played := Play(RunTestIdle, shifted, TmsPulses([true, false, false], false), tdo);
            played.tap == ShiftDR && played.shifted == shifted && played.events == [Captured]
  {
    var p := TmsPulses([true, false, false], false);
    assert p == [p[0]] + ([p[1]] + [p[2]]);
    PlayAppend(RunTestIdle, shifted, [p[0]], [p[1]] + [p[2]], tdo);
    PlayAppend(SelectDR, shifted, [p[1]], [p[2]], tdo);
    PlayOne(RunTestIdle, shifted, p[0], tdo);
    PlayOne(SelectDR, shifted, p[1], tdo);
    PlayOne(CaptureDR, shifted, p[2], tdo);
  }

  lemma UpdatePlays(shifted: nat, tdo: nat -> bool)
    ensures var played := Play(Exit1DR, shifted, TmsPulses([true, false], false), tdo);
            played.tap == RunTestIdle && played.shifted == shifted && played.events == [Updated]
  {
    var p := TmsPulses([true, false], false);
    assert p == [p[0]] + [p[1]];
    PlayAppend(Exit1DR, shifted, [p[0]], [p[1]], tdo);
    PlayOne(Exit1DR, shifted, p[0], tdo);
    PlayOne(UpdateDR, shifted, p[1], tdo);
  }

  lemma CaptureEffect(link: Link, target: Target)
    requires Idle(link)
    ensures Perform(link, TmsOut([true, false, false], false), target)
         == Outcome(Link(ShiftDR, false, link.shifted, link.replied), [Captured], [])
  {
    CapturePlays(link.shifted, target.tdo);
  }

  lemma UpdateEffect(link: Link, target: Target)
    requires link.tap.Exit1DR?
    ensures Perform(link, TmsOut([true, false], false), target)
         == Outcome(Link(RunTestIdle, false, link.shifted, link.replied), [Updated], [])
  {
    UpdatePlays(link.shifted, target.tdo);
  }

  lemma FinalEffect(link: Link, tdi: bool, target: Target)
    requires Shifting(link)
    ensures Perform(link, TmsInOut([true], tdi), target)
         == Outcome(Link(Exit1DR, true, link.shifted + 1, link.replied + 1), [Shifted(tdi)],
                    [TopAligned(target, link.replied, [target.tdo(link.shifted)])])
  {
    var p := TmsPulses([true], tdi);
    assert p == [Pulse(true, tdi)];
    PlayOne(ShiftDR, link.shifted, p[0], target.tdo);
  }

  lemma ShiftEffect(link: Link, cmd: Command, tdi: bits, target: Target)
    requires Shifting(link)
    requires match cmd
             case BytesInOut(data) => tdi == Unpack(data)
             case BitsInOut(outgoing) => tdi == outgoing
             case BitsOut(outgoing) => tdi == outgoing
             case _ => false
    ensures var window := Window(target.tdo, link.shifted, |tdi|);
            var reply := Reply(cmd, window, target, link.replied);
            Perform(link, cmd, target)
              == Outcome(Link(ShiftDR, false, link.shifted + |tdi|, link.replied + |reply|), ShiftsOf(tdi), reply)
  {
    PlayShifting(link.shifted, DataPulses(false, tdi), tdi, target.tdo);
  }

  lemma BytesEffect(link: Link, chunk: bytes, target: Target)
    requires Shifting(link)
    ensures Perform(link, BytesInOut(chunk), target)
         == Outcome(Link(ShiftDR, false, link.shifted + 8 * |chunk|, link.replied + |chunk|),
                    ShiftsOf(Unpack(chunk)), PackBits(Window(target.tdo, link.shifted, 8 * |chunk|)))
  {
    ShiftEffect(link, BytesInOut(chunk), Unpack(chunk), target);
  }

  lemma JoinWindows(tdo: nat -> bool, start: nat, m: nat, n: nat)
    ensures PackBits(Window(tdo, start, 8 * m)) + PackBits(Window(tdo, start + 8 * m, 8 * n))
         == PackBits(Window(tdo, start, 8 * (m + n)))
  {
    WindowAppend(tdo, start, 8 * m, 8 * n);
    PackAppend(Window(tdo, start, 8 * m), Window(tdo, start + 8 * m, 8 * n));
  }

  lemma JoinShifts(a: bytes, b: bytes)
    ensures ShiftsOf(Unpack(a)) + ShiftsOf(Unpack(b)) == ShiftsOf(Unpack(a + b))
  {
    UnpackAppend(a, b);
    ShiftsAppend(Unpack(a), Unpack(b));
  }

  /** A transcript with the replies run together. */
  ghost predicate Does(link: Link, cmds: seq<Command>, target: Target, done: Outcome) {
    var t := ExecuteAll(link, cmds, target);
    done == Outcome(t.link, t.events, Concat(t.replies))
  }

  lemma DoesNothing(link: Link, target: Target)
    ensures Does(link, [], target, Outcome(link, [], []))
  {
  }

  lemma DoesCons(link: Link, cmd: Command, rest: seq<Command>, target: Target, first: Outcome, tail: Outcome)
    requires Perform(link, cmd, target) == first && Does(first.link, rest, target, tail)
    ensures Does(link, [cmd] + rest, target, Outcome(tail.link, first.events + tail.events, first.reply + tail.reply))
  {
    ExecuteCons(link, cmd, rest, target);
  }

  lemma DoesOne(link: Link, cmd: Command, target: Target)
    ensures Does(link, [cmd], target, Perform(link, cmd, target))
  {
    var done := Perform(link, cmd, target);
    DoesNothing(done.link, target);
    DoesCons(link, cmd, [], target, done, Outcome(done.link, [], []));
    assert [cmd] + [] == [cmd] && done.events + [] == done.events && done.reply + [] == done.reply;
  }

  lemma DoesAppend(link: Link, a: seq<Command>, b: seq<Command>, target: Target, first: Outcome, tail: Outcome)
    requires Does(link, a, target, first) && Does(first.link, b, target, tail)
    ensures Does(link, a + b, target, Outcome(tail.link, first.events + tail.events, first.reply + tail.reply))
  {
    ExecuteAllAppend(link, a, b, target);
    var one := ExecuteAll(link, a, target);
    ConcatAppend(one.replies, ExecuteAll(one.link, b, target).replies);
  }

  /** The link after `n` data bytes were exchanged in Shift-DR. */
  function Moved(link: Link, n: nat): Link {
    Link(ShiftDR, false, link.shifted + 8 * n, link.replied + n)
  }

  function DataOutcome(link: Link, data: bytes, target: Target): Outcome {
    Outcome(Moved(link, |data|),
            ShiftsOf(Unpack(data)), PackBits(Window(target.tdo, link.shifted, 8 * |data|)))
  }

  lemma DataNothing(link: Link, target: Target)
    requires Shifting(link)
    ensures DataOutcome(link, [], target) == Outcome(link, [], [])
  {
    assert Window(target.tdo, link.shifted, 0) == [];
    assert ShiftsOf(Unpack([])) == [];
  }

  lemma DataJoin(link: Link, chunk: bytes, rest: bytes, target: Target)
    ensures var first := DataOutcome(link, chunk, target);
            var tail := DataOutcome(first.link, rest, target);
            Outcome(tail.link, first.events + tail.events, first.reply + tail.reply)
              == DataOutcome(link, chunk + rest, target)
  {
    JoinShifts(chunk, rest);
    JoinWindows(target.tdo, link.shifted, |chunk|, |rest|);
  }

  lemma DataStep(link: Link, chunk: bytes, cmds: seq<Command>, rest: bytes, target: Target)
    requires Shifting(link)
    requires var next := Moved(link, |chunk|);
             Does(next, cmds, target, DataOutcome(next, rest, target))
    ensures Does(link, [BytesInOut(chunk)] + cmds, target, DataOutcome(link, chunk + rest, target))
  {
    var first := DataOutcome(link, chunk, target);
    BytesEffect(link, chunk, target);
    DoesCons(link, BytesInOut(chunk), cmds, target, first, DataOutcome(first.link, rest, target));
    DataJoin(link, chunk, rest, target);
  }

  lemma {:induction false} DataEffect(link: Link, outgoing: bytes, offset: nat, full: nat, target: Target)
    requires Shifting(link) && offset <= full <= |outgoing|
    ensures Does(link, DataCommands(outgoing, offset, full), target, DataOutcome(link, outgoing[offset..full], target))
    decreases full - offset
  {
    hide Perform;
    if offset == full {
      DoesNothing(link, target);
      assert outgoing[offset..full] == [];
      DataNothing(link, target);
    } else {
      var next := offset + ChunkWidth(offset, full);
      var chunk, rest := outgoing[offset..next], outgoing[next..full];
      DataEffect(Moved(link, |chunk|), outgoing, next, full, target);
      DataStep(link, chunk, DataCommands(outgoing, next, full), rest, target);
      assert outgoing[offset..full] == chunk + rest;
    }
  }

  /** The reply bytes of one scan: whole bytes, a top-aligned remainder, and the exit bit. */
  function ScanReply(target: Target, shifted: nat, replied: nat, total: nat): (r: bytes)
    requires total > 0
    ensures |r| == ScanReplyLength(total)
  {
    var full, rem := (total - 1) / 8, (total - 1) % 8;
    PackBits(Window(target.tdo, shifted, 8 * full))
    + (if rem > 0 then [TopAligned(target, replied + full, Window(target.tdo, shifted + 8 * full, rem))] else [])
    + [TopAligned(target, replied + full + (if rem > 0 then 1 else 0), [target.tdo(shifted + total - 1)])]
  }

  function ScanReplyLength(total: nat): nat
    requires total > 0
  {
    (total - 1) / 8 + (if (total - 1) % 8 > 0 then 1 else 0) + 1
  }

  /** The remainder bits of a scan whose body is not a whole number of bytes. */
  function RemainderOutcome(link: Link, tdi: bits, target: Target): Outcome
    requires |tdi| <= 8
  {
    Outcome(Link(ShiftDR, false, link.shifted + |tdi|, link.replied + 1), ShiftsOf(tdi),
            [TopAligned(target, link.replied, Window(target.tdo, link.shifted, |tdi|))])
  }

  function ExitOutcome(link: Link, last: bool, target: Target): Outcome {
    Outcome(Link(RunTestIdle, false, link.shifted + 1, link.replied + 1), [Shifted(last), Updated],
            [TopAligned(target, link.replied, [target.tdo(link.shifted)])])
  }

  lemma ExitEffect(link: Link, last: bool, target: Target)
    requires Shifting(link)
    ensures Does(link, [TmsInOut([true], last), TmsOut([true, false], false)], target, ExitOutcome(link, last, target))
  {
    var exit, update := TmsInOut([true], last), TmsOut([true, false], false);
    FinalEffect(link, last, target);
    var exited := Perform(link, exit, target);
    UpdateEffect(exited.link, target);
    var updated := Perform(exited.link, update, target);
    DoesOne(exited.link, update, target);
    DoesCons(link, exit, [update], target, exited, updated);
    assert [exit] + [update] == [exit, update];
  }

  function TailOutcome(link: Link, tdi: bits, last: bool, target: Target): Outcome
    requires |tdi| < 8
  {
    if tdi == [] then ExitOutcome(link, last, target)
    else
      var first := RemainderOutcome(link, tdi, target);
      var tail := ExitOutcome(first.link, last, target);
      Outcome(tail.link, first.events + tail.events, first.reply + tail.reply)
  }

  lemma TailEffect(link: Link, outgoing: bytes, total: nat, target: Target)
    requires Shifting(link) && ValidScan(outgoing, total)
    ensures var full, rem := (total - 1) / 8, (total - 1) % 8;
            Does(link, TailCommands(outgoing, total), target,
                 TailOutcome(link, ToBits(outgoing[full], 8)[..rem], BitAt(outgoing, total - 1), target))
  {
    var full, rem := (total - 1) / 8, (total - 1) % 8;
    var last := BitAt(outgoing, total - 1);
    var tdi := ToBits(outgoing[full], 8)[..rem];
    if rem > 0 {
      ShiftEffect(link, BitsInOut(tdi), tdi, target);
      var first := RemainderOutcome(link, tdi, target);
      ExitEffect(first.link, last, target);
      DoesCons(link, BitsInOut(tdi), [TmsInOut([true], last), TmsOut([true, false], false)], target,
               first, ExitOutcome(first.link, last, target));
    } else {
      ExitEffect(link, last, target);
      assert TailCommands(outgoing, total) == [TmsInOut([true], last), TmsOut([true, false], false)];
    }
  }

  function ScanEvents(outgoing: bytes, total: nat): seq<TapEvent>
    requires ValidScan(outgoing, total)
  {
    [Captured] + ShiftsOf(UnpackBits(outgoing, total)) + [Updated]
  }

  lemma UnpackSplit(outgoing: bytes, total: nat)
    requires ValidScan(outgoing, total)
    ensures var full, rem := (total - 1) / 8, (total - 1) % 8;
            Unpack(outgoing[..full]) + (if rem > 0 then ToBits(outgoing[full], 8)[..rem] else [])
              + [BitAt(outgoing, total - 1)] == UnpackBits(outgoing, total)
  {
    var full, rem := (total - 1) / 8, (total - 1) % 8;
    assert outgoing == outgoing[..full] + outgoing[full..];
    UnpackAppend(outgoing[..full], outgoing[full..]);
    assert Unpack(outgoing[full..]) == ToBits(outgoing[full], 8) + Unpack(outgoing[full..][1..]);
  }

  function ScanOutcome(link: Link, outgoing: bytes, total: nat, target: Target): Outcome
    requires ValidScan(outgoing, total)
  {
    Outcome(Link(RunTestIdle, false, link.shifted + total, link.replied + ScanReplyLength(total)),
            ScanEvents(outgoing, total), ScanReply(target, link.shifted, link.replied, total))
  }

  /**
   One scan from Run-Test/Idle: one capture, exactly `total` shift clocks carrying the
   outgoing bits least significant first, one update, and back to Run-Test/Idle.
   */
  lemma OneScan(link: Link, outgoing: bytes, total: nat, target: Target)
    requires Idle(link) && ValidScan(outgoing, total)
    ensures Does(link, CommandsOf(outgoing, total), target, ScanOutcome(link, outgoing, total, target))
  {
    var full, rem := (total - 1) / 8, (total - 1) % 8;
    var start := TmsOut([true, false, false], false);
    var data, tail := DataCommands(outgoing, 0, full), TailCommands(outgoing, total);
    var tdi, last := ToBits(outgoing[full], 8)[..rem], BitAt(outgoing, total - 1);
    CaptureEffect(link, target);
    var captured := Perform(link, start, target);
    DataEffect(captured.link, outgoing, 0, full, target);
    var shifted := DataOutcome(captured.link, outgoing[0..full], target);
    TailEffect(shifted.link, outgoing, total, target);
    var exited := TailOutcome(shifted.link, tdi, last, target);
    DoesAppend(captured.link, data, tail, target, shifted, exited);
    DoesCons(link, start, data + tail, target, captured,
             Outcome(exited.link, shifted.events + exited.events, shifted.reply + exited.reply));
    assert CommandsOf(outgoing, total) == [start] + (data + tail);
    ScanAdds(link, outgoing, total, target);
  }

  lemma ShiftsSplit(outgoing: bytes, total: nat)
    requires ValidScan(outgoing, total)
    ensures var full, rem := (total - 1) / 8, (total - 1) % 8;
            ShiftsOf(UnpackBits(outgoing, total))
              == ShiftsOf(Unpack(outgoing[..full])) + ShiftsOf(ToBits(outgoing[full], 8)[..rem])
                 + [Shifted(BitAt(outgoing, total - 1))]
  {
    var full, rem := (total - 1) / 8, (total - 1) % 8;
    var front, tdi, last := Unpack(outgoing[..full]), ToBits(outgoing[full], 8)[..rem], BitAt(outgoing, total - 1);
    UnpackSplit(outgoing, total);
    assert front + tdi + [last] == UnpackBits(outgoing, total);
    ShiftsAppend(front, tdi);
    ShiftsAppend(front + tdi, [last]);
  }

  lemma TailAdds(link: Link, tdi: bits, last: bool, target: Target)
    requires |tdi| < 8
    ensures var extra := if tdi == [] then 0 else 1;
            TailOutcome(link, tdi, last, target)
              == Outcome(Link(RunTestIdle, false, link.shifted + |tdi| + 1, link.replied + extra + 1),
                         ShiftsOf(tdi) + [Shifted(last), Updated],
                         (if tdi == [] then []
                          else [TopAligned(target, link.replied, Window(target.tdo, link.shifted, |tdi|))])
                         + [TopAligned(target, link.replied + extra, [target.tdo(link.shifted + |tdi|)])])
  {
    if tdi == [] {
      assert ShiftsOf(tdi) + [Shifted(last), Updated] == [Shifted(last), Updated];
    }
  }

  /** The parts of a scan, put together, are the scan. */
  lemma ScanAdds(link: Link, outgoing: bytes, total: nat, target: Target)
    requires ValidScan(outgoing, total)
    ensures var full, rem := (total - 1) / 8, (total - 1) % 8;
            var captured := Link(ShiftDR, false, link.shifted, link.replied);
            var shifted := DataOutcome(captured, outgoing[0..full], target);
            var exited := TailOutcome(shifted.link, ToBits(outgoing[full], 8)[..rem], BitAt(outgoing, total - 1), target);
            Outcome(exited.link, [Captured] + (shifted.events + exited.events), [] + (shifted.reply + exited.reply))
              == ScanOutcome(link, outgoing, total, target)
  {
    var full, rem := (total - 1) / 8, (total - 1) % 8;
    var data, tdi, last := outgoing[..full], ToBits(outgoing[full], 8)[..rem], BitAt(outgoing, total - 1);
    assert outgoing[0..full] == data;
    var captured := Link(ShiftDR, false, link.shifted, link.replied);
    var shifted := DataOutcome(captured, data, target);
    TailAdds(shifted.link, tdi, last, target);
    EventsAdd(outgoing, total);
    ReplyAdds(target, link.shifted, link.replied, total);
  }

  lemma ReplyAdds(target: Target, shifted: nat, replied: nat, total: nat)
    requires total > 0
    ensures var full, rem := (total - 1) / 8, (total - 1) % 8;
            var at, extra := shifted + 8 * full, if rem == 0 then 0 else 1;
            PackBits(Window(target.tdo, shifted, 8 * full))
              + ((if rem == 0 then [] else [TopAligned(target, replied + full, Window(target.tdo, at, rem))])
                 + [TopAligned(target, replied + full + extra, [target.tdo(at + rem)])])
            == ScanReply(target, shifted, replied, total)
  {
    assert shifted + 8 * ((total - 1) / 8) + (total - 1) % 8 == shifted + total - 1;
  }

  lemma EventsAdd(outgoing: bytes, total: nat)
    requires ValidScan(outgoing, total)
    ensures var full, rem := (total - 1) / 8, (total - 1) % 8;
            [Captured] + (ShiftsOf(Unpack(outgoing[..full]))
              + (ShiftsOf(ToBits(outgoing[full], 8)[..rem]) + [Shifted(BitAt(outgoing, total - 1)), Updated]))
              == ScanEvents(outgoing, total)
  {
    ShiftsSplit(outgoing, total);
  }
}
