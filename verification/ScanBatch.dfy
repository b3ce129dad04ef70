/** Lists of scans: which reply bytes belong to which scan, and what they mean. */
module ScanBatch {
  import opened Bytes
  import opened Bits
  import opened Tap
  import opened Mpsse
  import opened ScanPieces
  import opened ScanEffect

  datatype Scan = Scan(outgoing: bytes, total: int)

  predicate AllValid(scans: seq<Scan>) {
    forall i :: 0 <= i < |scans| ==> ValidScan(scans[i].outgoing, scans[i].total)
  }

  /** The pieces and commands of the first `n` scans. */
  function AllPieces(scans: seq<Scan>, n: nat): seq<Piece>
    requires n <= |scans| && AllValid(scans)
  {
    if n == 0 then []
    else AllPieces(scans, n - 1) + PiecesOf(scans[n - 1].outgoing, scans[n - 1].total, n - 1)
  }

  function AllCommands(scans: seq<Scan>, n: nat): seq<Command>
    requires n <= |scans| && AllValid(scans)
  {
    if n == 0 then [] else AllCommands(scans, n - 1) + CommandsOf(scans[n - 1].outgoing, scans[n - 1].total)
  }

  function AllEvents(scans: seq<Scan>, n: nat): seq<TapEvent>
    requires n <= |scans| && AllValid(scans)
  {
    if n == 0 then [] else AllEvents(scans, n - 1) + ScanEvents(scans[n - 1].outgoing, scans[n - 1].total)
  }

  /** Bits clocked, and bytes answered, before scan `n`. */
  function Offset(scans: seq<Scan>, n: nat): nat
    requires n <= |scans| && AllValid(scans)
  {
    if n == 0 then 0 else Offset(scans, n - 1) + scans[n - 1].total
  }

  function Answered(scans: seq<Scan>, n: nat): nat
    requires n <= |scans| && AllValid(scans)
  {
    if n == 0 then 0 else Answered(scans, n - 1) + ScanReplyLength(scans[n - 1].total)
  }

  /** The replies to the pieces of one scan, run together. */
  function Gather(pieces: seq<Piece>, replies: seq<bytes>, scan: nat): bytes
    requires |pieces| == |replies|
    decreases |pieces|
  {
    if pieces == [] then []
    else (if pieces[0].scan == scan then replies[0] else []) + Gather(pieces[1..], replies[1..], scan)
  }

  lemma {:induction false} GatherAppend(p: seq<Piece>, r: seq<bytes>, q: seq<Piece>, s: seq<bytes>, scan: nat)
    requires |p| == |r| && |q| == |s|
    ensures Gather(p + q, r + s, scan) == Gather(p, r, scan) + Gather(q, s, scan)
    decreases |p|
  {
    if p == [] {
      assert p + q == q && r + s == s;
    } else {
      assert (p + q)[1..] == p[1..] + q && (r + s)[1..] == r[1..] + s;
      GatherAppend(p[1..], r[1..], q, s, scan);
    }
  }

  lemma GatherNothing(pieces: seq<Piece>, replies: seq<bytes>, scan: nat)
    requires pieces == [] && replies == []
    ensures Gather(pieces, replies, scan) == []
  {
  }

  lemma {:induction false} GatherBlock(p: seq<Piece>, r: seq<bytes>, owner: nat, scan: nat)
    requires |p| == |r| && forall i :: 0 <= i < |p| ==> p[i].scan == owner
    ensures Gather(p, r, scan) == if scan == owner then Concat(r) else []
    decreases |p|
  {
    if p == [] {
    } else {
      GatherBlock(p[1..], r[1..], owner, scan);
    }
  }

  predicate Compiled(pieces: seq<Piece>, cmds: seq<Command>, scans: nat) {
    && |pieces| == |cmds|
    && forall i :: 0 <= i < |pieces| ==> Compiles(pieces[i], cmds[i], pieces[i].scan) && pieces[i].scan < scans
  }

  lemma {:induction false} AllCompiled(scans: seq<Scan>, n: nat)
    requires n <= |scans| && AllValid(scans)
    ensures Compiled(AllPieces(scans, n), AllCommands(scans, n), n)
    decreases n
  {
    if n == 0 {
    } else {
      hide Compiled, AllCompile, PiecesOf, CommandsOf;
      AllCompiled(scans, n - 1);
      PiecesCompile(scans[n - 1].outgoing, scans[n - 1].total, n - 1);
      CompiledMore(AllPieces(scans, n - 1), AllCommands(scans, n - 1), n - 1,
                   PiecesOf(scans[n - 1].outgoing, scans[n - 1].total, n - 1),
                   CommandsOf(scans[n - 1].outgoing, scans[n - 1].total));
    }
  }

  lemma CompiledMore(pieces: seq<Piece>, cmds: seq<Command>, scan: nat, more: seq<Piece>, moreCmds: seq<Command>)
    requires Compiled(pieces, cmds, scan) && AllCompile(more, moreCmds, scan)
    ensures Compiled(pieces + more, cmds + moreCmds, scan + 1)
  {
    var all, allCmds := pieces + more, cmds + moreCmds;
    forall i | 0 <= i < |all| ensures Compiles(all[i], allCmds[i], all[i].scan) && all[i].scan < scan + 1 {
      if i >= |pieces| {
        assert all[i] == more[i - |pieces|] && allCmds[i] == moreCmds[i - |pieces|];
      }
    }
  }

  function LinkAfter(link: Link, scans: seq<Scan>, n: nat): Link
    requires n <= |scans| && AllValid(scans)
  {
    if n == 0 then link
    else Link(RunTestIdle, false, link.shifted + Offset(scans, n), link.replied + Answered(scans, n))
  }

  function ReplyOf(link: Link, scans: seq<Scan>, i: nat, target: Target): bytes
    requires i < |scans| && AllValid(scans)
  {
    ScanReply(target, link.shifted + Offset(scans, i), link.replied + Answered(scans, i), scans[i].total)
  }

  /** Scans run one after another: each is complete, and each owns the replies it should. */
  lemma {:induction false} AllScans(link: Link, scans: seq<Scan>, n: nat, target: Target)
    requires Idle(link) && n <= |scans| && AllValid(scans)
    ensures var t := ExecuteAll(link, AllCommands(scans, n), target);
            t.link == LinkAfter(link, scans, n) && t.events == AllEvents(scans, n)
    decreases n
  {
    hide Perform;
    if n == 0 {
    } else {
      AllScans(link, scans, n - 1, target);
      LinkBefore(link, scans, n - 1);
      AddScan(link, LinkAfter(link, scans, n - 1), AllCommands(scans, n - 1),
              scans[n - 1].outgoing, scans[n - 1].total, target);
    }
  }

  lemma LinkBefore(link: Link, scans: seq<Scan>, n: nat)
    requires Idle(link) && n <= |scans| && AllValid(scans)
    ensures var before := LinkAfter(link, scans, n);
            && Idle(before) && before.shifted == link.shifted + Offset(scans, n)
            && before.replied == link.replied + Answered(scans, n)
  {
  }

  lemma AddScan(link: Link, mid: Link, front: seq<Command>, outgoing: bytes, total: nat, target: Target)
    requires ValidScan(outgoing, total) && ExecuteAll(link, front, target).link == mid && Idle(mid)
    ensures var t := ExecuteAll(link, front + CommandsOf(outgoing, total), target);
            && t.link == Link(RunTestIdle, false, mid.shifted + total, mid.replied + ScanReplyLength(total))
            && t.events == ExecuteAll(link, front, target).events + ScanEvents(outgoing, total)
  {
    OneScan(mid, outgoing, total, target);
    ExecuteAllAppend(link, front, CommandsOf(outgoing, total), target);
  }

  lemma {:induction false} AllReplies(link: Link, scans: seq<Scan>, n: nat, i: nat, target: Target)
    requires Idle(link) && n <= |scans| && AllValid(scans)
    ensures |AllPieces(scans, n)| == |AllCommands(scans, n)|
    ensures Gather(AllPieces(scans, n), ExecuteAll(link, AllCommands(scans, n), target).replies, i)
         == if i < n then ReplyOf(link, scans, i, target) else []
    decreases n
  {
    hide Perform, PiecesOf, CommandsOf, Gather, ScanReply, ReplyOf;
    AllCompiled(scans, n);
    if n == 0 {
      GatherNothing(AllPieces(scans, n), ExecuteAll(link, AllCommands(scans, n), target).replies, i);
    } else {
      var outgoing, total := scans[n - 1].outgoing, scans[n - 1].total;
      var mid := LinkAfter(link, scans, n - 1);
      AllReplies(link, scans, n - 1, i, target);
      AllScans(link, scans, n - 1, target);
      ReplyStarts(link, scans, n, i, target);
      AddReplies(link, mid, AllPieces(scans, n - 1), AllCommands(scans, n - 1), outgoing, total, n - 1, i, target);
    }
  }

  lemma ReplyStarts(link: Link, scans: seq<Scan>, n: nat, i: nat, target: Target)
    requires Idle(link) && 0 < n <= |scans| && AllValid(scans)
    ensures var mid := LinkAfter(link, scans, n - 1);
            && Idle(mid)
            && (if i < n - 1 then ReplyOf(link, scans, i, target) else [])
               + (if i == n - 1 then ScanReply(target, mid.shifted, mid.replied, scans[n - 1].total) else [])
               == if i < n then ReplyOf(link, scans, i, target) else []
  {
    hide ScanReply;
    LinkBefore(link, scans, n - 1);
  }

  /** The last scan's replies come after everybody else's. */
  lemma AddReplies(link: Link, mid: Link, pieces: seq<Piece>, cmds: seq<Command>, outgoing: bytes, total: nat,
                   owner: nat, i: nat, target: Target)
    requires |pieces| == |cmds| && ValidScan(outgoing, total)
    requires ExecuteAll(link, cmds, target).link == mid && Idle(mid)
    ensures var more, last := PiecesOf(outgoing, total, owner), CommandsOf(outgoing, total);
            && |more| == |last|
            && Gather(pieces + more, ExecuteAll(link, cmds + last, target).replies, i)
               == Gather(pieces, ExecuteAll(link, cmds, target).replies, i)
                  + (if i == owner then ScanReply(target, mid.shifted, mid.replied, total) else [])
  {
    var more, last := PiecesOf(outgoing, total, owner), CommandsOf(outgoing, total);
    OwnReply(mid, outgoing, total, owner, target);
    ExecuteAllAppend(link, cmds, last, target);
    GatherJoin(pieces, ExecuteAll(link, cmds, target).replies, more, ExecuteAll(mid, last, target).replies,
               owner, i, ScanReply(target, mid.shifted, mid.replied, total));
  }

  /** Everything one scan's pieces are answered belongs to that scan. */
  lemma OwnReply(mid: Link, outgoing: bytes, total: nat, owner: nat, target: Target)
    requires Idle(mid) && ValidScan(outgoing, total)
    ensures var pieces, cmds := PiecesOf(outgoing, total, owner), CommandsOf(outgoing, total);
            && |pieces| == |cmds| && (forall k :: 0 <= k < |pieces| ==> pieces[k].scan == owner)
            && Concat(ExecuteAll(mid, cmds, target).replies) == ScanReply(target, mid.shifted, mid.replied, total)
  {
    var pieces, cmds := PiecesOf(outgoing, total, owner), CommandsOf(outgoing, total);
    PiecesCompile(outgoing, total, owner);
    forall k | 0 <= k < |pieces| ensures pieces[k].scan == owner {
      assert Compiles(pieces[k], cmds[k], owner);
    }
    OneScan(mid, outgoing, total, target);
  }

  lemma GatherJoin(front: seq<Piece>, replies: seq<bytes>, last: seq<Piece>, more: seq<bytes>,
                   owner: nat, i: nat, reply: bytes)
    requires |front| == |replies| && |last| == |more| && Concat(more) == reply
    requires forall k :: 0 <= k < |last| ==> last[k].scan == owner
    ensures Gather(front + last, replies + more, i)
         == Gather(front, replies, i) + (if i == owner then reply else [])
  {
    GatherAppend(front, replies, last, more, i);
    GatherBlock(last, more, owner, i);
  }

  /** A compiled command answers as many bytes as its piece announces. */
  lemma ReplySize(link: Link, cmd: Command, target: Target)
    requires cmd.TmsInOut? ==> |cmd.pattern| <= 8
    requires cmd.BitsInOut? ==> |cmd.outgoing| <= 8
    ensures |Perform(link, cmd, target).reply| == ReplyLength(cmd)
  {
  }

  lemma {:induction false} ReplySizes(link: Link, pieces: seq<Piece>, cmds: seq<Command>, scans: nat, target: Target)
    requires Compiled(pieces, cmds, scans)
    ensures var t := ExecuteAll(link, cmds, target);
            forall i :: 0 <= i < |pieces| ==> |t.replies[i]| == pieces[i].readLength
    decreases |pieces|
  {
    if pieces == [] {
    } else {
      assert Compiles(pieces[0], cmds[0], pieces[0].scan);
      ReplySize(link, cmds[0], target);
      var head := Perform(link, cmds[0], target);
      ReplySizes(head.link, pieces[1..], cmds[1..], scans, target);
      var t, rest := ExecuteAll(link, cmds, target), ExecuteAll(head.link, cmds[1..], target);
      forall i | 0 <= i < |pieces| ensures |t.replies[i]| == pieces[i].readLength {
        if i > 0 {
          assert t.replies[i] == rest.replies[i - 1] && pieces[i] == pieces[1..][i - 1];
        }
      }
    }
  }

  function ReadTotal(pieces: seq<Piece>): nat {
    if pieces == [] then 0 else ReadTotal(pieces[..|pieces| - 1]) + pieces[|pieces| - 1].readLength
  }

  /** The last byte of a result: the remainder moved down, the exit bit on top of it. */
  function LastByte(incoming: bytes, total: nat): (r: nat)
    requires total > 0 && |incoming| == ScanReplyLength(total)
  {
    var full, rem := (total - 1) / 8, (total - 1) % 8;
    var partial := if rem > 0 then Shr(incoming[full], 8 - rem) else 0;
    Or(partial, Raised(Shr(incoming[|incoming| - 1], 7) % 2 == 1, rem))
  }

  method Rebuild(incoming: bytes, total: nat) returns (bits: bytes)
    requires total > 0 && |incoming| == ScanReplyLength(total) && LastByte(incoming, total) < 0x100
    ensures bits == incoming[..(total - 1) / 8] + [LastByte(incoming, total)]
  {
    var full, rem := (total - 1) / 8, (total - 1) % 8;
    var result := new nat[(total + 7) / 8](_ => 0);
    for i := 0 to full
      invariant forall k :: 0 <= k < i ==> result[k] == incoming[k]
      invariant forall k :: i <= k < result.Length ==> result[k] == 0
    {
      result[i] := incoming[i];
    }
    var pos := full;
    if rem > 0 {
      result[full] := Shr(incoming[pos], 8 - rem);
      pos := pos + 1;
    }
    result[full] := Or(result[full], Raised(Shr(incoming[pos], 7) % 2 == 1, (total - 1) % 8));
    assert result[..] == incoming[..full] + [LastByte(incoming, total)];
    bits := result[..];
  }

  /** Rebuilding gives back exactly the captured bits, zero-padded. */
  lemma RebuiltExactly(incoming: bytes, total: nat, target: Target, shifted: nat, replied: nat)
    requires total > 0 && incoming == ScanReply(target, shifted, replied, total)
    ensures LastByte(incoming, total) < 0x100
    ensures incoming[..(total - 1) / 8] + [LastByte(incoming, total)] == PackBits(Window(target.tdo, shifted, total))
  {
    var full, rem := (total - 1) / 8, (total - 1) % 8;
    var partial: nat := if rem > 0 then Shr(incoming[full], 8 - rem) else 0;
    if rem > 0 {
      ShiftedSample(incoming[full], target, shifted, replied, total);
    } else {
      assert Window(target.tdo, shifted + 8 * full, 0) == [];
    }
    FinalBit(incoming[|incoming| - 1], partial, target, shifted, replied, total);
    WindowBytes(target, shifted, total);
  }

  /** Moving a top-aligned remainder down drops the noise below it. */
  lemma ShiftedSample(sample: byte, target: Target, shifted: nat, replied: nat, total: nat)
    requires total > 0 && (total - 1) % 8 > 0
    requires sample == ScanReply(target, shifted, replied, total)[(total - 1) / 8]
    ensures var rem := (total - 1) % 8;
            var window := Window(target.tdo, shifted + 8 * ((total - 1) / 8), rem);
            Shr(sample, 8 - rem) == Byte(window)
  {
    var full, rem := (total - 1) / 8, (total - 1) % 8;
    var window := Window(target.tdo, shifted + 8 * full, rem);
    var noise := NoiseBits(target, replied + full, 8 - rem);
    ShiftRight(noise + window, 8 - rem);
    assert (noise + window)[8 - rem..] == window;
  }

  /** Bit 7 of the exit sample completes the last byte. */
  lemma FinalBit(sample: byte, partial: byte, target: Target, shifted: nat, replied: nat, total: nat)
    requires total > 0
    requires sample == ScanReply(target, shifted, replied, total)[ScanReplyLength(total) - 1]
    requires partial == Byte(Window(target.tdo, shifted + 8 * ((total - 1) / 8), (total - 1) % 8))
    ensures var full, rem := (total - 1) / 8, (total - 1) % 8;
            Or(partial, Raised(Shr(sample, 7) % 2 == 1, rem)) == Byte(Window(target.tdo, shifted + 8 * full, rem + 1))
  {
    var full, rem := (total - 1) / 8, (total - 1) % 8;
    var last := target.tdo(shifted + total - 1);
    var noise := NoiseBits(target, replied + full + (if rem > 0 then 1 else 0), 7);
    assert sample == FromBits(noise + [last]);
    hide ScanReply;
    ShiftRight(noise + [last], 7);
    assert (noise + [last])[7..] == [last];
    assert FromBits([last]) == BitValue(last) + 2 * FromBits([]);
    var window := Window(target.tdo, shifted + 8 * full, rem);
    OrAppends(window, last);
    assert window + [last] == Window(target.tdo, shifted + 8 * full, rem + 1);
  }

  lemma WindowBytes(target: Target, shifted: nat, total: nat)
    requires total > 0
    ensures var full, rem := (total - 1) / 8, (total - 1) % 8;
            PackBits(Window(target.tdo, shifted, total))
              == PackBits(Window(target.tdo, shifted, 8 * full)) + [Byte(Window(target.tdo, shifted + 8 * full, rem + 1))]
  {
    var full, rem := (total - 1) / 8, (total - 1) % 8;
    WindowAppend(target.tdo, shifted, 8 * full, rem + 1);
    PackAppend(Window(target.tdo, shifted, 8 * full), Window(target.tdo, shifted + 8 * full, rem + 1));
  }
}
