/**
 The adapter's command interpreter (sections 3.4 to 3.6 of FTDI AN_108), for the commands
 the scan engine uses: what each one clocks through the port and what it answers.
 */
module Mpsse {
  import opened Bytes
  import opened Bits
  import opened Tap
  import opened Wrappers

  const TMS_OUT: byte := 0x4B
  const TMS_IN_OUT: byte := 0x6F
  const BYTES_IN_OUT: byte := 0x3D
  const BITS_IN_OUT: byte := 0x3F
  const BITS_OUT: byte := 0x1B
  const SEND_IMMEDIATE: byte := 0x87

  datatype Command =
    | TmsOut(pattern: bits, tdi: bool)
    | TmsInOut(pattern: bits, tdi: bool)
    | BytesInOut(data: bytes)
    | BitsInOut(outgoing: bits)
    | BitsOut(outgoing: bits)
    | SendImmediate

  /** The command at the front of a stream and the number of bytes it takes. */
  function Decode(stream: bytes): (r: Option<(Command, nat)>)
    ensures r.Some? ==> 0 < r.value.1 <= |stream|
  {
    if stream == [] then None
    else if stream[0] == SEND_IMMEDIATE then Some((SendImmediate, 1))
    else if |stream| < 3 then None
    else
      var op := stream[0];
      var n: nat := stream[1] as nat + 1;
      if op == TMS_OUT && n <= 7 then
        Some((TmsOut(ToBits(stream[2], 8)[..n], ToBits(stream[2], 8)[7]), 3))
      else if op == TMS_IN_OUT && n <= 7 then
        Some((TmsInOut(ToBits(stream[2], 8)[..n], ToBits(stream[2], 8)[7]), 3))
      else if op == BITS_IN_OUT && n <= 8 then Some((BitsInOut(ToBits(stream[2], 8)[..n]), 3))
      else if op == BITS_OUT && n <= 8 then Some((BitsOut(ToBits(stream[2], 8)[..n]), 3))
      else if op == BYTES_IN_OUT && 3 + n + 0x100 * stream[2] as nat <= |stream| then
        var width: nat := n + 0x100 * stream[2] as nat;
        Some((BytesInOut(stream[3..3 + width]), 3 + width))
      else None
  }

  /** `encoding` is one whole command and nothing else. */
  predicate Spells(encoding: bytes, cmd: Command) {
    Decode(encoding) == Some((cmd, |encoding|))
  }

  lemma DecodePrefix(encoding: bytes, cmd: Command, rest: bytes)
    requires Spells(encoding, cmd)
    ensures Decode(encoding + rest) == Some((cmd, |encoding|))
  {
    var stream := encoding + rest;
    if encoding[0] == BYTES_IN_OUT {
      var width: nat := encoding[1] as nat + 1 + 0x100 * encoding[2] as nat;
      assert stream[3..3 + width] == encoding[3..3 + width];
    }
  }

  /** The level the adapter leaves TMS at, the port it drives, and how much went through. */
  datatype Link = Link(tap: TapState, tms: bool, shifted: nat, replied: nat)

  /** The outside world: the bits the data register presents and the unused reply bits. */
  datatype Target = Target(tdo: nat -> bool, noise: nat -> bool)

  datatype Outcome = Outcome(link: Link, events: seq<TapEvent>, reply: bytes)

  function DataPulses(tms: bool, tdi: bits): (r: seq<Pulse>)
    ensures |r| == |tdi|
  {
    seq(|tdi|, i requires 0 <= i < |tdi| => Pulse(tms, tdi[i]))
  }

  function TmsPulses(pattern: bits, tdi: bool): (r: seq<Pulse>)
    ensures |r| == |pattern|
  {
    seq(|pattern|, i requires 0 <= i < |pattern| => Pulse(pattern[i], tdi))
  }

  function Pulses(cmd: Command, tms: bool): seq<Pulse> {
    match cmd
    case TmsOut(pattern, tdi) => TmsPulses(pattern, tdi)
    case TmsInOut(pattern, tdi) => TmsPulses(pattern, tdi)
    case BytesInOut(data) => DataPulses(tms, Unpack(data))
    case BitsInOut(data) => DataPulses(tms, data)
    case BitsOut(data) => DataPulses(tms, data)
    case SendImmediate => []
  }

  function TmsAfter(cmd: Command, tms: bool): bool {
    match cmd
    case TmsOut(pattern, _) => if pattern == [] then tms else pattern[|pattern| - 1]
    case TmsInOut(pattern, _) => if pattern == [] then tms else pattern[|pattern| - 1]
    case _ => tms
  }

  function NoiseBits(target: Target, index: nat, n: nat): (r: bits)
    ensures |r| == n
  {
    seq(n, i requires 0 <= i < n => target.noise(8 * index + i))
  }

  /** Bits sampled by a bit-wise command enter their byte from the top. */
  function TopAligned(target: Target, index: nat, samples: bits): byte
    requires |samples| <= 8
  {
    Byte(NoiseBits(target, index, 8 - |samples|) + samples)
  }

  function Reply(cmd: Command, samples: bits, target: Target, index: nat): bytes {
    match cmd
    case BytesInOut(_) => PackBits(samples)
    case TmsInOut(_, _) => if |samples| <= 8 then [TopAligned(target, index, samples)] else []
    case BitsInOut(_) => if |samples| <= 8 then [TopAligned(target, index, samples)] else []
    case _ => []
  }

  function Perform(link: Link, cmd: Command, target: Target): Outcome {
    var played := Play(link.tap, link.shifted, Pulses(cmd, link.tms), target.tdo);
    var reply := Reply(cmd, played.samples, target, link.replied);
    Outcome(Link(played.tap, TmsAfter(cmd, link.tms), played.shifted, link.replied + |reply|),
            played.events, reply)
  }

  /** The adapter works through a stream of commands; it ignores everything after an unknown one. */
  function Execute(link: Link, stream: bytes, target: Target): Outcome
    decreases |stream|
  {
    match Decode(stream)
    case None => Outcome(link, [], [])
    case Some((cmd, n)) =>
      var first := Perform(link, cmd, target);
      var rest := Execute(first.link, stream[n..], target);
      Outcome(rest.link, first.events + rest.events, first.reply + rest.reply)
  }

  /** The same on decoded commands, keeping the replies apart. */
  datatype Transcript = Transcript(link: Link, events: seq<TapEvent>, replies: seq<bytes>)

  function ExecuteAll(link: Link, cmds: seq<Command>, target: Target): (r: Transcript)
    ensures |r.replies| == |cmds|
    decreases |cmds|
  {
    if cmds == [] then Transcript(link, [], [])
    else
      var first := Perform(link, cmds[0], target);
      var rest := ExecuteAll(first.link, cmds[1..], target);
      Transcript(rest.link, first.events + rest.events, [first.reply] + rest.replies)
  }

  lemma ExecuteCons(link: Link, cmd: Command, rest: seq<Command>, target: Target)
    ensures var first := Perform(link, cmd, target);
            var tail := ExecuteAll(first.link, rest, target);
            var t := ExecuteAll(link, [cmd] + rest, target);
            && t == Transcript(tail.link, first.events + tail.events, [first.reply] + tail.replies)
            && Concat(t.replies) == first.reply + Concat(tail.replies)
  {
    var first := Perform(link, cmd, target);
    var tail := ExecuteAll(first.link, rest, target);
    assert ([cmd] + rest)[1..] == rest;
    assert ([first.reply] + tail.replies)[1..] == tail.replies;
  }

  lemma {:induction false} ExecuteAllAppend(link: Link, a: seq<Command>, b: seq<Command>, target: Target)
    ensures var first := ExecuteAll(link, a, target);
            var second := ExecuteAll(first.link, b, target);
            ExecuteAll(link, a + b, target) ==
              Transcript(second.link, first.events + second.events, first.replies + second.replies)
    decreases |a|
  {
    if a == [] {
      assert a + b == b;
      var second := ExecuteAll(link, b, target);
      assert [] + second.events == second.events && [] + second.replies == second.replies;
    } else {
      assert (a + b)[1..] == a[1..] + b;
      var head := Perform(link, a[0], target);
      ExecuteAllAppend(head.link, a[1..], b, target);
      var rest := ExecuteAll(head.link, a[1..], target);
      var second := ExecuteAll(rest.link, b, target);
      assert head.events + rest.events + second.events == head.events + (rest.events + second.events);
      assert [head.reply] + rest.replies + second.replies == [head.reply] + (rest.replies + second.replies);
    }
  }

  /** A written batch, with or without the final flush, does what its commands do one by one. */
  lemma {:induction false} ExecuteBatch(link: Link, encodings: seq<bytes>, cmds: seq<Command>, flush: bytes, target: Target)
    requires |encodings| == |cmds|
    requires forall i :: 0 <= i < |cmds| ==> Spells(encodings[i], cmds[i])
    requires flush == [] || flush == [SEND_IMMEDIATE]
    ensures var all := ExecuteAll(link, cmds, target);
            Execute(link, Concat(encodings) + flush, target) == Outcome(all.link, all.events, Concat(all.replies))
    decreases |cmds|
  {
    if cmds == [] {
      ExecuteFlush(link, flush, target);
      assert Concat(encodings) + flush == flush;
    } else {
      var rest := Concat(encodings[1..]) + flush;
      assert Concat(encodings) + flush == encodings[0] + rest;
      DecodePrefix(encodings[0], cmds[0], rest);
      assert (encodings[0] + rest)[|encodings[0]|..] == rest;
      var head := Perform(link, cmds[0], target);
      ExecuteBatch(head.link, encodings[1..], cmds[1..], flush, target);
      var tail := ExecuteAll(head.link, cmds[1..], target);
      assert ([head.reply] + tail.replies)[1..] == tail.replies;
      assert Concat([head.reply] + tail.replies) == head.reply + Concat(tail.replies);
    }
  }

  lemma ExecuteFlush(link: Link, flush: bytes, target: Target)
    requires flush == [] || flush == [SEND_IMMEDIATE]
    ensures Execute(link, flush, target) == Outcome(link, [], [])
  {
    if flush != [] {
      var done := Perform(link, SendImmediate, target);
      assert done == Outcome(link, [], []);
      assert flush[1..] == [];
      assert Execute(link, [], target) == Outcome(link, [], []);
    }
  }
}
