/**
 The frame format and the parsers' counters in terms of bytes and of what was parsed, without
 the functions that compute them.
 */
module FrameLaws {
  import opened Bytes
  import opened Sequences
  import opened Bits
  import opened Checksums
  import opened FrameScan
  import opened DebugFrames
  import opened FrameFeed
  import opened FrameStream

  // ----- what is a frame -----

  const TYPES: set<nat> :=
    {0x01, 0x02, 0x03, 0x04, 0x05, 0x10, 0x11, 0x12, 0x13, 0x14, 0x21, 0x23, 0x30, 0x31, 0x40, 0x41, 0x42, 0x43}

  /** The header at the front can be that of a frame. */
  predicate Plausible(p: Policy, s: bytes)
    requires |s| >= 5
  {
    s[0] == 0xA5 && s[3] <= 32 && (p.Validator? ==> s[1] == 1 && s[2] as nat in TYPES)
  }

  /** The last byte of a candidate says which bits an odd number of the others behind the start byte have. */
  ghost predicate Checks(raw: bytes)
    requires |raw| >= 5
  {
    SumsTo(raw[1..|raw| - 1], raw[|raw| - 1])
  }

  /** What either parser does with the front of its buffer, in terms of the bytes there. */
  lemma VerdictMeans(p: Policy, s: bytes)
    ensures var v := Decide(p, s);
            if |s| < 5 then v.Wait?
            else if !Plausible(p, s) then v.Skip?
            else if |s| < s[3] as nat + 5 then v.Wait?
            else
              var raw := s[..s[3] as nat + 5];
              if Checks(raw) then v == Accept(raw) else v == Reject(raw, if p.Validator? then 1 else |raw|)
  {
    if |s| >= 5 && Plausible(p, s) && |s| >= s[3] as nat + 5 {
      var raw := s[..s[3] as nat + 5];
      ChecksumMeans(raw[1..|raw| - 1], raw[|raw| - 1]);
    }
  }

  /** The validator takes exactly the frames that can be built from a message. */
  lemma TakenIsBuilt(s: bytes, raw: bytes)
    ensures Decide(Validator, s) == Accept(raw) <==>
              raw <= s && exists m :: Carried(m) && raw == FrameBytes(m)
  {
    hide Decide, FrameBytes;
    if Decide(Validator, s) == Accept(raw) {
      var m := MessageTaken(s, raw);
    }
    if m :| Carried(m) && raw == FrameBytes(m) && raw <= s {
      BuiltTaken(m, s);
    }
  }

  lemma BuiltTaken(m: Message, s: bytes)
    requires Carried(m) && FrameBytes(m) <= s
    ensures Decide(Validator, s) == Accept(FrameBytes(m))
  {
    hide Decide, FrameBytes;
    var raw := FrameBytes(m);
    assert s == raw + s[|raw|..];
    FrameDecided(Validator, m, s[|raw|..]);
  }

  lemma MessageTaken(s: bytes, raw: bytes) returns (m: Message)
    requires Decide(Validator, s) == Accept(raw)
    ensures raw <= s && Carried(m) && raw == FrameBytes(m)
  {
    m := Message(raw[2], raw[4..|raw| - 1]);
    assert raw[1..|raw| - 1] == Body(m);
  }

  /** A built frame in which one byte was replaced by another. */
  function Spoiled(m: Message, i: nat, b: byte): bytes
    requires Carried(m) && i < |m.payload| + 5
  {
    FrameBytes(m)[i := b]
  }

  /**
   Any other value of any one byte makes both parsers refuse the candidate, whatever follows;
   unless it is the length that changed, since then the candidate is another one.
   */
  lemma SpoiledRefused(p: Policy, m: Message, i: nat, b: byte, rest: bytes)
    requires Carried(m) && i < |m.payload| + 5 && i != 3 && b != FrameBytes(m)[i]
    ensures var v := Decide(p, Spoiled(m, i, b) + rest); v.Skip? || v.Reject?
  {
    var raw := Spoiled(m, i, b);
    var s := raw + rest;
    VerdictMeans(p, s);
    if Plausible(p, s) {
      assert s[..s[3] as nat + 5] == raw;
      SpoiledFails(m, i, b);
    }
  }

  lemma SpoiledFails(m: Message, i: nat, b: byte)
    requires Carried(m) && 0 < i < |m.payload| + 5 && b != FrameBytes(m)[i]
    ensures !Checks(Spoiled(m, i, b))
  {
    var raw, frame := Spoiled(m, i, b), FrameBytes(m);
    var n := |frame| - 1;
    FrameSpelled(m);
    if i == n {
      assert raw[1..n] == frame[1..n];
      ChecksumMeans(frame[1..n], frame[n]);
      ChecksumMeans(frame[1..n], b);
    } else {
      var k := BytesDiffer(frame[i], b);
      assert raw[1..n] == frame[1..n][i - 1 := b];
      OddlyChanged(frame[1..n], i - 1, b, k);
      assert BitAgrees(frame[1..n], frame[n], k) && !BitAgrees(raw[1..n], frame[n], k);
    }
  }

  /** Replacing one byte changes the parity of each bit in which the two differ. */
  lemma {:induction false} OddlyChanged(data: bytes, i: nat, b: byte, k: nat)
    requires i < |data| && k < 8 && ToBits(b, 8)[k] != ToBits(data[i], 8)[k]
    ensures OddlySet(data[i := b], k) != OddlySet(data, k)
    decreases |data|
  {
    hide OddlySet, ToBits;
    var n, changed := |data| - 1, data[i := b];
    OddlyLast(data, k);
    OddlyLast(changed, k);
    if i == n {
      assert changed[..n] == data[..n];
    } else {
      OddlyChanged(data[..n], i, b, k);
      assert changed[..n] == data[..n][i := b];
    }
  }

  /** A changed length can name another frame: this one-byte payload becomes the checksum of an empty frame. */
  lemma LengthNotCaught(p: Policy)
    ensures FrameBytes(Message(2, [3])) == [0xA5, 1, 2, 1, 3, 1]
    ensures Decide(p, Spoiled(Message(2, [3]), 3, 0)) == Accept([0xA5, 1, 2, 0, 3])
  {
    SmallXors();
    assert Body(Message(2, [3])) == [1, 2, 1, 3];
    ChecksumOfFour();
    var s := Spoiled(Message(2, [3]), 3, 0);
    assert s == [0xA5, 1, 2, 0, 3, 1];
    assert s[..5] == [0xA5, 1, 2, 0, 3] && s[..5][1..4] == [1, 2, 0];
  }

  lemma SmallXors()
    ensures Xor(0, 1) == 1 && Xor(1, 2) == 3 && Xor(3, 1) == 2 && Xor(2, 3) == 1 && Xor(3, 0) == 3
  {
    assert Xor(0, 0) == 0;
    assert Xor(0, 1) == 1 + 2 * Xor(0, 0) && Xor(1, 0) == 1 + 2 * Xor(0, 0) && Xor(1, 1) == 2 * Xor(0, 0);
    assert Xor(1, 2) == 1 + 2 * Xor(0, 1) && Xor(3, 1) == 2 * Xor(1, 0) && Xor(2, 3) == 1 + 2 * Xor(1, 1);
    assert Xor(3, 0) == 1 + 2 * Xor(1, 0);
  }

  lemma ChecksumOfFour()
    ensures Checksum([1, 2, 1, 3]) == 1 && Checksum([1, 2, 0]) == 3
  {
    SmallXors();
    var one: bytes, two: bytes := [1], [1, 2];
    assert one[..0] == [] && Checksum(one) == 1;
    assert two[..1] == one && Checksum(two) == 3;
    var three: bytes, other: bytes := [1, 2, 1], [1, 2, 0];
    assert three[..2] == two && Checksum(three) == 2;
    assert other[..2] == two && Checksum(other) == 3;
    var four: bytes := [1, 2, 1, 3];
    assert four[..3] == three;
  }

  // ----- what the counters count -----

  /** The candidates that were given up, in order. */
  function GivenUp(events: seq<Event>): seq<bytes> {
    if events == [] then []
    else (if events[0].verdict.Reject? then [events[0].verdict.raw] else []) + GivenUp(events[1..])
  }

  /** The frames that were taken, in order. */
  function Taken(events: seq<Event>): seq<bytes> {
    if events == [] then []
    else (if events[0].verdict.Accept? then [events[0].verdict.raw] else []) + Taken(events[1..])
  }

  /** The positions whose byte was skipped. */
  function Skipped(events: seq<Event>): seq<nat> {
    if events == [] then []
    else (if events[0].verdict.Skip? then [events[0].at] else []) + Skipped(events[1..])
  }

  /** Whatever is taken is at least a frame without payload. */
  predicate Whole(events: seq<Event>) {
    forall i :: 0 <= i < |events| && events[i].verdict.Accept? ==> |events[i].verdict.raw| >= 5
  }

  lemma ParsedWhole(p: Policy, s: bytes)
    ensures Whole(ParseOf(p, s).events)
  {
    var r := ParseOf(p, s);
    WholeTiles(p, s);
    forall i | 0 <= i < |r.events| && r.events[i].verdict.Accept? ensures |r.events[i].verdict.raw| >= 5 {
      EventWithin(JudgeOf(p), s, r.events, 0, r.end, i);
      assert r.events[i].verdict == Decide(p, s[r.events[i].at..]);
    }
  }

  /** What is delivered of these frames: version, type and payload. */
  function Opened(raws: seq<bytes>): seq<Frame> {
    if raws == [] then []
    else (if |raws[0]| >= 5 then [Frame(raws[0][1], raws[0][2], raws[0][4..|raws[0]| - 1])] else []) + Opened(raws[1..])
  }

  lemma {:induction false} FramesTally(p: Policy, t: Tally, events: seq<Event>)
    requires Whole(events)
    ensures CountAll(p, t, Verdicts(events)).frames == t.frames + Opened(Taken(events))
    decreases |events|
  {
    if events == [] {
    } else {
      var e, rest := events[0], events[1..];
      FramesTally(p, Count(p, t, e.verdict), rest);
      CountCons(p, t, e, rest);
      assert events == [e] + rest;
      if e.verdict.Accept? {
        var raw := e.verdict.raw;
        assert ([raw] + Taken(rest))[1..] == Taken(rest);
        AppendAssociates(t.frames, [FrameOf(raw)], Opened(Taken(rest)));
      } else {
        assert [] + Taken(rest) == Taken(rest);
      }
    }
  }

  /** `n` events go before the first frame taken, all of them if there is none. */
  predicate LocksAt(events: seq<Event>, n: nat) {
    && n <= |events| && (forall i :: 0 <= i < n ==> !events[i].verdict.Accept?)
    && (n < |events| ==> events[n].verdict.Accept?)
  }

  lemma LockFound(events: seq<Event>) returns (n: nat)
    ensures LocksAt(events, n)
  {
    n := 0;
    while n < |events| && !events[n].verdict.Accept?
      invariant n <= |events| && forall i :: 0 <= i < n ==> !events[i].verdict.Accept?
    {
      n := n + 1;
    }
  }

  /** With or without a first frame behind it, the viewer counts every candidate given up. */
  lemma {:induction false} ViewerTally(t: Tally, events: seq<Event>)
    ensures var r := CountAll(Viewer, t, Verdicts(events));
            && r.checksumErrors == t.checksumErrors + |GivenUp(events)|
            && r.syncDrops == t.syncDrops + |Skipped(events)| && r.badFrames == t.badFrames
    decreases |events|
  {
    if events == [] {
    } else {
      CountCons(Viewer, t, events[0], events[1..]);
      assert events == [events[0]] + events[1..];
      ViewerTally(Count(Viewer, t, events[0].verdict), events[1..]);
    }
  }

  /** Before the first frame the validator only drops. */
  lemma {:induction false} UnlockedTally(t: Tally, events: seq<Event>)
    requires !t.locked && forall i :: 0 <= i < |events| ==> !events[i].verdict.Accept?
    ensures CountAll(Validator, t, Verdicts(events))
         == t.(syncDrops := t.syncDrops + |Skipped(events)| + |GivenUp(events)|)
    decreases |events|
  {
    if events == [] {
    } else {
      CountCons(Validator, t, events[0], events[1..]);
      assert events == [events[0]] + events[1..];
      UnlockedTally(Count(Validator, t, events[0].verdict), events[1..]);
    }
  }

  function FirstFour(kept: seq<bytes>): seq<bytes> {
    if |kept| <= 4 then kept else kept[..4]
  }

  /** Behind it every candidate given up is an error, and the first four are kept. */
  lemma {:induction false} LockedTally(t: Tally, events: seq<Event>)
    requires t.locked && |t.badFrames| <= 4
    ensures var r := CountAll(Validator, t, Verdicts(events));
            && r.checksumErrors == t.checksumErrors + |GivenUp(events)|
            && r.syncDrops == t.syncDrops + |Skipped(events)|
            && r.badFrames == FirstFour(t.badFrames + GivenUp(events)) && r.locked
    decreases |events|
  {
    if events == [] {
      assert t.badFrames + [] == t.badFrames;
    } else {
      var e, rest := events[0], events[1..];
      OneLocked(t, e.verdict);
      LockedTally(Count(Validator, t, e.verdict), rest);
      CountCons(Validator, t, e, rest);
      assert events == [e] + rest;
      hide CountAll, Count, FirstFour, Verdicts;
      KeptOnce(t.badFrames, e.verdict, GivenUp(rest));
    }
  }

  function More(v: Verdict): (r: seq<bytes>) {
    if v.Reject? then [v.raw] else []
  }

  lemma OneLocked(t: Tally, v: Verdict)
    requires t.locked && |t.badFrames| <= 4
    ensures var r := Count(Validator, t, v);
            && r.locked && |r.badFrames| <= 4 && r.badFrames == FirstFour(t.badFrames + More(v))
            && r.checksumErrors == t.checksumErrors + |More(v)|
            && r.syncDrops == t.syncDrops + (if v.Skip? then 1 else 0)
  {
    assert t.badFrames + [] == t.badFrames;
    if v.Reject? {
      assert (t.badFrames + [v.raw])[..|t.badFrames|] == t.badFrames;
    }
  }

  lemma KeptOnce(kept: seq<bytes>, v: Verdict, rest: seq<bytes>)
    requires |kept| <= 4
    ensures FirstFour(FirstFour(kept + More(v)) + rest) == FirstFour(kept + (More(v) + rest))
  {
    assert kept + More(v) + rest == kept + (More(v) + rest);
    if |kept + More(v)| > 4 {
      assert ((kept + More(v))[..4] + rest)[..4] == (kept + More(v) + rest)[..4];
    }
  }

  // ----- over any feeding -----

  /**
   The validator's results after any bytes in any pieces: the first frame taken divides what it
   parsed; a candidate given up before it is a dropped byte, one given up behind it a checksum
   error, and the first four of those are kept.
   */
  lemma ValidatorCounts(chunks: seq<bytes>) returns (lock: nat)
    ensures var events := ParseOf(Validator, Concat(chunks)).events;
            var t := FeedAll(Validator, FRESH, chunks).tally;
            && LocksAt(events, lock)
            && t.checksumErrors == |GivenUp(events[lock..])|
            && t.badFrames == FirstFour(GivenUp(events[lock..]))
            && t.syncDrops == |Skipped(events)| + |GivenUp(events[..lock])|
            && (t.locked <==> lock < |events|) && t.frames == Opened(Taken(events))
  {
    var s := Concat(chunks);
    var events := ParseOf(Validator, s).events;
    lock := LockFound(events);
    FedAtOnce(Validator, chunks);
    ParsedWhole(Validator, s);
    ValidatorTally(events, lock);
    FramesTally(Validator, NOTHING, events);
    assert [] + Opened(Taken(events)) == Opened(Taken(events));
  }

  /** The viewer's: every candidate given up is a checksum error, every byte skipped a drop. */
  lemma ViewerCounts(chunks: seq<bytes>)
    ensures var events := ParseOf(Viewer, Concat(chunks)).events;
            var t := FeedAll(Viewer, FRESH, chunks).tally;
            && t.checksumErrors == |GivenUp(events)| && t.syncDrops == |Skipped(events)|
            && t.frames == Opened(Taken(events))
  {
    var events := ParseOf(Viewer, Concat(chunks)).events;
    FedAtOnce(Viewer, chunks);
    ViewerTally(NOTHING, events);
    ParsedWhole(Viewer, Concat(chunks));
    FramesTally(Viewer, NOTHING, events);
    assert [] + Opened(Taken(events)) == Opened(Taken(events));
  }

  lemma FedAtOnce(p: Policy, chunks: seq<bytes>)
    ensures FeedAll(p, FRESH, chunks).tally == CountAll(p, NOTHING, Verdicts(ParseOf(p, Concat(chunks)).events))
  {
    CutIndependent(p, FRESH, chunks);
    assert [] + Concat(chunks) == Concat(chunks);
  }

  lemma ValidatorTally(events: seq<Event>, lock: nat)
    requires LocksAt(events, lock) && Whole(events)
    ensures var t := CountAll(Validator, NOTHING, Verdicts(events));
            && t.checksumErrors == |GivenUp(events[lock..])|
            && t.badFrames == FirstFour(GivenUp(events[lock..]))
            && t.syncDrops == |Skipped(events)| + |GivenUp(events[..lock])|
            && (t.locked <==> lock < |events|)
  {
    var front, back := events[..lock], events[lock..];
    assert events == front + back;
    VerdictsAppend(front, back);
    CountAppend(Validator, NOTHING, Verdicts(front), Verdicts(back));
    UnlockedTally(NOTHING, front);
    SkippedAppend(front, back);
    hide CountAll, Verdicts;
    LockedFromHere(CountAll(Validator, NOTHING, Verdicts(front)), back);
  }

  /** From the first frame on. */
  lemma LockedFromHere(t: Tally, events: seq<Event>)
    requires Whole(events) && t.badFrames == [] && t.checksumErrors == 0 && !t.locked
    requires events != [] ==> events[0].verdict.Accept?
    ensures var r := CountAll(Validator, t, Verdicts(events));
            && r.checksumErrors == |GivenUp(events)| && r.badFrames == FirstFour(GivenUp(events))
            && r.syncDrops == t.syncDrops + |Skipped(events)| && (r.locked <==> events != [])
  {
    if events == [] {
      assert CountAll(Validator, t, Verdicts(events)) == t;
    } else {
      var e, rest := events[0], events[1..];
      assert Whole(rest) && |e.verdict.raw| >= 5;
      LockedTally(Count(Validator, t, e.verdict), rest);
      CountCons(Validator, t, e, rest);
      assert events == [e] + rest && [] + GivenUp(rest) == GivenUp(rest);
    }
  }

  lemma {:induction false} SkippedAppend(a: seq<Event>, b: seq<Event>)
    ensures Skipped(a + b) == Skipped(a) + Skipped(b)
    decreases |a|
  {
    if a == [] {
      assert a + b == b;
    } else {
      SkippedAppend(a[1..], b);
      assert (a + b)[1..] == a[1..] + b;
    }
  }
}
