/** Building frames, and what a parser makes of streams of them. */
module FrameStream {
  import opened Bytes
  import opened Checksums
  import opened FrameScan
  import opened DebugFrames
  import opened FrameFeed

  datatype Message = Message(kind: byte, payload: bytes)

  /** A message both ends of the link can carry. */
  predicate Carried(m: Message) {
    KnownType(m.kind) && |m.payload| <= MAX_PAYLOAD
  }

  predicate AllCarried(messages: seq<Message>) {
    forall i :: 0 <= i < |messages| ==> Carried(messages[i])
  }

  function Body(m: Message): bytes
    requires |m.payload| < 0x100
  {
    [VERSION, m.kind, |m.payload|] + m.payload
  }

  /** The frame of one message; the checksum is folded over the body byte by byte. */
  function FrameBytes(m: Message): (r: bytes)
    requires |m.payload| < 0x100
    ensures |r| == |m.payload| + 5
  {
    [SOF] + Body(m) + [Checksum(Body(m))]
  }

  method MakeFrame(kind: byte, payload: bytes) returns (r: bytes)
    requires |payload| < 0x100
    ensures r == FrameBytes(Message(kind, payload))
    ensures |r| == |payload| + 5
    ensures r[0] == 0xA5 && r[1] == 1 && r[2] == kind && r[3] as nat == |payload| && r[4..|r| - 1] == payload
    ensures SumsTo(r[1..|r| - 1], r[|r| - 1])
  {
    FrameSpelled(Message(kind, payload));
    var body: bytes := [VERSION, kind, |payload|] + payload;
    var checksum := FoldChecksum(body);
    r := [SOF] + body + [checksum];
  }

  /** A built frame byte by byte, and its checksum bit by bit. */
  lemma FrameSpelled(m: Message)
    requires |m.payload| < 0x100
    ensures var r := FrameBytes(m);
            && r[0] == 0xA5 && r[1] == 1 && r[2] == m.kind && r[3] as nat == |m.payload|
            && r[4..|r| - 1] == m.payload
            && SumsTo(r[1..|r| - 1], r[|r| - 1])
  {
    var r := FrameBytes(m);
    assert r[1..|r| - 1] == Body(m);
    ChecksumMeans(Body(m), r[|r| - 1]);
  }

  method FoldChecksum(data: bytes) returns (checksum: byte)
    ensures checksum == Checksum(data)
  {
    checksum := 0;
    for i := 0 to |data|
      invariant checksum == Checksum(data[..i])
    {
      assert data[..i + 1][..i] == data[..i];
      PowTwoEight();
      XorFits(checksum, data[i], 8);
      checksum := Xor(checksum, data[i]);
    }
    assert data[..|data|] == data;
  }

  function Stream(messages: seq<Message>): bytes
    requires AllCarried(messages)
  {
    if messages == [] then [] else FrameBytes(messages[0]) + Stream(messages[1..])
  }

  function Delivered(m: Message): Frame {
    Frame(VERSION, m.kind, m.payload)
  }

  function AllDelivered(messages: seq<Message>): (r: seq<Frame>)
    ensures |r| == |messages|
  {
    seq(|messages|, i requires 0 <= i < |messages| => Delivered(messages[i]))
  }

  /** Both parsers take a carried frame whole, whatever follows it. */
  lemma FrameDecided(p: Policy, m: Message, rest: bytes)
    requires Carried(m)
    ensures Decide(p, FrameBytes(m) + rest) == Accept(FrameBytes(m))
    ensures FrameOf(FrameBytes(m)) == Delivered(m)
  {
    var raw, s := FrameBytes(m), FrameBytes(m) + rest;
    var total := |m.payload| + 5;
    assert s[..total] == raw;
    assert raw[1..total - 1] == Body(m);
    assert raw[4..total - 1] == m.payload;
  }

  /** The beginning of a carried frame is never decided. */
  lemma FrameAwaited(p: Policy, m: Message, n: nat)
    requires Carried(m) && n < |FrameBytes(m)|
    ensures Decide(p, FrameBytes(m)[..n]).Wait?
  {
  }

  /**
   A parser that has seen the first `n` bytes of a stream of frames has delivered exactly
   the messages whose frames are complete, in order, and counted no error.
   */
  lemma {:induction false} PrefixDelivered(p: Policy, t: Tally, messages: seq<Message>, n: nat) returns (k: nat)
    requires AllCarried(messages) && n <= |Stream(messages)|
    ensures k <= |messages| && |Stream(messages[..k])| <= n
    ensures k < |messages| ==> n < |Stream(messages[..k])| + |FrameBytes(messages[k])|
    ensures var st := Drain(p, Parser(Stream(messages)[..n], t));
            && st.tally == t.(frames := t.frames + AllDelivered(messages[..k]), locked := t.locked || k > 0)
            && |st.buffer| == n - |Stream(messages[..k])|
    decreases |messages|
  {
    if messages == [] || n < |FrameBytes(messages[0])| {
      k := 0;
      NothingDelivered(p, t, messages, n);
    } else {
      var m, rest := messages[0], messages[1..];
      var left := n - |FrameBytes(m)|;
      var t' := t.(frames := t.frames + [Delivered(m)], locked := true);
      var later := PrefixDelivered(p, t', rest, left);
      k := later + 1;
      assert Stream(messages)[..n] == FrameBytes(m) + Stream(rest)[..left];
      FirstDelivered(p, t, m, Stream(rest)[..left]);
      OneMoreDelivered(t, m, messages, later);
    }
  }

  lemma OneMoreDelivered(t: Tally, m: Message, messages: seq<Message>, later: nat)
    requires AllCarried(messages) && later < |messages| && messages[0] == m
    ensures var t' := t.(frames := t.frames + [Delivered(m)], locked := true);
            t'.(frames := t'.frames + AllDelivered(messages[1..][..later]), locked := true)
              == t.(frames := t.frames + AllDelivered(messages[..later + 1]), locked := true)
    ensures |Stream(messages[..later + 1])| == |FrameBytes(m)| + |Stream(messages[1..][..later])|
  {
    assert messages[..later + 1] == [m] + messages[1..][..later];
    DeliveredCons(m, messages[1..][..later]);
  }

  lemma DeliveredCons(m: Message, rest: seq<Message>)
    requires Carried(m) && AllCarried(rest)
    ensures AllDelivered([m] + rest) == [Delivered(m)] + AllDelivered(rest)
    ensures Stream([m] + rest) == FrameBytes(m) + Stream(rest)
  {
    assert ([m] + rest)[1..] == rest;
  }

  lemma NothingDelivered(p: Policy, t: Tally, messages: seq<Message>, n: nat)
    requires AllCarried(messages) && n <= |Stream(messages)|
    requires messages == [] || n < |FrameBytes(messages[0])|
    ensures Drain(p, Parser(Stream(messages)[..n], t)) == Parser(Stream(messages)[..n], t)
    ensures t.frames + AllDelivered(messages[..0]) == t.frames
  {
    if messages != [] {
      assert Stream(messages)[..n] == FrameBytes(messages[0])[..n];
      FrameAwaited(p, messages[0], n);
    }
    DrainWait(p, Parser(Stream(messages)[..n], t));
    assert messages[..0] == [];
  }

  lemma FirstDelivered(p: Policy, t: Tally, m: Message, rest: bytes)
    requires Carried(m)
    ensures Drain(p, Parser(FrameBytes(m) + rest, t))
         == Drain(p, Parser(rest, t.(frames := t.frames + [Delivered(m)], locked := true)))
  {
    var raw := FrameBytes(m);
    FrameDecided(p, m, rest);
    DrainStep(p, Parser(raw + rest, t));
    assert (raw + rest)[|raw|..] == rest;
  }

  /** A whole stream of frames, cut anywhere, comes out complete, in order and without errors. */
  lemma StreamDelivered(p: Policy, messages: seq<Message>, chunks: seq<bytes>)
    requires AllCarried(messages) && Concat(chunks) == Stream(messages)
    ensures FeedAll(p, FRESH, chunks) == Parser([], Tally(AllDelivered(messages), 0, 0, messages != [], []))
  {
    CutIndependent(p, FRESH, chunks);
    var s := Stream(messages);
    assert [] + s == s && s[..|s|] == s;
    var k := PrefixDelivered(p, NOTHING, messages, |s|);
    if k < |messages| {
      StreamSplit(messages, k);
    }
    assert messages[..k] == messages;
    assert [] + AllDelivered(messages) == AllDelivered(messages);
  }

  lemma {:induction false} StreamSplit(messages: seq<Message>, k: nat)
    requires AllCarried(messages) && k < |messages|
    ensures |Stream(messages)| >= |Stream(messages[..k])| + |FrameBytes(messages[k])|
    decreases |messages|
  {
    if k == 0 {
      assert messages[..0] == [];
    } else {
      StreamSplit(messages[1..], k - 1);
      assert messages[..k][1..] == messages[1..][..k - 1];
    }
  }

  // ----- accounting -----

  function Sizes(frames: seq<Frame>): nat {
    if frames == [] then 0 else Sizes(frames[..|frames| - 1]) + |frames[|frames| - 1].payload| + 5
  }

  /** The bytes a validator tally accounts for. */
  function Accounted(t: Tally): nat {
    t.syncDrops + t.checksumErrors + Sizes(t.frames)
  }

  lemma {:induction false} TilesAccounted(j: Judge, s: bytes, t: Tally, events: seq<Event>, i: nat, end: nat)
    requires j == JudgeOf(Validator) && Tiles(j, s, events, i, end)
    ensures Accounted(CountAll(Validator, t, Verdicts(events))) == Accounted(t) + end - i
    decreases |events|
  {
    if events == [] {
    } else {
      var v, rest := events[0].verdict, events[1..];
      OneAccounted(s[i..], t, v);
      TilesAccounted(j, s, Count(Validator, t, v), rest, i + v.Width(), end);
      CountCons(Validator, t, events[0], rest);
      hide Accounted, Count, CountAll, Verdicts, Decide;
      assert [events[0]] + rest == events;
    }
  }

  lemma CountCons(p: Policy, t: Tally, e: Event, rest: seq<Event>)
    ensures CountAll(p, t, Verdicts([e] + rest)) == CountAll(p, Count(p, t, e.verdict), Verdicts(rest))
  {
    VerdictsCons(e, rest);
    assert ([e.verdict] + Verdicts(rest))[1..] == Verdicts(rest);
  }

  lemma OneAccounted(s: bytes, t: Tally, v: Verdict)
    requires v == JudgeOf(Validator)(s)
    ensures Accounted(Count(Validator, t, v)) == Accounted(t) + v.Width()
  {
    if v.Accept? {
      assert (t.frames + [FrameOf(v.raw)])[..|t.frames|] == t.frames;
    }
  }

  /** Every byte fed is a drop, a checksum error, part of a frame, or still in the buffer. */
  lemma BytesAccounted(chunks: seq<bytes>)
    ensures var st := FeedAll(Validator, FRESH, chunks);
            && |Concat(chunks)| == st.tally.syncDrops + st.tally.checksumErrors + Sizes(st.tally.frames) + |st.buffer|
            && |st.buffer| < 37
  {
    CutIndependent(Validator, FRESH, chunks);
    hide FeedAll, Feed, Sizes;
    WholeAccounted(Concat(chunks));
  }

  lemma WholeAccounted(s: bytes)
    ensures var st := Feed(Validator, FRESH, s);
            && |s| == st.tally.syncDrops + st.tally.checksumErrors + Sizes(st.tally.frames) + |st.buffer|
            && |st.buffer| < 37
  {
    assert [] + s == s;
    WholeTiles(Validator, s);
    LeftoverBounded(Validator, s);
    hide Tiles, Decide, CountAll, ParseOf;
    TilesAccounted(JudgeOf(Validator), s, NOTHING, ParseOf(Validator, s).events, 0, ParseOf(Validator, s).end);
  }

  // ----- the frames that come out are the greedy ones -----

  function FrameFrom(s: bytes, q: nat): Frame
    requires FrameAt(s, q)
  {
    FrameOf(s[q..FrameEnd(s, q)])
  }

  function FramesAt(s: bytes, starts: seq<nat>): seq<Frame>
    requires forall k :: 0 <= k < |starts| ==> FrameAt(s, starts[k])
  {
    if starts == [] then []
    else
      FramesAt(s, starts[..|starts| - 1]) + [FrameFrom(s, starts[|starts| - 1])]
  }

  /** Every event is what the validator decides at its place. */
  ghost predicate Judged(s: bytes, events: seq<Event>) {
    forall k :: 0 <= k < |events| ==>
      events[k].at <= |s| && events[k].verdict == Decide(Validator, s[events[k].at..])
  }

  lemma TilesJudged(s: bytes, events: seq<Event>, i: nat, end: nat)
    requires Sound(JudgeOf(Validator)) && Tiles(JudgeOf(Validator), s, events, i, end)
    ensures Judged(s, events)
  {
    forall k | 0 <= k < |events|
      ensures events[k].at <= |s| && events[k].verdict == Decide(Validator, s[events[k].at..])
    {
      EventWithin(JudgeOf(Validator), s, events, i, end, k);
    }
  }

  lemma {:induction false} FramesCounted(s: bytes, t: Tally, events: seq<Event>)
    requires Judged(s, events) && t.frames == []
    ensures var starts := Starts(Validator, events);
            && (forall k :: 0 <= k < |starts| ==> FrameAt(s, starts[k]))
            && CountAll(Validator, t, Verdicts(events)).frames == FramesAt(s, starts)
    decreases |events|
  {
    hide Decide, Count;
    if events == [] {
      assert Verdicts(events) == [];
    } else {
      var front, e := events[..|events| - 1], events[|events| - 1];
      assert forall k :: 0 <= k < |front| ==> front[k] == events[k];
      FramesCounted(s, t, front);
      assert events == front + [e];
      FrameCounted(s, t, front, e);
    }
  }

  lemma FrameCounted(s: bytes, t: Tally, front: seq<Event>, e: Event)
    requires e.at <= |s| && e.verdict == Decide(Validator, s[e.at..])
    requires forall k :: 0 <= k < |Starts(Validator, front)| ==> FrameAt(s, Starts(Validator, front)[k])
    requires CountAll(Validator, t, Verdicts(front)).frames == FramesAt(s, Starts(Validator, front))
    ensures var starts := Starts(Validator, front + [e]);
            && (forall k :: 0 <= k < |starts| ==> FrameAt(s, starts[k]))
            && CountAll(Validator, t, Verdicts(front + [e])).frames == FramesAt(s, starts)
  {
    VerdictsAppend(front, [e]);
    assert Verdicts([e]) == [e.verdict];
    CountAppend(Validator, t, Verdicts(front), [e.verdict]);
    OneMore(s, e, CountAll(Validator, t, Verdicts(front)), Starts(Validator, front));
    StartsSnoc(front, e);
  }

  lemma StartsSnoc(front: seq<Event>, e: Event)
    ensures Starts(Validator, front + [e]) == Starts(Validator, front) + (if e.verdict.Accept? then [e.at] else [])
  {
    assert (front + [e])[..|front|] == front;
  }

  lemma OneMore(s: bytes, e: Event, t: Tally, starts: seq<nat>)
    requires e.at <= |s| && e.verdict == Decide(Validator, s[e.at..])
    requires (forall k :: 0 <= k < |starts| ==> FrameAt(s, starts[k])) && t.frames == FramesAt(s, starts)
    ensures var more := starts + (if e.verdict.Accept? then [e.at] else []);
            && (forall k :: 0 <= k < |more| ==> FrameAt(s, more[k]))
            && CountAll(Validator, t, [e.verdict]).frames == FramesAt(s, more)
  {
    var v := e.verdict;
    assert [v][1..] == [];
    assert CountAll(Validator, t, [v]) == Count(Validator, t, v);
    if v.Accept? {
      var more := starts + [e.at];
      assert more[..|starts|] == starts;
      assert s[e.at..][..|v.raw|] == s[e.at..FrameEnd(s, e.at)];
    } else {
      assert starts + [] == starts;
    }
  }

  /**
   However the stream was cut, the validator's frames are those of the leftmost greedy
   choice over the bytes it has decided, and it has decided all but the last 36.
   */
  lemma ValidatorFrames(chunks: seq<bytes>) returns (end: nat, starts: seq<nat>)
    ensures var s := Concat(chunks);
            && end <= |s| < end + 37
            && Greedy(Validator, s, end, starts)
            && FeedAll(Validator, FRESH, chunks).tally.frames == FramesAt(s, starts)
            && FeedAll(Validator, FRESH, chunks).buffer == s[end..]
  {
    var s := Concat(chunks);
    CutIndependent(Validator, FRESH, chunks);
    assert [] + s == s;
    var r := ParseOf(Validator, s);
    end, starts := r.end, Starts(Validator, r.events);
    WholeTiles(Validator, s);
    ParseIsGreedy(Validator, s);
    TilesJudged(s, r.events, 0, r.end);
    FramesCounted(s, NOTHING, r.events);
  }

  /** The viewer can lose a frame that the validator finds: it starts inside a rejected candidate. */
  lemma ViewerLosesFrame()
    ensures var s := [SOF, 9, 9, 0, SOF] + FrameBytes(Message(1, []))[1..];
            && FrameAt(s, 4)
            && ParseOf(Viewer, s).end > 4
            && forall k :: 0 <= k < |ParseOf(Viewer, s).events| ==> ParseOf(Viewer, s).events[k].at != 4
  {
    var frame := FrameBytes(Message(1, []));
    var s := [SOF, 9, 9, 0, SOF] + frame[1..];
    assert s[4..] == frame + [];
    FrameDecided(Validator, Message(1, []), []);
    assert s[..5][1..4] == [9, 9, 0];
    NineNine();
    assert Decide(Viewer, s) == Reject(s[..5], 5);
    WholeTiles(Viewer, s);
    assert s[0..] == s;
    var r := ParseOf(Viewer, s);
    forall k | 0 <= k < |r.events| ensures r.events[k].at != 4 {
      if k > 0 {
        EventsOrdered(JudgeOf(Viewer), s, r.events, 0, r.end, 0, k);
      }
    }
    TilesForward(JudgeOf(Viewer), s, r.events[1..], 5, r.end);
  }

  lemma NineNine()
    ensures Checksum([9, 9, 0]) != SOF
  {
    assert [9, 9, 0][..2] == [9, 9] && [9, 9][..1] == [9] && [9][..0] == [];
    assert Checksum([9]) == Xor(0, 9);
    XorSelf(9);
    XorZero(9);
    assert Xor(0, 0) == 0;
  }

  lemma {:induction false} XorZero(a: nat)
    ensures Xor(0, a) == a
    decreases a
  {
    if a == 0 {
    } else {
      XorZero(a / 2);
    }
  }

  lemma {:induction false} XorSelf(a: nat)
    ensures Xor(a, a) == 0
    decreases a
  {
    if a == 0 {
    } else {
      XorSelf(a / 2);
    }
  }

  /**
   Exactly when: take candidates from left to right by start byte and length alone, whatever
   their checksums. There is one such choice, and the viewer takes a frame of the bytes it has
   decided if and only if the choice starts a candidate there; it loses the frame if and only
   if a chosen candidate starts before it and reaches over its start.
   */
  lemma ViewerTakesFrame(s: bytes, q: nat, starts: seq<nat>)
    requires FrameAt(s, q) && q < ParseOf(Viewer, s).end && Greedy(Viewer, s, q + 1, starts)
    ensures (exists k :: 0 <= k < |ParseOf(Viewer, s).events|
                         && ParseOf(Viewer, s).events[k] == Event(q, Decide(Validator, s[q..])))
       <==> q in starts
    ensures q !in starts <==> exists k :: 0 <= k < |starts| && starts[k] < q < EndAt(Viewer, s, starts[k])
  {
    var events := ParseOf(Viewer, s).events;
    var n := ChosenBefore(s, q, starts);
    FrameIsHeader(s, q);
    if q in starts {
      var k :| 0 <= k < |starts| && starts[k] == q;
      var e := StartsFromEvents(Viewer, events, k);
      WholeTiles(Viewer, s);
      EventWithin(JudgeOf(Viewer), s, events, 0, ParseOf(Viewer, s).end, e);
      assert events[e] == Event(q, Decide(Validator, s[q..]));
    } else {
      var k := GreedyCovers(Viewer, s, q + 1, starts, q);
    }
    if e :| 0 <= e < |events| && events[e] == Event(q, Decide(Validator, s[q..])) {
      var k := EventInStarts(Viewer, events, e);
      assert k < n && starts[k] == q;
    }
    if k :| 0 <= k < |starts| && starts[k] < q < EndAt(Viewer, s, starts[k]) {
      NotInside(s, q, starts, k);
    }
  }

  /** The viewer's candidates up to `q` are the choice. */
  lemma ChosenBefore(s: bytes, q: nat, starts: seq<nat>) returns (n: nat)
    requires q < ParseOf(Viewer, s).end && Greedy(Viewer, s, q + 1, starts)
    ensures var all := Starts(Viewer, ParseOf(Viewer, s).events);
            && n == |starts| <= |all| && starts == all[..n]
            && forall k :: 0 <= k < |all| ==> (all[k] < q + 1 <==> k < n)
  {
    var r := ParseOf(Viewer, s);
    var all := Starts(Viewer, r.events);
    hide Greedy, Starts, ParseOf;
    ParseIsGreedy(Viewer, s);
    n := GreedyCut(Viewer, s, r.end, all, q + 1);
    GreedyUnique(Viewer, s, q + 1, starts, all[..n]);
  }

  lemma FrameIsHeader(s: bytes, q: nat)
    requires FrameAt(s, q)
    ensures HeaderAt(s, q) && Decide(Viewer, s[q..]) == Decide(Validator, s[q..])
  {
  }

  lemma NotInside(s: bytes, q: nat, starts: seq<nat>, k: nat)
    requires Greedy(Viewer, s, q + 1, starts)
    requires k < |starts| && StartsAt(Viewer, s, starts[k]) && starts[k] < q < EndAt(Viewer, s, starts[k])
    ensures q !in starts
  {
    hide Greedy, StartsAt;
    forall j | 0 <= j < |starts| ensures starts[j] != q {
      if j < k {
        GreedyApart(Viewer, s, q + 1, starts, j, k);
      } else if j > k {
        GreedyApart(Viewer, s, q + 1, starts, k, j);
      }
    }
  }
}
