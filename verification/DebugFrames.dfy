/**
 The debug frame format and its two parsers: the board validator rejects unknown headers
 and gives up one byte at a bad checksum, the web viewer accepts any header and gives up
 the whole candidate.
 */
module DebugFrames {
  import opened Bytes
  import opened FrameScan
  import opened Sequences

  const SOF: byte := 0xA5
  const VERSION: byte := 1
  const MAX_PAYLOAD: nat := 32
  const MAX_FRAME: nat := 37

  /** The keys of the validator's `TYPE_NAMES`. */
  predicate KnownType(t: byte) {
    || 0x01 <= t <= 0x05 || 0x10 <= t <= 0x14 || t == 0x21 || t == 0x23
    || 0x30 <= t <= 0x31 || 0x40 <= t <= 0x43
  }

  datatype Policy = Validator | Viewer

  predicate GoodHeader(p: Policy, s: bytes)
    requires |s| >= 5
  {
    && s[0] == SOF && s[3] <= MAX_PAYLOAD
    && (p.Validator? ==> s[1] == VERSION && KnownType(s[2]))
  }

  function Decide(p: Policy, s: bytes): (v: Verdict)
    ensures v.Wait? ==> |s| < MAX_FRAME
    ensures !v.Wait? ==> 0 < v.Width() <= |s|
  {
    if |s| < 5 then Wait
    else if !GoodHeader(p, s) then Skip
    else
      var total := s[3] as nat + 5;
      if |s| < total then Wait
      else
        var raw := s[..total];
        if Checksum(raw[1..total - 1]) == raw[total - 1] then Accept(raw)
        else Reject(raw, if p.Validator? then 1 else total)
  }

  function JudgeOf(p: Policy): (j: Judge) {
    s => Decide(p, s)
  }

  /** A decided parser never changes its mind when more bytes arrive. */
  lemma DecideStable(p: Policy, s: bytes, more: bytes)
    requires !Decide(p, s).Wait?
    ensures Decide(p, s + more) == Decide(p, s)
  {
    if GoodHeader(p, s) {
      var total := s[3] as nat + 5;
      assert (s + more)[..total] == s[..total];
    }
  }

  lemma JudgeSound(p: Policy)
    ensures Sound(JudgeOf(p))
  {
    forall s: bytes, more: bytes | !JudgeOf(p)(s).Wait?
      ensures JudgeOf(p)(s + more) == JudgeOf(p)(s)
    {
      DecideStable(p, s, more);
    }
  }

  /** The parse of a whole stream. */
  ghost function ParseOf(p: Policy, s: bytes): (r: Parse)
    ensures r.end <= |s|
  {
    JudgeSound(p);
    Scan(JudgeOf(p), s, 0)
  }

  lemma WholeTiles(p: Policy, s: bytes)
    ensures Sound(JudgeOf(p))
    ensures Tiles(JudgeOf(p), s, ParseOf(p, s).events, 0, ParseOf(p, s).end)
    ensures Decide(p, s[ParseOf(p, s).end..]).Wait?
  {
    JudgeSound(p);
    ScanTiles(JudgeOf(p), s, 0);
  }

  /** Less than one frame is ever left undecided. */
  lemma LeftoverBounded(p: Policy, s: bytes)
    ensures |s| - ParseOf(p, s).end < 37
  {
    WholeTiles(p, s);
  }

  // ----- the leftmost greedy parse, stated without a parser -----

  /** A complete, well-formed frame starts at `q`. */
  predicate FrameAt(s: bytes, q: nat) {
    q <= |s| && Decide(Validator, s[q..]).Accept?
  }

  function FrameEnd(s: bytes, q: nat): (end: nat)
    requires FrameAt(s, q)
    ensures q + 5 <= end <= |s|
  {
    q + Decide(Validator, s[q..]).Width()
  }

  /** A complete candidate starts at `q`: a start byte, an allowed length, and that many bytes. */
  predicate HeaderAt(s: bytes, q: nat) {
    q + 5 <= |s| && s[q] == SOF && s[q + 3] <= MAX_PAYLOAD && q + 5 + s[q + 3] as nat <= |s|
  }

  /** What a parser consumes as a whole: frames, or, in the viewer, candidates of any checksum. */
  predicate StartsAt(p: Policy, s: bytes, q: nat) {
    match p
    case Validator => FrameAt(s, q)
    case Viewer => HeaderAt(s, q)
  }

  function EndAt(p: Policy, s: bytes, q: nat): (end: nat)
    requires StartsAt(p, s, q)
    ensures q + 5 <= end <= |s|
  {
    match p
    case Validator => FrameEnd(s, q)
    case Viewer => q + 5 + s[q + 3] as nat
  }

  /**
   `starts` takes what can be consumed from left to right, without overlap, and everything that
   starts before `end` is taken or starts inside something that was taken before it.
   */
  ghost predicate Greedy(p: Policy, s: bytes, end: nat, starts: seq<nat>) {
    && (forall k :: 0 <= k < |starts| ==> StartsAt(p, s, starts[k]) && starts[k] < end)
    && (forall j, k :: 0 <= j < k < |starts| ==> EndAt(p, s, starts[j]) <= starts[k])
    && (forall q :: 0 <= q < end && StartsAt(p, s, q) ==>
          exists k :: 0 <= k < |starts| && starts[k] <= q && (q == starts[k] || q < EndAt(p, s, starts[k])))
  }

  /** There is only one such choice. */
  lemma GreedyUnique(p: Policy, s: bytes, end: nat, a: seq<nat>, b: seq<nat>)
    requires Greedy(p, s, end, a) && Greedy(p, s, end, b)
    ensures a == b
  {
    var n := if |a| <= |b| then |a| else |b|;
    GreedyPrefix(p, s, end, a, b, n);
    if |a| > n {
      GreedyBound(p, s, end, a, b, n);
    } else if |b| > n {
      GreedyBound(p, s, end, b, a, n);
    }
    assert a == a[..n] && b == b[..n];
  }

  /** If `b` agrees with `a` so far and `a` goes on, so does `b`, and not further right. */
  lemma GreedyBound(p: Policy, s: bytes, end: nat, a: seq<nat>, b: seq<nat>, n: nat)
    requires Greedy(p, s, end, a) && Greedy(p, s, end, b)
    requires n < |a| && n <= |b| && a[..n] == b[..n]
    ensures n < |b| && b[n] <= a[n]
  {
    hide Greedy, StartsAt;
    GreedyApart(p, s, end, a, 0, n);
    var k := GreedyCovers(p, s, end, b, a[n]);
    if k < n {
      assert b[k] == b[..n][k] && a[k] == a[..n][k];
      GreedyApart(p, s, end, a, k, n);
    } else {
      GreedyApart(p, s, end, b, n, k);
    }
  }

  lemma GreedyCovers(p: Policy, s: bytes, end: nat, starts: seq<nat>, q: nat) returns (k: nat)
    requires Greedy(p, s, end, starts) && q < end && StartsAt(p, s, q)
    ensures k < |starts| && StartsAt(p, s, starts[k])
    ensures starts[k] <= q && (q == starts[k] || q < EndAt(p, s, starts[k]))
  {
    hide StartsAt;
    k :| 0 <= k < |starts| && starts[k] <= q && (q == starts[k] || q < EndAt(p, s, starts[k]));
  }

  lemma GreedyApart(p: Policy, s: bytes, end: nat, starts: seq<nat>, j: nat, k: nat)
    requires Greedy(p, s, end, starts) && j <= k < |starts|
    ensures StartsAt(p, s, starts[j]) && StartsAt(p, s, starts[k]) && starts[k] < end
    ensures j == k || EndAt(p, s, starts[j]) <= starts[k]
  {
    hide StartsAt;
  }

  lemma {:induction false} GreedyPrefix(p: Policy, s: bytes, end: nat, a: seq<nat>, b: seq<nat>, n: nat)
    requires Greedy(p, s, end, a) && Greedy(p, s, end, b) && n <= |a| && n <= |b|
    ensures a[..n] == b[..n]
    decreases n
  {
    hide Greedy;
    if n > 0 {
      GreedyPrefix(p, s, end, a, b, n - 1);
      GreedyOneMore(p, s, end, a, b, n - 1);
    }
  }

  lemma GreedyOneMore(p: Policy, s: bytes, end: nat, a: seq<nat>, b: seq<nat>, n: nat)
    requires Greedy(p, s, end, a) && Greedy(p, s, end, b) && n < |a| && n < |b| && a[..n] == b[..n]
    ensures a[..n + 1] == b[..n + 1]
  {
    hide Greedy;
    GreedyBound(p, s, end, a, b, n);
    GreedyBound(p, s, end, b, a, n);
    PrefixSnoc(a, b, n);
  }

  /** A shorter end keeps the part of the choice that lies before it. */
  lemma GreedyCut(p: Policy, s: bytes, end: nat, starts: seq<nat>, q: nat) returns (n: nat)
    requires Greedy(p, s, end, starts) && q <= end
    ensures n <= |starts| && Greedy(p, s, q, starts[..n])
    ensures forall k :: 0 <= k < |starts| ==> (starts[k] < q <==> k < n)
  {
    n := CountBefore(p, s, end, starts, q);
    var front := starts[..n];
    forall x | 0 <= x < q && StartsAt(p, s, x)
      ensures exists k :: 0 <= k < |front| && front[k] <= x && (x == front[k] || x < EndAt(p, s, front[k]))
    {
      var k := GreedyCovers(p, s, end, starts, x);
      assert k < n && front[k] == starts[k];
    }
  }

  lemma CountBefore(p: Policy, s: bytes, end: nat, starts: seq<nat>, q: nat) returns (n: nat)
    requires Greedy(p, s, end, starts)
    ensures n <= |starts|
    ensures forall k :: 0 <= k < |starts| ==> (starts[k] < q <==> k < n)
  {
    hide Greedy, StartsAt;
    n := 0;
    while n < |starts| && starts[n] < q
      invariant n <= |starts| && forall k :: 0 <= k < n ==> starts[k] < q
    {
      n := n + 1;
    }
    forall k | n < k < |starts| ensures starts[k] >= q {
      GreedyApart(p, s, end, starts, n, k);
    }
  }

  predicate Takes(p: Policy, v: Verdict) {
    v.Accept? || (p.Viewer? && v.Reject?)
  }

  function Starts(p: Policy, events: seq<Event>): seq<nat> {
    if events == [] then []
    else Starts(p, events[..|events| - 1])
         + (if Takes(p, events[|events| - 1].verdict) then [events[|events| - 1].at] else [])
  }

  lemma {:induction false} StartsFromEvents(p: Policy, events: seq<Event>, k: nat) returns (e: nat)
    requires k < |Starts(p, events)|
    ensures e < |events| && Takes(p, events[e].verdict) && events[e].at == Starts(p, events)[k]
    ensures Starts(p, events[..e]) == Starts(p, events)[..k]
    decreases |events|
  {
    var n := |events| - 1;
    if k < |Starts(p, events[..n])| {
      e := StartsFromEvents(p, events[..n], k);
      assert events[..n][..e] == events[..e];
      assert Starts(p, events)[..k] == Starts(p, events[..n])[..k];
    } else {
      e := n;
      assert Starts(p, events)[..k] == Starts(p, events[..n]);
    }
  }

  lemma {:induction false} EventInStarts(p: Policy, events: seq<Event>, e: nat) returns (k: nat)
    requires e < |events| && Takes(p, events[e].verdict)
    ensures k < |Starts(p, events)| && Starts(p, events)[k] == events[e].at
    decreases |events|
  {
    var n := |events| - 1;
    if e == n {
      k := |Starts(p, events[..n])|;
    } else {
      k := EventInStarts(p, events[..n], e);
    }
  }

  /** What a policy decides at a place, and what can be consumed there. */
  lemma TakenWhole(p: Policy, s: bytes, e: Event)
    requires e.at <= |s| && e.verdict == JudgeOf(p)(s[e.at..]) && Takes(p, e.verdict)
    ensures StartsAt(p, s, e.at) && EndAt(p, s, e.at) == e.at + e.verdict.Width()
  {
    assert e.verdict == Decide(p, s[e.at..]);
  }

  /** Only what can be consumed whole makes a parser consume more than one byte. */
  lemma OnlyTakenAreLong(p: Policy, s: bytes, e: Event, q: nat)
    requires e.at <= |s| && e.verdict == JudgeOf(p)(s[e.at..])
    requires StartsAt(p, s, q) && e.at <= q < e.at + e.verdict.Width()
    ensures Takes(p, e.verdict)
  {
    assert e.verdict == Decide(p, s[e.at..]);
  }

  /** Either parser's whole candidates are the leftmost greedy choice over the bytes it has decided. */
  lemma ParseIsGreedy(p: Policy, s: bytes)
    ensures var r := ParseOf(p, s); Greedy(p, s, r.end, Starts(p, r.events))
  {
    var r := ParseOf(p, s);
    var starts := Starts(p, r.events);
    forall k | 0 <= k < |starts| ensures StartsAt(p, s, starts[k]) && starts[k] < r.end {
      StartWithin(p, s, k);
    }
    forall j, k | 0 <= j < k < |starts| ensures EndAt(p, s, starts[j]) <= starts[k] {
      StartsApart(p, s, j, k);
    }
    forall q | 0 <= q < r.end && StartsAt(p, s, q)
      ensures exists k :: 0 <= k < |starts| && starts[k] <= q && (q == starts[k] || q < EndAt(p, s, starts[k]))
    {
      var k := StartTaken(p, s, q);
    }
  }

  lemma StartWithin(p: Policy, s: bytes, k: nat)
    requires k < |Starts(p, ParseOf(p, s).events)|
    ensures var starts := Starts(p, ParseOf(p, s).events);
            StartsAt(p, s, starts[k]) && starts[k] < ParseOf(p, s).end
  {
    var r := ParseOf(p, s);
    WholeTiles(p, s);
    var e := StartsFromEvents(p, r.events, k);
    EventWithin(JudgeOf(p), s, r.events, 0, r.end, e);
    TakenWhole(p, s, r.events[e]);
  }

  lemma StartsApart(p: Policy, s: bytes, j: nat, k: nat)
    requires j < k < |Starts(p, ParseOf(p, s).events)|
    ensures var starts := Starts(p, ParseOf(p, s).events);
            StartsAt(p, s, starts[j]) && EndAt(p, s, starts[j]) <= starts[k]
  {
    var r := ParseOf(p, s);
    WholeTiles(p, s);
    var f := StartsFromEvents(p, r.events, k);
    assert Starts(p, r.events)[..k][j] == Starts(p, r.events)[j];
    var e := StartsFromEvents(p, r.events[..f], j);
    assert r.events[..f][e] == r.events[e];
    EventWithin(JudgeOf(p), s, r.events, 0, r.end, e);
    EventsOrdered(JudgeOf(p), s, r.events, 0, r.end, e, f);
    TakenWhole(p, s, r.events[e]);
  }

  lemma StartTaken(p: Policy, s: bytes, q: nat) returns (k: nat)
    requires StartsAt(p, s, q) && q < ParseOf(p, s).end
    ensures var starts := Starts(p, ParseOf(p, s).events);
            && k < |starts| && StartsAt(p, s, starts[k])
            && starts[k] <= q && (q == starts[k] || q < EndAt(p, s, starts[k]))
  {
    var r := ParseOf(p, s);
    WholeTiles(p, s);
    var e := EventAt(JudgeOf(p), s, r.events, 0, r.end, q);
    OnlyTakenAreLong(p, s, r.events[e], q);
    TakenWhole(p, s, r.events[e]);
    k := EventInStarts(p, r.events, e);
  }

  /** Whatever starts at a place is decided by the time 37 bytes from it have arrived. */
  lemma DecidedInTime(p: Policy, s: bytes, q: nat)
    requires q + 37 <= |s|
    ensures q < ParseOf(p, s).end
  {
    LeftoverBounded(p, s);
  }
}
