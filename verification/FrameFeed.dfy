/** What the two frame parsers keep between calls, and why it does not matter how a stream is cut. */
module FrameFeed {
  import opened Bytes
  import opened FrameScan
  import opened DebugFrames

  datatype Frame = Frame(version: byte, kind: byte, payload: bytes)

  datatype Tally = Tally(frames: seq<Frame>, checksumErrors: nat, syncDrops: nat, locked: bool, badFrames: seq<bytes>)

  const NOTHING: Tally := Tally([], 0, 0, false, [])

  function FrameOf(raw: bytes): Frame
    requires |raw| >= 5
  {
    Frame(raw[1], raw[2], raw[4..|raw| - 1])
  }

  /** What one decision adds to a parser's results and counters. */
  function Count(p: Policy, t: Tally, v: Verdict): Tally {
    match v
    case Wait => t
    case Skip => t.(syncDrops := t.syncDrops + 1)
    case Accept(raw) => if |raw| < 5 then t else t.(frames := t.frames + [FrameOf(raw)], locked := true)
    case Reject(raw, _) =>
      if p.Viewer? then t.(checksumErrors := t.checksumErrors + 1)
      else if t.locked then
        t.(checksumErrors := t.checksumErrors + 1,
           badFrames := if |t.badFrames| < 4 then t.badFrames + [raw] else t.badFrames)
      else t.(syncDrops := t.syncDrops + 1)
  }

  function CountAll(p: Policy, t: Tally, vs: seq<Verdict>): Tally
    decreases |vs|
  {
    if vs == [] then t else CountAll(p, Count(p, t, vs[0]), vs[1..])
  }

  lemma {:induction false} CountAppend(p: Policy, t: Tally, a: seq<Verdict>, b: seq<Verdict>)
    ensures CountAll(p, t, a + b) == CountAll(p, CountAll(p, t, a), b)
    decreases |a|
  {
    if a == [] {
      assert a + b == b;
    } else {
      assert (a + b)[1..] == a[1..] + b;
      CountAppend(p, Count(p, t, a[0]), a[1..], b);
    }
  }

  /** A parser between two calls. */
  datatype Parser = Parser(buffer: bytes, tally: Tally)

  const FRESH: Parser := Parser([], NOTHING)

  /** Decides everything the buffer allows. */
  ghost function Drain(p: Policy, st: Parser): Parser {
    var r := ParseOf(p, st.buffer);
    Parser(st.buffer[r.end..], CountAll(p, st.tally, Verdicts(r.events)))
  }

  ghost function Feed(p: Policy, st: Parser, data: bytes): Parser {
    Drain(p, Parser(st.buffer + data, st.tally))
  }

  ghost function FeedAll(p: Policy, st: Parser, chunks: seq<bytes>): Parser
    decreases |chunks|
  {
    if chunks == [] then st else FeedAll(p, Feed(p, st, chunks[0]), chunks[1..])
  }

  /** One turn of a parser's loop brings it one decision closer to the same end. */
  lemma DrainStep(p: Policy, st: Parser)
    requires !Decide(p, st.buffer).Wait?
    ensures var v := Decide(p, st.buffer);
            Drain(p, st) == Drain(p, Parser(st.buffer[v.Width()..], Count(p, st.tally, v)))
  {
    var j, s, v := JudgeOf(p), st.buffer, Decide(p, st.buffer);
    JudgeSound(p);
    ScanFront(j, s);
    var tail := Verdicts(Scan(j, s[v.Width()..], 0).events);
    assert ([v] + tail)[1..] == tail;
  }

  /** A whole candidate at the front is decided by its checksum. */
  lemma DecideCandidate(p: Policy, s: bytes, raw: bytes)
    requires |s| >= 5 && GoodHeader(p, s) && s[3] as nat + 5 <= |s| && raw == s[..s[3] as nat + 5]
    ensures Decide(p, s) == if Checksum(raw[1..|raw| - 1]) == raw[|raw| - 1] then Accept(raw)
                            else Reject(raw, if p.Validator? then 1 else |raw|)
  {
  }

  lemma DrainTo(p: Policy, st: Parser, v: Verdict, next: Parser)
    requires v == Decide(p, st.buffer) && !v.Wait?
    requires next == Parser(st.buffer[v.Width()..], Count(p, st.tally, v))
    ensures Drain(p, st) == Drain(p, next)
  {
    DrainStep(p, st);
  }

  lemma DrainWait(p: Policy, st: Parser)
    requires Decide(p, st.buffer).Wait?
    ensures Drain(p, st) == st
  {
    JudgeSound(p);
    assert st.buffer[0..] == st.buffer && Decide(p, st.buffer) == JudgeOf(p)(st.buffer);
    assert Verdicts([]) == [];
  }

  /** Feeding two pieces is feeding them glued together. */
  lemma FeedTwice(p: Policy, st: Parser, a: bytes, b: bytes)
    ensures Feed(p, Feed(p, st, a), b) == Feed(p, st, a + b)
  {
    hide Drain;
    assert st.buffer + (a + b) == st.buffer + a + b;
    DrainCut(p, Parser(st.buffer + a, st.tally), b);
  }

  lemma DrainCut(p: Policy, st: Parser, more: bytes)
    ensures Drain(p, Parser(st.buffer + more, st.tally))
         == Drain(p, Parser(Drain(p, st).buffer + more, Drain(p, st).tally))
  {
    var s := st.buffer;
    JudgeSound(p);
    ScanCut(JudgeOf(p), s, more);
    var first, all := ParseOf(p, s), ParseOf(p, s + more);
    var rest := ParseOf(p, s[first.end..] + more);
    SliceTwice(s, more, first.end, rest.end);
    assert Verdicts(all.events) == Verdicts(first.events) + Verdicts(rest.events);
    CountAppend(p, st.tally, Verdicts(first.events), Verdicts(rest.events));
  }

  lemma SliceTwice(s: bytes, more: bytes, m: nat, n: nat)
    requires m <= |s| && m + n <= |s| + |more|
    ensures (s + more)[m + n..] == (s[m..] + more)[n..]
  {
  }

  lemma FeedNothing(p: Policy, st: Parser)
    requires Decide(p, st.buffer).Wait?
    ensures Feed(p, st, []) == st
  {
    assert st.buffer + [] == st.buffer;
    DrainWait(p, st);
  }

  lemma FeedWaits(p: Policy, st: Parser, data: bytes)
    ensures Decide(p, Feed(p, st, data).buffer).Wait?
  {
    WholeTiles(p, st.buffer + data);
  }

  /** Any cut of a stream leaves the same state and the same output as no cut. */
  lemma {:induction false} CutIndependent(p: Policy, st: Parser, chunks: seq<bytes>)
    requires Decide(p, st.buffer).Wait?
    ensures FeedAll(p, st, chunks) == Feed(p, st, Concat(chunks))
    decreases |chunks|
  {
    if chunks == [] {
      FeedNothing(p, st);
    } else {
      FeedWaits(p, st, chunks[0]);
      CutIndependent(p, Feed(p, st, chunks[0]), chunks[1..]);
      FeedTwice(p, st, chunks[0], Concat(chunks[1..]));
    }
  }
}
