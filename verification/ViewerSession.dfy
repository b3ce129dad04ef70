/** The web viewer's end of the bridge: records in, frames out, one session at a time. */
module ViewerSession {
  import opened Bytes
  import opened Wrappers
  import opened FrameScan
  import opened DebugFrames
  import opened FrameFeed
  import opened BridgeProtocol

  datatype View = View(parser: Parser, session: Option<nat>)

  /** What the JSON texts of HELLO and SESSION records say. */
  datatype Reader = Reader(greeting: bytes -> nat, announced: bytes -> nat)

  const NEW_VIEW: View := View(FRESH, None)

  ghost function Consume(v: View, r: Record, j: Reader): View {
    if r.kind == TYPE_DATA then v.(parser := FrameFeed.Feed(Viewer, v.parser, r.payload))
    else if r.kind == TYPE_HELLO then
      var session := j.greeting(r.payload);
      var keep := v.session.None? || v.session.value == session;
      View(if keep then v.parser else v.parser.(buffer := []), Some(session))
    else if r.kind == TYPE_SESSION then
      View(v.parser.(buffer := []), Some(j.announced(r.payload)))
    else v
  }

  ghost function ConsumeAll(v: View, records: seq<Record>, j: Reader): View {
    if records == [] then v
    else Consume(ConsumeAll(v, records[..|records| - 1], j), records[|records| - 1], j)
  }

  lemma {:induction false} ConsumeAppend(v: View, a: seq<Record>, b: seq<Record>, j: Reader)
    ensures ConsumeAll(v, a + b, j) == ConsumeAll(ConsumeAll(v, a, j), b, j)
    decreases |b|
  {
    if b == [] {
      assert a + b == a;
    } else {
      var n := |b| - 1;
      ConsumeAppend(v, a, b[..n], j);
      ConsumeSnoc(v, a + b[..n], b[n], j);
      assert a + b == (a + b[..n]) + [b[n]];
    }
  }

  lemma ConsumeSnoc(v: View, a: seq<Record>, r: Record, j: Reader)
    ensures ConsumeAll(v, a + [r], j) == Consume(ConsumeAll(v, a, j), r, j)
  {
    assert (a + [r])[..|a|] == a;
  }

  /** The records at the front of the buffer, up to an oversize or incomplete one. */
  function Leading(data: bytes): seq<Record>
    decreases |data|
  {
    match First(data)
    case Ok(Some(record)) => [record] + Leading(data[|record.Wire()|..])
    case _ => []
  }

  lemma {:induction false} LeadingIsDecoded(data: bytes)
    ensures DecodeRecords(data).Ok? ==> DecodeRecords(data).value.records == Leading(data)
    decreases |data|
  {
    match First(data)
    case Ok(Some(record)) => LeadingIsDecoded(data[|record.Wire()|..]);
    case _ =>
  }

  /** A viewer fed in pieces, with the carried remainder of the record stream. */
  ghost function ReceiveAll(v: View, carry: bytes, chunks: seq<bytes>, j: Reader): Result<(View, bytes), ProtocolError>
    decreases |chunks|
  {
    if chunks == [] then Ok((v, carry))
    else
      match DecodeRecords(carry + chunks[0])
      case Err(e) => Err(e)
      case Ok(d) => ReceiveAll(ConsumeAll(v, d.records, j), d.rest, chunks[1..], j)
  }

  /** However the socket cuts the stream, the viewer ends in the same state. */
  lemma {:induction false} ReceiveCut(v: View, carry: bytes, chunks: seq<bytes>, j: Reader)
    requires DecodeRecords(carry) == Ok(Decoded([], carry))
    ensures ReceiveAll(v, carry, chunks, j) ==
            match DecodeRecords(carry + Concat(chunks))
            case Err(e) => Err(e)
            case Ok(d) => Ok((ConsumeAll(v, d.records, j), d.rest))
    decreases |chunks|
  {
    if chunks == [] {
      assert carry + [] == carry;
    } else {
      var head, rest := carry + chunks[0], Concat(chunks[1..]);
      assert carry + Concat(chunks) == head + rest;
      DecodeCut(head, rest);
      match DecodeRecords(head) {
        case Err(_) =>
        case Ok(d) =>
          RestUndecided(head);
          ReceiveCut(ConsumeAll(v, d.records, j), d.rest, chunks[1..], j);
          if DecodeRecords(d.rest + rest).Ok? {
            ConsumeAppend(v, d.records, DecodeRecords(d.rest + rest).value.records, j);
          }
      }
    }
  }

  // ----- one session at a time -----

  /** The payloads between two changes of session. */
  datatype Segment = Segment(session: Option<nat>, pieces: seq<bytes>)

  predicate Keeps(current: Option<nat>, r: Record, j: Reader) {
    r.kind == TYPE_HELLO && (current.None? || current.value == j.greeting(r.payload))
  }

  /** The record stream cut where the session changes; the last segment is still open. */
  function Split(records: seq<Record>, j: Reader): (r: seq<Segment>)
    ensures |r| > 0
  {
    if records == [] then [Segment(None, [])]
    else PlacedRecord(Split(records[..|records| - 1], j), records[|records| - 1], j)
  }

  /** Where the next record goes: into the last segment, or it begins one. */
  function PlacedRecord(front: seq<Segment>, r: Record, j: Reader): (next: seq<Segment>)
    requires |front| > 0
    ensures |next| > 0
  {
    var last := front[|front| - 1];
    if r.kind == TYPE_DATA then front[|front| - 1 := last.(pieces := last.pieces + [r.payload])]
    else if Keeps(last.session, r, j) then front[|front| - 1 := last.(session := Some(j.greeting(r.payload)))]
    else if r.kind == TYPE_HELLO then front + [Segment(Some(j.greeting(r.payload)), [])]
    else if r.kind == TYPE_SESSION then front + [Segment(Some(j.announced(r.payload)), [])]
    else front
  }

  /** The frames of one segment parsed on its own, from an empty buffer. */
  ghost function SegmentFrames(s: Segment): seq<Frame> {
    Drain(Viewer, Parser(Concat(s.pieces), NOTHING)).tally.frames
  }

  ghost function AllFrames(segments: seq<Segment>): seq<Frame> {
    Joined(seq(|segments|, i requires 0 <= i < |segments| => SegmentFrames(segments[i])))
  }

  ghost function Joined(parts: seq<seq<Frame>>): seq<Frame> {
    if parts == [] then [] else Joined(parts[..|parts| - 1]) + parts[|parts| - 1]
  }

  lemma JoinedSnoc(parts: seq<seq<Frame>>, last: seq<Frame>)
    ensures Joined(parts + [last]) == Joined(parts) + last
  {
    assert (parts + [last])[..|parts|] == parts;
  }

  lemma JoinedLast(parts: seq<seq<Frame>>, more: seq<Frame>)
    requires |parts| > 0
    ensures Joined(parts[|parts| - 1 := parts[|parts| - 1] + more]) == Joined(parts) + more
  {
    var n := |parts| - 1;
    var front, last := parts[..n], parts[n];
    assert parts == front + [last] && parts[n := last + more] == front + [last + more];
    JoinedSnoc(front, last);
    JoinedSnoc(front, last + more);
  }

  lemma {:induction false} FramesAdd(p: Policy, t: Tally, vs: seq<Verdict>)
    ensures CountAll(p, t, vs).frames == t.frames + CountAll(p, NOTHING, vs).frames
    decreases |vs|
  {
    if vs == [] {
    } else {
      var n := |vs| - 1;
      assert vs == vs[..n] + [vs[n]];
      CountAppend(p, t, vs[..n], [vs[n]]);
      CountAppend(p, NOTHING, vs[..n], [vs[n]]);
      FramesAdd(p, t, vs[..n]);
      OneFrame(p, CountAll(p, t, vs[..n]), vs[n]);
      OneFrame(p, CountAll(p, NOTHING, vs[..n]), vs[n]);
    }
  }

  function NewFrames(v: Verdict): seq<Frame> {
    if v.Accept? && |v.raw| >= 5 then [FrameOf(v.raw)] else []
  }

  lemma OneFrame(p: Policy, t: Tally, v: Verdict)
    ensures CountAll(p, t, [v]).frames == t.frames + NewFrames(v)
  {
    assert [v][1..] == [];
    assert CountAll(p, t, [v]) == Count(p, t, v);
  }

  /** What the viewer holds is what its segments, parsed separately, give. */
  ghost predicate Separate(v: View, segments: seq<Segment>)
    requires |segments| > 0
  {
    var last := segments[|segments| - 1];
    && v.session == last.session
    && v.parser.buffer == Drain(Viewer, Parser(Concat(last.pieces), NOTHING)).buffer
    && v.parser.tally.frames == AllFrames(segments)
  }

  lemma EmptySegment(s: Segment)
    requires s.pieces == []
    ensures SegmentFrames(s) == [] && Drain(Viewer, Parser(Concat(s.pieces), NOTHING)).buffer == []
  {
    DrainWait(Viewer, Parser(Concat(s.pieces), NOTHING));
  }

  lemma AllFramesSnoc(segments: seq<Segment>, last: Segment)
    ensures AllFrames(segments + [last]) == AllFrames(segments) + SegmentFrames(last)
  {
    var parts := seq(|segments|, i requires 0 <= i < |segments| => SegmentFrames(segments[i]));
    var longer := segments + [last];
    assert seq(|longer|, i requires 0 <= i < |longer| => SegmentFrames(longer[i])) == parts + [SegmentFrames(last)];
    JoinedSnoc(parts, SegmentFrames(last));
  }

  lemma OpenSegment(v: View, segments: seq<Segment>, started: Segment)
    requires |segments| > 0 && Separate(v, segments) && started.pieces == []
    ensures Separate(View(v.parser.(buffer := []), started.session), segments + [started])
  {
    EmptySegment(started);
    AllFramesSnoc(segments, started);
  }

  /** Feeding one more payload to a segment on its own. */
  lemma SegmentGrows(s: Segment, payload: bytes)
    ensures var buffer := Drain(Viewer, Parser(Concat(s.pieces), NOTHING)).buffer;
            var more := Drain(Viewer, Parser(buffer + payload, NOTHING));
            var grown := s.(pieces := s.pieces + [payload]);
            && SegmentFrames(grown) == SegmentFrames(s) + more.tally.frames
            && Drain(Viewer, Parser(Concat(grown.pieces), NOTHING)).buffer == more.buffer
  {
    var data := Concat(s.pieces);
    var alone := Drain(Viewer, Parser(data, NOTHING));
    ConcatSnoc(s.pieces, payload);
    DrainCut(Viewer, Parser(data, NOTHING), payload);
    FeedAdds(alone.buffer, alone.tally, payload);
  }

  /** More bytes of the open segment, whatever was counted before it. */
  lemma GrowSegment(v: View, segments: seq<Segment>, payload: bytes)
    requires |segments| > 0 && Separate(v, segments)
    ensures var last := segments[|segments| - 1];
            Separate(v.(parser := FrameFeed.Feed(Viewer, v.parser, payload)),
                     segments[|segments| - 1 := last.(pieces := last.pieces + [payload])])
  {
    var last := segments[|segments| - 1];
    var grown := last.(pieces := last.pieces + [payload]);
    var more := Drain(Viewer, Parser(v.parser.buffer + payload, NOTHING)).tally.frames;
    FeedAdds(v.parser.buffer, v.parser.tally, payload);
    SegmentGrows(last, payload);
    LastGrows(segments, grown, more);
  }

  lemma LastGrows(segments: seq<Segment>, grown: Segment, more: seq<Frame>)
    requires |segments| > 0 && SegmentFrames(grown) == SegmentFrames(segments[|segments| - 1]) + more
    ensures AllFrames(segments[|segments| - 1 := grown]) == AllFrames(segments) + more
  {
    var n := |segments| - 1;
    var parts := seq(|segments|, i requires 0 <= i < |segments| => SegmentFrames(segments[i]));
    var longer := segments[n := grown];
    assert seq(|longer|, i requires 0 <= i < |longer| => SegmentFrames(longer[i])) == parts[n := parts[n] + more];
    JoinedLast(parts, more);
  }

  /** Feeding adds the same frames whatever the tally was. */
  lemma FeedAdds(buffer: bytes, t: Tally, payload: bytes)
    ensures var fed := Drain(Viewer, Parser(buffer + payload, t));
            var anew := Drain(Viewer, Parser(buffer + payload, NOTHING));
            fed.buffer == anew.buffer && fed.tally.frames == t.frames + anew.tally.frames
  {
    FramesAdd(Viewer, t, Verdicts(ParseOf(Viewer, buffer + payload).events));
  }

  lemma NothingYet(first: Segment)
    requires first.pieces == []
    ensures AllFrames([first]) == [] && Drain(Viewer, Parser(Concat(first.pieces), NOTHING)).buffer == []
  {
    EmptySegment(first);
    var none: seq<seq<Frame>> := [];
    JoinedSnoc(none, SegmentFrames(first));
    assert seq(1, i requires 0 <= i < 1 => SegmentFrames([first][i])) == none + [SegmentFrames(first)];
  }

  lemma {:induction false} StaysSeparate(records: seq<Record>, j: Reader)
    ensures Separate(ConsumeAll(NEW_VIEW, records, j), Split(records, j))
  {
    if records == [] {
      NothingYet(Segment(None, []));
    } else {
      var n := |records| - 1;
      StaysSeparate(records[..n], j);
      OneRecord(ConsumeAll(NEW_VIEW, records[..n], j), Split(records[..n], j), records[n], j);
    }
  }

  lemma OneRecord(v: View, segments: seq<Segment>, r: Record, j: Reader)
    requires |segments| > 0 && Separate(v, segments)
    ensures Separate(Consume(v, r, j), PlacedRecord(segments, r, j))
  {
    var last := segments[|segments| - 1];
    if r.kind == TYPE_DATA {
      GrowSegment(v, segments, r.payload);
    } else if Keeps(last.session, r, j) {
      RelabelSegment(v, segments, Some(j.greeting(r.payload)));
    } else if r.kind == TYPE_HELLO {
      OpenSegment(v, segments, Segment(Some(j.greeting(r.payload)), []));
    } else if r.kind == TYPE_SESSION {
      OpenSegment(v, segments, Segment(Some(j.announced(r.payload)), []));
    }
  }

  lemma RelabelSegment(v: View, segments: seq<Segment>, session: Option<nat>)
    requires |segments| > 0 && Separate(v, segments)
    ensures Separate(v.(session := session), segments[|segments| - 1 := segments[|segments| - 1].(session := session)])
  {
    var n := |segments| - 1;
    LastGrows(segments, segments[n].(session := session), []);
  }

  /**
   The viewer never joins bytes across a change of session: its frames are those of each
   session's payloads, every session parsed on its own from an empty buffer.
   */
  lemma FramesPerSession(records: seq<Record>, j: Reader)
    ensures ConsumeAll(NEW_VIEW, records, j).parser.tally.frames == AllFrames(Split(records, j))
  {
    StaysSeparate(records, j);
  }
}
