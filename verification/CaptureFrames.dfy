/** From payloads to captures: what any list of frames leaves of one capture. */
module CaptureFrames {
  import opened Bytes
  import opened Wrappers
  import opened Captures
  import opened LogicAnalyzer

  function ReceivedAll(captures: map<nat, Capture>, frames: seq<CaptureFrame>): map<nat, Capture> {
    if frames == [] then captures
    else Received(ReceivedAll(captures, frames[..|frames| - 1]), frames[|frames| - 1])
  }

  /** The frame is well formed and names this capture. */
  predicate Concerns(f: CaptureFrame, id: nat) {
    match f
    case HeaderFrame(payload) => |payload| == HEADER_BYTES && FromLe(payload[0..4]) == id
    case SampleFrame(payload) => DecodeSamples(payload).Some? && DecodeSamples(payload).value.captureId == id
  }

  /** A chunk sent with samples of `width` bytes, or any frame whatever. */
  datatype Sent = Chunked(data: SampleData, width: byte) | Other(frame: CaptureFrame)

  /** A chunk of the capture that fits its frame, or something that does not concern the capture. */
  predicate Sound(x: Sent, id: nat) {
    match x
    case Chunked(d, width) => Fits(d, width) && d.captureId == id && |d.chunk.values| < 0x100
    case Other(f) => !Concerns(f, id)
  }

  function FrameOf(x: Sent, id: nat): CaptureFrame
    requires Sound(x, id)
  {
    match x
    case Chunked(d, width) => SampleFrame(SamplePayload(d, width))
    case Other(f) => f
  }

  predicate AllSound(sent: seq<Sent>, id: nat) {
    forall k :: 0 <= k < |sent| ==> Sound(sent[k], id)
  }

  function FramesOf(sent: seq<Sent>, id: nat): (r: seq<CaptureFrame>)
    requires AllSound(sent, id)
    ensures |r| == |sent|
  {
    seq(|sent|, k requires 0 <= k < |sent| => FrameOf(sent[k], id))
  }

  function ChunksOf(sent: seq<Sent>): seq<Chunk> {
    if sent == [] then []
    else
      var front, last := ChunksOf(sent[..|sent| - 1]), sent[|sent| - 1];
      if last.Chunked? then front + [last.data.chunk] else front
  }

  lemma OneReceived(captures: map<nat, Capture>, x: Sent, id: nat)
    requires Sound(x, id)
    ensures var c, r := CaptureOf(captures, id), CaptureOf(Received(captures, FrameOf(x, id)), id);
            r == if x.Chunked? then AddChunk(c, x.data.chunk) else c
  {
    if x.Chunked? {
      SamplesSurvive(x.data, x.width);
      hide DecodeSamples, SamplePayload, AddChunk, Fits;
    }
  }

  /** Its own chunks reach a capture in their order, whatever else is sent between them. */
  lemma {:induction false} ChunksReceived(captures: map<nat, Capture>, sent: seq<Sent>, id: nat)
    requires AllSound(sent, id)
    ensures CaptureOf(ReceivedAll(captures, FramesOf(sent, id)), id) == AddAll(CaptureOf(captures, id), ChunksOf(sent))
    decreases |sent|
  {
    if sent == [] {
      assert FramesOf(sent, id) == [];
    } else {
      var n := |sent| - 1;
      var front, x := sent[..n], sent[n];
      ChunksReceived(captures, front, id);
      assert FramesOf(sent, id)[..n] == FramesOf(front, id);
      OneReceived(ReceivedAll(captures, FramesOf(front, id)), x, id);
      if x.Chunked? {
        assert ChunksOf(sent)[..|ChunksOf(front)|] == ChunksOf(front);
      }
    }
  }

  /**
   A capture as it is sent: its header in a frame, then its samples in chunks, cut into frames of
   any packing, in any order and repeated at will, between frames that are malformed or belong to
   other captures. Exactly the samples that arrived are then shown, each in its place, and the
   capture is complete if and only if none is missing.
   */
  lemma CaptureArrives(captures: map<nat, Capture>, id: nat, h: CaptureHeader, original: seq<nat>, sent: seq<Sent>)
    requires id !in captures && HeaderFits(id, h) && h.sampleCount == |original|
    requires AllSound(sent, id) && Pieces(original, ChunksOf(sent))
    ensures var headed := Received(captures, HeaderFrame(HeaderPayload(id, h)));
            var c := CaptureOf(ReceivedAll(headed, FramesOf(sent, id)), id);
            && Holds(c.samples, original, ChunksOf(sent))
            && (c.complete <==> ChunksOf(sent) != [] && forall i :: 0 <= i < |original| ==> Covered(ChunksOf(sent), i))
  {
    var headed := Received(captures, HeaderFrame(HeaderPayload(id, h)));
    CaptureHeaderSurvives(id, h);
    hide FromLe, HeaderPayload, HeaderFields, HeaderFits;
    assert CaptureOf(headed, id) == WithHeader(NO_CAPTURE, |original|);
    hide Received, WithHeader;
    ChunksReceived(headed, sent, id);
    Reassembled(original, ChunksOf(sent));
  }

  lemma ReceivedCounts(captures: map<nat, Capture>, f: CaptureFrame, id: nat)
    requires Counted(CaptureOf(captures, id))
    ensures Counted(CaptureOf(Received(captures, f), id))
  {
    var c := CaptureOf(captures, id);
    if f.SampleFrame? {
      hide Balanced, Distinct, Take, AddChunk, FromLe, ValuesAt;
      var decoded := DecodeSamples(f.payload);
      if decoded.Some? && decoded.value.captureId == id {
        AddKeepsCount(c, decoded.value.chunk);
      }
    }
  }

  /**
   Whatever frames come, headers sent again and malformed ones included, every capture's ranges
   stay increasing and apart, and tell with the late chunks how many indices are still missing.
   */
  lemma {:induction false} CountsKept(frames: seq<CaptureFrame>, id: nat)
    ensures var c := CaptureOf(ReceivedAll(map[], frames), id);
            && Counted(c) && |UpTo(Highest(c.chunks)) - Indices(c.chunks)| == Length(c.missing) - c.late
    decreases |frames|
  {
    if frames == [] {
      assert Counted(NO_CAPTURE);
    } else {
      var n := |frames| - 1;
      CountsKept(frames[..n], id);
      ReceivedCounts(ReceivedAll(map[], frames[..n]), frames[n], id);
    }
    hide Counted, Received;
    StillMissing(CaptureOf(ReceivedAll(map[], frames), id));
  }
}
