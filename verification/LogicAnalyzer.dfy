/** The viewer's logic-analyzer state: payloads in, captures updated. */
module LogicAnalyzer {
  import opened Bytes
  import opened Wrappers
  import opened Captures

  const HEADER_BYTES: nat := 24
  const SAMPLE_BYTES: nat := 32

  datatype SampleData = SampleData(captureId: nat, chunk: Chunk, flags: nat)

  function ValuesAt(data: bytes, width: nat, count: nat): (r: seq<nat>)
    requires count * width <= |data|
    ensures |r| == count
    decreases count
  {
    if count == 0 then []
    else
      assert (count - 1) * width + width == count * width;
      ValuesAt(data, width, count - 1) + [FromLe(data[(count - 1) * width..count * width])]
  }

  predicate Packing(width: nat, count: nat) {
    (width == 1 || width == 2 || width == 4) && count * width <= 20
  }

  function DecodeSamples(payload: bytes): Option<SampleData> {
    if |payload| != SAMPLE_BYTES then None
    else
      var width, count := payload[8] as nat, payload[9] as nat;
      if !Packing(width, count) then None
      else
        Some(SampleData(FromLe(payload[0..4]),
                        Chunk(FromLe(payload[4..6]), FromLe(payload[6..8]), ValuesAt(payload[12..], width, count)),
                        FromLe(payload[10..12])))
  }

  function PackValues(values: seq<nat>, width: nat): (r: bytes)
    ensures |r| == |values| * width
  {
    if values == [] then []
    else
      var n := |values| - 1;
      assert n * width + width == |values| * width;
      PackValues(values[..n], width) + Le(values[n], width)
  }

  function Padded(data: bytes): (r: bytes)
    ensures |r| == SAMPLE_BYTES
  {
    (data + seq(if |data| < SAMPLE_BYTES then SAMPLE_BYTES - |data| else 0, _ => 0))[..SAMPLE_BYTES]
  }

  /** The payload of a sample frame. */
  function SamplePayload(d: SampleData, width: byte): bytes
    requires |d.chunk.values| < 0x100
  {
    Padded(Le(d.captureId, 4) + Le(d.chunk.index, 2) + Le(d.chunk.first, 2) + [width, |d.chunk.values|]
           + Le(d.flags, 2) + PackValues(d.chunk.values, width))
  }

  predicate Fits(d: SampleData, width: byte) {
    && Packing(width, |d.chunk.values|)
    && d.captureId < Pow256(4) && d.chunk.index < Pow256(2) && d.chunk.first < Pow256(2) && d.flags < Pow256(2)
    && forall k :: 0 <= k < |d.chunk.values| ==> d.chunk.values[k] < Pow256(width)
  }

  lemma {:induction false} ValuesOfPacked(values: seq<nat>, width: nat, tail: bytes)
    requires forall k :: 0 <= k < |values| ==> values[k] < Pow256(width)
    ensures ValuesAt(PackValues(values, width) + tail, width, |values|) == values
    decreases |values|
  {
    hide Le, FromLe, Pow256;
    if values == [] {
    } else {
      var n := |values| - 1;
      var last := Le(values[n], width);
      var data := PackValues(values[..n], width) + (last + tail);
      assert n * width + width == |values| * width;
      assert PackValues(values, width) + tail == data;
      ValuesOfPacked(values[..n], width, last + tail);
      assert data[n * width..|values| * width] == last;
      FromLeOfLe(values[n], width);
      assert values == values[..n] + [values[n]];
    }
  }

  lemma PackingFits(width: nat, count: nat)
    requires Packing(width, count)
    ensures count <= 20 && 12 + count * width <= SAMPLE_BYTES
  {
  }

  lemma PayloadFields(id: bytes, index: bytes, first: bytes, width: byte, count: byte, flags: bytes, rest: bytes)
    requires |id| == 4 && |index| == |first| == |flags| == 2
    ensures var payload := id + index + first + [width, count] + flags + rest;
            && payload[0..4] == id && payload[4..6] == index && payload[6..8] == first
            && payload[8] == width && payload[9] == count && payload[10..12] == flags && payload[12..] == rest
  {
  }

  /** A built sample payload is decoded to the chunk it was built from. */
  lemma SamplesSurvive(d: SampleData, width: byte)
    requires Fits(d, width)
    ensures |d.chunk.values| < 0x100
    ensures DecodeSamples(SamplePayload(d, width)) == Some(d)
  {
    PackingFits(width, |d.chunk.values|);
    hide Le, FromLe, Pow256, ValuesAt, PackValues;
    var packed := PackValues(d.chunk.values, width);
    var front := Le(d.captureId, 4) + Le(d.chunk.index, 2) + Le(d.chunk.first, 2) + [width, |d.chunk.values|]
                 + Le(d.flags, 2);
    var zeros := seq(SAMPLE_BYTES - |front + packed|, _ => 0);
    var payload := SamplePayload(d, width);
    assert payload == front + packed + zeros;
    hide SamplePayload;
    PayloadFields(Le(d.captureId, 4), Le(d.chunk.index, 2), Le(d.chunk.first, 2), width, |d.chunk.values|,
                  Le(d.flags, 2), packed + zeros);
    assert payload == front + (packed + zeros);
    ValuesOfPacked(d.chunk.values, width, zeros);
    FromLeOfLe(d.captureId, 4);
    FromLeOfLe(d.chunk.index, 2);
    FromLeOfLe(d.chunk.first, 2);
    FromLeOfLe(d.flags, 2);
  }

  // ----- the capture header -----

  datatype CaptureHeader = CaptureHeader(timestamp: nat, widthBits: nat, sampleCount: nat, triggerIndex: nat,
                                         flags: nat, period: nat, channels: nat, reserved: nat)

  function HeaderFields(payload: bytes): CaptureHeader
    requires |payload| == HEADER_BYTES
  {
    CaptureHeader(FromLe(payload[4..8]), FromLe(payload[8..10]), FromLe(payload[10..12]), FromLe(payload[12..14]),
                  FromLe(payload[14..16]), FromLe(payload[16..20]), FromLe(payload[20..22]), FromLe(payload[22..24]))
  }

  /** Each field is the number in its bytes. */
  lemma HeaderMeans(payload: bytes)
    requires |payload| == 24
    ensures var h, at := HeaderFields(payload), (i: nat) => if i < 24 then payload[i] as nat else 0;
            && h.timestamp == at(4) + 0x100 * at(5) + 0x1_0000 * at(6) + 0x100_0000 * at(7)
            && h.widthBits == at(8) + 0x100 * at(9) && h.sampleCount == at(10) + 0x100 * at(11)
            && h.triggerIndex == at(12) + 0x100 * at(13) && h.flags == at(14) + 0x100 * at(15)
            && h.period == at(16) + 0x100 * at(17) + 0x1_0000 * at(18) + 0x100_0000 * at(19)
            && h.channels == at(20) + 0x100 * at(21) && h.reserved == at(22) + 0x100 * at(23)
  {
    FromLeMeans(payload[4..8]);
    FromLeMeans(payload[8..10]);
    FromLeMeans(payload[10..12]);
    FromLeMeans(payload[12..14]);
    FromLeMeans(payload[14..16]);
    FromLeMeans(payload[16..20]);
    FromLeMeans(payload[20..22]);
    FromLeMeans(payload[22..24]);
    hide FromLe;
  }

  /** The payload of a header frame. */
  function HeaderPayload(id: nat, h: CaptureHeader): (r: bytes)
    ensures |r| == HEADER_BYTES
  {
    Le(id, 4) + Le(h.timestamp, 4) + Le(h.widthBits, 2) + Le(h.sampleCount, 2) + Le(h.triggerIndex, 2)
    + Le(h.flags, 2) + Le(h.period, 4) + Le(h.channels, 2) + Le(0, 2)
  }

  predicate HeaderFits(id: nat, h: CaptureHeader) {
    && id < Pow256(4) && h.timestamp < Pow256(4) && h.period < Pow256(4)
    && h.widthBits < Pow256(2) && h.sampleCount < Pow256(2) && h.triggerIndex < Pow256(2)
    && h.flags < Pow256(2) && h.channels < Pow256(2) && h.reserved == 0
  }

  /** A built header payload is decoded to the header it was built from. */
  lemma CaptureHeaderSurvives(id: nat, h: CaptureHeader)
    requires HeaderFits(id, h)
    ensures FromLe(HeaderPayload(id, h)[0..4]) == id && HeaderFields(HeaderPayload(id, h)) == h
  {
    hide Le, FromLe, Pow256;
    HeaderSlices(Le(id, 4), Le(h.timestamp, 4), Le(h.widthBits, 2), Le(h.sampleCount, 2), Le(h.triggerIndex, 2),
                 Le(h.flags, 2), Le(h.period, 4), Le(h.channels, 2), Le(0, 2));
    NothingFits();
    FromLeOfLe(id, 4);
    FromLeOfLe(h.timestamp, 4);
    FromLeOfLe(h.widthBits, 2);
    FromLeOfLe(h.sampleCount, 2);
    FromLeOfLe(h.triggerIndex, 2);
    FromLeOfLe(h.flags, 2);
    FromLeOfLe(h.period, 4);
    FromLeOfLe(h.channels, 2);
    FromLeOfLe(0, 2);
  }

  lemma NothingFits()
    ensures 0 < Pow256(2)
  {
  }

  lemma HeaderSlices(id: bytes, t: bytes, w: bytes, n: bytes, at: bytes, flags: bytes, p: bytes, c: bytes, z: bytes)
    requires |id| == |t| == |p| == 4 && |w| == |n| == |at| == |flags| == |c| == |z| == 2
    ensures var payload := id + t + w + n + at + flags + p + c + z;
            && payload[0..4] == id && payload[4..8] == t && payload[8..10] == w && payload[10..12] == n
            && payload[12..14] == at && payload[14..16] == flags && payload[16..20] == p
            && payload[20..22] == c && payload[22..24] == z
  {
  }

  datatype Counters = Counters(headers: nat, samples: nat, malformed: nat, missingChunks: int,
                               outOfOrderChunks: nat, droppedFrames: nat)

  function CaptureOf(captures: map<nat, Capture>, id: nat): Capture {
    if id in captures then captures[id] else NO_CAPTURE
  }

  function Nulls(count: nat): seq<Option<nat>> {
    seq(count, _ => None)
  }

  /** A frame of one of the two kinds a capture is made of. */
  datatype CaptureFrame = HeaderFrame(payload: bytes) | SampleFrame(payload: bytes)

  /** The captures after one frame; a malformed one changes none. */
  function Received(captures: map<nat, Capture>, f: CaptureFrame): map<nat, Capture> {
    match f
    case HeaderFrame(payload) =>
      if |payload| != HEADER_BYTES then captures
      else
        var id := FromLe(payload[0..4]);
        captures[id := WithHeader(CaptureOf(captures, id), HeaderFields(payload).sampleCount)]
    case SampleFrame(payload) =>
      match DecodeSamples(payload)
      case None => captures
      case Some(d) => captures[d.captureId := AddChunk(CaptureOf(captures, d.captureId), d.chunk)]
  }

  /** What one chunk adds to the viewer's counters. */
  function Recount(n: Counters, c: Capture, chunk: Chunk): Counters {
    if Has(c.chunks, chunk.index) then n.(droppedFrames := n.droppedFrames + 1)
    else
      n.(samples := n.samples + 1,
         missingChunks := n.missingChunks + Length(Skipped(c, chunk.index)),
         outOfOrderChunks := n.outOfOrderChunks + (if chunk.index < Highest(c.chunks) then 1 else 0),
         droppedFrames := n.droppedFrames + Clashes(c.samples, chunk.first, chunk.values))
  }

  /** The overlaps among a capture's errors. */
  function OverlapsIn(errors: seq<CaptureError>): nat {
    if errors == [] then 0
    else OverlapsIn(errors[..|errors| - 1]) + (if errors[|errors| - 1].Overlap? then 1 else 0)
  }

  lemma {:induction false} OverlapsAdd(errors: seq<CaptureError>, n: nat)
    ensures OverlapsIn(errors + Overlaps(n)) == OverlapsIn(errors) + n
    decreases n
  {
    if n == 0 {
      assert errors + Overlaps(0) == errors;
    } else {
      OverlapsAdd(errors, n - 1);
      var longer := errors + Overlaps(n);
      assert longer[..|longer| - 1] == errors + Overlaps(n - 1);
    }
  }

  lemma OverlapsFlagged(c: Capture)
    ensures OverlapsIn(Flagged(c).errors) == OverlapsIn(c.errors)
  {
    assert (c.errors + [MissingHeader])[..|c.errors|] == c.errors;
  }

  /** What a chunk adds to the counters is what it adds to its capture. */
  lemma CountersMean(n: Counters, c: Capture, chunk: Chunk)
    ensures var r, now := AddChunk(c, chunk), Recount(n, c, chunk);
            && now.samples - n.samples == |r.chunks| - |c.chunks|
            && now.missingChunks - n.missingChunks == Length(r.missing) - Length(c.missing)
            && now.outOfOrderChunks - n.outOfOrderChunks == r.late - c.late
            && now.droppedFrames - n.droppedFrames == OverlapsIn(r.errors) - OverlapsIn(c.errors)
            && now.headers == n.headers && now.malformed == n.malformed
  {
    hide OverlapsIn, Overlaps, Clashes, StoreAll, Filled, Length, Has, Highest;
    OverlapsFlagged(c);
    if Has(c.chunks, chunk.index) {
      OneOverlap(Flagged(c).errors);
    } else {
      OverlapsAdd(Flagged(c).errors, Clashes(c.samples, chunk.first, chunk.values));
      SkippedAdds(c, chunk.index);
    }
  }

  lemma OneOverlap(errors: seq<CaptureError>)
    ensures OverlapsIn(errors + [Overlap]) == OverlapsIn(errors) + 1
  {
    OverlapsAdd(errors, 1);
    assert Overlaps(1) == [Overlap];
  }

  lemma SkippedAdds(c: Capture, index: nat)
    ensures Length(c.missing + Skipped(c, index)) == Length(c.missing) + Length(Skipped(c, index))
  {
    hide Highest;
    if Skipped(c, index) == [] {
      assert c.missing + [] == c.missing;
    } else {
      LengthSnoc(c.missing, Skipped(c, index)[0]);
      LengthSnoc([], Skipped(c, index)[0]);
      assert [] + [Skipped(c, index)[0]] == Skipped(c, index);
    }
  }

  /** Which payloads are samples: 32 bytes, a packing of 1, 2 or 4 bytes, at most 20 bytes of them. */
  lemma SamplesMean(payload: bytes)
    ensures DecodeSamples(payload).Some? <==>
              && |payload| == 32 && (payload[8] == 1 || payload[8] == 2 || payload[8] == 4)
              && payload[9] as nat * payload[8] as nat <= 20
    ensures DecodeSamples(payload).Some? ==>
              var d := DecodeSamples(payload).value;
              && d.captureId == FromLe(payload[0..4]) && d.chunk.index == FromLe(payload[4..6])
              && d.chunk.first == FromLe(payload[6..8]) && d.flags == FromLe(payload[10..12])
              && |d.chunk.values| == payload[9] as nat
              && forall k :: 0 <= k < |d.chunk.values| ==> SampleAt(payload, k, d.chunk.values[k])
  {
    if DecodeSamples(payload).Some? {
      hide FromLe, ValuesAt;
      forall k | 0 <= k < payload[9] as nat
        ensures SampleAt(payload, k, DecodeSamples(payload).value.chunk.values[k])
      {
        OneSampleMeans(payload, k);
      }
    }
  }

  lemma OneSampleMeans(payload: bytes, k: nat)
    requires |payload| == 32 && k < payload[9] as nat && payload[9] as nat * payload[8] as nat <= 20
    ensures SampleAt(payload, k, ValuesAt(payload[12..], payload[8] as nat, payload[9] as nat)[k])
  {
    hide FromLe;
    var width, count := payload[8] as nat, payload[9] as nat;
    ValueAt(payload[12..], width, count, k);
    SampleSlice(payload, k * width, width);
  }

  /** Sample `k` is the number in its bytes behind the first twelve. */
  predicate SampleAt(payload: bytes, k: nat, value: nat)
    requires |payload| == 32
  {
    var low := 12 + k * payload[8] as nat;
    low + payload[8] as nat <= 32 && value == FromLe(payload[low..low + payload[8] as nat])
  }

  lemma SampleSlice(payload: bytes, at: nat, width: nat)
    requires 12 + at + width <= |payload|
    ensures payload[12..][at..at + width] == payload[12 + at..12 + at + width]
  {
  }

  lemma {:induction false} ValueAt(data: bytes, width: nat, count: nat, k: nat)
    requires k < count && count * width <= |data|
    ensures k * width + width <= |data| && ValuesAt(data, width, count)[k] == FromLe(data[k * width..k * width + width])
    decreases count
  {
    assert (count - 1) * width + width == count * width;
    if k < count - 1 {
      ValueAt(data, width, count - 1, k);
    }
  }

  class Analyzer {
    var captures: map<nat, Capture>
    var headers: map<nat, CaptureHeader>
    var latest: Option<nat>
    var counters: Counters

    constructor ()
      ensures captures == map[] && headers == map[] && latest == None && counters == Counters(0, 0, 0, 0, 0, 0)
    {
      captures, headers, latest, counters := map[], map[], None, Counters(0, 0, 0, 0, 0, 0);
    }

    method DecodeHeader(payload: bytes)
      modifies this
      ensures captures == Received(old(captures), HeaderFrame(payload))
      ensures |payload| != HEADER_BYTES ==>
                && headers == old(headers) && latest == old(latest)
                && counters == old(counters).(malformed := old(counters.malformed) + 1)
      ensures |payload| == HEADER_BYTES ==>
                var id, header := FromLe(payload[0..4]), HeaderFields(payload);
                && headers == old(headers)[id := header]
                && counters == old(counters).(headers := old(counters.headers) + 1) && latest == Some(id)
                && var was := CaptureOf(old(captures), id);
                   captures == old(captures)[id := Capture(Some(header.sampleCount), was.chunks, Nulls(header.sampleCount),
                                                           was.missing, false, was.errors, was.late)]
    {
      if |payload| != HEADER_BYTES {
        counters := counters.(malformed := counters.malformed + 1);
        return;
      }
      var id := FromLe(payload[0..4]);
      var header := CaptureHeader(FromLe(payload[4..8]), FromLe(payload[8..10]), FromLe(payload[10..12]),
                                  FromLe(payload[12..14]), FromLe(payload[14..16]), FromLe(payload[16..20]),
                                  FromLe(payload[20..22]), FromLe(payload[22..24]));
      var count := header.sampleCount;
      var capture := CaptureOf(captures, id);
      captures := captures[id := capture.(sampleCount := Some(count), samples := seq(count, _ => None), complete := false)];
      headers := headers[id := header];
      latest := Some(id);
      counters := counters.(headers := counters.headers + 1);
    }

    method DecodeSampleData(payload: bytes)
      modifies this
      ensures headers == old(headers)
      ensures captures == Received(old(captures), SampleFrame(payload))
      ensures match DecodeSamples(payload)
              case None =>
                && latest == old(latest)
                && counters == old(counters).(malformed := old(counters.malformed) + 1)
              case Some(d) =>
                var c := CaptureOf(old(captures), d.captureId);
                && latest == (if Has(c.chunks, d.chunk.index) then old(latest) else Some(d.captureId))
                && counters == Recount(old(counters), c, d.chunk)
    {
      hide Take, Highest, Length, Clashes, DecodeSamples, Has;
      var decoded := DecodeSamples(payload);
      if decoded.None? {
        counters := counters.(malformed := counters.malformed + 1);
        return;
      }
      var id, chunk := decoded.value.captureId, decoded.value.chunk;
      var c := CaptureOf(captures, id);
      if c.sampleCount.None? {
        c := c.(errors := c.errors + [MissingHeader]);
      }
      var known := Find(c.chunks, chunk.index);
      if known {
        captures := captures[id := c.(errors := c.errors + [Overlap])];
        counters := counters.(droppedFrames := counters.droppedFrames + 1);
        return;
      }
      var taken := TakeNew(c, chunk);
      captures := captures[id := taken];
      latest := Some(id);
    }

    method TakeNew(c: Capture, chunk: Chunk) returns (r: Capture)
      requires !Has(c.chunks, chunk.index)
      modifies this`counters
      ensures r == Take(c, chunk) && counters == Recount(old(counters), c, chunk)
    {
      hide StoreAll, Clashes, Overlaps, Filled, Highest, Has;
      var highest := FindHighest(c.chunks);
      r := c;
      if chunk.index < highest {
        counters := counters.(outOfOrderChunks := counters.outOfOrderChunks + 1);
        r := r.(late := r.late + 1);
      }
      if chunk.index > highest + 1 {
        LengthOne(highest + 1, chunk.index - 1);
        counters := counters.(missingChunks := counters.missingChunks + (chunk.index - 1 - (highest + 1) + 1));
        r := r.(missing := r.missing + [(highest + 1, chunk.index - 1)]);
      }
      var samples, clashes := Store(c.samples, chunk.first, chunk.values);
      var filled := c.sampleCount.Some? && Filled(samples, c.sampleCount.value);
      r := r.(samples := samples, errors := c.errors + Overlaps(clashes),
              chunks := c.chunks + [chunk], complete := c.complete || filled);
      counters := counters.(droppedFrames := counters.droppedFrames + clashes, samples := counters.samples + 1);
      assert c.missing + [] == c.missing;
      assert Length([]) == 0;
    }

    static lemma LengthOne(low: nat, high: nat)
      ensures Length([(low, high)]) == high - low + 1
    {
      LengthSnoc([], (low, high));
      assert [] + [(low, high)] == [(low, high)];
    }

    static method Find(chunks: seq<Chunk>, index: nat) returns (found: bool)
      ensures found == Has(chunks, index)
    {
      for k := 0 to |chunks|
        invariant forall m :: 0 <= m < k ==> chunks[m].index != index
      {
        if chunks[k].index == index {
          return true;
        }
      }
      found := false;
    }

    /** The last of the sorted indices. */
    static method FindHighest(chunks: seq<Chunk>) returns (highest: int)
      ensures highest == Highest(chunks)
    {
      highest := -1;
      for k := 0 to |chunks|
        invariant highest == Highest(chunks[..k])
      {
        assert chunks[..k + 1][..k] == chunks[..k];
        if chunks[k].index > highest {
          highest := chunks[k].index;
        }
      }
      assert chunks[..|chunks|] == chunks;
    }

    static method Store(before: seq<Option<nat>>, first: nat, values: seq<nat>)
        returns (samples: seq<Option<nat>>, clashes: nat)
      ensures samples == StoreAll(before, first, values) && clashes == Clashes(before, first, values)
    {
      samples, clashes := before, 0;
      for index := 0 to |values|
        invariant samples == StoreAll(before, first, values[..index])
        invariant clashes == Clashes(before, first, values[..index])
      {
        assert values[..index + 1][..index] == values[..index];
        var sampleIndex := first + index;
        samples := PadTo(samples, sampleIndex);
        if samples[sampleIndex].Some? {
          clashes := clashes + 1;
        } else {
          samples := samples[sampleIndex := Some(values[index])];
        }
      }
      assert values[..|values|] == values;
    }

    static method PadTo(before: seq<Option<nat>>, i: nat) returns (samples: seq<Option<nat>>)
      ensures samples == Extended(before, i)
    {
      samples := before;
      while |samples| <= i
        invariant |before| <= |samples| && (|samples| == |before| || |samples| <= i + 1)
        invariant forall k :: 0 <= k < |samples| ==> samples[k] == if k < |before| then before[k] else None
        decreases i - |samples|
      {
        samples := samples + [None];
      }
    }
  }
}
