/** Logic-analyzer captures: chunks in any order, duplicated, early or late. */
module Captures {
  import opened Wrappers

  datatype CaptureError = MissingHeader | Overlap

  datatype Chunk = Chunk(index: nat, first: nat, values: seq<nat>)
  {
    predicate Covers(i: nat) {
      first <= i < first + |values|
    }
  }

  /** `late` counts this capture's share of the viewer's out-of-order counter. */
  datatype Capture = Capture(sampleCount: Option<nat>, chunks: seq<Chunk>, samples: seq<Option<nat>>,
                             missing: seq<(nat, nat)>, complete: bool, errors: seq<CaptureError>, late: nat)

  const NO_CAPTURE: Capture := Capture(None, [], [], [], false, [], 0)

  /** A header starts the samples over and keeps the chunks. */
  function WithHeader(c: Capture, count: nat): Capture {
    c.(sampleCount := Some(count), samples := seq(count, _ => None), complete := false)
  }

  predicate Has(chunks: seq<Chunk>, index: nat) {
    exists k :: 0 <= k < |chunks| && chunks[k].index == index
  }

  /** The highest chunk index so far, -1 if there is none. */
  function Highest(chunks: seq<Chunk>): (r: int)
    ensures r >= -1
  {
    if chunks == [] then -1
    else
      var rest, last := Highest(chunks[..|chunks| - 1]), chunks[|chunks| - 1].index;
      if last > rest then last else rest
  }

  /** Pads with nulls up to position `i`. */
  function Extended(samples: seq<Option<nat>>, i: nat): (r: seq<Option<nat>>)
    ensures i < |r| && |r| == if i < |samples| then |samples| else i + 1
    ensures forall k :: 0 <= k < |r| ==> r[k] == if k < |samples| then samples[k] else None
  {
    if i < |samples| then samples else samples + seq(i + 1 - |samples|, _ => None)
  }

  /** Stores one sample unless its place is taken. */
  function StoreOne(samples: seq<Option<nat>>, i: nat, value: nat): seq<Option<nat>> {
    var room := Extended(samples, i);
    if room[i].Some? then room else room[i := Some(value)]
  }

  function StoreAll(samples: seq<Option<nat>>, first: nat, values: seq<nat>): seq<Option<nat>> {
    if values == [] then samples
    else
      var n := |values| - 1;
      StoreOne(StoreAll(samples, first, values[..n]), first + n, values[n])
  }

  /** How many samples of the chunk found their place taken. */
  function Clashes(samples: seq<Option<nat>>, first: nat, values: seq<nat>): nat {
    if values == [] then 0
    else
      var n := |values| - 1;
      Clashes(samples, first, values[..n])
      + (if Extended(StoreAll(samples, first, values[..n]), first + n)[first + n].Some? then 1 else 0)
  }

  function Overlaps(n: nat): seq<CaptureError> {
    seq(n, _ => Overlap)
  }

  predicate Filled(samples: seq<Option<nat>>, count: nat) {
    forall i :: 0 <= i < count && i < |samples| ==> samples[i].Some?
  }

  /** The gap a chunk opens: the indices between the highest so far and its own. */
  function Skipped(c: Capture, index: nat): seq<(nat, nat)> {
    var highest := Highest(c.chunks);
    if index > highest + 1 then [(highest + 1, index - 1)] else []
  }

  /** A chunk with a new index: its gap, its samples, and whether it was the last one missing. */
  function Take(c: Capture, chunk: Chunk): Capture {
    var samples := StoreAll(c.samples, chunk.first, chunk.values);
    c.(late := c.late + (if chunk.index < Highest(c.chunks) then 1 else 0),
       missing := c.missing + Skipped(c, chunk.index),
       samples := samples,
       errors := c.errors + Overlaps(Clashes(c.samples, chunk.first, chunk.values)),
       chunks := c.chunks + [chunk],
       complete := c.complete || (c.sampleCount.Some? && Filled(samples, c.sampleCount.value)))
  }

  function Flagged(c: Capture): Capture {
    if c.sampleCount.None? then c.(errors := c.errors + [MissingHeader]) else c
  }

  function AddChunk(c: Capture, chunk: Chunk): Capture {
    var flagged := Flagged(c);
    if Has(c.chunks, chunk.index) then flagged.(errors := flagged.errors + [Overlap])
    else Take(flagged, chunk)
  }

  function AddAll(c: Capture, arrivals: seq<Chunk>): Capture {
    if arrivals == [] then c else AddChunk(AddAll(c, arrivals[..|arrivals| - 1]), arrivals[|arrivals| - 1])
  }

  // ----- nothing stored is ever overwritten -----

  lemma {:induction false} StoreAllKeeps(samples: seq<Option<nat>>, first: nat, values: seq<nat>)
    ensures var r := StoreAll(samples, first, values);
            && |r| >= |samples|
            && forall i :: 0 <= i < |samples| && samples[i].Some? ==> r[i] == samples[i]
    decreases |values|
  {
    if values == [] {
    } else {
      StoreAllKeeps(samples, first, values[..|values| - 1]);
    }
  }

  /** No later chunk, honest or not, changes or drops a stored sample. */
  lemma {:induction false} StoredForever(c: Capture, arrivals: seq<Chunk>)
    ensures var r := AddAll(c, arrivals);
            && |r.samples| >= |c.samples|
            && forall i :: 0 <= i < |c.samples| && c.samples[i].Some? ==> r.samples[i] == c.samples[i]
    decreases |arrivals|
  {
    if arrivals == [] {
    } else {
      var n := |arrivals| - 1;
      var before, chunk := AddAll(c, arrivals[..n]), arrivals[n];
      StoredForever(c, arrivals[..n]);
      StoreAllKeeps(before.samples, chunk.first, chunk.values);
    }
  }

  // ----- reassembly -----

  /** The chunks are pieces of `original`: disjoint, except that a repeated index repeats the chunk. */
  ghost predicate Pieces(original: seq<nat>, arrivals: seq<Chunk>) {
    && (forall k :: 0 <= k < |arrivals| ==>
          var c := arrivals[k];
          c.first + |c.values| <= |original| && c.values == original[c.first..c.first + |c.values|])
    && (forall j, k :: 0 <= j < k < |arrivals| ==>
          var a, b := arrivals[j], arrivals[k];
          if a.index == b.index then a == b
          else a.first + |a.values| <= b.first || b.first + |b.values| <= a.first)
  }

  predicate Covered(arrivals: seq<Chunk>, i: nat) {
    exists k :: 0 <= k < |arrivals| && arrivals[k].Covers(i)
  }

  /** Exactly the arrived samples are there, each with its own value. */
  ghost predicate Holds(samples: seq<Option<nat>>, original: seq<nat>, arrivals: seq<Chunk>) {
    && |samples| == |original|
    && forall i :: 0 <= i < |original| ==> samples[i] == if Covered(arrivals, i) then Some(original[i]) else None
  }

  /** Storing values where nothing is stored yet puts exactly them there. */
  lemma {:induction false} StoreFresh(samples: seq<Option<nat>>, first: nat, values: seq<nat>)
    requires first + |values| <= |samples|
    requires forall i :: first <= i < first + |values| ==> samples[i].None?
    ensures var r := StoreAll(samples, first, values);
            && |r| == |samples|
            && forall i :: 0 <= i < |samples| ==>
                 r[i] == if first <= i < first + |values| then Some(values[i - first]) else samples[i]
    ensures Clashes(samples, first, values) == 0
    decreases |values|
  {
    if values == [] {
    } else {
      StoreFresh(samples, first, values[..|values| - 1]);
    }
  }

  lemma CoveredSnoc(arrivals: seq<Chunk>, chunk: Chunk, i: nat)
    ensures Covered(arrivals + [chunk], i) <==> Covered(arrivals, i) || chunk.Covers(i)
  {
    var more := arrivals + [chunk];
    if Covered(arrivals, i) {
      var k :| 0 <= k < |arrivals| && arrivals[k].Covers(i);
      assert more[k].Covers(i);
    }
    if chunk.Covers(i) {
      assert more[|arrivals|].Covers(i);
    }
    if Covered(more, i) {
      var k :| 0 <= k < |more| && more[k].Covers(i);
      if k < |arrivals| {
        assert arrivals[k].Covers(i);
      }
    }
  }

  /** The chunk list of a capture is the arrivals without repetitions. */
  lemma {:induction false} ChunksAreArrivals(c: Capture, arrivals: seq<Chunk>, index: nat)
    requires c.chunks == []
    ensures Has(AddAll(c, arrivals).chunks, index) <==> Has(arrivals, index)
    decreases |arrivals|
  {
    if arrivals == [] {
    } else {
      var n := |arrivals| - 1;
      ChunksAreArrivals(c, arrivals[..n], index);
      var before := AddAll(c, arrivals[..n]).chunks;
      assert arrivals == arrivals[..n] + [arrivals[n]];
      HasSnoc(arrivals[..n], arrivals[n], index);
      HasSnoc(before, arrivals[n], index);
    }
  }

  lemma HasSnoc(chunks: seq<Chunk>, chunk: Chunk, index: nat)
    ensures Has(chunks + [chunk], index) <==> Has(chunks, index) || chunk.index == index
  {
    var more := chunks + [chunk];
    if Has(chunks, index) {
      var k :| 0 <= k < |chunks| && chunks[k].index == index;
      assert more[k].index == index;
    }
    if chunk.index == index {
      assert more[|chunks|].index == index;
    }
    if Has(more, index) {
      var k :| 0 <= k < |more| && more[k].index == index;
      if k < |chunks| {
        assert chunks[k].index == index;
      }
    }
  }

  lemma PiecesFront(original: seq<nat>, arrivals: seq<Chunk>)
    requires Pieces(original, arrivals) && arrivals != []
    ensures Pieces(original, arrivals[..|arrivals| - 1])
  {
  }

  lemma PieceUncovered(original: seq<nat>, front: seq<Chunk>, chunk: Chunk, i: nat)
    requires Pieces(original, front + [chunk]) && !Has(front, chunk.index) && chunk.Covers(i)
    ensures !Covered(front, i)
  {
    var all := front + [chunk];
    forall k | 0 <= k < |front| ensures !front[k].Covers(i) {
      assert all[k] == front[k] && all[|front|] == chunk && front[k].index != chunk.index;
    }
  }

  lemma StoresPiece(samples: seq<Option<nat>>, original: seq<nat>, front: seq<Chunk>, chunk: Chunk)
    requires Pieces(original, front + [chunk]) && Holds(samples, original, front) && !Has(front, chunk.index)
    ensures Holds(StoreAll(samples, chunk.first, chunk.values), original, front + [chunk])
    ensures Clashes(samples, chunk.first, chunk.values) == 0
  {
    var all := front + [chunk];
    assert all[|front|] == chunk;
    forall i | chunk.first <= i < chunk.first + |chunk.values| ensures samples[i].None? {
      PieceUncovered(original, front, chunk, i);
    }
    StoreFresh(samples, chunk.first, chunk.values);
    forall i | 0 <= i < |original|
      ensures StoreAll(samples, chunk.first, chunk.values)[i] == if Covered(all, i) then Some(original[i]) else None
    {
      CoveredSnoc(front, chunk, i);
    }
  }

  lemma RepeatsNothing(samples: seq<Option<nat>>, original: seq<nat>, front: seq<Chunk>, chunk: Chunk)
    requires Pieces(original, front + [chunk]) && Holds(samples, original, front) && Has(front, chunk.index)
    ensures Holds(samples, original, front + [chunk])
  {
    var all := front + [chunk];
    var k :| 0 <= k < |front| && front[k].index == chunk.index;
    assert all[k] == front[k] && all[|front|] == chunk && front[k] == chunk;
    forall i | 0 <= i < |original| ensures Covered(all, i) == Covered(front, i) {
      CoveredSnoc(front, chunk, i);
      if chunk.Covers(i) {
        assert front[k].Covers(i);
      }
    }
  }

  /**
   After one header, in any order and with any repetitions: exactly the arrived samples are
   stored, and the capture is complete exactly when none is missing any more.
   */
  lemma {:induction false} Reassembled(original: seq<nat>, arrivals: seq<Chunk>)
    requires Pieces(original, arrivals)
    ensures var c := AddAll(WithHeader(NO_CAPTURE, |original|), arrivals);
            && Holds(c.samples, original, arrivals)
            && c.sampleCount == Some(|original|)
            && (c.complete <==> arrivals != [] && forall i :: 0 <= i < |original| ==> Covered(arrivals, i))
    decreases |arrivals|
  {
    var start := WithHeader(NO_CAPTURE, |original|);
    if arrivals != [] {
      var n := |arrivals| - 1;
      var front, chunk := arrivals[..n], arrivals[n];
      assert arrivals == front + [chunk];
      PiecesFront(original, arrivals);
      Reassembled(original, front);
      ChunksAreArrivals(start, front, chunk.index);
      OneArrival(AddAll(start, front), original, front, chunk);
    } else {
      assert forall i :: 0 <= i < |original| ==> !Covered([], i);
    }
  }

  lemma OneArrival(c: Capture, original: seq<nat>, front: seq<Chunk>, chunk: Chunk)
    requires Pieces(original, front + [chunk]) && Holds(c.samples, original, front)
    requires c.sampleCount == Some(|original|) && (Has(c.chunks, chunk.index) <==> Has(front, chunk.index))
    requires c.complete <==> front != [] && forall i :: 0 <= i < |original| ==> Covered(front, i)
    ensures var r := AddChunk(c, chunk);
            && Holds(r.samples, original, front + [chunk]) && r.sampleCount == c.sampleCount
            && (r.complete <==> forall i :: 0 <= i < |original| ==> Covered(front + [chunk], i))
  {
    if Has(front, chunk.index) {
      RepeatsNothing(c.samples, original, front, chunk);
      SameCover(c.samples, original, front, front + [chunk]);
      assert front != [];
    } else {
      StoresPiece(c.samples, original, front, chunk);
      FilledIsCovered(AddChunk(c, chunk).samples, original, front + [chunk]);
      forall i | 0 <= i < |original| && Covered(front, i) ensures Covered(front + [chunk], i) {
        CoveredSnoc(front, chunk, i);
      }
    }
  }

  lemma SameCover(samples: seq<Option<nat>>, original: seq<nat>, a: seq<Chunk>, b: seq<Chunk>)
    requires Holds(samples, original, a) && Holds(samples, original, b)
    ensures forall i :: 0 <= i < |original| ==> Covered(a, i) == Covered(b, i)
  {
    forall i | 0 <= i < |original| ensures Covered(a, i) == Covered(b, i) {
      assert samples[i].Some? == Covered(a, i);
    }
  }

  lemma FilledIsCovered(samples: seq<Option<nat>>, original: seq<nat>, arrivals: seq<Chunk>)
    requires Holds(samples, original, arrivals)
    ensures Filled(samples, |original|) <==> forall i :: 0 <= i < |original| ==> Covered(arrivals, i)
  {
    forall i | 0 <= i < |original| ensures samples[i].Some? == Covered(arrivals, i) {
    }
  }

  /** Chunks that cover the capture give back the encoded samples. */
  lemma WholeCapture(original: seq<nat>, arrivals: seq<Chunk>)
    requires Pieces(original, arrivals) && arrivals != []
    requires forall i :: 0 <= i < |original| ==> Covered(arrivals, i)
    ensures var c := AddAll(WithHeader(NO_CAPTURE, |original|), arrivals);
            && c.complete && |c.samples| == |original|
            && forall i :: 0 <= i < |original| ==> c.samples[i] == Some(original[i])
  {
    Reassembled(original, arrivals);
  }

  // ----- clashes and errors -----

  /** Storing touches no position from `first + |values|` on. */
  lemma {:induction false} StoredBefore(samples: seq<Option<nat>>, first: nat, values: seq<nat>, j: nat)
    requires first + |values| <= j
    ensures var r := StoreAll(samples, first, values);
            Full(r, j) == Full(samples, j)
    decreases |values|
  {
    if values == [] {
    } else {
      StoredBefore(samples, first, values[..|values| - 1], j);
    }
  }

  predicate Full(samples: seq<Option<nat>>, j: nat) {
    j < |samples| && samples[j].Some?
  }

  /** The places of a chunk that were taken before it came. */
  function Occupied(samples: seq<Option<nat>>, first: nat, count: nat): set<nat> {
    set j: nat | first <= j < first + count && Full(samples, j)
  }

  /** Each of them is a clash, and nothing else is. */
  lemma {:induction false} ClashesMean(samples: seq<Option<nat>>, first: nat, values: seq<nat>)
    ensures Clashes(samples, first, values) == |Occupied(samples, first, |values|)|
    decreases |values|
  {
    if values == [] {
      assert Occupied(samples, first, 0) == {};
    } else {
      var n := |values| - 1;
      ClashesMean(samples, first, values[..n]);
      StoredBefore(samples, first, values[..n], first + n);
      var taken := Full(samples, first + n);
      assert Occupied(samples, first, n + 1) == Occupied(samples, first, n) + (if taken then {first + n} else {});
      hide StoreAll, Occupied;
      assert Extended(StoreAll(samples, first, values[..n]), first + n)[first + n].Some? == taken;
    }
  }

  /** The errors a chunk adds: no header yet, a repetition, and every clash. */
  lemma ErrorsMean(c: Capture, chunk: Chunk)
    ensures var r := AddChunk(c, chunk);
            var header := if c.sampleCount.None? then [MissingHeader] else [];
            var repeated := exists k :: 0 <= k < |c.chunks| && c.chunks[k].index == chunk.index;
            && c.errors + header <= r.errors
            && |r.errors| == |c.errors| + |header| + (if repeated then 1
                                                      else |Occupied(c.samples, chunk.first, |chunk.values|)|)
            && (forall i :: |c.errors| + |header| <= i < |r.errors| ==> r.errors[i] == Overlap)
            && r.chunks == (if repeated then c.chunks else c.chunks + [chunk])
            && (repeated ==> r.samples == c.samples && r.missing == c.missing && r.late == c.late)
  {
    ClashesMean(c.samples, chunk.first, chunk.values);
  }

  // ----- accounting -----

  function Length(ranges: seq<(nat, nat)>): int {
    if ranges == [] then 0
    else
      var last := ranges[|ranges| - 1];
      Length(ranges[..|ranges| - 1]) + last.1 - last.0 + 1
  }

  /** Ranges in increasing order, apart from each other and below `limit`. */
  ghost predicate Increasing(ranges: seq<(nat, nat)>, limit: int) {
    && (forall k :: 0 <= k < |ranges| ==> ranges[k].0 <= ranges[k].1 < limit)
    && (forall j, k :: 0 <= j < k < |ranges| ==> ranges[j].1 + 1 < ranges[k].0)
  }

  ghost predicate Balanced(chunks: seq<Chunk>, missing: seq<(nat, nat)>, late: nat) {
    && Increasing(missing, Highest(chunks))
    && Highest(chunks) + 1 + late == |chunks| + Length(missing)
  }

  ghost predicate Distinct(chunks: seq<Chunk>) {
    forall j, k :: 0 <= j < k < |chunks| ==> chunks[j].index != chunks[k].index
  }

  ghost predicate Counted(c: Capture) {
    Balanced(c.chunks, c.missing, c.late) && Distinct(c.chunks)
  }

  lemma LengthSnoc(ranges: seq<(nat, nat)>, r: (nat, nat))
    ensures Length(ranges + [r]) == Length(ranges) + r.1 - r.0 + 1
  {
    assert (ranges + [r])[..|ranges|] == ranges;
  }

  lemma HighestSnoc(chunks: seq<Chunk>, chunk: Chunk)
    ensures Highest(chunks + [chunk]) == if chunk.index > Highest(chunks) then chunk.index else Highest(chunks)
  {
    assert (chunks + [chunk])[..|chunks|] == chunks;
  }

  lemma {:induction false} HighestIsHeld(chunks: seq<Chunk>)
    ensures chunks != [] ==> Highest(chunks) >= 0 && Has(chunks, Highest(chunks))
    ensures forall k :: 0 <= k < |chunks| ==> chunks[k].index <= Highest(chunks)
    decreases |chunks|
  {
    if chunks == [] {
    } else {
      var n := |chunks| - 1;
      HighestIsHeld(chunks[..n]);
      assert chunks == chunks[..n] + [chunks[n]];
      HighestSnoc(chunks[..n], chunks[n]);
      HasSnoc(chunks[..n], chunks[n], Highest(chunks));
    }
  }

  lemma NewIndex(chunks: seq<Chunk>, chunk: Chunk)
    requires !Has(chunks, chunk.index) && Distinct(chunks)
    ensures Distinct(chunks + [chunk])
  {
    var more := chunks + [chunk];
    forall j, k | 0 <= j < k < |more| ensures more[j].index != more[k].index {
      assert chunks[j].index == more[j].index;
    }
  }

  lemma RangesGrow(ranges: seq<(nat, nat)>, highest: int, index: nat)
    requires Increasing(ranges, highest) && index > highest + 1 && highest >= -1
    ensures Increasing(ranges + [(highest + 1, index - 1)], index)
    ensures Length(ranges + [(highest + 1, index - 1)]) == Length(ranges) + index - highest - 1
  {
    LengthSnoc(ranges, (highest + 1, index - 1));
  }

  lemma RoomAbove(ranges: seq<(nat, nat)>, low: int, high: int)
    requires Increasing(ranges, low) && low <= high
    ensures Increasing(ranges, high)
  {
  }

  lemma NextBalances(chunks: seq<Chunk>, missing: seq<(nat, nat)>, late: nat, chunk: Chunk)
    requires Balanced(chunks, missing, late) && chunk.index >= Highest(chunks) + 1
    ensures var skipped := if chunk.index > Highest(chunks) + 1 then [(Highest(chunks) + 1, chunk.index - 1)] else [];
            Balanced(chunks + [chunk], missing + skipped, late)
  {
    HighestSnoc(chunks, chunk);
    RoomAbove(missing, Highest(chunks), chunk.index);
    hide Highest, Length, Increasing;
    if chunk.index > Highest(chunks) + 1 {
      RangesGrow(missing, Highest(chunks), chunk.index);
    } else {
      assert missing + [] == missing;
    }
  }

  lemma LateBalances(chunks: seq<Chunk>, missing: seq<(nat, nat)>, late: nat, chunk: Chunk)
    requires Balanced(chunks, missing, late) && chunk.index < Highest(chunks)
    ensures Balanced(chunks + [chunk], missing + [], late + 1)
  {
    HighestSnoc(chunks, chunk);
    assert missing + [] == missing;
  }

  lemma AddKeepsCount(c: Capture, chunk: Chunk)
    requires Counted(c)
    ensures Counted(AddChunk(c, chunk))
  {
    if !Has(c.chunks, chunk.index) {
      TakeKeepsCount(Flagged(c), chunk);
    }
  }

  lemma TakeKeepsCount(c: Capture, chunk: Chunk)
    requires Counted(c) && !Has(c.chunks, chunk.index)
    ensures Counted(Take(c, chunk))
  {
    NewIndex(c.chunks, chunk);
    NewBalances(c, chunk);
  }

  lemma NewBalances(c: Capture, chunk: Chunk)
    requires Balanced(c.chunks, c.missing, c.late) && !Has(c.chunks, chunk.index)
    ensures Balanced(c.chunks + [chunk], c.missing + Skipped(c, chunk.index),
                     c.late + (if chunk.index < Highest(c.chunks) then 1 else 0))
  {
    HighestIsHeld(c.chunks);
    if chunk.index > Highest(c.chunks) {
      NextBalances(c.chunks, c.missing, c.late, chunk);
    } else {
      LateBalances(c.chunks, c.missing, c.late, chunk);
    }
  }

  /**
   In every state: the missing ranges are increasing and apart, and the highest index plus one
   plus the late chunks equals the accepted chunks plus the total length of the ranges.
   */
  lemma {:induction false} Accounting(c: Capture, arrivals: seq<Chunk>)
    requires Counted(c)
    ensures Counted(AddAll(c, arrivals))
    decreases |arrivals|
  {
    if arrivals == [] {
    } else {
      Accounting(c, arrivals[..|arrivals| - 1]);
      AddKeepsCount(AddAll(c, arrivals[..|arrivals| - 1]), arrivals[|arrivals| - 1]);
    }
  }

  function Indices(chunks: seq<Chunk>): set<int> {
    set k | 0 <= k < |chunks| :: chunks[k].index as int
  }

  function UpTo(highest: int): (r: set<int>)
    ensures forall i :: i in r <==> 0 <= i <= highest
    decreases highest + 1
  {
    if highest < 0 then {} else UpTo(highest - 1) + {highest}
  }

  lemma {:induction false} UpToSize(highest: int)
    requires highest >= -1
    ensures |UpTo(highest)| == highest + 1
    decreases highest + 1
  {
    if highest < 0 {
    } else {
      UpToSize(highest - 1);
    }
  }

  lemma {:induction false} IndicesSize(chunks: seq<Chunk>)
    requires Distinct(chunks)
    ensures |Indices(chunks)| == |chunks|
    decreases |chunks|
  {
    if chunks == [] {
    } else {
      var n := |chunks| - 1;
      IndicesSize(chunks[..n]);
      assert Indices(chunks) == Indices(chunks[..n]) + {chunks[n].index as int};
    }
  }

  /** What is still missing below the highest chunk is the range total less what came late. */
  lemma StillMissing(c: Capture)
    requires Counted(c)
    ensures |UpTo(Highest(c.chunks)) - Indices(c.chunks)| == Length(c.missing) - c.late
  {
    var chunks := c.chunks;
    UpToSize(Highest(chunks));
    IndicesSize(chunks);
    IndicesBelow(chunks);
    var all, held := UpTo(Highest(chunks)), Indices(chunks);
    assert all == (all - held) + held;
  }

  lemma IndicesBelow(chunks: seq<Chunk>)
    ensures Indices(chunks) <= UpTo(Highest(chunks))
  {
    HighestIsHeld(chunks);
  }
}
