/** The scan engine: batching pieces into bounded exchanges and taking the replies apart again. */
module ScanEngine {
  import opened Bytes
  import opened Wrappers
  import opened Tap
  import opened Mpsse
  import opened ScanPieces
  import opened ScanBatch

  datatype ScanError = InvalidBitCount | ShortRead

  /** The adapter with the target behind it; `written` and `asked` record the exchanges. */
  class Port {
    const target: Target
    var link: Link
    var pending: bytes
    ghost var events: seq<TapEvent>
    ghost var written: seq<bytes>
    ghost var asked: seq<nat>

    constructor (target: Target, tap: TapState)
      ensures this.target == target && link == Link(tap, true, 0, 0)
      ensures pending == [] && events == [] && written == [] && asked == []
    {
      this.target := target;
      link := Link(tap, true, 0, 0);
      pending, events, written, asked := [], [], [], [];
    }

    method Write(data: bytes)
      modifies this
      ensures var done := Execute(old(link), data, target);
              && link == done.link && events == old(events) + done.events
              && pending == old(pending) + done.reply
      ensures written == old(written) + [data] && asked == old(asked)
    {
      var done := Execute(link, data, target);
      link := done.link;
      pending := pending + done.reply;
      events := events + done.events;
      written := written + [data];
    }

    method Read(n: nat) returns (r: Option<bytes>)
      modifies this
      ensures link == old(link) && events == old(events) && written == old(written)
      ensures asked == old(asked) + [n]
      ensures if n <= |old(pending)| then r == Some(old(pending)[..n]) && pending == old(pending)[n..]
              else r == None && pending == old(pending)
    {
      asked := asked + [n];
      if n > |pending| {
        return None;
      }
      r := Some(pending[..n]);
      pending := pending[n..];
    }
  }

  /** No exchange is too large, and no two neighbours would have fitted into one. */
  ghost predicate Packed(asked: seq<nat>) {
    && (forall i :: 0 <= i < |asked| ==> 0 < asked[i] <= MAX_BATCH_READ)
    && (forall i :: 0 < i < |asked| ==> asked[i - 1] + asked[i] > MAX_BATCH_READ)
  }

  ghost function Sum(values: seq<nat>): nat {
    if values == [] then 0 else Sum(values[..|values| - 1]) + values[|values| - 1]
  }

  /** Full batches: `n` exchanges carry at least 257 reply bytes for every two of them. */
  lemma {:induction false} FewExchanges(asked: seq<nat>)
    requires Packed(asked)
    ensures Sum(asked) >= 257 * (|asked| / 2)
    decreases |asked|
  {
    if |asked| < 2 {
    } else {
      var front := asked[..|asked| - 2];
      FewExchanges(front);
      var all_but_one := asked[..|asked| - 1];
      assert all_but_one[..|all_but_one| - 1] == front;
      assert Sum(asked) == Sum(front) + asked[|asked| - 2] + asked[|asked| - 1];
    }
  }

  function ConcatCommands(batch: seq<Piece>): bytes {
    if batch == [] then [] else batch[0].command + ConcatCommands(batch[1..])
  }

  ghost function Encodings(batch: seq<Piece>): (r: seq<bytes>)
    ensures |r| == |batch|
  {
    seq(|batch|, i requires 0 <= i < |batch| => batch[i].command)
  }

  lemma {:induction false} CommandsConcat(batch: seq<Piece>)
    ensures ConcatCommands(batch) == Concat(Encodings(batch))
  {
    if batch == [] {
    } else {
      CommandsConcat(batch[1..]);
      assert Encodings(batch)[1..] == Encodings(batch[1..]);
    }
  }

  lemma {:induction false} ReadTotalIsReply(batch: seq<Piece>, replies: seq<bytes>)
    requires |replies| == |batch|
    requires forall i :: 0 <= i < |batch| ==> |replies[i]| == batch[i].readLength
    ensures ReadTotal(batch) == |Concat(replies)|
    decreases |batch|
  {
    if batch == [] {
    } else {
      var n := |batch| - 1;
      ReadTotalIsReply(batch[..n], replies[..n]);
      assert replies == replies[..n] + [replies[n]];
      ConcatSnoc(replies[..n], replies[n]);
    }
  }

  /** Writing a batch runs its commands, one by one, and answers what they answer. */
  lemma BatchRuns(link: Link, batch: seq<Piece>, cmds: seq<Command>, scans: nat, flush: bytes, target: Target)
    requires Compiled(batch, cmds, scans)
    requires flush == [] || flush == [SEND_IMMEDIATE]
    ensures var t := ExecuteAll(link, cmds, target);
            && Execute(link, ConcatCommands(batch) + flush, target) == Outcome(t.link, t.events, Concat(t.replies))
            && (forall i :: 0 <= i < |batch| ==> |t.replies[i]| == batch[i].readLength)
            && ReadTotal(batch) == |Concat(t.replies)|
  {
    CommandsConcat(batch);
    forall i | 0 <= i < |batch| ensures Spells(Encodings(batch)[i], cmds[i]) {
      assert Compiles(batch[i], cmds[i], batch[i].scan);
    }
    ExecuteBatch(link, Encodings(batch), cmds, flush, target);
    ReplySizes(link, batch, cmds, scans, target);
    ReadTotalIsReply(batch, ExecuteAll(link, cmds, target).replies);
  }

  /** Where one reply lies in the incoming bytes, and what taking it adds to each scan. */
  lemma TakeReply(batch: seq<Piece>, replies: seq<bytes>, i: nat)
    requires |replies| == |batch| && i < |batch|
    ensures var offset := |Concat(replies[..i])|;
            && offset + |replies[i]| == |Concat(replies[..i + 1])| <= |Concat(replies)|
            && Concat(replies)[offset..offset + |replies[i]|] == replies[i]
  {
    assert replies[..i + 1] == replies[..i] + [replies[i]];
    ConcatSnoc(replies[..i], replies[i]);
    assert replies == replies[..i + 1] + replies[i + 1..];
    ConcatAppend(replies[..i + 1], replies[i + 1..]);
  }

  lemma GatherNext(batch: seq<Piece>, replies: seq<bytes>, i: nat, scan: nat)
    requires |replies| == |batch| && i < |batch|
    ensures Gather(batch[..i + 1], replies[..i + 1], scan)
         == Gather(batch[..i], replies[..i], scan) + (if batch[i].scan == scan then replies[i] else [])
  {
    assert batch[..i + 1] == batch[..i] + [batch[i]] && replies[..i + 1] == replies[..i] + [replies[i]];
    GatherAppend(batch[..i], replies[..i], [batch[i]], [replies[i]], scan);
    assert Gather([batch[i]], [replies[i]], scan)
        == (if batch[i].scan == scan then replies[i] else []) + Gather([], [], scan);
  }

  /** Hands every reply to the scan its piece came from. */
  method Demultiplex(batch: seq<Piece>, incoming: bytes, raw: array<bytes>, ghost replies: seq<bytes>)
    requires |replies| == |batch| && incoming == Concat(replies)
    requires forall i :: 0 <= i < |batch| ==> |replies[i]| == batch[i].readLength && batch[i].scan < raw.Length
    modifies raw
    ensures forall s :: 0 <= s < raw.Length ==> raw[s] == old(raw[s]) + Gather(batch, replies, s)
  {
    var offset := 0;
    assert forall s :: Gather(batch[..0], replies[..0], s) == [];
    hide Gather;
    for i := 0 to |batch|
      invariant offset == |Concat(replies[..i])|
      invariant forall s :: 0 <= s < raw.Length ==> raw[s] == old(raw[s]) + Gather(batch[..i], replies[..i], s)
    {
      TakeReply(batch, replies, i);
      forall s | 0 <= s < raw.Length
        ensures Gather(batch[..i + 1], replies[..i + 1], s)
             == Gather(batch[..i], replies[..i], s) + (if batch[i].scan == s then replies[i] else [])
      {
        GatherNext(batch, replies, i, s);
      }
      var end := offset + batch[i].readLength;
      raw[batch[i].scan] := raw[batch[i].scan] + incoming[offset..end];
      offset := end;
    }
    assert batch[..|batch|] == batch && replies[..|batch|] == replies;
  }

  /** One exchange: write the batch, read its replies, take them apart. */
  method Flush(batch: seq<Piece>, pending: nat, raw: array<bytes>, port: Port, ghost cmds: seq<Command>)
      returns (ok: bool)
    requires Compiled(batch, cmds, raw.Length) && pending == ReadTotal(batch) && port.pending == []
    modifies raw, port
    ensures ok
    ensures var t := ExecuteAll(old(port.link), cmds, port.target);
            && port.link == t.link && port.events == old(port.events) + t.events && port.pending == []
            && (forall s :: 0 <= s < raw.Length ==> raw[s] == old(raw[s]) + Gather(batch, t.replies, s))
    ensures port.asked == old(port.asked) + (if pending > 0 then [pending] else [])
  {
    if batch == [] {
      return true;
    }
    var command := ConcatCommands(batch);
    var flush := if pending > 0 then [SEND_IMMEDIATE] else [];
    ghost var t := ExecuteAll(port.link, cmds, port.target);
    BatchRuns(port.link, batch, cmds, raw.Length, flush, port.target);
    port.Write(command + flush);
    var incoming: bytes := [];
    if pending > 0 {
      var reply := port.Read(pending);
      if reply.None? {
        return false;
      }
      incoming := reply.value;
    }
    assert incoming == Concat(t.replies);
    forall i | 0 <= i < |batch| ensures batch[i].scan < raw.Length {
      assert Compiles(batch[i], cmds[i], batch[i].scan);
    }
    Demultiplex(batch, incoming, raw, t.replies);
    ok := true;
  }

  /** What the port and the reply buffers hold once the pieces before `sent` are done. */
  ghost predicate Progress(raw: seq<bytes>, now: Link, events: seq<TapEvent>, start: Link, past: seq<TapEvent>,
                           pieces: seq<Piece>, cmds: seq<Command>, sent: nat, target: Target)
    requires |pieces| == |cmds| && sent <= |pieces|
  {
    var t := ExecuteAll(start, cmds[..sent], target);
    && now == t.link && events == past + t.events
    && forall s :: 0 <= s < |raw| ==> raw[s] == Gather(pieces[..sent], t.replies, s)
  }

  /** Flushing a batch extends the progress from `sent` to `k`. */
  lemma FlushProgress(raw: seq<bytes>, next: seq<bytes>, now: Link, events: seq<TapEvent>, start: Link,
                      past: seq<TapEvent>, pieces: seq<Piece>, cmds: seq<Command>, sent: nat, k: nat, target: Target)
    requires |pieces| == |cmds| && sent <= k <= |pieces| && |raw| == |next|
    requires Progress(raw, now, events, start, past, pieces, cmds, sent, target)
    requires var t := ExecuteAll(now, cmds[sent..k], target);
             forall s :: 0 <= s < |raw| ==> next[s] == raw[s] + Gather(pieces[sent..k], t.replies, s)
    ensures var t := ExecuteAll(now, cmds[sent..k], target);
            Progress(next, t.link, events + t.events, start, past, pieces, cmds, k, target)
  {
    hide ExecuteAll, Gather;
    var one, two := ExecuteAll(start, cmds[..sent], target), ExecuteAll(now, cmds[sent..k], target);
    GatherSlices(raw, next, pieces, one.replies, two.replies, sent, k);
    var all := ExecuteAll(start, cmds[..k], target);
    assert all == Transcript(two.link, one.events + two.events, one.replies + two.replies) by {
      assert cmds[..k] == cmds[..sent] + cmds[sent..k];
      ExecuteAllAppend(start, cmds[..sent], cmds[sent..k], target);
    }
    assert past + one.events + two.events == past + all.events;
  }

  lemma GatherSlices(raw: seq<bytes>, next: seq<bytes>, pieces: seq<Piece>, one: seq<bytes>, two: seq<bytes>,
                     sent: nat, k: nat)
    requires sent <= k <= |pieces| && |raw| == |next| && |one| == sent && |two| == k - sent
    requires forall s :: 0 <= s < |raw| ==> raw[s] == Gather(pieces[..sent], one, s)
    requires forall s :: 0 <= s < |raw| ==> next[s] == raw[s] + Gather(pieces[sent..k], two, s)
    ensures forall s :: 0 <= s < |next| ==> next[s] == Gather(pieces[..k], one + two, s)
  {
    assert pieces[..k] == pieces[..sent] + pieces[sent..k];
    forall s | 0 <= s < |next| ensures next[s] == Gather(pieces[..k], one + two, s) {
      GatherAppend(pieces[..sent], one, pieces[sent..k], two, s);
    }
  }

  /** The exchanges so far, with `pending` reply bytes waiting in the open batch. */
  ghost predicate Exchanged(asked: seq<nat>, pending: nat, pieces: seq<Piece>, sent: nat, k: nat)
    requires sent <= k <= |pieces|
  {
    && Packed(asked) && pending <= MAX_BATCH_READ
    && pending == ReadTotal(pieces[sent..k]) && Sum(asked) == ReadTotal(pieces[..sent])
    && (asked != [] ==> asked[|asked| - 1] + pending > MAX_BATCH_READ)
  }

  ghost function Asked(asked: seq<nat>, pending: nat): seq<nat> {
    if pending > 0 then asked + [pending] else asked
  }

  lemma CloseExchange(asked: seq<nat>, pending: nat, pieces: seq<Piece>, sent: nat, k: nat)
    requires sent <= k <= |pieces| && Exchanged(asked, pending, pieces, sent, k)
    ensures Packed(Asked(asked, pending)) && Sum(Asked(asked, pending)) == ReadTotal(pieces[..k])
  {
    hide ReadTotal, Sum;
    ReadTotalSplit(pieces, sent, k);
    SumNext(asked, pending);
  }

  lemma GrowExchange(asked: seq<nat>, pending: nat, pieces: seq<Piece>, sent: nat, k: nat)
    requires sent <= k < |pieces| && Exchanged(asked, pending, pieces, sent, k)
    requires pieces[k].readLength <= MAX_DATA_PIECE
    requires pending == 0 || pending + pieces[k].readLength <= MAX_BATCH_READ
    ensures Exchanged(asked, pending + pieces[k].readLength, pieces, sent, k + 1)
  {
    ReadTotalNext(pieces, sent, k);
  }

  lemma OpenExchange(asked: seq<nat>, pending: nat, pieces: seq<Piece>, sent: nat, k: nat)
    requires sent <= k < |pieces| && Exchanged(asked, pending, pieces, sent, k)
    requires pieces[k].readLength <= MAX_DATA_PIECE
    requires 0 < pending && pending + pieces[k].readLength > MAX_BATCH_READ
    ensures Exchanged(asked + [pending], pieces[k].readLength, pieces, k, k + 1)
  {
    CloseExchange(asked, pending, pieces, sent, k);
    ReadTotalNext(pieces, k, k);
    assert pieces[k..k] == [];
  }

  lemma CompiledSlice(pieces: seq<Piece>, cmds: seq<Command>, scans: nat, i: nat, j: nat)
    requires Compiled(pieces, cmds, scans) && i <= j <= |pieces|
    ensures Compiled(pieces[i..j], cmds[i..j], scans)
  {
    forall k | 0 <= k < j - i
      ensures Compiles(pieces[i..j][k], cmds[i..j][k], pieces[i..j][k].scan) && pieces[i..j][k].scan < scans
    {
      assert Compiles(pieces[i + k], cmds[i + k], pieces[i + k].scan);
    }
  }

  lemma ReadTotalNext(pieces: seq<Piece>, i: nat, k: nat)
    requires i <= k < |pieces|
    ensures ReadTotal(pieces[i..k + 1]) == ReadTotal(pieces[i..k]) + pieces[k].readLength
  {
    var batch := pieces[i..k + 1];
    assert batch[..|batch| - 1] == pieces[i..k];
  }

  lemma SumNext(asked: seq<nat>, n: nat)
    ensures Sum(asked + [n]) == Sum(asked) + n
  {
    assert (asked + [n])[..|asked|] == asked;
  }

  /** All pieces have run from `start`, and every reply is with its scan. */
  ghost predicate Done(raw: seq<bytes>, now: Link, events: seq<TapEvent>, start: Link, past: seq<TapEvent>,
                       pieces: seq<Piece>, cmds: seq<Command>, target: Target)
    requires |pieces| == |cmds|
  {
    var t := ExecuteAll(start, cmds, target);
    && now == t.link && events == past + t.events
    && forall s :: 0 <= s < |raw| ==> raw[s] == Gather(pieces, t.replies, s)
  }

  /** Runs all pieces in bounded exchanges; the replies of each scan end up in its `raw` buffer. */
  method RunPieces(pieces: seq<Piece>, raw: array<bytes>, port: Port, ghost cmds: seq<Command>)
      returns (ok: bool, ghost asked: seq<nat>)
    requires Compiled(pieces, cmds, raw.Length) && port.pending == []
    requires forall s :: 0 <= s < raw.Length ==> raw[s] == []
    modifies raw, port
    ensures ok && port.pending == []
    ensures Done(raw[..], port.link, port.events, old(port.link), old(port.events), pieces, cmds, port.target)
    ensures port.asked == old(port.asked) + asked && Packed(asked) && Sum(asked) == ReadTotal(pieces)
  {
    ghost var start, past, before := port.link, port.events, port.asked;
    ghost var sent: nat := 0;
    asked := [];
    var batch: seq<Piece> := [];
    var pending: nat := 0;
    for k := 0 to |pieces|
      invariant Batching(pieces, cmds, raw[..], port.link, port.events, start, past, sent, k, batch, pending, port.target)
      invariant Exchanged(asked, pending, pieces, sent, k) && port.asked == before + asked && port.pending == []
    {
      batch, pending, sent, asked := TakePiece(batch, pending, raw, port, pieces, cmds, start, past, before, sent, k, asked);
    }
    ok := FlushBatch(batch, pending, raw, port, pieces, cmds, start, past, sent, |pieces|);
    CloseExchange(asked, pending, pieces, sent, |pieces|);
    asked := Asked(asked, pending);
    Finished(raw[..], port.link, port.events, start, past, pieces, cmds, port.target);
  }

  ghost predicate Batching(pieces: seq<Piece>, cmds: seq<Command>, raw: seq<bytes>, now: Link, events: seq<TapEvent>,
                           start: Link, past: seq<TapEvent>, sent: nat, k: nat, batch: seq<Piece>, pending: nat,
                           target: Target)
  {
    && Compiled(pieces, cmds, |raw|) && sent <= k <= |pieces|
    && batch == pieces[sent..k] && pending == ReadTotal(batch)
    && Progress(raw, now, events, start, past, pieces, cmds, sent, target)
  }

  lemma Grown(pieces: seq<Piece>, cmds: seq<Command>, raw: seq<bytes>, now: Link, events: seq<TapEvent>, start: Link,
              past: seq<TapEvent>, sent: nat, k: nat, batch: seq<Piece>, pending: nat, target: Target)
    requires Batching(pieces, cmds, raw, now, events, start, past, sent, k, batch, pending, target)
    requires k < |pieces|
    ensures Batching(pieces, cmds, raw, now, events, start, past, sent, k + 1, batch + [pieces[k]],
                     pending + pieces[k].readLength, target)
  {
    hide Progress, Compiled, ReadTotal;
    assert batch + [pieces[k]] == pieces[sent..k + 1];
    ReadTotalNext(pieces, sent, k);
  }

  lemma Opened(pieces: seq<Piece>, cmds: seq<Command>, raw: seq<bytes>, now: Link, events: seq<TapEvent>, start: Link,
               past: seq<TapEvent>, k: nat, target: Target)
    requires Compiled(pieces, cmds, |raw|) && k < |pieces|
    requires Progress(raw, now, events, start, past, pieces, cmds, k, target)
    ensures Batching(pieces, cmds, raw, now, events, start, past, k, k + 1, [pieces[k]], pieces[k].readLength, target)
  {
    assert pieces[k..k] == [];
    assert [] + [pieces[k]] == [pieces[k]];
    Grown(pieces, cmds, raw, now, events, start, past, k, k, [], 0, target);
  }

  /** One turn of the batching loop: flush first if the next piece would overfill the exchange. */
  method TakePiece(batch: seq<Piece>, pending: nat, raw: array<bytes>, port: Port, pieces: seq<Piece>,
                   ghost cmds: seq<Command>, ghost start: Link, ghost past: seq<TapEvent>, ghost before: seq<nat>,
                   ghost sent: nat, k: nat, ghost asked: seq<nat>)
      returns (batch': seq<Piece>, pending': nat, ghost sent': nat, ghost asked': seq<nat>)
    requires k < |pieces|
    requires Batching(pieces, cmds, raw[..], port.link, port.events, start, past, sent, k, batch, pending, port.target)
    requires Exchanged(asked, pending, pieces, sent, k) && port.asked == before + asked && port.pending == []
    modifies raw, port
    ensures Batching(pieces, cmds, raw[..], port.link, port.events, start, past, sent', k + 1, batch', pending', port.target)
    ensures Exchanged(asked', pending', pieces, sent', k + 1) && port.asked == before + asked' && port.pending == []
  {
    hide Progress, Compiled, Packed, ReadTotal, Sum;
    var piece := pieces[k];
    PieceFits(pieces, cmds, raw.Length, k);
    if pending > 0 && pending + piece.readLength > MAX_BATCH_READ {
      var ok := FlushBatch(batch, pending, raw, port, pieces, cmds, start, past, sent, k);
      OpenExchange(asked, pending, pieces, sent, k);
      Opened(pieces, cmds, raw[..], port.link, port.events, start, past, k, port.target);
      batch', pending', sent', asked' := [piece], piece.readLength, k, asked + [pending];
    } else {
      GrowExchange(asked, pending, pieces, sent, k);
      Grown(pieces, cmds, raw[..], port.link, port.events, start, past, sent, k, batch, pending, port.target);
      batch', pending', sent', asked' := batch + [piece], pending + piece.readLength, sent, asked;
    }
  }

  lemma PieceFits(pieces: seq<Piece>, cmds: seq<Command>, scans: nat, k: nat)
    requires Compiled(pieces, cmds, scans) && k < |pieces|
    ensures pieces[k].readLength <= MAX_DATA_PIECE
  {
    assert Compiles(pieces[k], cmds[k], pieces[k].scan);
  }

  lemma Finished(raw: seq<bytes>, now: Link, events: seq<TapEvent>, start: Link, past: seq<TapEvent>,
                 pieces: seq<Piece>, cmds: seq<Command>, target: Target)
    requires |pieces| == |cmds| && Progress(raw, now, events, start, past, pieces, cmds, |pieces|, target)
    ensures ReadTotal(pieces[..|pieces|]) == ReadTotal(pieces)
    ensures Done(raw, now, events, start, past, pieces, cmds, target)
  {
    assert pieces[..|pieces|] == pieces && cmds[..|cmds|] == cmds;
  }

  lemma ReadTotalSplit(pieces: seq<Piece>, i: nat, k: nat)
    requires i <= k <= |pieces|
    ensures ReadTotal(pieces[..k]) == ReadTotal(pieces[..i]) + ReadTotal(pieces[i..k])
  {
    ReadTotalAppend(pieces[..i], pieces[i..k]);
    assert pieces[..i] + pieces[i..k] == pieces[..k];
  }

  lemma {:induction false} ReadTotalAppend(a: seq<Piece>, b: seq<Piece>)
    ensures ReadTotal(a + b) == ReadTotal(a) + ReadTotal(b)
    decreases |b|
  {
    if b == [] {
      assert a + b == a;
    } else {
      var n := |b| - 1;
      ReadTotalAppend(a, b[..n]);
      assert (a + b)[..|a| + n] == a + b[..n] && (a + b)[|a| + n] == b[n];
    }
  }

  method FlushBatch(batch: seq<Piece>, pending: nat, raw: array<bytes>, port: Port, ghost pieces: seq<Piece>,
                    ghost cmds: seq<Command>, ghost start: Link, ghost past: seq<TapEvent>, ghost sent: nat, ghost k: nat)
      returns (ok: bool)
    requires Batching(pieces, cmds, raw[..], port.link, port.events, start, past, sent, k, batch, pending, port.target)
    requires port.pending == []
    modifies raw, port
    ensures ok && port.pending == []
    ensures Progress(raw[..], port.link, port.events, start, past, pieces, cmds, k, port.target)
    ensures port.asked == old(port.asked) + (if pending > 0 then [pending] else [])
  {
    CompiledSlice(pieces, cmds, raw.Length, sent, k);
    hide ReadTotal, Compiled;
    ghost var now, events, was := port.link, port.events, raw[..];
    ok := Flush(batch, pending, raw, port, cmds[sent..k]);
    FlushProgress(was, raw[..], now, events, start, past, pieces, cmds, sent, k, port.target);
  }
}
