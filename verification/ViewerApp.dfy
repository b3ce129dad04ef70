/** The viewer's receive path as it runs: buffers and counters updated in place. */
module ViewerApp {
  import opened Bytes
  import opened Wrappers
  import opened FrameScan
  import opened DebugFrames
  import opened FrameFeed
  import opened FrameStream
  import opened BridgeProtocol
  import opened ViewerSession

  class Viewer {
    const reader: Reader
    var rx: bytes
    var decoded: seq<Frame>
    var checksumErrors: nat
    var syncDrops: nat
    var recordRx: bytes
    var sessionId: Option<nat>
    ghost var locked: bool

    constructor (reader: Reader)
      ensures this.reader == reader && View() == NEW_VIEW && recordRx == []
    {
      this.reader := reader;
      rx, decoded, recordRx := [], [], [];
      checksumErrors, syncDrops, sessionId, locked := 0, 0, None, false;
    }

    ghost function State(): Parser
      reads this
    {
      Parser(rx, Tally(decoded, checksumErrors, syncDrops, locked, []))
    }

    ghost function View(): View
      reads this
    {
      ViewerSession.View(State(), sessionId)
    }

    method AppendRxBytes(bytes: bytes)
      modifies this`rx
      ensures rx == old(rx) + bytes
    {
      rx := rx + bytes;
    }

    /** Decides all frames the buffer allows; a bad checksum costs the whole candidate. */
    method ParseAvailableFrames()
      modifies this`rx, this`decoded, this`checksumErrors, this`syncDrops, this`locked
      ensures State() == Drain(Policy.Viewer, old(State()))
    {
      ghost var goal := Drain(Policy.Viewer, State());
      while |rx| >= 5
        invariant Drain(Policy.Viewer, State()) == goal
        decreases |rx|
      {
        ghost var before := State();
        if rx[0] != SOF {
          DrainStep(Policy.Viewer, before);
          rx := rx[1..];
          syncDrops := syncDrops + 1;
          continue;
        }
        var len := rx[3] as nat;
        if len > MAX_PAYLOAD {
          DrainStep(Policy.Viewer, before);
          rx := rx[1..];
          syncDrops := syncDrops + 1;
          continue;
        }
        var total := 5 + len;
        if |rx| < total {
          break;
        }
        Candidate(total);
      }
      DrainWait(Policy.Viewer, State());
    }

    method Candidate(total: nat)
      requires |rx| >= 5 && GoodHeader(Policy.Viewer, rx) && total == rx[3] as nat + 5 <= |rx|
      modifies this`rx, this`decoded, this`checksumErrors, this`locked
      ensures Drain(Policy.Viewer, State()) == Drain(Policy.Viewer, old(State()))
      ensures |rx| < |old(rx)|
    {
      ghost var before := State();
      var raw := rx[..total];
      DecideCandidate(Policy.Viewer, rx, raw);
      rx := rx[total..];
      var actual := FoldChecksum(raw[1..total - 1]);
      if actual != raw[total - 1] {
        checksumErrors := checksumErrors + 1;
        DrainTo(Policy.Viewer, before, Reject(raw, total), State());
        return;
      }
      decoded := decoded + [Frame(raw[1], raw[2], raw[4..total - 1])];
      locked := true;
      DrainTo(Policy.Viewer, before, Accept(raw), State());
    }

    method ConsumeBridgeRecord(record: Record)
      modifies this
      ensures View() == Consume(old(View()), record, reader) && recordRx == old(recordRx)
      ensures record.kind == 1 ==>
                var known, told := old(sessionId), reader.greeting(record.payload);
                sessionId == Some(told) && rx == if known.Some? && known.value != told then [] else old(rx)
      ensures record.kind == 4 ==> sessionId == Some(reader.announced(record.payload)) && rx == []
      ensures record.kind != 1 && record.kind != 4 ==> sessionId == old(sessionId)
      ensures record.kind !in {1, 2, 4} ==> rx == old(rx)
      ensures record.kind != 2 ==>
                decoded == old(decoded) && checksumErrors == old(checksumErrors) && syncDrops == old(syncDrops)
    {
      if record.kind == TYPE_DATA {
        AppendRxBytes(record.payload);
        ParseAvailableFrames();
        return;
      }
      if record.kind == TYPE_HELLO {
        var session := reader.greeting(record.payload);
        if sessionId.Some? && sessionId.value != session {
          rx := [];
        }
        sessionId := Some(session);
      } else if record.kind == TYPE_SESSION {
        rx := [];
        sessionId := Some(reader.announced(record.payload));
      }
    }

    /** Consumes every whole record; an oversize one ends the connection after those before it. */
    method ConsumeBridgeBytes(bytes: bytes) returns (ok: bool)
      modifies this
      ensures View() == ConsumeAll(old(View()), Leading(old(recordRx) + bytes), reader)
      ensures ok == DecodeRecords(old(recordRx) + bytes).Ok?
      ensures recordRx == if ok then DecodeRecords(old(recordRx) + bytes).value.rest else old(recordRx) + bytes
    {
      recordRx := recordRx + bytes;
      var offset, fits := ConsumeWhole();
      if !fits {
        return false;
      }
      recordRx := recordRx[offset..];
      ok := true;
    }

    /** Consumes the whole records at the front of the buffer, up to `offset`. */
    method ConsumeWhole() returns (offset: nat, fits: bool)
      modifies this
      ensures recordRx == old(recordRx) && offset <= |recordRx|
      ensures View() == ConsumeAll(old(View()), Leading(recordRx), reader)
      ensures DecodeRecords(recordRx)
           == if fits then Ok(Decoded(Leading(recordRx), recordRx[offset..])) else Err(RecordTooLarge)
    {
      var data := recordRx;
      ghost var start, done := View(), [];
      offset := 0;
      NothingTaken(data);
      assert ConsumeAll(start, done, reader) == start;
      hide Taken, ConsumeAll, FromLe, Pow256, Leading, DecodeRecords, Consume, View;
      while |data| - offset >= 5
        invariant offset <= |data| && recordRx == data
        invariant Taken(data, done, offset) && View() == ConsumeAll(start, done, reader)
        decreases |data| - offset
      {
        var length := FromLe(data[offset + 1..offset + 5]);
        if length > MAX_RECORD {
          TakenAll(data, done, offset, false);
          return offset, false;
        }
        if |data| - offset < 5 + length {
          break;
        }
        ghost var record := TakeRecord(offset, length, data, done, start);
        done := done + [record];
        offset := offset + 5 + length;
      }
      TakenAll(data, done, offset, true);
      fits := true;
    }

    /** One whole record, `length` payload bytes long, is consumed. */
    method TakeRecord(offset: nat, length: nat, ghost data: bytes, ghost done: seq<Record>, ghost start: View)
        returns (ghost record: Record)
      requires recordRx == data && offset + 5 + length <= |data|
      requires length == FromLe(data[offset + 1..offset + 5]) <= MAX_RECORD
      requires Taken(data, done, offset) && View() == ConsumeAll(start, done, reader)
      modifies this
      ensures record == Record(data[offset], data[offset + 5..offset + 5 + length]) && recordRx == data
      ensures Taken(data, done + [record], offset + 5 + length)
      ensures View() == ConsumeAll(start, done + [record], reader)
    {
      hide Taken, ConsumeAll, FromLe, Consume;
      var next := Record(recordRx[offset], recordRx[offset + 5..offset + 5 + length]);
      record := next;
      TakeOne(data, done, offset, next);
      ConsumeBridgeRecord(next);
      ConsumeSnoc(start, done, next, reader);
    }

    /** `done` are the records in front of `offset`. */
    ghost static predicate Taken(data: bytes, done: seq<Record>, offset: nat)
      requires offset <= |data|
    {
      && done + Leading(data[offset..]) == Leading(data)
      && DecodeRecords(data) == Prepend(done, DecodeRecords(data[offset..]))
    }

    static lemma NothingTaken(data: bytes)
      ensures Taken(data, [], 0)
    {
      assert data[0..] == data && [] + Leading(data) == Leading(data);
      PrependNothing(DecodeRecords(data));
    }

    /** Where no whole record follows, everything there was to take has been taken. */
    static lemma TakenAll(data: bytes, done: seq<Record>, offset: nat, fits: bool)
      requires offset <= |data| && Taken(data, done, offset)
      requires |data| - offset < 5 ==> fits
      requires |data| - offset >= 5 ==>
                 var length := FromLe(data[offset + 1..offset + 5]);
                 (fits <==> length <= MAX_RECORD) && (fits ==> |data| - offset < 5 + length)
      ensures done == Leading(data)
      ensures DecodeRecords(data) == if fits then Ok(Decoded(done, data[offset..])) else Err(RecordTooLarge)
    {
      var front := data[offset..];
      if |front| >= 5 {
        assert front[1..5] == data[offset + 1..offset + 5];
      }
      assert done + [] == done;
    }

    static lemma TakeOne(data: bytes, done: seq<Record>, offset: nat, record: Record)
      requires offset + 5 <= |data| && Taken(data, done, offset)
      requires var length := FromLe(data[offset + 1..offset + 5]);
               && length <= MAX_RECORD && offset + 5 + length <= |data|
               && record == Record(data[offset], data[offset + 5..offset + 5 + length])
      ensures Taken(data, done + [record], offset + 5 + |record.payload|)
    {
      var rest := data[offset + 5 + |record.payload|..];
      FrontRecord(data, offset, record);
      PrependTwice(done, record, DecodeRecords(rest));
      assert done + ([record] + Leading(rest)) == done + [record] + Leading(rest);
    }

    static lemma FrontRecord(data: bytes, offset: nat, record: Record)
      requires offset + 5 <= |data|
      requires var length := FromLe(data[offset + 1..offset + 5]);
               && length <= MAX_RECORD && offset + 5 + length <= |data|
               && record == Record(data[offset], data[offset + 5..offset + 5 + length])
      ensures var rest := data[offset + 5 + |record.payload|..];
              && Leading(data[offset..]) == [record] + Leading(rest)
              && DecodeRecords(data[offset..]) == Prepend([record], DecodeRecords(rest))
    {
      RecordAt(data, offset, record);
    }
  }
}
