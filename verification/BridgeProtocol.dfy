/** The local socket protocol: `u8 type, u32le length, payload`, decoded from any cut of the stream. */
module BridgeProtocol {
  import opened Bytes
  import opened Wrappers

  const TYPE_HELLO: byte := 1
  const TYPE_DATA: byte := 2
  const TYPE_STATUS: byte := 3
  const TYPE_SESSION: byte := 4
  const MAX_RECORD: nat := 16 * 1024 * 1024
  const HEADER_BYTES: nat := 5

  datatype ProtocolError = InvalidRecord | RecordTooLarge

  datatype Record = Record(kind: byte, payload: bytes)
  {
    predicate Sendable() {
      |payload| <= MAX_RECORD
    }

    function Wire(): (r: bytes)
      ensures |r| == HEADER_BYTES + |payload|
    {
      [kind] + Le(|payload|, 4) + payload
    }
  }

  function Frame(kind: int, payload: bytes): Result<bytes, ProtocolError> {
    if !(0 <= kind <= 255) || |payload| > MAX_RECORD then Err(InvalidRecord)
    else Ok(Record(kind, payload).Wire())
  }

  /** A record is framed if its type is a byte and it is not too long: type, length, lowest byte first, payload. */
  lemma FrameMeans(kind: int, payload: bytes)
    ensures Frame(kind, payload).Ok? <==> 0 <= kind < 0x100 && |payload| <= 0x100_0000
    ensures Frame(kind, payload).Ok? ==>
              var w := Frame(kind, payload).value;
              && |w| == 5 + |payload| && w[0] == kind && w[5..] == payload
              && |payload| == w[1] as nat + 0x100 * w[2] as nat + 0x1_0000 * w[3] as nat + 0x100_0000 * w[4] as nat
  {
    if Frame(kind, payload).Ok? {
      var w, size := Frame(kind, payload).value, Le(|payload|, 4);
      assert w[1] == size[0] && w[2] == size[1] && w[3] == size[2] && w[4] == size[3];
      assert Pow256(4) == 0x1_0000_0000;
      FromLeOfLe(|payload|, 4);
      FromLeMeans(size);
    }
  }

  function WireAll(records: seq<Record>): bytes {
    if records == [] then [] else records[0].Wire() + WireAll(records[1..])
  }

  datatype Decoded = Decoded(records: seq<Record>, rest: bytes)

  type Outcome = Result<Decoded, ProtocolError>

  /** The record at the front of `data`: too large, incomplete, or there. */
  function First(data: bytes): (r: Result<Option<Record>, ProtocolError>)
    ensures r.Ok? && r.value.Some? ==> r.value.value.Wire() <= data && r.value.value.Sendable()
  {
    if |data| < HEADER_BYTES then Ok(None)
    else
      var length := FromLe(data[1..5]);
      if length > MAX_RECORD then Err(RecordTooLarge)
      else if HEADER_BYTES + length > |data| then Ok(None)
      else
        LeOfFromLe(data[1..5]);
        Ok(Some(Record(data[0], data[5..5 + length])))
  }

  function DecodeRecords(data: bytes): (r: Outcome)
    ensures r.Ok? ==> WireAll(r.value.records) + r.value.rest == data
    decreases |data|
  {
    match First(data)
    case Err(e) => Err(e)
    case Ok(None) => Ok(Decoded([], data))
    case Ok(Some(record)) =>
      match DecodeRecords(data[|record.Wire()|..])
      case Err(e) => Err(e)
      case Ok(d) => Ok(Decoded([record] + d.records, d.rest))
  }

  /** The next record of `data` and what is left behind it. */
  lemma RecordAt(data: bytes, offset: nat, record: Record)
    requires offset + 5 <= |data|
    requires var length := FromLe(data[offset + 1..offset + 5]);
             && length <= MAX_RECORD && offset + 5 + length <= |data|
             && record == Record(data[offset], data[offset + 5..offset + 5 + length])
    ensures First(data[offset..]) == Ok(Some(record))
    ensures data[offset..][|record.Wire()|..] == data[offset + 5 + |record.payload|..]
    ensures DecodeRecords(data[offset..]) == Prepend([record], DecodeRecords(data[offset + 5 + |record.payload|..]))
  {
    var front := data[offset..];
    assert front[1..5] == data[offset + 1..offset + 5];
    assert front[5..5 + |record.payload|] == record.payload;
    assert front[|record.Wire()|..] == data[offset + 5 + |record.payload|..];
  }

  lemma NoRecordAt(data: bytes, offset: nat)
    requires offset <= |data|
    requires |data| - offset < 5 || FromLe(data[offset + 1..offset + 5]) > MAX_RECORD
          || |data| - offset < 5 + FromLe(data[offset + 1..offset + 5])
    ensures DecodeRecords(data[offset..])
         == if |data| - offset >= 5 && FromLe(data[offset + 1..offset + 5]) > MAX_RECORD
            then Err(RecordTooLarge) else Ok(Decoded([], data[offset..]))
  {
    var front := data[offset..];
    if |front| >= 5 {
      assert front[1..5] == data[offset + 1..offset + 5];
    }
  }

  /** After `records`, nothing more comes out at `offset`. */
  lemma StopsAt(records: seq<Record>, data: bytes, offset: nat)
    requires offset <= |data|
    requires |data| - offset < 5 || FromLe(data[offset + 1..offset + 5]) > MAX_RECORD
          || |data| - offset < 5 + FromLe(data[offset + 1..offset + 5])
    ensures Prepend(records, DecodeRecords(data[offset..]))
         == if |data| - offset >= 5 && FromLe(data[offset + 1..offset + 5]) > MAX_RECORD
            then Err(RecordTooLarge) else Ok(Decoded(records, data[offset..]))
  {
    NoRecordAt(data, offset);
    hide FromLe, DecodeRecords;
    PrependStop(records, DecodeRecords(data[offset..]));
  }

  /** After `records`, one more comes out at `offset`. */
  lemma GoesOn(records: seq<Record>, data: bytes, offset: nat, record: Record)
    requires offset + 5 <= |data|
    requires var length := FromLe(data[offset + 1..offset + 5]);
             && length <= MAX_RECORD && offset + 5 + length <= |data|
             && record == Record(data[offset], data[offset + 5..offset + 5 + length])
    ensures Prepend(records, DecodeRecords(data[offset..]))
         == Prepend(records + [record], DecodeRecords(data[offset + 5 + |record.payload|..]))
  {
    RecordAt(data, offset, record);
    hide FromLe, DecodeRecords, Prepend;
    PrependTwice(records, record, DecodeRecords(data[offset + 5 + |record.payload|..]));
  }

  method DecodeAvailable(data: bytes) returns (r: Outcome)
    ensures r == DecodeRecords(data)
  {
    var records: seq<Record> := [];
    var offset := 0;
    PrependNothing(DecodeRecords(data));
    assert data[0..] == data;
    hide FromLe, Pow256, First, DecodeRecords, WireAll, Prepend;
    while |data| - offset >= HEADER_BYTES
      invariant offset <= |data|
      invariant DecodeRecords(data) == Prepend(records, DecodeRecords(data[offset..]))
      decreases |data| - offset
    {
      var length := FromLe(data[offset + 1..offset + 5]);
      if length > MAX_RECORD {
        StopsAt(records, data, offset);
        return Err(RecordTooLarge);
      }
      var end := offset + HEADER_BYTES + length;
      if end > |data| {
        break;
      }
      var record := Record(data[offset], data[offset + HEADER_BYTES..end]);
      GoesOn(records, data, offset, record);
      records := records + [record];
      offset := end;
    }
    StopsAt(records, data, offset);
    r := Ok(Decoded(records, data[offset..]));
  }

  /** Decoding more after `records` have already come out. */
  function Prepend(records: seq<Record>, r: Outcome): Outcome {
    match r
    case Err(e) => Err(e)
    case Ok(d) => Ok(Decoded(records + d.records, d.rest))
  }

  lemma PrependTwice(records: seq<Record>, record: Record, r: Outcome)
    ensures Prepend(records, Prepend([record], r)) == Prepend(records + [record], r)
  {
    if r.Ok? {
      assert records + ([record] + r.value.records) == records + [record] + r.value.records;
    }
  }

  lemma PrependStop(records: seq<Record>, r: Outcome)
    ensures Prepend(records, r) == match r case Err(e) => Err(e) case Ok(d) => Ok(Decoded(records + d.records, d.rest))
    ensures r.Ok? && r.value.records == [] ==> Prepend(records, r) == Ok(Decoded(records, r.value.rest))
  {
    assert records + [] == records;
  }

  lemma PrependNothing(r: Outcome)
    ensures Prepend([], r) == r
  {
    if r.Ok? {
      assert [] + r.value.records == r.value.records;
    }
  }

  /** What is at the front of the stream does not change when more arrives. */
  lemma FirstStable(a: bytes, b: bytes)
    requires First(a) != Ok(None)
    ensures First(a + b) == First(a)
  {
    assert (a + b)[1..5] == a[1..5];
    if First(a).Ok? {
      var length := FromLe(a[1..5]);
      assert (a + b)[5..5 + length] == a[5..5 + length];
    }
  }

  /** The exact law of cutting: decode the first piece, carry its rest, decode on; errors included. */
  lemma {:induction false} DecodeCut(a: bytes, b: bytes)
    ensures DecodeRecords(a + b) ==
            match DecodeRecords(a)
            case Err(e) => Err(e)
            case Ok(d) => Prepend(d.records, DecodeRecords(d.rest + b))
    decreases |a|
  {
    match First(a)
    case Err(e) =>
      FirstStable(a, b);
    case Ok(None) =>
      PrependNothing(DecodeRecords(a + b));
    case Ok(Some(record)) =>
      FirstStable(a, b);
      var n := |record.Wire()|;
      assert (a + b)[n..] == a[n..] + b;
      DecodeCut(a[n..], b);
      match DecodeRecords(a[n..]) {
        case Err(_) =>
        case Ok(d) =>
          PrependAfter(record, d.records, DecodeRecords(d.rest + b));
      }
  }

  lemma PrependAfter(record: Record, records: seq<Record>, r: Outcome)
    ensures Prepend([record], Prepend(records, r)) == Prepend([record] + records, r)
  {
    if r.Ok? {
      assert [record] + (records + r.value.records) == [record] + records + r.value.records;
    }
  }

  /** A receiver: feeds what it carried over together with the next chunk. */
  function DecodeChunks(carry: bytes, chunks: seq<bytes>): Outcome
    decreases |chunks|
  {
    if chunks == [] then Ok(Decoded([], carry))
    else
      match DecodeRecords(carry + chunks[0])
      case Err(e) => Err(e)
      case Ok(d) => Prepend(d.records, DecodeChunks(d.rest, chunks[1..]))
  }

  /** Any cut of a stream gives the same records and remainder, or the same error, as no cut. */
  lemma {:induction false} ChunksIndependent(carry: bytes, chunks: seq<bytes>)
    requires DecodeRecords(carry) == Ok(Decoded([], carry))
    ensures DecodeChunks(carry, chunks) == DecodeRecords(carry + Concat(chunks))
    decreases |chunks|
  {
    if chunks == [] {
      assert carry + [] == carry;
    } else {
      var head, rest := carry + chunks[0], Concat(chunks[1..]);
      assert carry + Concat(chunks) == head + rest;
      DecodeCut(head, rest);
      match DecodeRecords(head) {
        case Err(_) =>
        case Ok(d) =>
          RestUndecided(head);
          ChunksIndependent(d.rest, chunks[1..]);
      }
    }
  }

  lemma {:induction false} RestUndecided(data: bytes)
    requires DecodeRecords(data).Ok?
    ensures var rest := DecodeRecords(data).value.rest;
            First(rest) == Ok(None) && DecodeRecords(rest) == Ok(Decoded([], rest))
    decreases |data|
  {
    match First(data)
    case Err(_) =>
    case Ok(None) =>
    case Ok(Some(record)) =>
      RestUndecided(data[|record.Wire()|..]);
  }

  lemma FirstOfWire(record: Record, tail: bytes)
    requires record.Sendable()
    ensures First(record.Wire() + tail) == Ok(Some(record))
  {
    var data := record.Wire() + tail;
    assert data[1..5] == Le(|record.payload|, 4);
    LengthFits(|record.payload|);
    FromLeOfLe(|record.payload|, 4);
    assert data[5..5 + |record.payload|] == record.payload;
  }

  lemma LengthFits(n: nat)
    requires n <= MAX_RECORD
    ensures n < Pow256(4)
  {
    assert Pow256(2) == 0x1_0000;
    assert Pow256(4) == 0x1_0000 * Pow256(2);
  }

  /** Every sendable record list comes back, followed by whatever the tail decodes to. */
  lemma {:induction false} DecodeWire(records: seq<Record>, tail: bytes)
    requires forall i :: 0 <= i < |records| ==> records[i].Sendable()
    ensures DecodeRecords(WireAll(records) + tail) == Prepend(records, DecodeRecords(tail))
  {
    if records == [] {
      assert [] + tail == tail;
      PrependNothing(DecodeRecords(tail));
    } else {
      var rest := WireAll(records[1..]) + tail;
      assert WireAll(records) + tail == records[0].Wire() + rest;
      FirstOfWire(records[0], rest);
      assert (records[0].Wire() + rest)[|records[0].Wire()|..] == rest;
      DecodeWire(records[1..], tail);
      PrependAfter(records[0], records[1..], DecodeRecords(tail));
      assert [records[0]] + records[1..] == records;
    }
  }

  /** A stream of whole records, cut anywhere, is received exactly. */
  lemma RecordsReceived(records: seq<Record>, chunks: seq<bytes>)
    requires forall i :: 0 <= i < |records| ==> records[i].Sendable()
    requires Concat(chunks) == WireAll(records)
    ensures DecodeChunks([], chunks) == Ok(Decoded(records, []))
  {
    ChunksIndependent([], chunks);
    assert [] + Concat(chunks) == WireAll(records) + [];
    DecodeWire(records, []);
    assert records + [] == records;
  }

  lemma DecodeFront(record: Record, tail: bytes)
    requires record.Sendable()
    ensures DecodeRecords(record.Wire() + tail) == Prepend([record], DecodeRecords(tail))
  {
    FirstOfWire(record, tail);
    assert (record.Wire() + tail)[|record.Wire()|..] == tail;
  }

  /** The beginning of a stream of records gives the records that are whole in it. */
  lemma {:induction false} DecodePrefixOf(records: seq<Record>, n: nat) returns (m: nat)
    requires n <= |WireAll(records)| && forall i :: 0 <= i < |records| ==> records[i].Sendable()
    ensures m <= |records| && (n == |WireAll(records)| ==> m == |records|)
    ensures var r := DecodeRecords(WireAll(records)[..n]); r.Ok? && r.value.records == records[..m]
    decreases |records|
  {
    if records == [] {
      m := 0;
      assert WireAll(records)[..n] == [] && DecodeRecords([]) == Ok(Decoded([], []));
    } else {
      var record, rest := records[0], WireAll(records[1..]);
      var width := |record.Wire()|;
      assert WireAll(records) == record.Wire() + rest;
      hide DecodeRecords, First, WireAll;
      if n < width {
        m := 0;
        assert WireAll(records)[..n] == record.Wire()[..n];
        FirstOfPart(record, n);
      } else {
        var part := rest[..n - width];
        var later := DecodePrefixOf(records[1..], n - width);
        m := later + 1;
        assert WireAll(records)[..n] == record.Wire() + part;
        DecodeFront(record, part);
        assert records[..m] == [record] + records[1..][..later];
      }
    }
  }

  lemma FirstOfPart(record: Record, n: nat)
    requires record.Sendable() && n < |record.Wire()|
    ensures DecodeRecords(record.Wire()[..n]) == Ok(Decoded([], record.Wire()[..n]))
  {
    if n >= HEADER_BYTES {
      var wire := record.Wire();
      assert wire[1..5] == Le(|record.payload|, 4);
      assert wire[..n][1..5] == wire[1..5];
      hide Le;
      LengthFits(|record.payload|);
      FromLeOfLe(|record.payload|, 4);
    }
  }

  /** Whatever part of a stream of whole records has arrived, in any pieces: its whole records come out. */
  lemma RecordsPrefix(records: seq<Record>, chunks: seq<bytes>) returns (m: nat)
    requires Concat(chunks) <= WireAll(records) && forall i :: 0 <= i < |records| ==> records[i].Sendable()
    ensures m <= |records| && (Concat(chunks) == WireAll(records) ==> m == |records|)
    ensures DecodeChunks([], chunks).Ok? && DecodeChunks([], chunks).value.records == records[..m]
  {
    ChunksIndependent([], chunks);
    var s := Concat(chunks);
    assert [] + s == s && s == WireAll(records)[..|s|];
    m := DecodePrefixOf(records, |s|);
  }

  /** Behind these whole records a length is announced that no record may have. */
  ghost predicate OversizeBehind(data: bytes, records: seq<Record>) {
    && (forall i :: 0 <= i < |records| ==> records[i].Sendable())
    && WireAll(records) <= data && |data| >= |WireAll(records)| + 5
    && FromLe(data[|WireAll(records)| + 1..|WireAll(records)| + 5]) > 0x100_0000
  }

  /** Decoding fails exactly if such a length has been announced behind whole records. */
  lemma {:induction false} OversizeExactly(data: bytes)
    ensures DecodeRecords(data).Err? <==> exists records :: OversizeBehind(data, records)
    decreases |data|
  {
    if records :| OversizeBehind(data, records) {
      OversizeFails(data, records);
    }
    if DecodeRecords(data).Err? {
      var records := OversizeFound(data);
    }
  }

  lemma OversizeFails(data: bytes, records: seq<Record>)
    requires OversizeBehind(data, records)
    ensures DecodeRecords(data).Err?
  {
    hide WireAll, DecodeRecords, FromLe;
    var n := |WireAll(records)|;
    NoRecordAt(data, n);
    DecodeWire(records, data[n..]);
    assert data == WireAll(records) + data[n..];
  }

  lemma {:induction false} OversizeFound(data: bytes) returns (records: seq<Record>)
    requires DecodeRecords(data).Err?
    ensures OversizeBehind(data, records)
    decreases |data|
  {
    match First(data)
    case Err(_) =>
      records := [];
      assert WireAll([]) == [];
    case Ok(Some(record)) =>
      var n := |record.Wire()|;
      var more := OversizeFound(data[n..]);
      records := [record] + more;
      FirstOversize(data, record, more);
    case _ =>
  }

  lemma FirstOversize(data: bytes, record: Record, more: seq<Record>)
    requires record.Sendable() && record.Wire() <= data && OversizeBehind(data[|record.Wire()|..], more)
    ensures OversizeBehind(data, [record] + more)
  {
    var w, m := record.Wire(), |WireAll(more)|;
    assert ([record] + more)[1..] == more;
    assert WireAll([record] + more) == w + WireAll(more);
    hide WireAll, FromLe;
    assert data == w + data[|w|..];
    assert data[|w|..][m + 1..m + 5] == data[|w| + m + 1..|w| + m + 5];
  }
}
