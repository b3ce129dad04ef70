/** The mailbox ABI: the 40-byte header, its wire form and its validation. */
module MailboxHeader {
  import opened Bytes
  import opened Wrappers

  const MAGIC: nat := 0x544A464F
  const TRANSPORT_VERSION: nat := 1
  const CAPABILITIES_V1: nat := 15
  const HEADER_SIZE: nat := 40
  const SUPPORTED_BUFFER_SIZES: set<nat> := {4096, 8192, 16384, 32768, 65536}
  /** Field widths of the struct format `<IHHIIIIIIII`. */
  const HEADER_FORMAT: seq<nat> := [4, 2, 2, 4, 4, 4, 4, 4, 4, 4, 4]

  datatype HeaderError =
    | FieldOverflow
    | WrongLength
    | InvalidMagic
    | UnsupportedVersion
    | MissingCapability
    | UnsupportedBufferSize
    | AvailableExceedsBuffer
    | CountersDisagree

  datatype Header = Header(
    magic: nat, transportVersion: nat, capabilities: nat, sessionId: nat, bufferSize: nat,
    writeCount: nat, readCount: nat, availableBytes: nat, overflowCount: nat,
    droppedBytes: nat, buildId: nat)
  {
    function Fields(): (r: seq<nat>)
      ensures |r| == |HEADER_FORMAT|
    {
      [magic, transportVersion, capabilities, sessionId, bufferSize, writeCount,
       readCount, availableBytes, overflowCount, droppedBytes, buildId]
    }
  }

  /** The unsigned distance, modulo 2^32, from `older` to `newer`. */
  function CounterDelta(newer: int, older: int): nat {
    U32(newer - older)
  }

  function Validate(h: Header): Option<HeaderError> {
    if h.magic != MAGIC then Some(InvalidMagic)
    else if h.transportVersion != TRANSPORT_VERSION then Some(UnsupportedVersion)
    else if h.capabilities % 2 == 0 then Some(MissingCapability)
    else if h.bufferSize !in SUPPORTED_BUFFER_SIZES then Some(UnsupportedBufferSize)
    else if h.availableBytes > h.bufferSize then Some(AvailableExceedsBuffer)
    else if CounterDelta(h.writeCount, h.readCount) != h.availableBytes then Some(CountersDisagree)
    else None
  }

  function Total(widths: seq<nat>): nat {
    if widths == [] then 0 else widths[0] + Total(widths[1..])
  }

  predicate Fit(values: seq<nat>, widths: seq<nat>)
    requires |values| == |widths|
  {
    forall i :: 0 <= i < |values| ==> values[i] < Pow256(widths[i])
  }

  function PackFields(values: seq<nat>, widths: seq<nat>): (r: bytes)
    requires |values| == |widths|
    ensures |r| == Total(widths)
  {
    if values == [] then [] else Le(values[0], widths[0]) + PackFields(values[1..], widths[1..])
  }

  function UnpackFields(data: bytes, widths: seq<nat>): (r: seq<nat>)
    requires |data| == Total(widths)
    ensures |r| == |widths|
    decreases |widths|
  {
    if widths == [] then []
    else [FromLe(data[..widths[0]])] + UnpackFields(data[widths[0]..], widths[1..])
  }

  lemma HeaderFormatTotal()
    ensures Total(HEADER_FORMAT) == HEADER_SIZE
  {
    var tail := [4, 4, 4, 4, 4];
    assert Total(tail) == 20 by {
      assert tail[1..][1..][1..] == [4, 4];
    }
    assert HEADER_FORMAT[1..][1..][1..][1..][1..][1..] == tail;
  }

  /** `struct.pack` refuses a field that does not fit its width. */
  function Pack(h: Header): Result<bytes, HeaderError> {
    if Fit(h.Fields(), HEADER_FORMAT) then Ok(PackFields(h.Fields(), HEADER_FORMAT))
    else Err(FieldOverflow)
  }

  function FromFields(f: seq<nat>): (h: Header)
    requires |f| == |HEADER_FORMAT|
    ensures h.Fields() == f
  {
    Header(f[0], f[1], f[2], f[3], f[4], f[5], f[6], f[7], f[8], f[9], f[10])
  }

  function Unpack(data: bytes): Result<Header, HeaderError> {
    if |data| != HEADER_SIZE then Err(WrongLength)
    else
      HeaderFormatTotal();
      var h := FromFields(UnpackFields(data, HEADER_FORMAT));
      match Validate(h)
      case Some(e) => Err(e)
      case None => Ok(h)
  }

  lemma {:induction false} UnpackPackedFields(values: seq<nat>, widths: seq<nat>)
    requires |values| == |widths| && Fit(values, widths)
    ensures UnpackFields(PackFields(values, widths), widths) == values
  {
    if values == [] {
    } else {
      var data := PackFields(values, widths);
      assert data[..widths[0]] == Le(values[0], widths[0]);
      assert data[widths[0]..] == PackFields(values[1..], widths[1..]);
      FromLeOfLe(values[0], widths[0]);
      UnpackPackedFields(values[1..], widths[1..]);
    }
  }

  lemma {:induction false} PackUnpackedFields(data: bytes, widths: seq<nat>)
    requires |data| == Total(widths)
    ensures Fit(UnpackFields(data, widths), widths)
    ensures PackFields(UnpackFields(data, widths), widths) == data
    decreases |widths|
  {
    if widths == [] {
    } else {
      LeOfFromLe(data[..widths[0]]);
      PackUnpackedFields(data[widths[0]..], widths[1..]);
      var values := UnpackFields(data, widths);
      assert values[1..] == UnpackFields(data[widths[0]..], widths[1..]);
      forall i | 0 <= i < |values| ensures values[i] < Pow256(widths[i]) {
        if i > 0 {
          assert values[i] == values[1..][i - 1] && widths[i] == widths[1..][i - 1];
        }
      }
      assert data == data[..widths[0]] + data[widths[0]..];
    }
  }

  /** A packed header is accepted exactly when it validates, and then nothing about it is lost. */
  lemma UnpackOfPack(h: Header)
    requires Pack(h).Ok?
    ensures Unpack(Pack(h).value) == match Validate(h) case None => Ok(h) case Some(e) => Err(e)
  {
    HeaderFormatTotal();
    UnpackPackedFields(h.Fields(), HEADER_FORMAT);
    assert FromFields(h.Fields()) == h;
  }

  /** Every accepted header has one wire form only. */
  lemma PackOfUnpack(data: bytes)
    requires Unpack(data).Ok?
    ensures Pack(Unpack(data).value) == Ok(data)
    ensures Validate(Unpack(data).value).None?
  {
    HeaderFormatTotal();
    PackUnpackedFields(data, HEADER_FORMAT);
  }

  // ----- the ABI, byte by byte -----

  lemma {:induction false} FieldPacked(values: seq<nat>, widths: seq<nat>, i: nat)
    requires |values| == |widths| && i < |values|
    ensures var at := Total(widths[..i]);
            && at + widths[i] <= Total(widths)
            && PackFields(values, widths)[at..at + widths[i]] == Le(values[i], widths[i])
    decreases i
  {
    if i == 0 {
      assert widths[..0] == [];
    } else {
      FieldPacked(values[1..], widths[1..], i - 1);
      assert widths[..i][1..] == widths[1..][..i - 1];
      var at := Total(widths[1..][..i - 1]);
      assert Total(widths[..i]) == widths[0] + at;
      BehindFirst(Le(values[0], widths[0]), PackFields(values[1..], widths[1..]), at, at + widths[i]);
    }
  }

  lemma BehindFirst(a: bytes, b: bytes, low: nat, high: nat)
    requires low <= high <= |b|
    ensures (a + b)[|a| + low..|a| + high] == b[low..high]
  {
  }

  lemma {:induction false} FieldUnpacked(data: bytes, widths: seq<nat>, i: nat)
    requires |data| == Total(widths) && i < |widths|
    ensures var at := Total(widths[..i]);
            at + widths[i] <= |data| && UnpackFields(data, widths)[i] == FromLe(data[at..at + widths[i]])
    decreases i
  {
    PackUnpackedFields(data, widths);
    FieldPacked(UnpackFields(data, widths), widths, i);
    var value := UnpackFields(data, widths)[i];
    FromLeOfLe(value, widths[i]);
  }

  /** Where each field of the header lies. */
  lemma Offsets()
    ensures var f := HEADER_FORMAT;
            && Total(f[..0]) == 0 && Total(f[..1]) == 4 && Total(f[..2]) == 6 && Total(f[..3]) == 8
            && Total(f[..4]) == 12 && Total(f[..5]) == 16 && Total(f[..6]) == 20 && Total(f[..7]) == 24
            && Total(f[..8]) == 28 && Total(f[..9]) == 32 && Total(f[..10]) == 36
  {
    var f := HEADER_FORMAT;
    assert f[..0] == [] && f[..1] == [4] && f[..2] == [4, 2] && f[..3] == [4, 2, 2];
    TotalSnoc(f, 0);
    TotalSnoc(f, 1);
    TotalSnoc(f, 2);
    TotalSnoc(f, 3);
    TotalSnoc(f, 4);
    TotalSnoc(f, 5);
    TotalSnoc(f, 6);
    TotalSnoc(f, 7);
    TotalSnoc(f, 8);
    TotalSnoc(f, 9);
  }

  lemma {:induction false} TotalSnoc(widths: seq<nat>, i: nat)
    requires i < |widths|
    ensures Total(widths[..i + 1]) == Total(widths[..i]) + widths[i]
    decreases i
  {
    if i == 0 {
      assert widths[..1] == [widths[0]] && widths[..0] == [];
    } else {
      TotalSnoc(widths[1..], i - 1);
      assert widths[..i + 1][1..] == widths[1..][..i] && widths[..i][1..] == widths[1..][..i - 1];
    }
  }

  /** The eleven little-endian fields of 40 bytes. */
  predicate Reads(data: bytes, h: Header) {
    && |data| == 40
    && h.magic == FromLe(data[0..4]) && h.transportVersion == FromLe(data[4..6])
    && h.capabilities == FromLe(data[6..8]) && h.sessionId == FromLe(data[8..12])
    && h.bufferSize == FromLe(data[12..16]) && h.writeCount == FromLe(data[16..20])
    && h.readCount == FromLe(data[20..24]) && h.availableBytes == FromLe(data[24..28])
    && h.overflowCount == FromLe(data[28..32]) && h.droppedBytes == FromLe(data[32..36])
    && h.buildId == FromLe(data[36..40])
  }

  /** What makes a header one of this transport. */
  predicate Genuine(h: Header) {
    && h.magic == 0x544A464F && h.transportVersion == 1 && h.capabilities % 2 == 1
    && (h.bufferSize == 4096 || h.bufferSize == 8192 || h.bufferSize == 16384 || h.bufferSize == 32768
        || h.bufferSize == 65536)
    && h.availableBytes <= h.bufferSize
    && (h.writeCount - h.readCount) % 0x1_0000_0000 == h.availableBytes
  }

  /** Field `i` is what the bytes at its place spell. */
  predicate FieldReads(data: bytes, fields: seq<nat>, i: nat) {
    && i < |fields| && i < |HEADER_FORMAT| && Total(HEADER_FORMAT[..i]) + HEADER_FORMAT[i] <= |data|
    && fields[i] == FromLe(data[Total(HEADER_FORMAT[..i])..Total(HEADER_FORMAT[..i]) + HEADER_FORMAT[i]])
  }

  lemma FieldsRead(data: bytes)
    requires |data| == 40
    ensures |data| == Total(HEADER_FORMAT) && Reads(data, FromFields(UnpackFields(data, HEADER_FORMAT)))
  {
    HeaderFormatTotal();
    var fields := UnpackFields(data, HEADER_FORMAT);
    hide Total, FromLe, UnpackFields, FieldReads;
    forall i: nat | i < 11 ensures FieldReads(data, fields, i) {
      OneFieldRead(data, i);
    }
    FieldsPlaced(data, fields);
  }

  lemma OneFieldRead(data: bytes, i: nat)
    requires |data| == Total(HEADER_FORMAT) && i < 11
    ensures FieldReads(data, UnpackFields(data, HEADER_FORMAT), i)
  {
    hide Total, FromLe, UnpackFields;
    FieldUnpacked(data, HEADER_FORMAT, i);
  }

  lemma FieldsPlaced(data: bytes, fields: seq<nat>)
    requires |data| == 40 && |fields| == 11 && forall i: nat :: i < 11 ==> FieldReads(data, fields, i)
    ensures Reads(data, FromFields(fields))
  {
    Offsets();
    hide Total, FromLe;
    assert FieldReads(data, fields, 0) && FieldReads(data, fields, 1) && FieldReads(data, fields, 2);
    assert FieldReads(data, fields, 3) && FieldReads(data, fields, 4) && FieldReads(data, fields, 5);
    assert FieldReads(data, fields, 6) && FieldReads(data, fields, 7) && FieldReads(data, fields, 8);
    assert FieldReads(data, fields, 9) && FieldReads(data, fields, 10);
  }

  /** The host accepts 40 bytes as a header exactly if their fields are genuine, and reads those fields. */
  lemma AcceptedMeans(data: bytes, h: Header)
    ensures Unpack(data) == Ok(h) <==> Reads(data, h) && Genuine(h)
  {
    hide Reads, UnpackFields, Genuine, Validate;
    if |data| == 40 {
      FieldsRead(data);
      var read := FromFields(UnpackFields(data, HEADER_FORMAT));
      ErrorMeans(read);
      ReadsOnce(data, read, h);
    } else {
      ReadsForty(data, h);
    }
  }

  lemma ReadsForty(data: bytes, h: Header)
    ensures Reads(data, h) ==> |data| == 40
  {
  }

  lemma ReadsOnce(data: bytes, g: Header, h: Header)
    requires Reads(data, g)
    ensures Reads(data, h) <==> h == g
  {
  }

  /** Which of the checks fails first decides the error. */
  lemma ErrorMeans(h: Header)
    ensures Validate(h).None? <==> Genuine(h)
    ensures Validate(h) == Some(InvalidMagic) <==> h.magic != 0x544A464F
    ensures h.magic == 0x544A464F ==> (Validate(h) == Some(UnsupportedVersion) <==> h.transportVersion != 1)
    ensures Genuine(h.(capabilities := 1)) ==> (Validate(h) == Some(MissingCapability) <==> h.capabilities % 2 == 0)
    ensures h.magic == 0x544A464F && h.transportVersion == 1 && h.capabilities % 2 == 1 ==>
              && (Validate(h) == Some(UnsupportedBufferSize) <==>
                    h.bufferSize !in {4096, 8192, 16384, 32768, 65536})
              && (h.bufferSize in {4096, 8192, 16384, 32768, 65536} ==>
                    && (Validate(h) == Some(AvailableExceedsBuffer) <==> h.availableBytes > h.bufferSize)
                    && (Validate(h) == Some(CountersDisagree) <==>
                          h.availableBytes <= h.bufferSize && CounterDelta(h.writeCount, h.readCount) != h.availableBytes))
  {
  }
}
