/** Compiling one data-register scan into adapter commands, and what those commands do. */
module ScanPieces {
  import opened Bytes
  import opened Bits
  import opened Mpsse

  const MAX_BATCH_READ: nat := 256
  const MAX_DATA_PIECE: nat := 251

  datatype Piece = Piece(command: bytes, scan: nat, readLength: nat)

  predicate ValidScan(outgoing: bytes, total: int) {
    1 <= total <= 8 * |outgoing|
  }

  function BitAt(data: bytes, k: nat): bool
    requires k < 8 * |data|
  {
    ToBits(data[k / 8], 8)[k % 8]
  }

  function CapturePiece(scan: nat): Piece {
    Piece([TMS_OUT, 2, 1], scan, 0)
  }

  function DataPiece(chunk: bytes, scan: nat): Piece
    requires 0 < |chunk| <= MAX_DATA_PIECE
  {
    Piece([BYTES_IN_OUT, (|chunk| - 1) % 0x100, (|chunk| - 1) / 0x100] + chunk, scan, |chunk|)
  }

  function RemainderPiece(last: byte, rem: nat, scan: nat): Piece
    requires 0 < rem < 8
  {
    Piece([BITS_IN_OUT, rem - 1, last], scan, 1)
  }

  function FinalPiece(tdi: bool, scan: nat): Piece {
    Piece([TMS_IN_OUT, 0, 1 + 0x80 * BitValue(tdi)], scan, 1)
  }

  function UpdatePiece(scan: nat): Piece {
    Piece([TMS_OUT, 1, 1], scan, 0)
  }

  function ChunkWidth(offset: nat, full: nat): (r: nat)
    requires offset < full
    ensures 0 < r <= MAX_DATA_PIECE && offset + r <= full
  {
    if full - offset < MAX_DATA_PIECE then full - offset else MAX_DATA_PIECE
  }

  function DataPieces(outgoing: bytes, offset: nat, full: nat, scan: nat): seq<Piece>
    requires offset <= full <= |outgoing|
    decreases full - offset
  {
    if offset == full then []
    else
      var next := offset + ChunkWidth(offset, full);
      [DataPiece(outgoing[offset..next], scan)] + DataPieces(outgoing, next, full, scan)
  }

  function TailPieces(outgoing: bytes, total: nat, scan: nat): seq<Piece>
    requires ValidScan(outgoing, total)
  {
    var full, rem := (total - 1) / 8, (total - 1) % 8;
    (if rem > 0 then [RemainderPiece(outgoing[full], rem, scan)] else [])
    + [FinalPiece(BitAt(outgoing, total - 1), scan), UpdatePiece(scan)]
  }

  /** The pieces of one scan. */
  function PiecesOf(outgoing: bytes, total: nat, scan: nat): seq<Piece>
    requires ValidScan(outgoing, total)
  {
    [CapturePiece(scan)] + DataPieces(outgoing, 0, (total - 1) / 8, scan) + TailPieces(outgoing, total, scan)
  }

  method CompileScan(outgoing: bytes, total: nat, scan: nat) returns (pieces: seq<Piece>)
    requires ValidScan(outgoing, total)
    ensures pieces == PiecesOf(outgoing, total, scan)
  {
    pieces := [CapturePiece(scan)];
    var body := total - 1;
    var full, rem := body / 8, body % 8;
    var offset := 0;
    while offset < full
      invariant offset <= full
      invariant pieces + DataPieces(outgoing, offset, full, scan)
             == [CapturePiece(scan)] + DataPieces(outgoing, 0, full, scan)
    {
      var width := if full - offset < MAX_DATA_PIECE then full - offset else MAX_DATA_PIECE;
      var piece := DataPiece(outgoing[offset..offset + width], scan);
      assert pieces + ([piece] + DataPieces(outgoing, offset + width, full, scan))
          == pieces + [piece] + DataPieces(outgoing, offset + width, full, scan);
      pieces := pieces + [piece];
      offset := offset + width;
    }
    assert pieces + [] == pieces;
    if rem > 0 {
      pieces := pieces + [RemainderPiece(outgoing[full], rem, scan)];
    }
    var finalTdi := BitAt(outgoing, total - 1);
    pieces := pieces + [FinalPiece(finalTdi, scan)];
    pieces := pieces + [UpdatePiece(scan)];
  }

  /** The commands the pieces spell. */
  function DataCommands(outgoing: bytes, offset: nat, full: nat): seq<Command>
    requires offset <= full <= |outgoing|
    decreases full - offset
  {
    if offset == full then []
    else
      var next := offset + ChunkWidth(offset, full);
      [BytesInOut(outgoing[offset..next])] + DataCommands(outgoing, next, full)
  }

  function TailCommands(outgoing: bytes, total: nat): seq<Command>
    requires ValidScan(outgoing, total)
  {
    var full, rem := (total - 1) / 8, (total - 1) % 8;
    (if rem > 0 then [BitsInOut(ToBits(outgoing[full], 8)[..rem])] else [])
    + [TmsInOut([true], BitAt(outgoing, total - 1)), TmsOut([true, false], false)]
  }

  function CommandsOf(outgoing: bytes, total: nat): seq<Command>
    requires ValidScan(outgoing, total)
  {
    [TmsOut([true, false, false], false)] + DataCommands(outgoing, 0, (total - 1) / 8)
    + TailCommands(outgoing, total)
  }

  function ReplyLength(cmd: Command): nat {
    match cmd
    case BytesInOut(data) => |data|
    case TmsInOut(_, _) => 1
    case BitsInOut(_) => 1
    case _ => 0
  }

  predicate Compiles(piece: Piece, cmd: Command, scan: nat) {
    && Spells(piece.command, cmd)
    && piece.scan == scan
    && piece.readLength == ReplyLength(cmd) <= MAX_DATA_PIECE
    && (cmd.TmsInOut? ==> |cmd.pattern| <= 8)
    && (cmd.BitsInOut? ==> |cmd.outgoing| <= 8)
  }

  predicate AllCompile(pieces: seq<Piece>, cmds: seq<Command>, scan: nat) {
    && |pieces| == |cmds|
    && forall i :: 0 <= i < |pieces| ==> Compiles(pieces[i], cmds[i], scan)
  }

  lemma FixedPiecesCompile(tdi: bool, scan: nat)
    ensures Compiles(CapturePiece(scan), TmsOut([true, false, false], false), scan)
    ensures Compiles(FinalPiece(tdi, scan), TmsInOut([true], tdi), scan)
    ensures Compiles(UpdatePiece(scan), TmsOut([true, false], false), scan)
  {
    OneBits();
    assert ToBits(1, 8)[..3] == [true, false, false];
    assert ToBits(1, 8)[..2] == [true, false];
    TopBits(tdi);
  }

  lemma OneBits()
    ensures ToBits(1, 8) == [true, false, false, false, false, false, false, false]
  {
    assert ToBits(0, 7) == [false] + ToBits(0, 6);
    assert ToBits(0, 5) == [false] + ToBits(0, 4);
    assert ToBits(0, 3) == [false] + ToBits(0, 2);
    assert ToBits(0, 1) == [false] + ToBits(0, 0);
  }

  lemma TopBits(tdi: bool)
    ensures ToBits(1 + 0x80 * BitValue(tdi), 8)[..1] == [true]
    ensures ToBits(1 + 0x80 * BitValue(tdi), 8)[7] == tdi
  {
    if tdi {
      BitsCons(0x40, true, 7);
      Doubled(0x20, 6);
      Doubled(0x10, 5);
      Doubled(0x08, 4);
      Doubled(0x04, 3);
      Doubled(0x02, 2);
      Doubled(0x01, 1);
      BitsCons(0, true, 0);
    } else {
      OneBits();
    }
  }

  lemma Doubled(a: nat, n: nat)
    requires n > 0
    ensures ToBits(2 * a, n + 1)[n] == ToBits(a, n)[n - 1]
  {
    BitsCons(a, false, n);
  }

  lemma {:induction false} DataPiecesCompile(outgoing: bytes, offset: nat, full: nat, scan: nat)
    requires offset <= full <= |outgoing|
    ensures AllCompile(DataPieces(outgoing, offset, full, scan), DataCommands(outgoing, offset, full), scan)
    decreases full - offset
  {
    if offset == full {
    } else {
      var next := offset + ChunkWidth(offset, full);
      var chunk := outgoing[offset..next];
      var piece := DataPiece(chunk, scan);
      assert piece.command[3..3 + |chunk|] == chunk;
      assert Compiles(piece, BytesInOut(chunk), scan);
      DataPiecesCompile(outgoing, next, full, scan);
    }
  }

  /** Every piece spells exactly one command and announces the number of bytes it answers. */
  lemma PiecesCompile(outgoing: bytes, total: nat, scan: nat)
    requires ValidScan(outgoing, total)
    ensures AllCompile(PiecesOf(outgoing, total, scan), CommandsOf(outgoing, total), scan)
  {
    DataPiecesCompile(outgoing, 0, (total - 1) / 8, scan);
    FixedPiecesCompile(BitAt(outgoing, total - 1), scan);
    assert AllCompile(TailPieces(outgoing, total, scan), TailCommands(outgoing, total), scan);
  }

  // ----- the bytes that go out -----

  /** Piece `i` of the whole bytes: at most 251 of them, from 251 `i` on, behind their command and count. */
  predicate DataSpelled(piece: Piece, outgoing: bytes, full: nat, i: nat, scan: nat) {
    var width := if full - 251 * i < 251 then full - 251 * i else 251;
    && 0 < width && 251 * i + width <= |outgoing|
    && piece == Piece([0x3D, (width - 1) % 0x100, (width - 1) / 0x100] + outgoing[251 * i..251 * i + width], scan, width)
  }

  lemma {:induction false} DataPieceSpelled(outgoing: bytes, i: nat, full: nat, scan: nat, k: nat)
    requires 251 * i <= full <= |outgoing|
    requires k < |DataPieces(outgoing, 251 * i, full, scan)|
    ensures DataSpelled(DataPieces(outgoing, 251 * i, full, scan)[k], outgoing, full, i + k, scan)
    decreases k
  {
    var next := 251 * i + ChunkWidth(251 * i, full);
    if k == 0 {
    } else {
      assert next == 251 * (i + 1);
      DataPieceSpelled(outgoing, i + 1, full, scan, k - 1);
    }
  }

  lemma {:induction false} DataPieceCount(outgoing: bytes, i: nat, full: nat, scan: nat)
    requires 251 * i <= full <= |outgoing|
    ensures |DataPieces(outgoing, 251 * i, full, scan)| == (full - 251 * i + 250) / 251
    decreases full - 251 * i
  {
    var at := 251 * i;
    if at == full {
    } else if full - at <= 251 {
      assert at + ChunkWidth(at, full) == full;
    } else {
      assert at + ChunkWidth(at, full) == 251 * (i + 1);
      DataPieceCount(outgoing, i + 1, full, scan);
    }
  }

  /** The commands of one scan byte for byte, in order, and how many bytes each is to answer. */
  lemma ScanSpelled(outgoing: bytes, total: nat, scan: nat)
    requires ValidScan(outgoing, total)
    ensures var full, rem := (total - 1) / 8, (total - 1) % 8;
            var pieces, n := PiecesOf(outgoing, total, scan), (full + 250) / 251;
            var last := ToBits(outgoing[full], 8)[rem];
            && |pieces| == n + (if rem > 0 then 4 else 3)
            && pieces[0] == Piece([0x4B, 2, 1], scan, 0)
            && (forall k :: 1 <= k <= n ==> DataSpelled(pieces[k], outgoing, full, k - 1, scan))
            && (rem > 0 ==> pieces[n + 1] == Piece([0x3F, rem - 1, outgoing[full]], scan, 1))
            && pieces[|pieces| - 2] == Piece([0x6F, 0, if last then 0x81 else 0x01], scan, 1)
            && pieces[|pieces| - 1] == Piece([0x4B, 1, 1], scan, 0)
  {
    var full, rem := (total - 1) / 8, (total - 1) % 8;
    var data, n := DataPieces(outgoing, 0, full, scan), (full + 250) / 251;
    var pieces := PiecesOf(outgoing, total, scan);
    DataPieceCount(outgoing, 0, full, scan);
    assert 251 * 0 == 0;
    forall k | 1 <= k <= n ensures DataSpelled(pieces[k], outgoing, full, k - 1, scan) {
      DataPieceSpelled(outgoing, 0, full, scan, k - 1);
      assert pieces[k] == data[k - 1];
    }
  }
}
