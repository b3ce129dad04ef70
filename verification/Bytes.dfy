/** Bytes, fixed-width little-endian numbers and the bitwise operators the sources apply to them. */
module Bytes {
  import opened Arithmetic
  import opened Sequences

  type byte = x: int | 0 <= x < 0x100
  type bytes = seq<byte>

  const U32_RANGE: nat := 0x1_0000_0000

  /** The source's `value & 0xFFFF_FFFF`, for any integer, negative ones included. */
  function U32(value: int): (r: nat)
    ensures r < U32_RANGE
  {
    value % U32_RANGE
  }

  function Pow256(n: nat): (r: nat)
    ensures r > 0
  {
    if n == 0 then 1 else 0x100 * Pow256(n - 1)
  }

  /** The `n` low bytes of `value`, least significant first. */
  function Le(value: nat, n: nat): (r: bytes)
    ensures |r| == n
  {
    if n == 0 then [] else [value % 0x100] + Le(value / 0x100, n - 1)
  }

  function FromLe(data: bytes): (r: nat)
    ensures r < Pow256(|data|)
  {
    if data == [] then 0 else data[0] + 0x100 * FromLe(data[1..])
  }

  /** Writing a number that fits and reading it back. */
  lemma {:induction false} FromLeOfLe(value: nat, n: nat)
    requires value < Pow256(n)
    ensures FromLe(Le(value, n)) == value
  {
    if n == 0 {
    } else {
      FromLeOfLe(value / 0x100, n - 1);
      assert Le(value, n)[1..] == Le(value / 0x100, n - 1);
    }
  }

  /** Reading a field and writing it back. */
  lemma {:induction false} LeOfFromLe(data: bytes)
    ensures Le(FromLe(data), |data|) == data
  {
    if data == [] {
    } else {
      LeOfFromLe(data[1..]);
      assert data == [data[0]] + data[1..];
    }
  }

  /** Bitwise exclusive or. */
  function Xor(a: nat, b: nat): (r: nat)
    decreases a + b
  {
    if a == 0 && b == 0 then 0
    else (if a % 2 == b % 2 then 0 else 1) + 2 * Xor(a / 2, b / 2)
  }

  lemma {:induction false} XorFits(a: nat, b: nat, limit: nat)
    requires a < PowTwo(limit) && b < PowTwo(limit)
    ensures Xor(a, b) < PowTwo(limit)
    decreases limit
  {
    if limit == 0 {
    } else {
      if a != 0 || b != 0 {
        XorFits(a / 2, b / 2, limit - 1);
      }
    }
  }

  function PowTwo(n: nat): (r: nat)
    ensures r > 0
  {
    if n == 0 then 1 else 2 * PowTwo(n - 1)
  }

  /** The exclusive or of all bytes, the loop both frame builders and parsers run. */
  function Checksum(data: bytes): (r: byte)
  {
    if data == [] then 0
    else
      var rest := Checksum(data[..|data| - 1]);
      assert PowTwo(8) == 0x100 by { PowTwoEight(); }
      XorFits(rest, data[|data| - 1], 8);
      Xor(rest, data[|data| - 1])
  }

  lemma PowTwoEight()
    ensures PowTwo(8) == 0x100
  {
    assert PowTwo(4) == 16;
    assert PowTwo(6) == 64;
  }

  function Concat(parts: seq<bytes>): bytes
  {
    if parts == [] then [] else parts[0] + Concat(parts[1..])
  }

  lemma {:induction false} ConcatAppend(parts: seq<bytes>, more: seq<bytes>)
    ensures Concat(parts + more) == Concat(parts) + Concat(more)
  {
    if parts == [] {
      assert parts + more == more;
    } else {
      ConcatAppend(parts[1..], more);
      assert (parts + more)[1..] == parts[1..] + more;
      AppendAssociates(parts[0], Concat(parts[1..]), Concat(more));
    }
  }

  lemma ConcatSnoc(parts: seq<bytes>, last: bytes)
    ensures Concat(parts + [last]) == Concat(parts) + last
  {
    ConcatAppend(parts, [last]);
    assert Concat([last]) == last + Concat([]);
  }

  /** Byte `i` of a little-endian number weighs 256^i. */
  lemma {:induction false} LeMeans(value: nat, n: nat, i: nat)
    requires i < n
    ensures Le(value, n)[i] as nat == value / Pow256(i) % 0x100
    decreases i
  {
    if i == 0 {
      assert Pow256(0) == 1;
    } else {
      LeMeans(value / 0x100, n - 1, i - 1);
      DividesTwice(value, 0x100, Pow256(i - 1));
    }
  }

  /** The two widths the formats use, spelled out. */
  lemma FromLeMeans(data: bytes)
    ensures |data| == 2 ==> FromLe(data) == data[0] as nat + 0x100 * data[1] as nat
    ensures |data| == 4 ==> FromLe(data) == data[0] as nat + 0x100 * data[1] as nat + 0x1_0000 * data[2] as nat
                                            + 0x100_0000 * data[3] as nat
  {
    if |data| == 2 {
      assert data[1..][1..] == [];
    } else if |data| == 4 {
      assert data[1..][1..][1..][1..] == [];
    }
  }
}
