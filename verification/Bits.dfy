/** Bit strings, least significant bit first, and the bytes that carry them. */
module Bits {
  import opened Arithmetic
  import opened Bytes
  import opened Sequences

  type bits = seq<bool>

  function BitValue(b: bool): nat {
    if b then 1 else 0
  }

  function FromBits(s: bits): (r: nat)
    ensures r < PowTwo(|s|)
  {
    if s == [] then 0 else BitValue(s[0]) + 2 * FromBits(s[1..])
  }

  function ToBits(value: nat, n: nat): (r: bits)
    ensures |r| == n
  {
    if n == 0 then [] else [value % 2 == 1] + ToBits(value / 2, n - 1)
  }

  /** The bits of `2 * a` and `2 * a + 1` are those of `a` behind one more. */
  lemma BitsCons(a: nat, odd: bool, n: nat)
    ensures ToBits(BitValue(odd) + 2 * a, n + 1) == [odd] + ToBits(a, n)
  {
  }

  /** Bitwise or. */
  function Or(a: nat, b: nat): (r: nat)
    decreases a + b
  {
    if a == 0 && b == 0 then 0
    else (if a % 2 == 1 || b % 2 == 1 then 1 else 0) + 2 * Or(a / 2, b / 2)
  }

  function Byte(s: bits): (r: byte)
    requires |s| <= 8
  {
    PowTwoEight();
    PowTwoMonotone(|s|, 8);
    FromBits(s)
  }

  lemma {:induction false} PowTwoMonotone(m: nat, n: nat)
    requires m <= n
    ensures PowTwo(m) <= PowTwo(n)
    decreases n
  {
    if m >= n {
    } else {
      PowTwoMonotone(m, n - 1);
    }
  }

  lemma {:induction false} ToBitsOfFromBits(s: bits)
    ensures ToBits(FromBits(s), |s|) == s
  {
    if s == [] {
    } else {
      ToBitsOfFromBits(s[1..]);
      assert s == [s[0]] + s[1..];
      assert FromBits(s) / 2 == FromBits(s[1..]);
    }
  }

  lemma {:induction false} FromBitsOfToBits(value: nat, n: nat)
    requires value < PowTwo(n)
    ensures FromBits(ToBits(value, n)) == value
  {
    if n == 0 {
    } else {
      FromBitsOfToBits(value / 2, n - 1);
      assert ToBits(value, n)[1..] == ToBits(value / 2, n - 1);
    }
  }

  /** `value >> n`. */
  function Shr(value: nat, n: nat): nat {
    if n == 0 then value else Shr(value / 2, n - 1)
  }

  /** `bit << n` for a single bit. */
  function Raised(bit: bool, n: nat): nat {
    if bit then PowTwo(n) else 0
  }

  /** A right shift forgets the low bits. */
  lemma {:induction false} ShiftRight(s: bits, low: nat)
    requires low <= |s|
    ensures Shr(FromBits(s), low) == FromBits(s[low..])
    decreases low
  {
    if low == 0 {
      assert s[0..] == s;
    } else {
      ShiftRight(s[1..], low - 1);
      assert s[1..][low - 1..] == s[low..];
    }
  }

  /** Or-ing a bit into the first free position appends it. */
  lemma {:induction false} OrAppends(s: bits, b: bool)
    ensures Or(FromBits(s), Raised(b, |s|)) == FromBits(s + [b])
  {
    if s == [] {
      assert FromBits([b]) == BitValue(b) + 2 * FromBits([]);
      assert Or(0, 1) == 1 + 2 * Or(0, 0);
      assert Raised(b, 0) == BitValue(b) && Or(0, BitValue(b)) == BitValue(b);
    } else {
      var rest, top := s[1..], Raised(b, |s| - 1);
      OrAppends(rest, b);
      assert (s + [b])[1..] == rest + [b];
      assert Raised(b, |s|) == 2 * top;
      assert FromBits(s) == BitValue(s[0]) + 2 * FromBits(rest);
      OrDoubles(BitValue(s[0]), FromBits(rest), top);
    }
  }

  lemma OrDoubles(low: nat, a: nat, b: nat)
    requires low <= 1
    ensures Or(low + 2 * a, 2 * b) == low + 2 * Or(a, b)
  {
    assert (low + 2 * a) / 2 == a && (2 * b) / 2 == b;
    assert (low + 2 * a) % 2 == low && (2 * b) % 2 == 0;
    if low == 0 && a == 0 && b == 0 {
      assert Or(0, 0) == 0;
    }
  }

  /** The bit string in bytes, the last byte zero-padded at the top. */
  function PackBits(s: bits): (r: bytes)
    ensures |r| == (|s| + 7) / 8
  {
    if |s| == 0 then []
    else if |s| <= 8 then [Byte(s)]
    else [Byte(s[..8])] + PackBits(s[8..])
  }

  function Unpack(data: bytes): (r: bits)
    ensures |r| == 8 * |data|
  {
    if data == [] then [] else ToBits(data[0], 8) + Unpack(data[1..])
  }

  /** The first `total` bits of `data`, the payload of a scan of that length. */
  function UnpackBits(data: bytes, total: nat): (r: bits)
    requires total <= 8 * |data|
    ensures |r| == total
  {
    Unpack(data)[..total]
  }

  lemma {:induction false} UnpackAppend(a: bytes, b: bytes)
    ensures Unpack(a + b) == Unpack(a) + Unpack(b)
  {
    if a == [] {
      assert a + b == b;
    } else {
      UnpackAppend(a[1..], b);
      assert (a + b)[1..] == a[1..] + b;
      AppendAssociates(ToBits(a[0], 8), Unpack(a[1..]), Unpack(b));
    }
  }

  lemma {:induction false} PackAppend(whole: bits, rest: bits)
    requires |whole| % 8 == 0
    ensures PackBits(whole + rest) == PackBits(whole) + PackBits(rest)
  {
    if whole == [] {
      assert whole + rest == rest;
    } else {
      PackAppend(whole[8..], rest);
      var all := whole + rest;
      assert all[..8] == whole[..8] && all[8..] == whole[8..] + rest;
      if |whole| == 8 {
        assert whole[8..] == [] && whole[..8] == whole;
        if rest == [] { assert all == whole; }
      }
    }
  }

  /** Bits survive a trip through bytes, and the padding bits are zero. */
  lemma {:induction false} UnpackOfPack(s: bits)
    ensures Unpack(PackBits(s)) == s + seq(8 * |PackBits(s)| - |s|, _ => false)
  {
    if s == [] {
    } else {
      var head := if |s| <= 8 then s else s[..8];
      var rest := s[|head|..];
      ByteBits(head);
      assert PackBits(s) == [Byte(head)] + PackBits(rest);
      assert PackBits(s)[1..] == PackBits(rest);
      assert s == head + rest;
      if |s| > 8 {
        UnpackOfPack(rest);
      } else {
        assert rest == [];
        assert Unpack([]) == [];
      }
    }
  }

  lemma ByteBits(s: bits)
    requires |s| <= 8
    ensures ToBits(Byte(s), 8) == s + seq(8 - |s|, _ => false)
  {
    var padded := s + seq(8 - |s|, _ => false);
    PadFromBits(s, 8 - |s|);
    ToBitsOfFromBits(padded);
  }

  lemma {:induction false} PadFromBits(s: bits, n: nat)
    ensures FromBits(s + seq(n, _ => false)) == FromBits(s)
    decreases |s| + n
  {
    var padded := s + seq(n, _ => false);
    if s != [] {
      PadFromBits(s[1..], n);
      assert padded[1..] == s[1..] + seq(n, _ => false);
    } else if n > 0 {
      PadFromBits([], n - 1);
      assert padded[1..] == [] + seq(n - 1, _ => false);
    }
  }

  lemma {:induction false} PackOfUnpack(data: bytes)
    ensures PackBits(Unpack(data)) == data
  {
    if data == [] {
    } else {
      var head := ToBits(data[0], 8);
      PackOfUnpack(data[1..]);
      PowTwoEight();
      FromBitsOfToBits(data[0], 8);
      PackAppend(head, Unpack(data[1..]));
      assert PackBits(head) == [Byte(head)];
    }
  }

  // ----- what the single bits are -----

  /** Bit `k` of a number is set if and only if 2^k goes into it an odd number of times. */
  lemma {:induction false} BitMeans(value: nat, n: nat, k: nat)
    requires k < n
    ensures ToBits(value, n)[k] <==> value / PowTwo(k) % 2 == 1
    decreases k
  {
    if k == 0 {
      assert PowTwo(0) == 1;
    } else {
      BitMeans(value / 2, n - 1, k - 1);
      DividesTwice(value, 2, PowTwo(k - 1));
    }
  }

  /** The bits of a byte string, byte after byte, each from its lowest bit. */
  lemma {:induction false} UnpackAt(data: bytes, i: nat, k: nat)
    requires i < |data| && k < 8
    ensures Unpack(data)[8 * i + k] == ToBits(data[i], 8)[k]
    decreases i
  {
    if i == 0 {
    } else {
      UnpackAt(data[1..], i - 1, k);
      assert Unpack(data)[8 * i + k] == Unpack(data[1..])[8 * (i - 1) + k];
    }
  }

  /** Bit by bit, the exclusive or says where two numbers differ. */
  lemma {:induction false} XorBit(a: nat, b: nat, n: nat, k: nat)
    requires k < n
    ensures ToBits(Xor(a, b), n)[k] == (ToBits(a, n)[k] != ToBits(b, n)[k])
    decreases k
  {
    XorHalves(a, b);
    hide Xor;
    if k == 0 {
    } else {
      XorBit(a / 2, b / 2, n - 1, k - 1);
    }
  }

  lemma XorHalves(a: nat, b: nat)
    ensures var x := Xor(a, b); x % 2 == (if a % 2 == b % 2 then 0 else 1) && x / 2 == Xor(a / 2, b / 2)
  {
    hide Xor;
    XorStep(a, b);
  }

  lemma XorStep(a: nat, b: nat)
    ensures Xor(a, b) == (if a % 2 == b % 2 then 0 else 1) + 2 * Xor(a / 2, b / 2)
  {
    if a == 0 && b == 0 {
      assert Xor(0, 0) == 0;
    }
  }

  /** Two bytes with the same bits are the same. */
  lemma BytesDiffer(a: byte, b: byte) returns (k: nat)
    requires a != b
    ensures k < 8 && ToBits(a, 8)[k] != ToBits(b, 8)[k]
  {
    PowTwoEight();
    FromBitsOfToBits(a, 8);
    FromBitsOfToBits(b, 8);
    assert ToBits(a, 8) != ToBits(b, 8);
    k :| 0 <= k < 8 && ToBits(a, 8)[k] != ToBits(b, 8)[k];
  }

  /** The bits of a little-endian number are those of the number. */
  lemma {:induction false} UnpackLe(value: nat, n: nat)
    ensures Unpack(Le(value, n)) == ToBits(value, 8 * n)
    decreases n
  {
    if n == 0 {
    } else {
      UnpackLe(value / 0x100, n - 1);
      assert Le(value, n)[1..] == Le(value / 0x100, n - 1);
      EightBits(value, 8 * (n - 1));
    }
  }

  lemma EightBits(value: nat, n: nat)
    ensures ToBits(value, 8 + n) == ToBits(value % 0x100, 8) + ToBits(value / 0x100, n)
  {
    BitsSplit(value, 8, n);
    ShiftedByEight(value);
    PowTwoEight();
    LowBits(value, 8);
  }

  lemma {:induction false} BitsSplit(value: nat, m: nat, n: nat)
    ensures ToBits(value, m + n) == ToBits(value, m) + ToBits(Shr(value, m), n)
    decreases m
  {
    if m == 0 {
    } else {
      BitsSplit(value / 2, m - 1, n);
    }
  }

  lemma TwoShifts(value: nat, n: nat)
    ensures Shr(value, n + 2) == Shr(value / 4, n)
  {
    assert Shr(value, n + 2) == Shr(value / 2, n + 1) && Shr(value / 2, n + 1) == Shr(value / 2 / 2, n);
    assert value / 2 / 2 == value / 4;
  }

  lemma ShiftedByEight(value: nat)
    ensures Shr(value, 8) == value / 0x100
  {
    TwoShifts(value, 6);
    TwoShifts(value / 4, 4);
    TwoShifts(value / 16, 2);
    TwoShifts(value / 64, 0);
    assert value / 4 / 4 == value / 16 && value / 16 / 4 == value / 64 && value / 64 / 4 == value / 0x100;
  }

  /** The low bits do not see what lies above them. */
  lemma {:induction false} LowBits(value: nat, m: nat)
    ensures ToBits(value % PowTwo(m), m) == ToBits(value, m)
    decreases m
  {
    if m == 0 {
    } else {
      LowBits(value / 2, m - 1);
      RemainderTwice(value, 2, PowTwo(m - 1));
    }
  }
}
