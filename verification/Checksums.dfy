/** What the frame checksum is, bit by bit. */
module Checksums {
  import opened Bytes
  import opened Bits

  /** The positions of the bytes that have bit `k` set. */
  ghost function Setting(data: bytes, k: nat): set<nat>
    requires k < 8
  {
    set i | 0 <= i < |data| && ToBits(data[i], 8)[k]
  }

  /** An odd number of bytes have bit `k` set. */
  ghost predicate OddlySet(data: bytes, k: nat)
    requires k < 8
  {
    |Setting(data, k)| % 2 == 1
  }

  lemma SettingLast(data: bytes, k: nat)
    requires k < 8 && data != []
    ensures var n := |data| - 1;
            && n !in Setting(data[..n], k)
            && Setting(data, k) == Setting(data[..n], k) + (if ToBits(data[n], 8)[k] then {n} else {})
  {
  }

  lemma OddlyLast(data: bytes, k: nat)
    requires k < 8 && data != []
    ensures var n := |data| - 1;
            OddlySet(data, k) == (OddlySet(data[..n], k) != ToBits(data[n], 8)[k])
  {
    hide Setting, ToBits;
    var n := |data| - 1;
    SettingLast(data, k);
    ParityFlips(Setting(data[..n], k), Setting(data, k), n, ToBits(data[n], 8)[k]);
  }

  lemma ParityFlips(before: set<nat>, after: set<nat>, n: nat, more: bool)
    requires n !in before && after == before + (if more then {n} else {})
    ensures (|after| % 2 == 1) == ((|before| % 2 == 1) != more)
  {
    if !more {
      assert after == before;
    }
  }

  /** Each bit of the checksum tells whether an odd number of bytes have it. */
  lemma {:induction false} ChecksumBit(data: bytes, k: nat)
    requires k < 8
    ensures ToBits(Checksum(data), 8)[k] <==> OddlySet(data, k)
    decreases |data|
  {
    if data == [] {
      BitMeans(0, 8, k);
      assert Setting(data, k) == {};
    } else {
      var n := |data| - 1;
      ChecksumBit(data[..n], k);
      XorBit(Checksum(data[..n]), data[n], 8, k);
      OddlyLast(data, k);
    }
  }

  ghost predicate BitAgrees(data: bytes, sum: byte, k: nat) {
    k < 8 && ToBits(sum, 8)[k] == OddlySet(data, k)
  }

  /** `sum` says of each of the eight bits whether an odd number of bytes of `data` have it. */
  ghost predicate SumsTo(data: bytes, sum: byte) {
    forall k: nat :: k < 8 ==> BitAgrees(data, sum, k)
  }

  /** The checksum is the one byte that does. */
  lemma ChecksumMeans(data: bytes, sum: byte)
    ensures SumsTo(data, sum) <==> sum == Checksum(data)
  {
    forall k: nat | k < 8 ensures BitAgrees(data, Checksum(data), k) {
      ChecksumBit(data, k);
    }
    if sum != Checksum(data) {
      var k := BytesDiffer(sum, Checksum(data));
      assert BitAgrees(data, Checksum(data), k) && !BitAgrees(data, sum, k);
    }
  }
}
