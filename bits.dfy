/**
 * The bit layout shared by the byte-backed bit array: bit `pos` lives in byte `pos / 8`
 * under the mask `1 << (pos % 8)`, so bits are numbered least-significant first within
 * each byte (the order of Ruby's `pack('b*')`). Everything here is a pure function on
 * bytes (`bv8`) and on the abstract sequence of bits they stand for.
 */
module Bits {

  /** Ruby's `1 << k` for a bit index `k` in 0..7, written out as a table. */
  function Mask(k: nat): (r: bv8)
    requires k < 8
  {
    if k == 0 then 0x01 else if k == 1 then 0x02 else if k == 2 then 0x04
    else if k == 3 then 0x08 else if k == 4 then 0x10 else if k == 5 then 0x20
    else if k == 6 then 0x40 else 0x80
  }

  lemma MaskIsShift(k: nat)
    requires k < 8
    ensures Mask(k) == (1 as bv8) << k
  {
    if k == 0 {
    } else if k == 1 {
    } else if k == 2 {
    } else if k == 3 {
    } else if k == 4 {
    } else if k == 5 {
    } else if k == 6 {
    } else {
    }
  }

  /** Whether bit `k` of byte `b` is set: `(b & (1 << k)).positive?`. */
  predicate ByteBit(b: bv8, k: nat)
    requires k < 8
  {
    b & Mask(k) != 0
  }

  /** The eight bits of a byte, least significant first. */
  function ByteBits(b: bv8): (r: seq<bool>)
    ensures |r| == 8
    ensures forall k :: 0 <= k < 8 ==> r[k] == ByteBit(b, k)
  {
    seq(8, k requires 0 <= k < 8 => ByteBit(b, k))
  }

  // The three single-bit byte updates used by set!, unset! and flip!.

  lemma OrMaskBit(b: bv8, k: nat, j: nat)
    requires k < 8 && j < 8
    ensures ByteBit(b | Mask(k), j) == (j == k || ByteBit(b, j))
  {
  }

  lemma AndNotMaskBit(b: bv8, k: nat, j: nat)
    requires k < 8 && j < 8
    ensures ByteBit(b & (0xff ^ Mask(k)), j) == (j != k && ByteBit(b, j))
  {
  }

  lemma XorMaskBit(b: bv8, k: nat, j: nat)
    requires k < 8 && j < 8
    ensures ByteBit(b ^ Mask(k), j) == (if j == k then !ByteBit(b, j) else ByteBit(b, j))
  {
  }

  /** A byte is determined by its eight bits. */
  lemma ByteBitsInjective(a: bv8, b: bv8)
    requires ByteBits(a) == ByteBits(b)
    ensures a == b
  {
    assert ByteBit(a, 0) == ByteBit(b, 0) && ByteBit(a, 1) == ByteBit(b, 1);
    assert ByteBit(a, 2) == ByteBit(b, 2) && ByteBit(a, 3) == ByteBit(b, 3);
    assert ByteBit(a, 4) == ByteBit(b, 4) && ByteBit(a, 5) == ByteBit(b, 5);
    assert ByteBit(a, 6) == ByteBit(b, 6) && ByteBit(a, 7) == ByteBit(b, 7);
  }

  /** The bits of a byte string: byte 0's bits first, each byte least significant bit first. */
  function BitsOf(s: seq<bv8>): (r: seq<bool>)
    ensures |r| == 8 * |s|
  {
    if |s| == 0 then [] else BitsOf(s[..|s| - 1]) + ByteBits(s[|s| - 1])
  }

  /** Bit `i` of a byte string is bit `i % 8` of byte `i / 8`. */
  lemma {:induction false} BitsOfAt(s: seq<bv8>, i: nat)
    requires i < 8 * |s|
    ensures BitsOf(s)[i] == ByteBit(s[i / 8], i % 8)
  {
    var n := |s| - 1;
    if i < 8 * n {
      BitsOfAt(s[..n], i);
    } else {
      assert i / 8 == n && i % 8 == i - 8 * n;
    }
  }

  lemma {:induction false} BitsOfAppend(a: seq<bv8>, b: seq<bv8>)
    ensures BitsOf(a + b) == BitsOf(a) + BitsOf(b)
    decreases |b|
  {
    if |b| == 0 {
      assert a + b == a;
    } else {
      var n := |b| - 1;
      assert (a + b)[..|a + b| - 1] == a + b[..n];
      BitsOfAppend(a, b[..n]);
    }
  }

  /** Truncating a byte string to `n` bytes truncates its bits to `8 * n`. */
  lemma BitsOfPrefix(s: seq<bv8>, n: nat)
    requires n <= |s|
    ensures BitsOf(s[..n]) == BitsOf(s)[..8 * n]
  {
    assert s == s[..n] + s[n..];
    BitsOfAppend(s[..n], s[n..]);
  }

  /** Overwriting the byte that holds bit `pos` changes no other byte's bits. */
  lemma BitsOfUpdate(s: seq<bv8>, pos: nat, v: bv8)
    requires pos / 8 < |s|
    ensures forall i :: 0 <= i < 8 * |s| && i / 8 != pos / 8 ==> BitsOf(s[pos / 8 := v])[i] == BitsOf(s)[i]
    ensures forall i :: 0 <= i < 8 * |s| && i / 8 == pos / 8 ==> BitsOf(s[pos / 8 := v])[i] == ByteBit(v, i % 8)
  {
    forall i | 0 <= i < 8 * |s|
      ensures BitsOf(s[pos / 8 := v])[i] == if i / 8 == pos / 8 then ByteBit(v, i % 8) else BitsOf(s)[i]
    {
      BitsOfAt(s[pos / 8 := v], i);
      BitsOfAt(s, i);
    }
  }

  /**
   * Replacing the byte that holds bit `pos` by one that differs from it at most in bit
   * `pos % 8`, where it holds `x`, changes the bits of the string exactly at `pos`.
   */
  lemma BitsOfSingleBitUpdate(s: seq<bv8>, pos: nat, v: bv8, x: bool)
    requires pos / 8 < |s|
    requires forall k :: 0 <= k < 8 ==> ByteBit(v, k) == if k == pos % 8 then x else ByteBit(s[pos / 8], k)
    ensures BitsOf(s[pos / 8 := v]) == BitsOf(s)[pos := x]
  {
    BitsOfUpdate(s, pos, v);
    forall i | 0 <= i < 8 * |s| && i / 8 == pos / 8
      ensures BitsOf(s[pos / 8 := v])[i] == BitsOf(s)[pos := x][i]
    {
      BitsOfAt(s, i);
    }
  }

  /** OR-ing the mask into the byte of bit `pos` sets bit `pos` and no other. */
  lemma BitsOfSetBit(s: seq<bv8>, pos: nat)
    requires pos / 8 < |s|
    ensures BitsOf(s[pos / 8 := s[pos / 8] | Mask(pos % 8)]) == BitsOf(s)[pos := true]
  {
    var v := s[pos / 8] | Mask(pos % 8);
    forall k | 0 <= k < 8
      ensures ByteBit(v, k) == if k == pos % 8 then true else ByteBit(s[pos / 8], k)
    {
      OrMaskBit(s[pos / 8], pos % 8, k);
    }
    BitsOfSingleBitUpdate(s, pos, v, true);
  }

  /** AND-ing the inverted mask into the byte of bit `pos` clears bit `pos` and no other. */
  lemma BitsOfClearBit(s: seq<bv8>, pos: nat)
    requires pos / 8 < |s|
    ensures BitsOf(s[pos / 8 := s[pos / 8] & (0xff ^ Mask(pos % 8))]) == BitsOf(s)[pos := false]
  {
    var v := s[pos / 8] & (0xff ^ Mask(pos % 8));
    forall k | 0 <= k < 8
      ensures ByteBit(v, k) == if k == pos % 8 then false else ByteBit(s[pos / 8], k)
    {
      AndNotMaskBit(s[pos / 8], pos % 8, k);
    }
    BitsOfSingleBitUpdate(s, pos, v, false);
  }

  /** XOR-ing the mask into the byte of bit `pos` inverts bit `pos` and no other. */
  lemma BitsOfFlipBit(s: seq<bv8>, pos: nat)
    requires pos / 8 < |s|
    ensures BitsOf(s[pos / 8 := s[pos / 8] ^ Mask(pos % 8)]) == BitsOf(s)[pos := !BitsOf(s)[pos]]
  {
    var v := s[pos / 8] ^ Mask(pos % 8);
    BitsOfAt(s, pos);
    forall k | 0 <= k < 8
      ensures ByteBit(v, k) == if k == pos % 8 then !BitsOf(s)[pos] else ByteBit(s[pos / 8], k)
    {
      XorMaskBit(s[pos / 8], pos % 8, k);
    }
    BitsOfSingleBitUpdate(s, pos, v, !BitsOf(s)[pos]);
  }

  /** `n` zero bytes (Ruby's `"\x00" * n`). */
  function ZeroBytes(n: nat): (r: seq<bv8>)
    ensures |r| == n
  {
    seq(n, _ => 0x00)
  }

  /** `n` bytes with every bit set (Ruby's `"\xff" * n`). */
  function FullBytes(n: nat): (r: seq<bv8>)
    ensures |r| == n
  {
    seq(n, _ => 0xff)
  }

  /** A sequence of `n` copies of `b`. */
  function Repeat(b: bool, n: nat): (r: seq<bool>)
    ensures |r| == n
  {
    seq(n, _ => b)
  }

  lemma BitsOfZeroBytes(n: nat)
    ensures BitsOf(ZeroBytes(n)) == Repeat(false, 8 * n)
  {
    forall i | 0 <= i < 8 * n
      ensures BitsOf(ZeroBytes(n))[i] == false
    {
      BitsOfAt(ZeroBytes(n), i);
    }
  }

  lemma BitsOfFullBytes(n: nat)
    ensures BitsOf(FullBytes(n)) == Repeat(true, 8 * n)
  {
    forall i | 0 <= i < 8 * n
      ensures BitsOf(FullBytes(n))[i] == true
    {
      BitsOfAt(FullBytes(n), i);
    }
  }

  /** Bits `8 * j` up to `8 * j + 8` of a byte string are the bits of byte `j`. */
  lemma BitsOfByte(s: seq<bv8>, j: nat)
    requires j < |s|
    ensures BitsOf(s)[8 * j..8 * j + 8] == ByteBits(s[j])
  {
    forall k | 0 <= k < 8
      ensures BitsOf(s)[8 * j..8 * j + 8][k] == ByteBits(s[j])[k]
    {
      BitsOfAt(s, 8 * j + k);
      assert (8 * j + k) / 8 == j && (8 * j + k) % 8 == k;
    }
  }

  /** Different byte strings have different bits: the bits determine the bytes. */
  lemma BitsOfInjective(a: seq<bv8>, b: seq<bv8>)
    requires BitsOf(a) == BitsOf(b)
    ensures a == b
  {
    assert |a| == |b|;
    forall j | 0 <= j < |a|
      ensures a[j] == b[j]
    {
      BitsOfByte(a, j);
      BitsOfByte(b, j);
      ByteBitsInjective(a[j], b[j]);
    }
  }

  // ---------------------------------------------------------------------------
  // Packing bits into bytes, as Ruby's `[bits].pack('b*')` does for a bit string
  // whose length is a multiple of 8.

  /** The byte whose bits, least significant first, are `bs`. */
  function ByteOf(bs: seq<bool>): (r: bv8)
    requires |bs| == 8
  {
    (if bs[0] then 0x01 else 0x00) | (if bs[1] then 0x02 else 0x00) |
    (if bs[2] then 0x04 else 0x00) | (if bs[3] then 0x08 else 0x00) |
    (if bs[4] then 0x10 else 0x00) | (if bs[5] then 0x20 else 0x00) |
    (if bs[6] then 0x40 else 0x00) | (if bs[7] then 0x80 else 0x00)
  }

  lemma ByteBitsOfByteOf(bs: seq<bool>)
    requires |bs| == 8
    ensures ByteBits(ByteOf(bs)) == bs
  {
  }

  function PackBits(bits: seq<bool>): (r: seq<bv8>)
    requires |bits| % 8 == 0
    ensures 8 * |r| == |bits|
  {
    if |bits| == 0 then [] else PackBits(bits[..|bits| - 8]) + [ByteOf(bits[|bits| - 8..])]
  }

  /** Appending one byte appends its eight bits. */
  lemma BitsOfSnoc(p: seq<bv8>, last: bv8, front: seq<bool>, tail: seq<bool>)
    requires BitsOf(p) == front && ByteBits(last) == tail
    ensures BitsOf(p + [last]) == front + tail
  {
    assert (p + [last])[..|p + [last]| - 1] == p;
  }

  /** Unpacking packed bits gives the bits back. */
  lemma {:induction false} BitsOfPackBits(bits: seq<bool>)
    requires |bits| % 8 == 0
    ensures BitsOf(PackBits(bits)) == bits
    decreases |bits|
  {
    if |bits| != 0 {
      var n := |bits| - 8;
      BitsOfPackBits(bits[..n]);
      ByteBitsOfByteOf(bits[n..]);
      BitsOfSnoc(PackBits(bits[..n]), ByteOf(bits[n..]), bits[..n], bits[n..]);
      assert bits == bits[..n] + bits[n..];
    }
  }

  /** Packing the bits of a byte string gives the byte string back. */
  lemma PackBitsOfBits(s: seq<bv8>)
    ensures PackBits(BitsOf(s)) == s
  {
    BitsOfPackBits(BitsOf(s));
    BitsOfInjective(PackBits(BitsOf(s)), s);
  }

  // ---------------------------------------------------------------------------
  // Counting set bits.

  /** The number of `true` entries of `s`. */
  function Count(s: seq<bool>): (r: nat)
    ensures r <= |s|
  {
    if |s| == 0 then 0 else Count(s[..|s| - 1]) + (if s[|s| - 1] then 1 else 0)
  }

  lemma {:induction false} CountAppend(a: seq<bool>, b: seq<bool>)
    ensures Count(a + b) == Count(a) + Count(b)
    decreases |b|
  {
    if |b| == 0 {
      assert a + b == a;
    } else {
      var n := |b| - 1;
      assert (a + b)[..|a + b| - 1] == a + b[..n];
      CountAppend(a, b[..n]);
    }
  }

  /** No bit is set exactly when the count is zero. */
  lemma {:induction false} CountZero(s: seq<bool>)
    ensures Count(s) == 0 <==> forall i :: 0 <= i < |s| ==> !s[i]
  {
    if |s| != 0 {
      CountZero(s[..|s| - 1]);
      if Count(s) == 0 {
        forall i | 0 <= i < |s| ensures !s[i] {
          if i < |s| - 1 {
            assert s[i] == s[..|s| - 1][i];
          }
        }
      }
    }
  }

  /** Every bit is set exactly when the count is the length. */
  lemma {:induction false} CountFull(s: seq<bool>)
    ensures Count(s) == |s| <==> forall i :: 0 <= i < |s| ==> s[i]
  {
    if |s| != 0 {
      CountFull(s[..|s| - 1]);
      if Count(s) == |s| {
        forall i | 0 <= i < |s| ensures s[i] {
          if i < |s| - 1 {
            assert s[i] == s[..|s| - 1][i];
          }
        }
      }
    }
  }

  /** Setting one bit raises the count by one if it was clear, and by nothing otherwise. */
  lemma CountUpdate(s: seq<bool>, i: nat, v: bool)
    requires i < |s|
    ensures Count(s[i := v]) == Count(s) - (if s[i] then 1 else 0) + (if v then 1 else 0)
  {
    assert s == s[..i] + [s[i]] + s[i + 1..];
    assert s[i := v] == s[..i] + [v] + s[i + 1..];
    CountAppend(s[..i] + [s[i]], s[i + 1..]);
    CountAppend(s[..i], [s[i]]);
    CountAppend(s[..i] + [v], s[i + 1..]);
    CountAppend(s[..i], [v]);
  }

  // ---------------------------------------------------------------------------
  // The population-count table.

  /**
   * The bit count of a byte, computed as Ruby's table initialiser does: add the low bit,
   * shift right, until the byte is zero.
   */
  function PopCount(b: bv8): (r: nat)
    ensures r == 0 <==> b == 0
    decreases b
  {
    if b == 0 then 0 else (if b & 1 == 1 then 1 else 0) + PopCount(b >> 1)
  }

  /** The shift-and-add count is the number of set bits of the byte. */
  lemma {:induction false} PopCountIsCount(b: bv8)
    ensures PopCount(b) == Count(ByteBits(b))
    decreases b
  {
    var bits := ByteBits(b);
    if b == 0 {
      CountZero(bits);
    } else {
      PopCountIsCount(b >> 1);
      ShiftRightBits(b);
      LowBit(b);
      assert bits == [bits[0]] + bits[1..];
      CountAppend([bits[0]], bits[1..]);
      CountAppend(bits[1..], [false]);
    }
  }

  lemma ShiftRightBit(b: bv8, j: nat)
    requires j < 8
    ensures ByteBit(b >> 1, j) == (j < 7 && ByteBit(b, j + 1))
  {
  }

  /** `byte >>= 1` drops the low bit and shifts in a clear high bit. */
  lemma ShiftRightBits(b: bv8)
    ensures ByteBits(b >> 1) == ByteBits(b)[1..] + [false]
  {
    forall j | 0 <= j < 8
      ensures ByteBits(b >> 1)[j] == (ByteBits(b)[1..] + [false])[j]
    {
      ShiftRightBit(b, j);
    }
  }

  /** `byte & 1 == 1` tests bit 0. */
  lemma LowBit(b: bv8)
    ensures (b & 1 == 1) == ByteBits(b)[0]
    ensures Count([ByteBits(b)[0]]) == if b & 1 == 1 then 1 else 0
  {
  }

  /** `POPCNT_TABLE`: entry `b` is the bit count of byte `b`. */
  const POPCNT_TABLE: seq<nat> := seq(256, b requires 0 <= b < 256 => PopCount(b as bv8))

  lemma PopcntTableEntry(b: bv8)
    ensures |POPCNT_TABLE| == 256
    ensures POPCNT_TABLE[b as int] == Count(ByteBits(b))
  {
    assert (b as int) as bv8 == b;
    PopCountIsCount(b);
  }
}
