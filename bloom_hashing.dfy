/**
 * How `Blooming::BloomFilter` turns a key into `k` bit positions (`key_to_hashes`): a chain
 * of SHA-512 digests over the key's string form, cut into big-endian unsigned lanes of 16
 * or 32 bits, each reduced modulo `m`. The digest itself is a parameter; all that is known
 * of it here is that it yields 64 bytes.
 */
module BloomHashing {
  import opened Results

  /** `HASH_BITS`: the width of one digest. */
  const HASH_BITS: nat := 512

  const ZERO_BLOCK: seq<bv8> := seq(64, _ => 0x00)

  /** The output of one digest invocation: 512 bits. */
  type Block = s: seq<bv8> | |s| == 64 witness ZERO_BLOCK

  /** The lane width picked at construction: `"n"` (16-bit) or `"N"` (32-bit) big-endian unpacking. */
  datatype Lane = Lane16 | Lane32 {
    function Bits(): (r: nat)
      ensures r == 8 * Bytes()
    {
      if Lane16? then 16 else 32
    }

    function Bytes(): (r: nat)
      ensures r == 2 || r == 4
    {
      if Lane16? then 2 else 4
    }
  }

  /**
   * `@hashes_needed`: how many chained digests the constructor asks for; at least one, even
   * when no lane is needed.
   */
  function HashesNeeded(k: nat, lane: Lane): (r: nat)
    ensures r >= 1
  {
    (k * lane.Bits()) / HASH_BITS + 1
  }

  /**
   * `hashes_needed` digests hold more than the `k` lanes need, and one digest fewer would
   * not always do: it is the least count whose bits exceed `k * lane` bits.
   */
  lemma HashesNeededBounds(k: nat, lane: Lane)
    ensures HASH_BITS * HashesNeeded(k, lane) > k * lane.Bits()
    ensures HASH_BITS * (HashesNeeded(k, lane) - 1) <= k * lane.Bits()
    ensures 64 * HashesNeeded(k, lane) >= k * lane.Bytes()
  {
    var bits := k * lane.Bits();
    assert bits == 512 * (bits / 512) + bits % 512;
    assert bits == 8 * (k * lane.Bytes());
  }

  /** The digest applied `n` times in a row to `seed`. */
  function Iterate(digest: seq<bv8> -> Block, seed: seq<bv8>, n: nat): seq<bv8>
    decreases n
  {
    if n == 0 then seed else digest(Iterate(digest, seed, n - 1))
  }

  /**
   * The concatenation of `n` chained digests: the first over `seed`, each later one over the
   * digest before it (`last_key = HashFunction.digest(last_key)`, joined).
   */
  function Chain(digest: seq<bv8> -> Block, seed: seq<bv8>, n: nat): (r: seq<bv8>)
    ensures |r| == 64 * n
    decreases n
  {
    if n == 0 then [] else digest(seed) + Chain(digest, digest(seed), n - 1)
  }

  lemma {:induction false} IterateShift(digest: seq<bv8> -> Block, seed: seq<bv8>, n: nat)
    ensures Iterate(digest, digest(seed), n) == Iterate(digest, seed, n + 1)
    decreases n
  {
    if n > 0 {
      IterateShift(digest, seed, n - 1);
    }
  }

  /** Block `j` of the chain is the digest applied `j + 1` times to the seed. */
  lemma {:induction false} ChainBlock(digest: seq<bv8> -> Block, seed: seq<bv8>, n: nat, j: nat)
    requires j < n
    ensures Chain(digest, seed, n)[64 * j..64 * j + 64] == Iterate(digest, seed, j + 1)
    decreases j
  {
    var first: seq<bv8> := digest(seed);
    var rest: seq<bv8> := Chain(digest, first, n - 1);
    if j == 0 {
      assert (first + rest)[..64] == first;
    } else {
      ChainBlock(digest, first, n - 1, j - 1);
      IterateShift(digest, seed, j);
      assert (first + rest)[64 * j..64 * j + 64] == rest[64 * (j - 1)..64 * (j - 1) + 64];
    }
  }

  /** `256^n`. */
  function Pow256(n: nat): (r: nat)
    ensures r > 0
  {
    if n == 0 then 1 else 256 * Pow256(n - 1)
  }

  /** The unsigned integer whose big-endian bytes are `s`. */
  function BigEndian(s: seq<bv8>): (r: nat)
    ensures r < Pow256(|s|)
  {
    if |s| == 0 then 0 else BigEndian(s[..|s| - 1]) * 256 + s[|s| - 1] as nat
  }

  /** The first byte is the most significant one. */
  lemma {:induction false} BigEndianFirstByte(b: bv8, s: seq<bv8>)
    ensures BigEndian([b] + s) == b as nat * Pow256(|s|) + BigEndian(s)
    decreases |s|
  {
    if |s| > 0 {
      var n := |s| - 1;
      var x, p, y, last := b as nat, Pow256(n), BigEndian(s[..n]), s[n] as nat;
      assert ([b] + s)[..|[b] + s| - 1] == [b] + s[..n];
      BigEndianFirstByte(b, s[..n]);
      assert BigEndian([b] + s) == (x * p + y) * 256 + last;
      assert BigEndian(s) == y * 256 + last;
      assert Pow256(|s|) == p * 256;
      Distribute(x, p, y, last);
    }
  }

  lemma Distribute(x: nat, p: nat, y: nat, last: nat)
    ensures (x * p + y) * 256 + last == x * (p * 256) + (y * 256 + last)
  {
  }

  /**
   * `unpack("n#{count}")` / `unpack("N#{count}")`: `count` unsigned big-endian integers of
   * `width` bytes each from the front of `s`; bytes past them are ignored.
   */
  function Unpack(s: seq<bv8>, width: nat, count: nat): (r: seq<nat>)
    requires 0 < width && count * width <= |s|
    ensures |r| == count
    ensures forall i :: 0 <= i < count ==> r[i] < Pow256(width)
  {
    if count == 0 then []
    else
      assert count * width == (count - 1) * width + width;
      [BigEndian(s[..width])] + Unpack(s[width..], width, count - 1)
  }

  /** `i * w` steps by `w`, and stays below `count * w` for `i < count`. */
  lemma MulSteps(i: nat, count: nat, w: nat)
    requires i < count
    ensures (i + 1) * w == i * w + w
    ensures i * w + w <= count * w
  {
    assert count * w == (i + 1) * w + (count - i - 1) * w;
  }

  /** Lane `i` is read from bytes `i * width` up to `(i + 1) * width`. */
  lemma {:induction false} UnpackAt(s: seq<bv8>, width: nat, count: nat, i: nat)
    requires 0 < width && count * width <= |s| && i < count
    ensures i * width + width <= |s|
    ensures Unpack(s, width, count)[i] == BigEndian(s[i * width..i * width + width])
    decreases i
  {
    MulSteps(i, count, width);
    MulSteps(count - 1, count, width);
    if i > 0 {
      MulSteps(i - 1, count - 1, width);
      UnpackAt(s[width..], width, count - 1, i - 1);
      var lo := (i - 1) * width;
      assert lo + width == i * width;
      assert s[width..][lo..lo + width] == s[i * width..i * width + width];
    }
  }

  /**
   * `key_to_hashes(key)`: the `k` bit positions of a key, given the bytes of `key.to_s`: chain
   * `HashesNeeded(k, lane)` digests, unpack `k` lanes, reduce each modulo `m`.
   */
  function KeyToHashes(digest: seq<bv8> -> Block, key: seq<bv8>, m: nat, k: nat, lane: Lane): (r: seq<nat>)
    requires 0 < m
    ensures |r| == k
    ensures forall i :: 0 <= i < k ==> r[i] < m
  {
    var hashed := Chain(digest, key, HashesNeeded(k, lane));
    HashesNeededBounds(k, lane);
    var lanes := Unpack(hashed, lane.Bytes(), k);
    seq(k, i requires 0 <= i < k => lanes[i] % m)
  }

  /**
   * Position `i` of a key is lane `i` of its digest chain (a big-endian integer below
   * `2^16` or `2^32`) modulo `m`.
   */
  lemma KeyToHashesAt(digest: seq<bv8> -> Block, key: seq<bv8>, m: nat, k: nat, lane: Lane, i: nat)
    requires 0 < m && i < k
    ensures var hashed := Chain(digest, key, HashesNeeded(k, lane));
            var w := lane.Bytes();
            i * w + w <= |hashed| &&
            BigEndian(hashed[i * w..i * w + w]) < Pow256(w) &&
            KeyToHashes(digest, key, m, k, lane)[i] == BigEndian(hashed[i * w..i * w + w]) % m
  {
    var hashed := Chain(digest, key, HashesNeeded(k, lane));
    HashesNeededBounds(k, lane);
    UnpackAt(hashed, lane.Bytes(), k, i);
  }
}
