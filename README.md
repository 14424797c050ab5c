# Blooming: bit array and Bloom filter, in Dafny

This project models the core of the `blooming` Ruby library. It covers two classes.

- `Blooming::BitArray` is a fixed-size bit vector kept in a binary String. Bit `pos` is bit
  `pos % 8` of byte `pos / 8`, low bit first. It supports single-bit set, unset, flip and
  test; bulk clear and flood; a population count through a 256-entry table; enumeration;
  resizing; and raw byte import and export.
- `Blooming::BloomFilter` owns one `BitArray` of `m` bits. It derives `k` positions per key
  from a chain of SHA-512 digests, read as 16- or 32-bit big-endian lanes, each taken modulo
  `m`. It supports add, add-if-absent, membership, clear, emptiness, saturation, and byte
  export and import.

Layout:

- `results.dfy`: module `Results`, holding the Ruby exceptions (`Error`), `Result` and `Option`.
- `bits.dfy`: module `Bits`. The byte layout as pure functions on `bv8`: masks, `BitsOf`
  (the bits of a byte string), LSB-first packing, `Count`, `PopCount` and `POPCNT_TABLE`.
- `bit_array.dfy`: module `BitArrays`. Class `BitArray` has a `size` field and a
  `buffer: Option<seq<bv8>>` field. `None` is Ruby's nil `@raw`, which reads as `size / 8`
  zero bytes. Every method is specified against `Bits()`, the abstract `seq<bool>`.
- `bloom_hashing.dfy`: module `BloomHashing`, the pure `key_to_hashes` pipeline: digest chain,
  big-endian unpacking, and reduction modulo `m`.
- `bloom_filter.dfy`: module `BloomFilters`. It holds the set-membership algebra on
  `seq<bool>` (`AllSet`, `Insert`, `Unset`), the constructor checks, and class `BloomFilter`.
  The class has a lazily created `filter: BitArray?` field.

Several Ruby methods call the `raw` reader, which creates the byte string on first use:
`set?`, `cardinality`, `each`, and the mutators. Those are methods that may modify the
object, and each one states that the bits and bytes stay the same. A key is modelled by the
bytes of `key.to_s`, so keys with the same string form get the same positions. SHA-512 is
the `digest` constant of the filter: any function that returns 64 bytes (`Block`).

## Model

| member | source | states |
|---|---|---|
| `Bits.Mask` | lib/blooming/bit_array.rb:35-58 | the per-bit mask `1 << (pos % 8)`, written as a table of the eight one-bit bytes; `Bits.MaskIsShift` proves it is the shift |
| `Bits.MaskIsShift` | lib/blooming/bit_array.rb:37 | the mask table equals `1 << k` for every bit index 0..7 |
| `Bits.BitsOfAt` | lib/blooming/bit_array.rb:56-58 | bit `i` of a byte string is `(byte[i/8] & (1 << (i%8))) != 0`, so bits are LSB-first within each byte |
| `Bits.OrMaskBit` | lib/blooming/bit_array.rb:37 | OR-ing the mask sets bit `k` of a byte and keeps the other seven |
| `Bits.AndNotMaskBit` | lib/blooming/bit_array.rb:44 | AND-ing with `0xff ^ mask` clears bit `k` of a byte and keeps the other seven |
| `Bits.XorMaskBit` | lib/blooming/bit_array.rb:51 | XOR-ing the mask inverts bit `k` of a byte and keeps the other seven |
| `Bits.BitsOfSetBit` | lib/blooming/bit_array.rb:35-39 | OR-ing the mask into the byte of bit `pos` sets bit `pos` of the string and changes no other bit |
| `Bits.BitsOfClearBit` | lib/blooming/bit_array.rb:42-46 | AND-ing the inverted mask into the byte of bit `pos` clears bit `pos` and changes no other bit |
| `Bits.BitsOfFlipBit` | lib/blooming/bit_array.rb:49-53 | XOR-ing the mask into the byte of bit `pos` inverts bit `pos` and changes no other bit |
| `Bits.ShiftRightBits` | lib/blooming/bit_array.rb:15 | `byte >>= 1` drops bit 0, moves every other bit down one place and clears bit 7 |
| `Bits.BitsOfSingleBitUpdate` | lib/blooming/bit_array.rb:35-53 | rewriting the byte of bit `pos` so that only bit `pos % 8` changes changes the array's bits at `pos` alone |
| `Bits.BitsOfAppend` | lib/blooming/bit_array.rb:146-149 | the bits of a concatenation are the concatenated bits, so appending zero bytes appends zero bits |
| `Bits.BitsOfPrefix` | lib/blooming/bit_array.rb:150-152 | truncating to `n` bytes truncates the bits to the first `8n` |
| `Bits.BitsOfZeroBytes` | lib/blooming/bit_array.rb:95-97 | `size / 8` zero bytes hold `size` clear bits |
| `Bits.BitsOfFullBytes` | lib/blooming/bit_array.rb:76-79 | `size / 8` bytes of 0xff hold `size` set bits |
| `Bits.BitsOfInjective` | lib/blooming/bit_array.rb:102-107 | two byte strings with the same bits are equal, so importing and exporting bytes loses nothing |
| `Bits.ByteBitsInjective` | lib/blooming/bit_array.rb:86-90 | a byte is determined by its eight bits |
| `Bits.PackBits` | test/test_blooming_bit_array.rb:123-129 | `pack('b*')` of `8n` bits gives `n` bytes; the two lemmas below give the round trip |
| `Bits.BitsOfPackBits` | test/test_blooming_bit_array.rb:127-133 | the bits of the LSB-first packing of a bit string (`pack('b*')`) are that bit string |
| `Bits.PackBitsOfBits` | test/test_blooming_bit_array.rb:123 | LSB-first packing of a byte string's bits gives the byte string back |
| `Bits.CountAppend` | lib/blooming/bit_array.rb:130-135 | the number of set bits is additive over concatenation, so it can be summed byte by byte |
| `Bits.CountZero` | test/test_blooming_bloom_filter.rb:17 | the count is 0 exactly when no bit is set |
| `Bits.CountFull` | test/test_blooming_bit_array.rb:16-20 | the count equals the length exactly when every bit is set |
| `Bits.CountUpdate` | lib/blooming/bit_array.rb:35-46 | setting a clear bit raises the count by one; clearing a set bit lowers it by one; anything else keeps it |
| `Bits.PopCount` | lib/blooming/bit_array.rb:12-17 | the `until` loop body's count of a byte is 0 exactly when the byte is 0 |
| `Bits.PopCountIsCount` | lib/blooming/bit_array.rb:11-18 | the add-low-bit-and-shift count of a byte is its number of set bits |
| `Bits.PopcntTableEntry` | lib/blooming/bit_array.rb:11-18 | `POPCNT_TABLE` has 256 entries, and entry `b` is the number of set bits of `b` |
| `BitArrays.BuildPopcountTable` | lib/blooming/bit_array.rb:11-18 | the table built by the `until` loop is `POPCNT_TABLE`: entry `b` counts the bits of `b` |
| `BitArrays.BitArray.Blank` | lib/blooming/bit_array.rb:26 | a new object starts with a nil byte string |
| `BitArrays.BitArray.New` | lib/blooming/bit_array.rb:25-32 | a String gives `8 * bytesize` bits holding its bytes; a positive multiple of 8 gives that many clear bits; another Integer raises ArgumentError; anything else raises TypeError |
| `BitArrays.BitArray.Raw` | lib/blooming/bit_array.rb:95-97 | returns the array's bytes, creating `size / 8` zero bytes if the string was nil; bits unchanged |
| `BitArrays.BitArray.SetRaw` | lib/blooming/bit_array.rb:102-107 | a String becomes the whole array with `size = 8 * bytesize`; anything else raises TypeError and changes nothing |
| `BitArrays.BitArray.RawByte` | lib/blooming/bit_array.rb:139-144 | returns byte `i`, or IndexError when `i` is at or past the string's length |
| `BitArrays.BitArray.Set` | lib/blooming/bit_array.rb:35-39 | bit `pos` becomes set, every other bit and the size are kept, and the array is returned; IndexError and no change when `pos >= size` |
| `BitArrays.BitArray.Unset` | lib/blooming/bit_array.rb:42-46 | bit `pos` becomes clear and every other bit is kept; IndexError and no change when `pos >= size` |
| `BitArrays.BitArray.Flip` | lib/blooming/bit_array.rb:49-53 | bit `pos` is inverted and every other bit is kept; IndexError and no change when `pos >= size` |
| `BitArrays.BitArray.IsSet` | lib/blooming/bit_array.rb:56-58 | returns bit `pos`; IndexError when `pos >= size`; nothing changes |
| `BitArrays.BitArray.Assign` | lib/blooming/bit_array.rb:63-69 | bit `pos` becomes `val` and every other bit is kept; IndexError and no change when `pos >= size` |
| `BitArrays.BitArray.Clear` | lib/blooming/bit_array.rb:71-74 | every bit is clear and the size is kept |
| `BitArrays.BitArray.Flood` | lib/blooming/bit_array.rb:76-79 | every bit is set and the size is kept |
| `BitArrays.BitArray.Each` | lib/blooming/bit_array.rb:82-92 | yields exactly the array's bits in ascending position order |
| `BitArrays.BitArray.Cardinality` | lib/blooming/bit_array.rb:130-135 | the table-driven byte sum equals the number of set bits |
| `BitArrays.BitArray.SetSize` | lib/blooming/bit_array.rb:112-120 | ArgumentError and no change unless the new size is a positive multiple of 8; otherwise bits below both sizes are kept, new bits are clear, and the size is the new one |
| `BitArrays.BitArray.ResizeRaw` | lib/blooming/bit_array.rb:146-153 | the string grows by zero bytes or is cut to `new_size / 8` bytes, keeping the common prefix of bits |
| `BitArrays.SetThenUnset` | test/test_blooming_bit_array.rb:26-28 | set then unset of an in-range bit leaves it clear and every other bit as it was |
| `BitArrays.FlipTwice` | test/test_blooming_bit_array.rb:30-33 | flipping the same bit twice restores the array |
| `BitArrays.SerializationRoundTrip` | test/test_blooming_bit_array.rb:127-133 | an array built from packed bits enumerates those bits and exports the packed bytes |
| `BloomHashing.Lane.Bits` | lib/blooming/bloom_filter.rb:31-36 | a lane is 8 bits per byte: 16 for `"n"` and 32 for `"N"` |
| `BloomHashing.Lane.Bytes` | lib/blooming/bloom_filter.rb:33 | a lane is 2 or 4 bytes wide |
| `BloomHashing.HashesNeeded` | lib/blooming/bloom_filter.rb:31-36 | `((k * lane) / HASH_BITS) + 1` asks for at least one digest, even when `k = 0` |
| `BloomHashing.HashesNeededBounds` | lib/blooming/bloom_filter.rb:32-35 | `hashes_needed * 512 > k * lane`, so the chain has enough bytes for `k` lanes, and `(hashes_needed - 1) * 512 <= k * lane` |
| `BloomHashing.Chain` | lib/blooming/bloom_filter.rb:135-139 | `n` chained digests make `64 * n` bytes |
| `BloomHashing.IterateShift` | lib/blooming/bloom_filter.rb:137 | digesting the seed once, then `n` more times, is digesting it `n + 1` times |
| `BloomHashing.ChainBlock` | lib/blooming/bloom_filter.rb:135-139 | block `j` of the chain is the digest applied `j + 1` times to the key's string |
| `BloomHashing.BigEndian` | lib/blooming/bloom_filter.rb:141 | a big-endian unsigned value of `n` bytes is below `256^n` |
| `BloomHashing.BigEndianFirstByte` | lib/blooming/bloom_filter.rb:141 | the first byte is the most significant: `[b] + s` decodes to `b * 256^|s| + decode(s)` |
| `BloomHashing.Unpack` | lib/blooming/bloom_filter.rb:141 | unpacking yields exactly `count` lanes, each below `256^width` |
| `BloomHashing.UnpackAt` | lib/blooming/bloom_filter.rb:141 | lane `i` is the big-endian value of bytes `i * width` up to `(i + 1) * width` |
| `BloomHashing.KeyToHashes` | lib/blooming/bloom_filter.rb:134-141 | a key yields exactly `k` positions, each in `[0, m)` |
| `BloomHashing.KeyToHashesAt` | lib/blooming/bloom_filter.rb:134-141 | position `i` is lane `i` of the key's digest chain, a value below `2^16` or `2^32`, taken modulo `m` |
| `BloomFilters.AllSet` | lib/blooming/bloom_filter.rb:51-53 | the in-order `all?` test; when it holds, every listed position is set |
| `BloomFilters.AllSetMeans` | lib/blooming/bloom_filter.rb:50-54 | the in-order `all?` over positions holds exactly when every position is set |
| `BloomFilters.Insert` | lib/blooming/bloom_filter.rb:58-61 | setting positions keeps the number of bits |
| `BloomFilters.InsertAt` | lib/blooming/bloom_filter.rb:58-61 | after setting positions `ps`, bit `j` is set exactly when it was set before or `j` is in `ps`; no bit is cleared |
| `BloomFilters.InsertSetsAll` | lib/blooming/bloom_filter.rb:50-61 | after a key's positions are set, the membership test of that key holds |
| `BloomFilters.InsertKeepsAllSet` | lib/blooming/bloom_filter.rb:50-72 | setting more positions never turns a passing membership test into a failing one |
| `BloomFilters.InsertAll` | lib/blooming/bloom_filter.rb:58-61 | a run of insertions keeps the number of bits |
| `BloomFilters.NoFalseNegatives` | lib/blooming/bloom_filter.rb:47-61 | once a key is added, its membership test holds after any number of later additions |
| `BloomFilters.Unset` | lib/blooming/bloom_filter.rb:69 | the rejected positions stay within the filter |
| `BloomFilters.UnsetMembers` | lib/blooming/bloom_filter.rb:69 | a position survives the `reject` exactly when it is one of the key's positions and is clear |
| `BloomFilters.InsertUnset` | lib/blooming/bloom_filter.rb:68-72 | setting only the clear positions gives the same bits as setting all of them |
| `BloomFilters.UnsetEmpty` | lib/blooming/bloom_filter.rb:68-72 | no position survives the `reject` exactly when the key already tests as present |
| `BloomFilters.InitializeAsWritten` | lib/blooming/bloom_filter.rb:27-45 | the code accepts `m` exactly when `m < 2**32` and `m % 8 == 0`, with 16-bit lanes below `2**16` |
| `BloomFilters.ZeroSizedFilterAccepted` | lib/blooming/bloom_filter.rb:31-41 | `m = 0` and `m = -8` pass the checks as written |
| `BloomFilters.Initialize` | lib/blooming/bloom_filter.rb:27-45 | `m` is accepted exactly when it is a positive multiple of 8 below `2**32`, with 16-bit lanes below `2**16` |
| `BloomFilters.InitializeAgrees` | lib/blooming/bloom_filter.rb:27-45 | for positive `m` the corrected checks are the checks as written |
| `BloomFilters.SetPositions` | lib/blooming/bloom_filter.rb:59 | the `each`/`set!` loop leaves the bits equal to `Insert` of the old bits and the positions |
| `BloomFilters.InsertStep` | lib/blooming/bloom_filter.rb:59 | one more turn of the `each` loop sets one more position on top of the earlier ones |
| `BloomFilters.UnsetPositions` | lib/blooming/bloom_filter.rb:69 | the `reject`/`set?` loop returns the clear positions in order and changes no bit |
| `BloomFilters.BloomFilter.Bytes` | lib/blooming/bloom_filter.rb:144-146 | the filter's `m / 8` bytes are the bytes of its bits, zero before the bit array exists |
| `BloomFilters.BloomFilter.Hashes` | lib/blooming/bloom_filter.rb:134-141 | a key has `k` positions, all below `m` |
| `BloomFilters.BloomFilter.Create` | lib/blooming/bloom_filter.rb:27-45 | stores `m`, `k`, the lane width and `hashes_needed`; the bit array is not yet created |
| `BloomFilters.BloomFilter.New` | lib/blooming/bloom_filter.rb:27-45 | the corrected constructor of the second row of "## Findings": success exactly for a positive multiple of 8 below `2**32`, with no bit set and the lane width by `2**16`; otherwise the ArgumentError of the checks, where "m must be positive" is the corrected check's own message and not one of the source's |
| `BloomFilters.BloomFilter.Filter` | lib/blooming/bloom_filter.rb:144-146 | returns the bit array, creating it with `m` clear bits on first use; bits unchanged |
| `BloomFilters.BloomFilter.SetFilter` | lib/blooming/bloom_filter.rb:149-152 | an array of `m` bits replaces the filter's; another size raises ArgumentError and changes nothing |
| `BloomFilters.BloomFilter.Include` | lib/blooming/bloom_filter.rb:50-54 | true exactly when every position of the key is set |
| `BloomFilters.BloomFilter.Add` | lib/blooming/bloom_filter.rb:58-61 | sets the key's positions and clears nothing; afterwards the key is reported present; returns the filter |
| `BloomFilters.BloomFilter.AddIfAbsent` | lib/blooming/bloom_filter.rb:68-72 | returns true exactly when the key was not reported present before; afterwards all its positions are set and no bit was cleared |
| `BloomFilters.BloomFilter.EmptyAsWritten` | lib/blooming/bloom_filter.rb:106-108 | raises NoMethodError whatever the bits are |
| `BloomFilters.BloomFilter.Empty` | lib/blooming/bloom_filter.rb:106-108 | true exactly when no bit is set; no bit changes; the filter keeps its bit array, or creates one on first use |
| `BloomFilters.BloomFilter.Saturated` | lib/blooming/bloom_filter.rb:79-81 | true exactly when more than half of the `m` bits are set; no bit changes; the filter keeps its bit array, or creates one on first use |
| `BloomFilters.BloomFilter.Clear` | lib/blooming/bloom_filter.rb:111-113 | every bit is clear, and the bit array returned is the filter's own, the same object as before when one existed |
| `BloomFilters.BloomFilter.ToS` | lib/blooming/bloom_filter.rb:118-120 | returns exactly the filter's `m / 8` bytes and changes no bit; the filter keeps its bit array, or creates one on first use |
| `BloomFilters.BloomFilter.FromS` | lib/blooming/bloom_filter.rb:123-130 | `m / 8` bytes become the filter's bytes; any other length raises the ArgumentError of the source and changes nothing |
| `BloomFilters.AddThenAddOthers` | lib/blooming/bloom_filter.rb:47-72 | a key added once is reported present after any further `add?` calls |
| `BloomFilters.AddIfAbsentTwice` | test/test_blooming_bloom_filter.rb:20-21 | a second `add?` of the same key returns false |
| `BloomFilters.EmptyOnFreshFilter` | test/test_blooming_bloom_filter.rb:14-17 | on a fresh `m: 2880, k: 20` filter, `empty?` as written raises, while the intended answer is true |
| `BloomFilters.EmptyLifecycle` | test/test_blooming_bloom_filter.rb:14-28 | on a fresh `m: 2880, k: 20` filter: not saturated and empty; the first `add?` of `"boop"` is true and the second false; the filter is then not empty; after `clear!` it is empty (the corrected `empty?`) |
| `BloomFilters.FromSThenToS` | lib/blooming/bloom_filter.rb:118-130 | importing `m / 8` bytes and exporting them gives the same bytes |

## Findings

| source | as written | input that shows it | evidently intended | confidence | as-written member | corrected member |
|---|---|---|---|---|---|---|
| lib/blooming/bloom_filter.rb:106-108 | `empty?` calls `filter.empty?`, but the byte-backed `BitArray` defines no `empty?`, and `Enumerable` does not provide one, so the call raises NoMethodError | `BloomFilter.new(m: 2880, k: 20).empty?` | true exactly when no bit is set, as test/test_blooming_bloom_filter.rb:17,27 expect; only the JRuby bit array defines `empty?` (lib/blooming/bit_array_jruby.rb:129-131) | high for the String-backed bit array; not executed | `BloomFilters.BloomFilter.EmptyAsWritten` | `BloomFilters.BloomFilter.Empty` |
| lib/blooming/bloom_filter.rb:31-41 | `initialize` checks only `m < 2**32` and `m % 8 == 0`, so `m = 0` and negative multiples of 8 are accepted | `BloomFilter.new(m: 0, k: 20)`, then `add('x')` divides by zero in `key_to_hashes` | refuse a size that is not positive | medium; not executed | `BloomFilters.InitializeAsWritten` | `BloomFilters.Initialize` |

## Left out

- `saturation` and `estimate_count` (lib/blooming/bloom_filter.rb:91-101) compute floating-point values, which are not modelled. `saturated?` is modelled as the exact test `2 * cardinality > m`.
- Both `inspect` methods format percentages and object ids, which is presentation only.
- lib/blooming/bloom_filter_params.rb is not part of this model: all of it is floating-point parameter estimation.
- lib/blooming/bit_array_jruby.rb is not part of this model: it wraps `java.util.BitSet`, a foreign library.
- SHA-512 is not modelled. The filter takes the digest as a function that returns 64 bytes, so nothing is proved about how the positions are distributed.
- Negative bit positions are excluded by the `nat` type. Ruby's `getbyte`/`setbyte` would count them from the end of the string, because the guard at lib/blooming/bit_array.rb:142 is commented out.
- `Integer(m)` / `Integer(k)` coercion, and `key.to_s` for non-String keys, are not modelled. `m` is an `int`, `k` a `nat`, and a key is given by its string bytes. A negative `k` would reach `unpack` with a malformed template.
- Ruby truthiness in `[]=` is modelled as a `bool` argument.
- String identity is not modelled. `raw` hands out the internal String itself, and `raw=` adopts the caller's String and re-tags its encoding. Byte strings here are values, so aliasing through them is not captured, nor is the FrozenError a frozen String would raise in `raw=`.
- `each` without a block returns an Enumerator. Only the block form is modelled, as the sequence of yielded bits. The rest of `Enumerable` is not modelled.
- Laziness of `include?`. It is modelled as a function of the filter's bits, so its lazy creation of the bit array (which changes no bit) is not shown. `<<` and `add?` create the bit array before their loops, where Ruby creates it on the first `set!` or `set?`. So with `k = 0`, when a key has no positions, Ruby never creates `@filter`, while the model's `Add` and `AddIfAbsent` still promise `filter != null`. The bits are the same either way.
- `BloomFilters.BloomFilter.EmptyAsWritten`: the NoMethodError message is shortened. Ruby's message would include the receiver's `inspect` output.
- Thread safety is not modelled. The source only documents it (lib/blooming/bit_array.rb:6-7).
