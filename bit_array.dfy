/**
 * `Blooming::BitArray`: a fixed-size array of bits kept in a byte string. Bit `pos` is bit
 * `pos % 8` of byte `pos / 8`. The byte string is created lazily: while `@raw` is nil the
 * array reads as `size / 8` zero bytes, and every operation that goes through the `raw`
 * reader materialises that string first.
 */
module BitArrays {
  import opened Bits
  import opened Results

  /** A Ruby argument whose class the library dispatches on: a String, an Integer or anything else. */
  datatype Value = Str(bytes: seq<bv8>) | Int(n: int) | Other

  /**
   * Builds `POPCNT_TABLE`: for each byte value in 0..255, add its low bit and shift it right
   * until it is zero.
   */
  method BuildPopcountTable() returns (table: seq<nat>)
    ensures table == POPCNT_TABLE
    ensures forall b :: 0 <= b < 256 ==> table[b] == Count(ByteBits(b as bv8))
  {
    table := [];
    var byte := 0;
    while byte < 256
      invariant 0 <= byte <= 256
      invariant table == POPCNT_TABLE[..byte]
    {
      var rest: bv8 := byte as bv8;
      var c := 0;
      while rest != 0
        invariant c + PopCount(rest) == PopCount(byte as bv8)
        decreases rest
      {
        c := c + (if rest & 1 == 1 then 1 else 0);
        rest := rest >> 1;
      }
      table := table + [c];
      byte := byte + 1;
    }
    forall b | 0 <= b < 256
      ensures table[b] == Count(ByteBits(b as bv8))
    {
      PopcntTableEntry(b as bv8);
    }
  }

  class BitArray {
    /** `@size`: the number of bits. */
    var size: nat
    /** `@raw`: the byte string, or None while it is nil. */
    var buffer: Option<seq<bv8>>

    /** The size is a whole number of bytes, and a materialised string holds exactly that many. */
    ghost predicate Valid()
      reads this
    {
      size % 8 == 0 && (buffer.Some? ==> 8 * |buffer.value| == size)
    }

    /** The bytes the array stands for: the string, or `size / 8` zero bytes while it is nil. */
    function Bytes(): (r: seq<bv8>)
      requires Valid()
      reads this
      ensures 8 * |r| == size
    {
      match buffer
      case None => ZeroBytes(size / 8)
      case Some(bytes) => bytes
    }

    /** The bits of the array, in ascending position order. */
    function Bits(): (r: seq<bool>)
      requires Valid()
      reads this
      ensures |r| == size
    {
      BitsOf(Bytes())
    }

    /** The allocation step of `initialize`: `@raw = nil`, before the argument is looked at. */
    constructor Blank()
      ensures Valid() && size == 0 && buffer == None
    {
      size := 0;
      buffer := None;
    }

    /**
     * `BitArray.new(init)`: from a String the array adopts its bytes; from an Integer it is
     * that many zero bits, which must be a positive multiple of 8; anything else is refused.
     */
    static method New(init: Value) returns (r: Result<BitArray>)
      ensures init.Str? ==>
                r.Success? && fresh(r.value) && r.value.Valid() &&
                r.value.size == 8 * |init.bytes| && r.value.Bytes() == init.bytes
      ensures init.Int? && init.n > 0 && init.n % 8 == 0 ==>
                r.Success? && fresh(r.value) && r.value.Valid() &&
                r.value.size == init.n && r.value.Bits() == Repeat(false, init.n) &&
                r.value.Bytes() == ZeroBytes(init.n / 8)
      ensures init.Int? && !(init.n > 0 && init.n % 8 == 0) ==>
                r == Failure(ArgumentError("size must be >0, and multiple of 8"))
      ensures init.Other? ==> r == Failure(TypeError("initialize with String or Integer"))
    {
      var a := new BitArray.Blank();
      match init
      case Str(bytes) =>
        var _ := a.SetRaw(init);
        r := Success(a);
      case Int(n) =>
        var _ :- a.SetSize(n);
        r := Success(a);
      case Other =>
        r := Failure(TypeError("initialize with String or Integer"));
    }

    /** `raw` (alias `to_s`): the byte string, materialised as zero bytes if it was nil. */
    method Raw() returns (bytes: seq<bv8>)
      requires Valid()
      modifies this
      ensures Valid() && size == old(size) && buffer == Some(bytes)
      ensures bytes == old(Bytes())
    {
      if buffer.None? {
        buffer := Some(ZeroBytes(size / 8));
      }
      bytes := buffer.value;
    }

    /**
     * `raw=` (alias `from_s`): adopt a String's bytes as the whole array, its size becoming
     * eight bits per byte; anything but a String is refused and changes nothing.
     */
    method SetRaw(newBits: Value) returns (r: Result<seq<bv8>>)
      modifies this
      ensures newBits.Str? ==>
                r == Success(newBits.bytes) && Valid() &&
                size == 8 * |newBits.bytes| && Bytes() == newBits.bytes
      ensures !newBits.Str? ==>
                r == Failure(TypeError("not a String")) &&
                size == old(size) && buffer == old(buffer)
    {
      if !newBits.Str? {
        return Failure(TypeError("not a String"));
      }
      size := |newBits.bytes| * 8;
      buffer := Some(newBits.bytes);
      r := Success(newBits.bytes);
    }

    /** `rawbyte(i)`: byte `i` of the string, or IndexError when the string is too short. */
    method RawByte(i: nat) returns (r: Result<bv8>)
      requires Valid()
      modifies this
      ensures Valid() && size == old(size) && Bytes() == old(Bytes()) && buffer.Some?
      ensures r == if i < size / 8 then Success(old(Bytes())[i]) else Failure(IndexError("index out of bounds"))
    {
      var bytes := Raw();
      if i < |bytes| {
        r := Success(bytes[i]);
      } else {
        r := Failure(IndexError("index out of bounds"));
      }
    }

    /** `set!(pos)`: set bit `pos`, leaving every other bit as it was; returns the array. */
    method Set(pos: nat) returns (r: Result<BitArray>)
      requires Valid()
      modifies this
      ensures Valid() && size == old(size)
      ensures r == if pos < size then Success(this) else Failure(IndexError("index out of bounds"))
      ensures Bits() == if pos < size then old(Bits())[pos := true] else old(Bits())
    {
      var byte := pos / 8;
      var bytes := Raw();
      var current :- RawByte(byte);
      BitsOfSetBit(bytes, pos);
      buffer := Some(bytes[byte := current | Mask(pos % 8)]);
      r := Success(this);
    }

    /** `unset!(pos)`: clear bit `pos`, leaving every other bit as it was; returns the array. */
    method Unset(pos: nat) returns (r: Result<BitArray>)
      requires Valid()
      modifies this
      ensures Valid() && size == old(size)
      ensures r == if pos < size then Success(this) else Failure(IndexError("index out of bounds"))
      ensures Bits() == if pos < size then old(Bits())[pos := false] else old(Bits())
    {
      var byte := pos / 8;
      var bytes := Raw();
      var current :- RawByte(byte);
      BitsOfClearBit(bytes, pos);
      buffer := Some(bytes[byte := current & (0xff ^ Mask(pos % 8))]);
      r := Success(this);
    }

    /** `flip!(pos)`: invert bit `pos`, leaving every other bit as it was; returns the array. */
    method Flip(pos: nat) returns (r: Result<BitArray>)
      requires Valid()
      modifies this
      ensures Valid() && size == old(size)
      ensures r == if pos < size then Success(this) else Failure(IndexError("index out of bounds"))
      ensures Bits() == if pos < size then old(Bits())[pos := !old(Bits())[pos]] else old(Bits())
    {
      var byte := pos / 8;
      var bytes := Raw();
      var current :- RawByte(byte);
      BitsOfFlipBit(bytes, pos);
      buffer := Some(bytes[byte := current ^ Mask(pos % 8)]);
      r := Success(this);
    }

    /** `set?(pos)` (alias `[]`): whether bit `pos` is set. */
    method IsSet(pos: nat) returns (r: Result<bool>)
      requires Valid()
      modifies this
      ensures Valid() && size == old(size) && Bytes() == old(Bytes()) && Bits() == old(Bits())
      ensures r == if pos < size then Success(old(Bits())[pos]) else Failure(IndexError("index out of bounds"))
    {
      var current :- RawByte(pos / 8);
      BitsOfAt(Bytes(), pos);
      r := Success(current & Mask(pos % 8) != 0);
    }

    /** `[]=(pos, val)`: set bit `pos` when `val` is truthy, clear it otherwise. */
    method Assign(pos: nat, val: bool) returns (r: Result<BitArray>)
      requires Valid()
      modifies this
      ensures Valid() && size == old(size)
      ensures r == if pos < size then Success(this) else Failure(IndexError("index out of bounds"))
      ensures Bits() == if pos < size then old(Bits())[pos := val] else old(Bits())
    {
      if val {
        r := Set(pos);
      } else {
        r := Unset(pos);
      }
    }

    /** `clear`: drop the string, so that every bit reads as zero; the size is kept. */
    method Clear() returns (r: BitArray)
      requires Valid()
      modifies this
      ensures Valid() && r == this && size == old(size)
      ensures Bits() == Repeat(false, size)
    {
      buffer := None;
      BitsOfZeroBytes(size / 8);
      r := this;
    }

    /** `flood`: replace the string by `size / 8` bytes of 0xff, so that every bit is set. */
    method Flood() returns (r: BitArray)
      requires Valid()
      modifies this
      ensures Valid() && r == this && size == old(size)
      ensures Bits() == Repeat(true, size)
    {
      buffer := Some(FullBytes(size / 8));
      BitsOfFullBytes(size / 8);
      r := this;
    }

    /** `each`: every bit in ascending position order, eight per byte, low bit first. */
    method Each() returns (bits: seq<bool>)
      requires Valid()
      modifies this
      ensures Valid() && size == old(size) && Bytes() == old(Bytes()) && Bits() == old(Bits())
      ensures bits == old(Bits())
    {
      var bytes := Raw();
      bits := [];
      var j := 0;
      while j < |bytes|
        invariant 0 <= j <= |bytes|
        invariant bits == BitsOf(bytes[..j])
      {
        var byte := bytes[j];
        var i := 0;
        while i < 8
          invariant 0 <= i <= 8
          invariant bits == BitsOf(bytes[..j]) + ByteBits(byte)[..i]
        {
          bits := bits + [byte & Mask(i) != 0];
          i := i + 1;
        }
        assert bytes[..j + 1][..j] == bytes[..j];
        j := j + 1;
      }
      assert bytes[..j] == bytes;
    }

    /** `cardinality`: the number of set bits, summed byte by byte through `POPCNT_TABLE`. */
    method Cardinality() returns (c: nat)
      requires Valid()
      modifies this
      ensures Valid() && size == old(size) && Bytes() == old(Bytes()) && Bits() == old(Bits())
      ensures c == Count(old(Bits()))
    {
      var bytes := Raw();
      c := 0;
      var j := 0;
      while j < |bytes|
        invariant 0 <= j <= |bytes|
        invariant c == Count(BitsOf(bytes[..j]))
        invariant size == old(size) && buffer == Some(bytes)
      {
        PopcntTableEntry(bytes[j]);
        assert bytes[..j + 1][..j] == bytes[..j];
        CountAppend(BitsOf(bytes[..j]), ByteBits(bytes[j]));
        c := c + POPCNT_TABLE[bytes[j] as int];
        j := j + 1;
      }
      assert bytes[..j] == bytes;
    }

    /**
     * `size=`: resize to `newSize` bits, which must be a positive multiple of 8. Bits below
     * both sizes keep their values; bits added at the end are zero.
     */
    method SetSize(newSize: int) returns (r: Result<int>)
      requires Valid()
      modifies this
      ensures Valid() && (old(buffer).None? ==> buffer.None?)
      ensures !(newSize > 0 && newSize % 8 == 0) ==>
                r == Failure(ArgumentError("size must be >0, and multiple of 8")) &&
                size == old(size) && buffer == old(buffer)
      ensures newSize > 0 && newSize % 8 == 0 ==>
                r == Success(newSize) && size == newSize &&
                Bits() == if newSize >= old(size) then old(Bits()) + Repeat(false, newSize - old(size))
                          else old(Bits())[..newSize]
    {
      if !(newSize % 8 == 0 && newSize > 0) {
        return Failure(ArgumentError("size must be >0, and multiple of 8"));
      }
      ghost var before := Bits();
      if buffer.Some? {
        ResizeRaw(newSize);
      } else {
        BitsOfZeroBytes(size / 8);
        BitsOfZeroBytes(newSize / 8);
      }
      size := newSize;
      if buffer.Some? {
        assert Bytes() == buffer.value;
      }
      r := Success(newSize);
    }

    /**
     * `resize_raw(new_size)`: append zero bytes to grow the string to `newSize / 8` bytes,
     * or cut it down to that many. The size field is left to the caller.
     */
    method ResizeRaw(newSize: nat)
      requires Valid() && buffer.Some? && newSize % 8 == 0
      modifies this
      ensures size == old(size) && buffer.Some? && 8 * |buffer.value| == newSize
      ensures BitsOf(buffer.value) == if newSize > old(size) then old(Bits()) + Repeat(false, newSize - old(size))
                                      else old(Bits())[..newSize]
    {
      var bytes := Raw();
      if newSize > size {
        var padding := ZeroBytes((newSize - size) / 8);
        BitsOfAppend(bytes, padding);
        BitsOfZeroBytes((newSize - size) / 8);
        buffer := Some(bytes + padding);
      } else {
        BitsOfPrefix(bytes, newSize / 8);
        buffer := Some(bytes[..newSize / 8]);
      }
    }
  }

  // ---------------------------------------------------------------------------
  // Callers' view: what a sequence of calls guarantees.

  /** Setting and then unsetting a bit leaves it unset and every other bit as it was. */
  method SetThenUnset(a: BitArray, pos: nat)
    requires a.Valid() && pos < a.size
    modifies a
    ensures a.Valid() && a.size == old(a.size)
    ensures a.Bits() == old(a.Bits())[pos := false]
  {
    var _ := a.Set(pos);
    var _ := a.Unset(pos);
  }

  /** Flipping a bit twice restores the array. */
  method FlipTwice(a: BitArray, pos: nat)
    requires a.Valid()
    modifies a
    ensures a.Valid() && a.size == old(a.size) && a.Bits() == old(a.Bits())
  {
    var _ := a.Flip(pos);
    var _ := a.Flip(pos);
  }

  /**
   * An array made from the LSB-first packing of some bits enumerates exactly those bits and
   * exports exactly the packed bytes.
   */
  method SerializationRoundTrip(bits: seq<bool>) returns (each: seq<bool>, raw: seq<bv8>)
    requires |bits| % 8 == 0
    ensures each == bits && raw == PackBits(bits)
  {
    var packed := PackBits(bits);
    var created := BitArray.New(Str(packed));
    var a := created.value;
    assert a.Bits() == bits by {
      BitsOfPackBits(bits);
    }
    each := a.Each();
    raw := a.Raw();
  }
}
