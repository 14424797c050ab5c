/**
 * `Blooming::BloomFilter`: `m` bits in one `BitArray`, and `k` positions per key. Adding a
 * key sets its positions; a key is reported present when all of its positions are set, so
 * a key that was added is always reported present (no false negatives) until the filter is
 * cleared or replaced.
 */
module BloomFilters {
  import opened Results
  import opened Bits
  import opened BitArrays
  import opened BloomHashing

  // ---------------------------------------------------------------------------
  // The filter's bits as a sequence, and what adding and testing positions do to it.

  /** Every position in `ps` addresses one of `n` bits. */
  predicate InRange(ps: seq<nat>, n: nat) {
    forall i :: 0 <= i < |ps| ==> ps[i] < n
  }

  /** Ruby's `ps.all? { |p| bits[p] }`, testing the positions in order. */
  predicate AllSet(bits: seq<bool>, ps: seq<nat>)
    requires InRange(ps, |bits|)
    ensures AllSet(bits, ps) ==> forall i :: 0 <= i < |ps| ==> bits[ps[i]]
  {
    |ps| == 0 || (bits[ps[0]] && AllSet(bits, ps[1..]))
  }

  lemma {:induction false} AllSetMeans(bits: seq<bool>, ps: seq<nat>)
    requires InRange(ps, |bits|)
    ensures AllSet(bits, ps) <==> forall p :: p in ps ==> bits[p]
  {
    if |ps| > 0 {
      AllSetMeans(bits, ps[1..]);
      assert ps == [ps[0]] + ps[1..];
    }
  }

  /** The bits after `ps.each { |p| bits.set!(p) }`. */
  function Insert(bits: seq<bool>, ps: seq<nat>): (r: seq<bool>)
    requires InRange(ps, |bits|)
    ensures |r| == |bits|
  {
    if |ps| == 0 then bits else Insert(bits, ps[..|ps| - 1])[ps[|ps| - 1] := true]
  }

  /** Inserting sets exactly the inserted positions and clears none. */
  lemma {:induction false} InsertAt(bits: seq<bool>, ps: seq<nat>, j: nat)
    requires InRange(ps, |bits|) && j < |bits|
    ensures Insert(bits, ps)[j] == (bits[j] || j in ps)
  {
    if |ps| > 0 {
      var n := |ps| - 1;
      InsertAt(bits, ps[..n], j);
      assert ps == ps[..n] + [ps[n]];
    }
  }

  /** After inserting a key's positions, all of them test as set. */
  lemma InsertSetsAll(bits: seq<bool>, ps: seq<nat>)
    requires InRange(ps, |bits|)
    ensures AllSet(Insert(bits, ps), ps)
  {
    forall p | p in ps
      ensures Insert(bits, ps)[p]
    {
      InsertAt(bits, ps, p);
    }
    AllSetMeans(Insert(bits, ps), ps);
  }

  /** Inserting more positions keeps every position that tested as set. */
  lemma InsertKeepsAllSet(bits: seq<bool>, qs: seq<nat>, ps: seq<nat>)
    requires InRange(qs, |bits|) && InRange(ps, |bits|)
    requires AllSet(bits, ps)
    ensures AllSet(Insert(bits, qs), ps)
  {
    AllSetMeans(bits, ps);
    forall p | p in ps
      ensures Insert(bits, qs)[p]
    {
      InsertAt(bits, qs, p);
    }
    AllSetMeans(Insert(bits, qs), ps);
  }

  /** The bits after inserting each batch of positions in `batches`, in order. */
  function InsertAll(bits: seq<bool>, batches: seq<seq<nat>>): (r: seq<bool>)
    requires forall i :: 0 <= i < |batches| ==> InRange(batches[i], |bits|)
    ensures |r| == |bits|
  {
    if |batches| == 0 then bits
    else Insert(InsertAll(bits, batches[..|batches| - 1]), batches[|batches| - 1])
  }

  /**
   * No false negatives: once a key's positions are inserted, they all still test as set after
   * any later insertions.
   */
  lemma {:induction false} NoFalseNegatives(bits: seq<bool>, ps: seq<nat>, later: seq<seq<nat>>)
    requires InRange(ps, |bits|)
    requires forall i :: 0 <= i < |later| ==> InRange(later[i], |bits|)
    ensures AllSet(InsertAll(Insert(bits, ps), later), ps)
  {
    if |later| == 0 {
      InsertSetsAll(bits, ps);
    } else {
      var n := |later| - 1;
      NoFalseNegatives(bits, ps, later[..n]);
      InsertKeepsAllSet(InsertAll(Insert(bits, ps), later[..n]), later[n], ps);
    }
  }

  /** `ps.reject { |p| bits[p] }`: the positions of `ps` that are not set, in order. */
  function Unset(bits: seq<bool>, ps: seq<nat>): (r: seq<nat>)
    requires InRange(ps, |bits|)
    ensures InRange(r, |bits|)
  {
    if |ps| == 0 then []
    else
      var rest := Unset(bits, ps[..|ps| - 1]);
      if bits[ps[|ps| - 1]] then rest else rest + [ps[|ps| - 1]]
  }

  lemma {:induction false} UnsetMembers(bits: seq<bool>, ps: seq<nat>)
    requires InRange(ps, |bits|)
    ensures forall p :: p in Unset(bits, ps) <==> p in ps && !bits[p]
  {
    if |ps| > 0 {
      var n := |ps| - 1;
      UnsetMembers(bits, ps[..n]);
      assert ps == ps[..n] + [ps[n]];
    }
  }

  /** Inserting only the unset positions gives the same bits as inserting all of them. */
  lemma InsertUnset(bits: seq<bool>, ps: seq<nat>)
    requires InRange(ps, |bits|)
    ensures Insert(bits, Unset(bits, ps)) == Insert(bits, ps)
  {
    var only, all := Insert(bits, Unset(bits, ps)), Insert(bits, ps);
    forall j | 0 <= j < |bits|
      ensures only[j] == all[j]
    {
      InsertAt(bits, Unset(bits, ps), j);
      InsertAt(bits, ps, j);
      UnsetMembers(bits, ps);
    }
    assert |only| == |all|;
  }

  /** Some position is unset exactly when not all of them test as set. */
  lemma UnsetEmpty(bits: seq<bool>, ps: seq<nat>)
    requires InRange(ps, |bits|)
    ensures |Unset(bits, ps)| == 0 <==> AllSet(bits, ps)
  {
    UnsetMembers(bits, ps);
    AllSetMeans(bits, ps);
    if |Unset(bits, ps)| > 0 {
      assert Unset(bits, ps)[0] in Unset(bits, ps);
    }
  }

  // ---------------------------------------------------------------------------
  // Construction.

  const HASH_LIMIT_16: int := 0x1_0000
  const HASH_LIMIT_32: int := 0x1_0000_0000

  /**
   * The checks of `initialize` as the code makes them: pick the lane width from `m`, refusing
   * `m >= 2**32`, then refuse an `m` that is not a multiple of 8. Nothing refuses `m <= 0`.
   */
  function InitializeAsWritten(m: int, k: nat): (r: Result<Lane>)
    ensures r.Success? <==> m < HASH_LIMIT_32 && m % 8 == 0
    ensures r.Success? ==> (r.value == Lane16 <==> m < HASH_LIMIT_16)
  {
    var lane :- if m < HASH_LIMIT_16 then Success(Lane16)
                else if m < HASH_LIMIT_32 then Success(Lane32)
                else Failure(ArgumentError("Huge filters are silly. Use multiple smaller ones."));
    if m % 8 != 0 then Failure(ArgumentError("m must be multiple of 8")) else Success(lane)
  }

  /** A filter of zero bits passes the checks as written, though it has no position to hash to. */
  lemma ZeroSizedFilterAccepted()
    ensures InitializeAsWritten(0, 20) == Success(Lane16)
    ensures InitializeAsWritten(-8, 20) == Success(Lane16)
  {
  }

  /** The checks of `initialize`, refusing also a size that is not positive. */
  function Initialize(m: int, k: nat): (r: Result<Lane>)
    ensures r.Success? <==> 0 < m < HASH_LIMIT_32 && m % 8 == 0
    ensures r.Success? ==> (r.value == Lane16 <==> m < HASH_LIMIT_16)
  {
    var lane :- InitializeAsWritten(m, k);
    if m <= 0 then Failure(ArgumentError("m must be positive")) else Success(lane)
  }

  /** For a positive size the corrected checks are the checks as written. */
  lemma InitializeAgrees(m: int, k: nat)
    requires m > 0
    ensures Initialize(m, k) == InitializeAsWritten(m, k)
  {
  }

  // ---------------------------------------------------------------------------
  // The two loops over a key's positions.

  /** `ps.each { |p| f.set!(p) }`. */
  method SetPositions(f: BitArray, ps: seq<nat>)
    requires f.Valid() && InRange(ps, f.size)
    modifies f
    ensures f.Valid() && f.size == old(f.size)
    ensures f.Bits() == Insert(old(f.Bits()), ps)
  {
    ghost var start := f.Bits();
    var i := 0;
    while i < |ps|
      invariant 0 <= i <= |ps|
      invariant f.Valid() && f.size == old(f.size)
      invariant f.Bits() == Insert(start, ps[..i])
    {
      var _ := f.Set(ps[i]);
      InsertStep(start, ps, i);
      i := i + 1;
    }
    assert ps[..i] == ps;
  }

  /** One more turn of the `each` loop sets one more position. */
  lemma InsertStep(bits: seq<bool>, ps: seq<nat>, i: nat)
    requires InRange(ps, |bits|) && i < |ps|
    ensures Insert(bits, ps[..i + 1]) == Insert(bits, ps[..i])[ps[i] := true]
  {
    assert ps[..i + 1][..i] == ps[..i];
  }

  /** `ps.reject { |p| f.set?(p) }`. */
  method UnsetPositions(f: BitArray, ps: seq<nat>) returns (unset: seq<nat>)
    requires f.Valid() && InRange(ps, f.size)
    modifies f
    ensures f.Valid() && f.size == old(f.size) && f.Bits() == old(f.Bits())
    ensures unset == Unset(f.Bits(), ps)
  {
    unset := [];
    var i := 0;
    while i < |ps|
      invariant 0 <= i <= |ps|
      invariant f.Valid() && f.size == old(f.size) && f.Bits() == old(f.Bits())
      invariant unset == Unset(f.Bits(), ps[..i])
    {
      var isSet := f.IsSet(ps[i]);
      assert ps[..i + 1][..i] == ps[..i];
      if !isSet.value {
        unset := unset + [ps[i]];
      }
      i := i + 1;
    }
    assert ps[..i] == ps;
  }

  // ---------------------------------------------------------------------------
  // The filter object.

  class BloomFilter {
    /** The number of bits. */
    const m: nat
    /** The number of positions per key. */
    const k: nat
    /** The lane width `@unpack` reads positions with. */
    const lane: Lane
    /** `@hashes_needed`. */
    const hashesNeeded: nat
    /** `HashFunction.digest`, SHA-512. */
    const digest: seq<bv8> -> Block
    /** `@filter`, created on first use. */
    var filter: BitArray?

    /** The parameters passed the constructor's checks and `hashesNeeded` was derived from them. */
    predicate Configured() {
      Initialize(m, k) == Success(lane) && hashesNeeded == HashesNeeded(k, lane)
    }

    ghost predicate Valid()
      reads this, filter
    {
      Configured() && (filter != null ==> filter.Valid() && filter.size == m)
    }

    /** The filter's bits; all zero while `@filter` has not been created. */
    function Bits(): (r: seq<bool>)
      requires Valid()
      reads this, filter
      ensures |r| == m
    {
      if filter == null then Repeat(false, m) else filter.Bits()
    }

    /** The filter's bytes; `m / 8` zero bytes while `@filter` has not been created. */
    function Bytes(): (r: seq<bv8>)
      requires Valid()
      reads this, filter
      ensures 8 * |r| == m && BitsOf(r) == Bits()
    {
      BitsOfZeroBytes(m / 8);
      if filter == null then ZeroBytes(m / 8) else filter.Bytes()
    }

    /** The `k` positions of a key with string form `key`. */
    function Hashes(key: seq<bv8>): (r: seq<nat>)
      requires Configured()
      ensures InRange(r, m) && |r| == k
    {
      KeyToHashes(digest, key, m, k, lane)
    }

    constructor Create(m: nat, k: nat, lane: Lane, digest: seq<bv8> -> Block)
      requires Initialize(m, k) == Success(lane)
      ensures Valid() && filter == null
      ensures this.m == m && this.k == k && this.lane == lane && this.digest == digest
    {
      this.m := m;
      this.k := k;
      this.lane := lane;
      this.hashesNeeded := HashesNeeded(k, lane);
      this.digest := digest;
      filter := null;
    }

    /**
     * `BloomFilter.new(m:, k:)`: a filter of `m` bits with no bit set, refused with
     * ArgumentError unless `m` is a positive multiple of 8 below `2**32`; the lane width is
     * 16 bits below `2**16` and 32 bits otherwise.
     */
    static method New(m: int, k: nat, digest: seq<bv8> -> Block) returns (r: Result<BloomFilter>)
      ensures r.Success? <==> 0 < m < HASH_LIMIT_32 && m % 8 == 0
      ensures r.Failure? ==> r == Failure(Initialize(m, k).error)
      ensures r.Success? ==>
                fresh(r.value) && r.value.Valid() && r.value.m == m && r.value.k == k &&
                (r.value.lane == Lane16 <==> m < HASH_LIMIT_16) &&
                r.value.filter == null && r.value.Bits() == Repeat(false, m)
    {
      var lane :- Initialize(m, k);
      var bf := new BloomFilter.Create(m, k, lane, digest);
      r := Success(bf);
    }

    /** `filter`: the bit array, created with `m` zero bits on first use. */
    method Filter() returns (f: BitArray)
      requires Valid()
      modifies this
      ensures Valid() && filter == f && Bits() == old(Bits()) && Bytes() == old(Bytes())
      ensures old(filter) == null ==> fresh(f)
      ensures old(filter) != null ==> f == old(filter)
    {
      if filter == null {
        var created := BitArray.New(Int(m));
        filter := created.value;
      }
      f := filter;
    }

    /** `filter=(f)`: replace the bit array by one of the same size; any other size is refused. */
    method SetFilter(f: BitArray) returns (r: Result<BitArray>)
      requires Valid() && f.Valid()
      modifies this
      ensures Valid()
      ensures f.size == m ==> r == Success(f) && filter == f
      ensures f.size != m ==> r == Failure(ArgumentError("filter size mismatch")) && filter == old(filter)
    {
      if f.size != m {
        return Failure(ArgumentError("filter size mismatch"));
      }
      filter := f;
      r := Success(f);
    }

    /**
     * `include?(key)`: whether every position of the key is set. A key reported absent was
     * never added since the last clear; a key reported present may not have been.
     */
    predicate Include(key: seq<bv8>)
      requires Valid()
      reads this, filter
      ensures Include(key) <==> forall p :: p in Hashes(key) ==> Bits()[p]
    {
      AllSetMeans(Bits(), Hashes(key));
      AllSet(Bits(), Hashes(key))
    }

    /** `<<(key)` (alias `add`): set every position of the key; returns the filter. */
    method Add(key: seq<bv8>) returns (r: BloomFilter)
      requires Valid()
      modifies this, filter
      ensures Valid() && r == this && filter != null
      ensures old(filter) == null ==> fresh(filter)
      ensures old(filter) != null ==> filter == old(filter)
      ensures Bits() == Insert(old(Bits()), Hashes(key))
      ensures Include(key)
    {
      var hashes := Hashes(key);
      var f := Filter();
      SetPositions(f, hashes);
      InsertSetsAll(old(Bits()), hashes);
      r := this;
    }

    /**
     * `add?(key)`: collect the key's positions that are not set, then set them; true when
     * there was at least one, that is, when the key was not already reported present.
     */
    method AddIfAbsent(key: seq<bv8>) returns (added: bool)
      requires Valid()
      modifies this, filter
      ensures Valid() && filter != null
      ensures old(filter) == null ==> fresh(filter)
      ensures old(filter) != null ==> filter == old(filter)
      ensures added == !old(Include(key))
      ensures Bits() == Insert(old(Bits()), Hashes(key))
      ensures Include(key)
    {
      var hashes := Hashes(key);
      var f := Filter();
      ghost var before := f.Bits();
      var unset := UnsetPositions(f, hashes);
      SetPositions(f, unset);
      InsertUnset(before, hashes);
      UnsetEmpty(before, hashes);
      InsertSetsAll(before, hashes);
      added := |unset| > 0;
    }

    /**
     * `empty?` as the code has it: it asks the bit array for `empty?`, which the byte-backed
     * bit array does not define, so the call raises NoMethodError whatever the bits are.
     */
    method EmptyAsWritten() returns (r: Result<bool>)
      requires Valid()
      modifies this
      ensures Valid() && Bits() == old(Bits())
      ensures old(filter) == null ==> fresh(filter)
      ensures old(filter) != null ==> filter == old(filter)
      ensures r == Failure(NoMethodError("undefined method `empty?' for Blooming::BitArray"))
    {
      var _ := Filter();
      r := Failure(NoMethodError("undefined method `empty?' for Blooming::BitArray"));
    }

    /** `empty?` as intended: true exactly when no bit is set, found by counting the set bits. */
    method Empty() returns (r: bool)
      requires Valid()
      modifies this, filter
      ensures Valid() && Bits() == old(Bits())
      ensures r <==> forall i :: 0 <= i < m ==> !Bits()[i]
      ensures old(filter) == null ==> fresh(filter)
      ensures old(filter) != null ==> filter == old(filter)
    {
      var f := Filter();
      var c := f.Cardinality();
      CountZero(f.Bits());
      r := c == 0;
    }

    /** `saturated?`: whether more than half of the bits are set. */
    method Saturated() returns (r: bool)
      requires Valid()
      modifies this, filter
      ensures Valid() && Bits() == old(Bits())
      ensures r <==> 2 * Count(Bits()) > m
      ensures old(filter) == null ==> fresh(filter)
      ensures old(filter) != null ==> filter == old(filter)
    {
      var f := Filter();
      var c := f.Cardinality();
      r := 2 * c > f.size;
    }

    /** `clear!`: reset every bit; returns the bit array. */
    method Clear() returns (r: BitArray)
      requires Valid()
      modifies this, filter
      ensures Valid() && r == filter
      ensures old(filter) == null ==> fresh(filter)
      ensures old(filter) != null ==> filter == old(filter)
      ensures Bits() == Repeat(false, m)
    {
      var f := Filter();
      r := f.Clear();
    }

    /** `to_s`: the filter's `m / 8` bytes, without `m` or `k`. */
    method ToS() returns (bytes: seq<bv8>)
      requires Valid()
      modifies this, filter
      ensures Valid() && Bits() == old(Bits())
      ensures bytes == old(Bytes()) && 8 * |bytes| == m
      ensures old(filter) == null ==> fresh(filter)
      ensures old(filter) != null ==> filter == old(filter)
    {
      var f := Filter();
      bytes := f.Raw();
    }

    /**
     * `from_s(bytes)`: take `bytes` as the filter's bits, refused with ArgumentError unless
     * there are exactly `m / 8` of them.
     */
    method FromS(bytes: seq<bv8>) returns (r: Result<BitArray>)
      requires Valid()
      modifies this
      ensures Valid()
      ensures |bytes| == m / 8 ==> r.Success? && fresh(filter) && Bytes() == bytes && Bits() == BitsOf(bytes)
      ensures |bytes| != m / 8 ==>
                r == Failure(ArgumentError("expected " + DecimalString(m / 8) + " byte filter, provided "
                                           + DecimalString(|bytes|))) &&
                filter == old(filter)
    {
      if |bytes| != m / 8 {
        return Failure(ArgumentError("expected " + DecimalString(m / 8) + " byte filter, provided "
                                     + DecimalString(|bytes|)));
      }
      var created := BitArray.New(Str(bytes));
      r := SetFilter(created.value);
    }
  }

  // ---------------------------------------------------------------------------
  // Callers' view: what a sequence of calls guarantees.

  /** A key added once is reported present after any number of further additions. */
  method AddThenAddOthers(bf: BloomFilter, key: seq<bv8>, others: seq<seq<bv8>>)
    requires bf.Valid()
    modifies bf, bf.filter
    ensures bf.Valid() && bf.Include(key)
  {
    var _ := bf.Add(key);
    var i := 0;
    while i < |others|
      invariant 0 <= i <= |others|
      invariant bf.Valid() && bf.filter != null && bf.Include(key)
      invariant old(bf.filter) == null ==> fresh(bf.filter)
      invariant old(bf.filter) != null ==> bf.filter == old(bf.filter)
    {
      ghost var bits := bf.Bits();
      var added := bf.AddIfAbsent(others[i]);
      AllSetMeans(bits, bf.Hashes(key));
      InsertKeepsAllSet(bits, bf.Hashes(others[i]), bf.Hashes(key));
      i := i + 1;
    }
  }

  /** Adding the same key twice with `add?`: the second call reports nothing new. */
  method AddIfAbsentTwice(bf: BloomFilter, key: seq<bv8>) returns (first: bool, second: bool)
    requires bf.Valid()
    modifies bf, bf.filter
    ensures bf.Valid() && !second
  {
    first := bf.AddIfAbsent(key);
    second := bf.AddIfAbsent(key);
  }

  /** The empty? test on a fresh filter: the code as written raises where a fresh filter is empty. */
  method EmptyOnFreshFilter(digest: seq<bv8> -> Block) returns (asWritten: Result<bool>, intended: bool)
    ensures asWritten.Failure? && intended
  {
    var created := BloomFilter.New(2880, 20, digest);
    var bf := created.value;
    asWritten := bf.EmptyAsWritten();
    intended := bf.Empty();
  }

  /**
   * The life of one filter: fresh it is neither saturated nor empty-tested false; the first
   * `add?` of a key reports it new and the second does not; the filter is then not empty,
   * and after `clear!` it is empty again.
   */
  method EmptyLifecycle(digest: seq<bv8> -> Block)
    returns (saturated: bool, emptyAtStart: bool, first: bool, second: bool,
             emptyAfterAdd: bool, emptyAfterClear: bool)
    ensures !saturated && emptyAtStart && first && !second && !emptyAfterAdd && emptyAfterClear
  {
    var created := BloomFilter.New(2880, 20, digest);
    var bf := created.value;
    CountZero(bf.Bits());
    saturated := bf.Saturated();
    emptyAtStart := bf.Empty();
    var key := [0x62, 0x6f, 0x6f, 0x70];  // "boop"
    var p := bf.Hashes(key)[0];
    assert p in bf.Hashes(key) && !bf.Bits()[p];
    first := bf.AddIfAbsent(key);
    second := bf.AddIfAbsent(key);
    assert bf.Bits()[p];
    emptyAfterAdd := bf.Empty();
    var _ := bf.Clear();
    emptyAfterClear := bf.Empty();
  }

  /** Importing a filter's bytes and exporting them again gives the same bytes. */
  method FromSThenToS(bf: BloomFilter, bytes: seq<bv8>) returns (r: Result<BitArray>, out: seq<bv8>)
    requires bf.Valid() && |bytes| == bf.m / 8
    modifies bf
    ensures r.Success? && out == bytes
  {
    r := bf.FromS(bytes);
    out := bf.ToS();
  }
}
