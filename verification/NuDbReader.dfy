/** Opening a NuDB store and fetching values by key, through spilled buckets. */
module NuDbReader {
  import opened Prelude
  import opened Bytes
  import opened NuDbFormat

  const KEY_MAGIC: bytes := [0x6E, 0x75, 0x64, 0x62, 0x2E, 0x6B, 0x65, 0x79]
  const KEY_SIZE: nat := 32

  datatype Shard = Shard(dat: bytes, key: bytes, salt: u64, blockSize: nat, numBuckets: nat, modulus: nat)

  // ---------------------------------------------------------------------------------------------
  // Geometry

  /** `m` doubled until it reaches `n`. */
  function Doubled(m: nat, n: nat): (r: nat)
    requires m > 0
    ensures r >= n && r >= m
    decreases n - m
  {
    if m >= n then m else Doubled(2 * m, n)
  }

  /** The smallest power of two that is at least `n`. */
  function Modulus(n: nat): (m: nat)
    ensures m > 0
  {
    Doubled(1, n)
  }

  predicate PowerOfTwo(m: nat) {
    m == 1 || (m > 1 && m % 2 == 0 && PowerOfTwo(m / 2))
  }

  lemma {:induction false} DoubledSmallest(m: nat, n: nat)
    requires PowerOfTwo(m)
    ensures PowerOfTwo(Doubled(m, n))
    ensures Doubled(m, n) > m ==> Doubled(m, n) / 2 < n
    decreases n - m
  {
    if m < n {
      assert (2 * m) / 2 == m;
      DoubledSmallest(2 * m, n);
    }
  }

  /** A power of two that is at least `n` while its half is not; there is only one. */
  lemma ModulusSmallest(n: nat)
    ensures PowerOfTwo(Modulus(n)) && Modulus(n) >= n && (Modulus(n) == 1 || Modulus(n) / 2 < n)
  {
    DoubledSmallest(1, n);
  }

  /** Linear hashing: reduce, and halve once if the bucket does not exist. */
  function BucketIndex(nhash: nat, numBuckets: nat, modulus: nat): int
    requires modulus > 0
  {
    var n := nhash % modulus;
    if n >= numBuckets then n - modulus / 2 else n
  }

  lemma BucketExists(nhash: nat, numBuckets: nat)
    requires numBuckets > 0
    ensures 0 <= BucketIndex(nhash, numBuckets, Modulus(numBuckets)) < numBuckets
  {
    ModulusSmallest(numBuckets);
  }

  /**
   * NuDB's linear hashing. With the smallest power of two that is at least the number of buckets, a key
   * is in the one bucket its hash is congruent to, and if there is none, in the one it is congruent to by
   * half that power.
   */
  lemma LinearHashing(nhash: nat, numBuckets: nat, m: nat)
    requires numBuckets > 0 && PowerOfTwo(m) && m >= numBuckets && (m == 1 || m / 2 < numBuckets)
    ensures
      var b := BucketIndex(nhash, numBuckets, Modulus(numBuckets));
      && 0 <= b < numBuckets && (forall x :: 0 <= x < numBuckets && Congruent(x, nhash, m) ==> b == x)
      && ((forall x :: 0 <= x < numBuckets ==> !Congruent(x, nhash, m)) ==>
            m > 1 && b < m / 2 && Congruent(b, nhash, m / 2))
  {
    hide Congruent;
    OnePower(m, numBuckets);
    var r := nhash % m;
    forall x: nat | x < numBuckets ensures Congruent(x, nhash, m) <==> x == r {
      SmallResidue(x, nhash, m);
    }
    if r >= numBuckets {
      HalfPower(m);
      var h := m / 2;
      UpperHalf(nhash, h);
      assert 2 * h == m && nhash % (2 * h) == r;
      assert BucketIndex(nhash, numBuckets, m) == r - h;
    } else {
      assert BucketIndex(nhash, numBuckets, m) == r;
      assert Congruent(r, nhash, m);
    }
  }

  /** The same remainder by `m`. */
  predicate Congruent(a: nat, b: nat, m: nat)
    requires m > 0
  {
    a % m == b % m
  }

  lemma SmallResidue(x: nat, n: nat, m: nat)
    requires x < m
    ensures Congruent(x, n, m) <==> x == n % m
  {
    Small(x, m);
  }

  /** A remainder in the upper half of `2 * h` is `h` more than the remainder by `h`. */
  lemma UpperHalf(n: nat, h: nat)
    requires h > 0 && n % (2 * h) >= h
    ensures n % (2 * h) - h < h && Congruent(n % (2 * h) - h, n, h)
  {
    HalfResidue(n, h);
    Small(n % h, h);
  }

  lemma Small(x: nat, m: nat)
    requires x < m
    ensures x % m == x
  {
  }

  lemma HalfPower(m: nat)
    requires PowerOfTwo(m) && m > 1
    ensures m == 2 * (m / 2) && m / 2 >= 1
  {
  }

  /** The remainder by twice `h` is the remainder by `h`, or that and `h`. */
  lemma HalfResidue(n: nat, h: nat)
    requires h > 0
    ensures n % (2 * h) == n % h || n % (2 * h) == n % h + h
  {
    var x, y := n / h, n % h;
    var z := x / 2;
    assert n == x * h + y;
    if x % 2 == 0 {
      Doubling(x, z, h);
      DivMod(z, 2 * h, y);
    } else {
      Doubling(x - 1, z, h);
      assert (x - 1) * h == x * h - h;
      DivMod(z, 2 * h, y + h);
    }
  }

  lemma Doubling(x: nat, z: nat, h: nat)
    requires x == 2 * z
    ensures x * h == z * (2 * h)
  {
  }

  /** There is one power of two that is at least `n` while its half is not. */
  lemma {:induction false} OnePower(m: nat, n: nat)
    requires n > 0 && PowerOfTwo(m) && m >= n && (m == 1 || m / 2 < n)
    ensures m == Modulus(n)
  {
    ModulusSmallest(n);
    if m < Modulus(n) {
      PowersApart(m, Modulus(n));
    } else if Modulus(n) < m {
      PowersApart(Modulus(n), m);
    }
  }

  lemma {:induction false} PowersApart(a: nat, b: nat)
    requires PowerOfTwo(a) && PowerOfTwo(b) && a < b
    ensures a <= b / 2
  {
    if a > 1 {
      PowersApart(a / 2, b / 2);
    }
  }

  /** Growth: a new bucket takes keys only from the bucket it splits, and moves no others. */
  lemma GrowthSplits(nhash: nat, n: nat)
    requires n > 0
    ensures
      var before, after := BucketIndex(nhash, n, Modulus(n)), BucketIndex(nhash, n + 1, Modulus(n + 1));
      after == before || (after == n && before == n - Modulus(n + 1) / 2)
  {
    var m, k := Modulus(n), Modulus(n + 1);
    ModulusSmallest(n);
    ModulusSmallest(n + 1);
    if n + 1 <= m {
      OnePower(m, n + 1);
    } else {
      GrowsByDoubling(n);
      HalfResidue(nhash, n);
      TwiceHalf(n);
    }
  }

  lemma TwiceHalf(n: nat)
    ensures (2 * n) / 2 == n
  {
  }

  /** The modulus doubles exactly when the buckets fill it. */
  lemma GrowsByDoubling(n: nat)
    requires n > 0 && n + 1 > Modulus(n)
    ensures Modulus(n) == n && Modulus(n + 1) == 2 * n
  {
    ModulusSmallest(n);
    assert (2 * n) / 2 == n;
    OnePower(2 * n, n + 1);
  }

  /** The doubling loop shared by the writer and the reader. */
  method FindModulus(numBuckets: nat) returns (modulus: nat)
    ensures modulus == Modulus(numBuckets)
  {
    modulus := 1;
    while modulus < numBuckets
      invariant modulus > 0 && Doubled(modulus, numBuckets) == Modulus(numBuckets)
      decreases numBuckets - modulus
    {
      modulus := modulus * 2;
    }
  }

  // ---------------------------------------------------------------------------------------------
  // Opening

  /** The salt and the block size in a key file's header. */
  function KeyFields(key: bytes): (r: Result<(u64, nat)>)
    ensures r.Success? ==> r.value.1 > 0
  {
    if |key| < 64 || key[0..8] != KEY_MAGIC || Field(key, 26, 2) != KEY_SIZE || Field(key, 44, 2) == 0 then Failure
    else
      FromBEBound(key[28..36]);
      Widths();
      Success((Field(key, 28, 8), Field(key, 44, 2)))
  }

  /** How many blocks follow the header block; the subtraction wraps at 64 bits. */
  function BlockCount(fileSize: nat, blockSize: nat): nat
    requires blockSize > 0
  {
    ((fileSize - blockSize) % 0x1_0000_0000_0000_0000) / blockSize
  }

  function Opened(dat: bytes, key: bytes): Result<Shard> {
    var fields :- KeyFields(key);
    var numBuckets := BlockCount(|key|, fields.1);
    Success(Shard(dat, key, fields.0, fields.1, numBuckets, Modulus(numBuckets)))
  }

  method Open(dat: bytes, key: bytes) returns (r: Result<Shard>)
    ensures r == Opened(dat, key)
  {
    hide KeyFields, BlockCount;
    var fields := KeyFields(key);
    if fields.Failure? {
      return Failure;
    }
    var numBuckets := BlockCount(|key|, fields.value.1);
    var modulus := FindModulus(numBuckets);
    return Success(Shard(dat, key, fields.value.0, fields.value.1, numBuckets, modulus));
  }

  // ---------------------------------------------------------------------------------------------
  // Fetching

  /** The block of a bucket in the key file. */
  function PrimaryBlock(s: Shard, bucket: int): Result<bytes> {
    var at := s.blockSize * (bucket + 1);
    if bucket < 0 || |s.key| < at + s.blockSize then Failure else Success(s.key[at..at + s.blockSize])
  }

  /** The body of a spilled bucket in the data file. */
  function SpillBlock(dat: bytes, at: nat): Result<bytes> {
    if |dat| < at + BUCKET_HEADER then Failure
    else
      var len := BUCKET_HEADER + Field(dat, at, 2) * ENTRY_SIZE;
      if |dat| < at + len then Failure else Success(dat[at..at + len])
  }

  /** The first of the entries from `i` on that has the hash and whose record has the key. */
  function Scan(dat: bytes, block: bytes, key: Hash256, nhash: nat, i: nat, count: nat): Result<Option<bytes>>
    decreases count - i
  {
    if i >= count then Success(None)
    else
      var e :- EntryAt(block, i);
      if e.nhash != nhash then Scan(dat, block, key, nhash, i + 1, count)
      else
        var found :- KeyAt(dat, e.offset);
        if found != key then Scan(dat, block, key, nhash, i + 1, count)
        else
          var value :- ValueAt(dat, e);
          Success(Some(value))
  }

  /** Each spill pointer leads to a block that lies before the block it was found in. */
  ghost predicate Descends(dat: bytes, block: bytes, limit: nat)
    decreases limit
  {
    |block| >= BUCKET_HEADER ==>
      var spill := Field(block, 2, 6);
      spill == 0 || SpillBlock(dat, spill).Failure? ||
      (spill < limit && Descends(dat, SpillBlock(dat, spill).value, spill))
  }

  /** Scanning a block and then whatever it spills to. */
  ghost function Follow(dat: bytes, block: bytes, key: Hash256, nhash: nat, limit: nat): Result<Option<bytes>>
    requires Descends(dat, block, limit)
    decreases limit
  {
    if |block| < BUCKET_HEADER then Failure
    else
      var here :- Scan(dat, block, key, nhash, 0, Field(block, 0, 2));
      var spill := Field(block, 2, 6);
      if here.Some? || spill == 0 then Success(here)
      else
        match SpillBlock(dat, spill)
        case Failure => Failure
        case Success(next) => Follow(dat, next, key, nhash, spill)
  }

  /** Chains from the bucket of every key descend. */
  ghost predicate Sound(s: Shard) {
    && s.modulus > 0
    && forall bucket :: 0 <= bucket && PrimaryBlock(s, bucket).Success? ==>
        Descends(s.dat, PrimaryBlock(s, bucket).value, |s.dat|)
  }

  /** What fetching `key` returns. */
  ghost function Fetched(hash64: Hash64, s: Shard, key: Hash256): Result<Option<bytes>>
    requires Sound(s)
  {
    var nhash := NHash(hash64, key, s.salt);
    var block :- PrimaryBlock(s, BucketIndex(nhash, s.numBuckets, s.modulus));
    Follow(s.dat, block, key, nhash, |s.dat|)
  }

  /** Looks up a key; it terminates because chains descend. */
  method Fetch(hash64: Hash64, s: Shard, key: Hash256) returns (r: Result<Option<bytes>>)
    requires Sound(s)
    ensures r == Fetched(hash64, s, key)
  {
    hide Scan;
    var nhash := NHash(hash64, key, s.salt);
    var first := PrimaryBlock(s, BucketIndex(nhash, s.numBuckets, s.modulus));
    if first.Failure? {
      return Failure;
    }
    var block := first.value;
    ghost var limit: nat := |s.dat|;
    while true
      invariant Descends(s.dat, block, limit)
      invariant Follow(s.dat, block, key, nhash, limit) == Fetched(hash64, s, key)
      decreases limit
    {
      if |block| < BUCKET_HEADER {
        return Failure;
      }
      var count, spill := Field(block, 0, 2), Field(block, 2, 6);
      var here := ScanBlock(s.dat, block, key, nhash, count);
      if here.Failure? || here.value.Some? {
        return here;
      }
      if spill == 0 {
        return Success(None);
      }
      var next := SpillBlock(s.dat, spill);
      if next.Failure? {
        return Failure;
      }
      block, limit := next.value, spill;
    }
  }

  method ScanBlock(dat: bytes, block: bytes, key: Hash256, nhash: nat, count: nat) returns (r: Result<Option<bytes>>)
    ensures r == Scan(dat, block, key, nhash, 0, count)
  {
    for i := 0 to count
      invariant Scan(dat, block, key, nhash, i, count) == Scan(dat, block, key, nhash, 0, count)
    {
      var e := EntryAt(block, i);
      if e.Failure? {
        return Failure;
      }
      if e.value.nhash == nhash {
        var found := KeyAt(dat, e.value.offset);
        if found.Failure? {
          return Failure;
        }
        if found.value == key {
          var value := ValueAt(dat, e.value);
          return if value.Success? then Success(Some(value.value)) else Failure;
        }
      }
    }
    return Success(None);
  }
}
