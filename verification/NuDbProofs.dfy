/** What fetching from a finished store returns: for every 64-bit hash, exactly what was written. */
module NuDbProofs {
  import opened Prelude
  import opened Bytes
  import opened Sorting
  import opened Replay
  import opened NuDbFormat
  import opened NuDbReader
  import opened NuDbWriter

  // ---------------------------------------------------------------------------------------------
  // Fetching along a chain

  /** The value of the first entry with the hash whose record has the key. */
  ghost function Search(dat: bytes, es: seq<Entry>, key: Hash256, nhash: nat): Option<bytes> {
    if es == [] then None
    else if es[0].nhash == nhash && KeyAt(dat, es[0].offset) == Success(key) && ValueAt(dat, es[0]).Success? then
      Some(ValueAt(dat, es[0]).value)
    else Search(dat, es[1..], key, nhash)
  }

  /** Every entry leads to a record inside the file. */
  ghost predicate InFile(dat: bytes, es: seq<Entry>) {
    forall i :: 0 <= i < |es| ==> KeyAt(dat, es[i].offset).Success? && ValueAt(dat, es[i]).Success?
  }

  lemma {:induction false} SearchAppend(dat: bytes, a: seq<Entry>, b: seq<Entry>, key: Hash256, nhash: nat)
    ensures Search(dat, a + b, key, nhash) ==
            if Search(dat, a, key, nhash).Some? then Search(dat, a, key, nhash) else Search(dat, b, key, nhash)
  {
    if a == [] {
      assert a + b == b;
    } else {
      SearchAppend(dat, a[1..], b, key, nhash);
      assert (a + b)[1..] == a[1..] + b;
    }
  }

  lemma {:induction false} ScanSearches(dat: bytes, block: bytes, es: seq<Entry>, key: Hash256, nhash: nat, i: nat)
    requires i <= |es| && InFile(dat, es) && forall k :: 0 <= k < |es| ==> EntryAt(block, k) == Success(es[k])
    ensures Scan(dat, block, key, nhash, i, |es|) == Success(Search(dat, es[i..], key, nhash))
    decreases |es| - i
  {
    hide EntryAt, KeyAt, ValueAt;
    if i < |es| {
      assert es[i..][0] == es[i] && es[i..][1..] == es[i + 1..];
      ScanSearches(dat, block, es, key, nhash, i + 1);
    }
  }

  /** A block in front of a chain: fetching terminates and searches all the entries in order. */
  lemma {:induction false} FollowSearches(dat: bytes, block: bytes, here: seq<Entry>, at: nat, rest: seq<Entry>,
                                          key: Hash256, nhash: nat, limit: nat)
    requires IsBucket(block, here, at) && Chain(dat, at, rest, limit)
    ensures Descends(dat, block, limit)
    ensures InFile(dat, here + rest) ==>
        Follow(dat, block, key, nhash, limit) == Success(Search(dat, here + rest, key, nhash))
    decreases limit
  {
    hide Scan, Search, SpillBlock, EntryAt, KeyAt, ValueAt;
    if at == 0 {
      assert here + rest == here;
    } else {
      var next := SpillBlock(dat, at).value;
      var k := Min(BUCKET_CAPACITY, |rest|);
      assert rest == rest[..k] + rest[k..];
      FollowSearches(dat, next, rest[..k], Field(next, 2, 6), rest[k..], key, nhash, at);
    }
    if InFile(dat, here + rest) {
      assert forall i :: 0 <= i < |here| ==> (here + rest)[i] == here[i];
      assert forall i :: 0 <= i < |rest| ==> (here + rest)[|here| + i] == rest[i];
      assert here[0..] == here;
      ScanSearches(dat, block, here, key, nhash, 0);
      SearchAppend(dat, here, rest, key, nhash);
    }
  }

  // ---------------------------------------------------------------------------------------------
  // Searching the entries of a bucket

  lemma {:induction false} LookupAt(ws: seq<Write>, i: nat)
    requires i < |ws| && forall j :: 0 <= j < i ==> ws[j].hash != ws[i].hash
    ensures Lookup(ws, ws[i].hash) == Some(ws[i].value)
  {
    if i > 0 {
      assert ws[0].hash != ws[i].hash;
      LookupAt(ws[1..], i - 1);
    }
  }

  lemma {:induction false} LookupMissing(ws: seq<Write>, key: Hash256)
    requires key !in Hashes(ws)
    ensures Lookup(ws, key) == None
  {
    if ws != [] {
      assert ws[0] in ws;
      assert Hashes(ws[1..]) <= Hashes(ws);
      LookupMissing(ws[1..], key);
    }
  }

  ghost predicate DistinctHashes(ws: seq<Write>) {
    forall i, j :: 0 <= i < j < |ws| ==> ws[i].hash != ws[j].hash
  }

  lemma {:induction false} DedupedDistinct(calls: seq<Write>)
    ensures DistinctHashes(Deduped(calls))
  {
    if calls != [] {
      DedupedDistinct(calls[..|calls| - 1]);
      var before := Deduped(calls[..|calls| - 1]);
      assert forall i :: 0 <= i < |before| ==> before[i].hash in Hashes(before);
    }
  }

  lemma {:induction false} LookupSnoc(ws: seq<Write>, w: Write, key: Hash256)
    ensures Lookup(ws + [w], key) ==
            if key in Hashes(ws) then Lookup(ws, key) else if w.hash == key then Some(w.value) else None
  {
    if ws == [] {
      assert ws + [w] == [w] && [w][1..] == [];
    } else {
      assert (ws + [w])[1..] == ws[1..] + [w];
      assert Hashes(ws) == Hashes(ws[1..]) + {ws[0].hash} by {
        assert ws == [ws[0]] + ws[1..];
      }
      LookupSnoc(ws[1..], w, key);
    }
  }

  /** Dropping repeated hashes does not change what is looked up. */
  lemma {:induction false} DedupedLookup(calls: seq<Write>, key: Hash256)
    ensures Lookup(Deduped(calls), key) == Lookup(calls, key)
    ensures Hashes(Deduped(calls)) == Hashes(calls)
  {
    if calls != [] {
      var front, w := calls[..|calls| - 1], calls[|calls| - 1];
      var before := Deduped(front);
      DedupedLookup(front, key);
      assert calls == front + [w];
      HashesSnoc(front, w);
      HashesSnoc(before, w);
      LookupSnoc(front, w, key);
      LookupSnoc(before, w, key);
      if key !in Hashes(front) {
        LookupMissing(before, key);
      }
    }
  }

  /**
   * Among entries of distinct writes, the search finds the record of the key whatever else shares
   * its 48-bit hash, provided the entries include it.
   */
  lemma {:induction false} SearchFinds(hash64: Hash64, dat: bytes, placed: seq<Entry>, ws: seq<Write>, es: seq<Entry>,
                                       j: nat)
    requires AllPlaced(hash64, dat, placed, ws) && DistinctHashes(ws) && j < |ws|
    requires (forall e :: e in es ==> e in placed) && placed[j] in es
    ensures Search(dat, es, ws[j].hash, placed[j].nhash) == Some(ws[j].value)
  {
    hide KeyAt, ValueAt;
    assert es[0] in es;
    var i :| 0 <= i < |placed| && placed[i] == es[0];
    assert Placed(hash64, dat, placed[i], ws[i]) && Placed(hash64, dat, placed[j], ws[j]);
    if i != j {
      assert ws[i].hash != ws[j].hash;
      assert es[0] != placed[j];
      assert placed[j] in es[1..];
      SearchFinds(hash64, dat, placed, ws, es[1..], j);
    }
  }

  lemma {:induction false} SearchMisses(hash64: Hash64, dat: bytes, placed: seq<Entry>, ws: seq<Write>, es: seq<Entry>,
                                        key: Hash256, nhash: nat)
    requires AllPlaced(hash64, dat, placed, ws) && key !in Hashes(ws)
    requires forall e :: e in es ==> e in placed
    ensures Search(dat, es, key, nhash) == None
  {
    hide KeyAt, ValueAt;
    if es != [] {
      assert es[0] in es;
      var i :| 0 <= i < |placed| && placed[i] == es[0];
      assert Placed(hash64, dat, placed[i], ws[i]) && ws[i].hash in Hashes(ws);
      SearchMisses(hash64, dat, placed, ws, es[1..], key, nhash);
    }
  }

  // ---------------------------------------------------------------------------------------------
  // The whole store

  /** Every field of the key file's header stands at its place in NuDB's layout, with its value. */
  lemma KeyHeaderLayout(hash64: Hash64)
    ensures
      var h := KeyHeader(hash64);
      && |h| == 4096 && h[0..8] == [0x6E, 0x75, 0x64, 0x62, 0x2E, 0x6B, 0x65, 0x79]
      && FromBE(h[8..10]) == 2 && FromBE(h[10..18]) == 1 && FromBE(h[18..26]) == 1 && FromBE(h[26..28]) == 32
      && FromBE(h[28..36]) == 0x5852_4C41_5852_4C41
      && FromBE(h[36..44]) == hash64([0x41, 0x4C, 0x52, 0x58, 0x41, 0x4C, 0x52, 0x58], 0x5852_4C41_5852_4C41)
      && FromBE(h[44..46]) == 4096 && FromBE(h[46..48]) == 0x8000 && forall i :: 48 <= i < 4096 ==> h[i] == 0
  {
    hide ToBE, FromBE, Pepper;
    var h := KeyHeader(hash64);
    assert h[8..10] == ToBE(2, 2) && h[10..18] == ToBE(8, 1) && h[18..26] == ToBE(8, 1);
    assert h[26..28] == ToBE(2, 32) && h[28..36] == ToBE(8, 0x5852_4C41_5852_4C41);
    assert h[36..44] == ToBE(8, Pepper(hash64));
    assert h[44..46] == ToBE(2, 4096) && h[46..48] == ToBE(2, 0x8000);
    Widths();
    FromToBE(2, 2);
    FromToBE(8, 1);
    FromToBE(2, 32);
    FromToBE(8, 0x5852_4C41_5852_4C41);
    FromToBE(8, Pepper(hash64));
    FromToBE(2, 4096);
    FromToBE(2, 0x8000);
    PepperIs(hash64);
  }

  /** The pepper is the hash of the salt, least significant byte first, under the salt. */
  lemma PepperIs(hash64: Hash64)
    ensures Pepper(hash64) == hash64([0x41, 0x4C, 0x52, 0x58, 0x41, 0x4C, 0x52, 0x58], 0x5852_4C41_5852_4C41)
  {
    var high: nat := 0x5852_4C41;
    assert ToBE(4, high) == [0x58, 0x52, 0x4C, 0x41];
    LowThenHigh(high);
    assert Reversed(ToBE(8, 0x5852_4C41_5852_4C41)) == [0x41, 0x4C, 0x52, 0x58, 0x41, 0x4C, 0x52, 0x58];
  }

  lemma LowThenHigh(v: nat)
    requires v == 0x5852_4C41
    ensures ToBE(8, 0x5852_4C41_5852_4C41) == ToBE(4, v) + [0x58, 0x52, 0x4C, 0x41]
  {
  }

  /** So does every field of the data file's header, which the records follow. */
  lemma DatHeaderLayout()
    ensures
      var h := DatHeader();
      && |h| == 92 && h[0..8] == [0x6E, 0x75, 0x64, 0x62, 0x2E, 0x64, 0x61, 0x74]
      && FromBE(h[8..10]) == 2 && FromBE(h[10..18]) == 1 && FromBE(h[18..26]) == 1 && FromBE(h[26..28]) == 32
      && forall i :: 28 <= i < 92 ==> h[i] == 0
  {
    hide ToBE, FromBE;
    var h := DatHeader();
    assert h[8..10] == ToBE(2, 2) && h[10..18] == ToBE(8, 1) && h[18..26] == ToBE(8, 1);
    assert h[26..28] == ToBE(2, 32);
    Widths();
    FromToBE(2, 2);
    FromToBE(8, 1);
    FromToBE(2, 32);
  }

  // ---------------------------------------------------------------------------------------------
  // Records, entries and buckets, byte by byte

  /** A record: the length of its value, its key, its value. */
  lemma RecordLayout(key: Hash256, value: bytes)
    requires |value| < 0x1_0000_0000_0000
    ensures
      var b := RecordBytes(key, value);
      |b| == 38 + |value| && FromBE(b[0..6]) == |value| && b[6..38] == key && b[38..] == value
  {
    hide ToBE, FromBE;
    var b := RecordBytes(key, value);
    assert b[0..6] == ToBE(6, |value|);
    U48Back(|value|);
  }

  /** An entry: where its record stands, how long its value is, and the hash it is filed under. */
  lemma EntryLayout(e: Entry)
    requires EntryFits(e)
    ensures
      var b := EntryBytes(e);
      |b| == 18 && FromBE(b[0..6]) == e.offset && FromBE(b[6..12]) == e.size && FromBE(b[12..18]) == e.nhash
  {
    hide ToBE, FromBE;
    var b := EntryBytes(e);
    assert b[0..6] == ToBE(6, e.offset) && b[6..12] == ToBE(6, e.size) && b[12..18] == ToBE(6, e.nhash);
    U48Back(e.offset);
    U48Back(e.size);
    U48Back(e.nhash);
  }

  /** A bucket block: the count, where the rest spilled to, the entries, and zeros up to 4096 bytes. */
  lemma BlockLayout(es: seq<Entry>, spill: nat)
    requires |es| <= 227 && spill < 0x1_0000_0000_0000
    ensures
      var b := BucketBlock(es, spill);
      && |b| == 4096 && FromBE(b[0..2]) == |es| && FromBE(b[2..8]) == spill
      && (forall i :: 0 <= i < |es| ==> b[8 + 18 * i..26 + 18 * i] == EntryBytes(es[i]))
      && forall i :: 8 + 18 * |es| <= i < 4096 ==> b[i] == 0
  {
    hide ToBE, FromBE, EntriesBytes;
    var b, z := BucketBlock(es, spill), EntriesBytes(es);
    assert b[0..2] == ToBE(2, |es|) && b[2..8] == ToBE(6, spill);
    Widths();
    FromToBE(2, |es|);
    U48Back(spill);
    forall i | 0 <= i < |es| ensures b[8 + 18 * i..26 + 18 * i] == EntryBytes(es[i]) {
      EntriesSlice(es, i);
      assert b[8 + 18 * i..26 + 18 * i] == z[18 * i..18 * i + 18];
    }
  }

  /** A spilled bucket in the data file: six zeros where a length stands, the bucket's length, the bucket. */
  lemma SpillLayout(es: seq<Entry>, spill: nat)
    requires |es| <= 227
    ensures
      var b := SpillRecord(es, spill);
      && |b| == 16 + 18 * |es| && b[0..6] == [0, 0, 0, 0, 0, 0] && FromBE(b[6..8]) == 8 + 18 * |es|
      && b[8..] == BucketBytes(es, spill)
  {
    hide ToBE, FromBE, BucketBytes;
    var b := SpillRecord(es, spill);
    assert b[6..8] == ToBE(2, 8 + 18 * |es|);
    Widths();
    FromToBE(2, 8 + 18 * |es|);
  }

  /** A bucket holds as many entries as fit a block, and buckets are as few as half of that needs. */
  lemma HalfFull(n: nat)
    ensures 8 + 18 * 227 <= 4096 < 8 + 18 * 228
    ensures NumBuckets(n) >= 1 && 227 * NumBuckets(n) >= 2 * n
    ensures forall b :: b >= 1 && 227 * b >= 2 * n ==> b >= NumBuckets(n)
  {
  }

  /** The hash an entry is filed under is the upper 48 bits of the key's 64-bit hash. */
  lemma UpperBits(hash64: Hash64, key: Hash256, salt: u64)
    ensures
      var v := hash64(key, salt);
      NHash(hash64, key, salt) * 0x1_0000 <= v < NHash(hash64, key, salt) * 0x1_0000 + 0x1_0000
  {
  }

  /** Bucket `b` of a key file of 4096-byte blocks is the block behind the header and `b` others. */
  lemma PrimaryLayout(s: Shard, b: nat)
    requires s.blockSize == 4096 && |s.key| >= 4096 * (b + 2)
    ensures PrimaryBlock(s, b) == Success(s.key[4096 * (b + 1)..4096 * (b + 2)])
  {
  }

  /** Which pairs of files open, and with what: the header's magic, key size and block size decide. */
  lemma OpensIff(dat: bytes, key: bytes)
    ensures
      var r := Opened(dat, key);
      && (r.Success? <==> |key| >= 64 && key[0..8] == [0x6E, 0x75, 0x64, 0x62, 0x2E, 0x6B, 0x65, 0x79]
                          && FromBE(key[26..28]) == 32 && FromBE(key[44..46]) != 0)
      && (r.Success? ==>
            && r.value.dat == dat && r.value.key == key && r.value.salt == FromBE(key[28..36])
            && r.value.blockSize == FromBE(key[44..46]) && r.value.modulus == Modulus(r.value.numBuckets)
            && (|key| >= r.value.blockSize && |key| < 0x1_0000_0000_0000_0000 ==>
                  r.value.numBuckets == (|key| - r.value.blockSize) / r.value.blockSize))
  {
    hide FromBE, Modulus;
  }

  lemma BlocksCounted(n: nat)
    requires n < 0x1_0000_0000_0000
    ensures BlockCount(4096 * (n + 1), 4096) == n
  {
  }

  lemma HeaderFields(hash64: Hash64, blocks: bytes)
    ensures KeyFields(KeyHeader(hash64) + blocks) == Success((SALT, BLOCK_SIZE))
  {
    hide ToBE, FromBE, Pepper;
    var key := KeyHeader(hash64) + blocks;
    var a, b, c, d, e := ToBE(2, VERSION), ToBE(8, UID), ToBE(8, APPNUM), ToBE(2, KEY_SIZE), ToBE(8, SALT);
    var f, g := ToBE(8, Pepper(hash64)), ToBE(2, BLOCK_SIZE);
    assert key[0..8] == KEY_MAGIC;
    assert key[26..28] == d;
    assert key[28..36] == e;
    assert key[44..46] == g;
    Widths();
    FromToBE(2, KEY_SIZE);
    FromToBE(8, SALT);
    FromToBE(2, BLOCK_SIZE);
  }

  /** Opening finds the writer's own geometry. */
  lemma OpensAs(hash64: Hash64, dat: bytes, primary: seq<seq<Entry>>, spills: seq<nat>)
    requires |primary| == |spills| < U48 && forall i :: 0 <= i < |primary| ==> |primary[i]| <= BUCKET_CAPACITY
    ensures
      var key := KeyHeader(hash64) + Blocks(primary, spills);
      Opened(dat, key) == Success(Shard(dat, key, SALT, BLOCK_SIZE, |primary|, Modulus(|primary|)))
  {
    hide KeyHeader, Blocks, KeyFields;
    HeaderFields(hash64, Blocks(primary, spills));
  }

  /** One bucket: fetching from its block searches all its entries. */
  lemma BucketServes(dat: bytes, primary: seq<Entry>, spill: nat, bucket: seq<Entry>, key: Hash256, nhash: nat)
    requires BucketStored(dat, primary, spill, bucket) && EntriesFit(primary) && |dat| < U48
    ensures
      var block := BucketBlock(primary, spill);
      Descends(dat, block, |dat|)
      && (InFile(dat, SortBy(NHashKey, bucket)) ==>
            Follow(dat, block, key, nhash, |dat|) == Success(Search(dat, SortBy(NHashKey, bucket), key, nhash)))
  {
    hide SortBy, IsBucket, BucketBytes, EntryFits;
    var sorted := SortBy(NHashKey, bucket);
    var rest := sorted[|primary|..];
    assert primary + rest == sorted;
    SpillBelow(dat, spill, rest);
    BucketBack(primary, spill, Zeros(BLOCK_SIZE - BUCKET_HEADER - ENTRY_SIZE * |primary|));
    FollowSearches(dat, BucketBlock(primary, spill), primary, spill, rest, key, nhash, |dat|);
  }

  lemma SpillBelow(dat: bytes, spill: nat, rest: seq<Entry>)
    requires Chain(dat, spill, rest, |dat|) && |dat| < U48
    ensures spill < U48
  {
  }

  /** The shard serves exactly the first value written under each key, and its chains descend. */
  ghost predicate Serves(hash64: Hash64, s: Shard, calls: seq<Write>) {
    Sound(s) && forall key :: Fetched(hash64, s, key) == Success(Lookup(calls, key))
  }

  lemma PrimaryIs(s: Shard, hash64: Hash64, primary: seq<seq<Entry>>, spills: seq<nat>, b: int)
    requires |primary| == |spills| && forall i :: 0 <= i < |primary| ==> |primary[i]| <= BUCKET_CAPACITY
    requires s.key == KeyHeader(hash64) + Blocks(primary, spills) && s.blockSize == BLOCK_SIZE
    ensures PrimaryBlock(s, b) == if 0 <= b < |primary| then Success(BucketBlock(primary[b], spills[b])) else Failure
  {
    hide KeyHeader, BucketBlock;
    if 0 <= b < |primary| {
      BlocksSlice(primary, spills, b);
      var at := BLOCK_SIZE * (b + 1);
      assert s.key[at..at + BLOCK_SIZE] == Blocks(primary, spills)[BLOCK_SIZE * b..BLOCK_SIZE * b + BLOCK_SIZE];
    }
  }

  lemma BucketEntries(hash64: Hash64, dat: bytes, placed: seq<Entry>, ws: seq<Write>, bucket: seq<Entry>,
                      primary: seq<Entry>)
    requires AllPlaced(hash64, dat, placed, ws) && |dat| < U48 && forall e :: e in bucket ==> e in placed
    requires primary <= SortBy(NHashKey, bucket)
    ensures EntriesFit(primary) && InFile(dat, SortBy(NHashKey, bucket))
    ensures forall e :: e in SortBy(NHashKey, bucket) <==> e in bucket
  {
    hide SortBy, EntryFits, KeyAt, ValueAt;
    PlacedFit(hash64, dat, placed, ws);
    SomeFit(placed, bucket);
    SortMembers(NHashKey, bucket);
    var sorted := SortBy(NHashKey, bucket);
    forall i | 0 <= i < |sorted| ensures KeyAt(dat, sorted[i].offset).Success? && ValueAt(dat, sorted[i]).Success? {
      assert sorted[i] in bucket;
      var k :| 0 <= k < |placed| && placed[k] == sorted[i];
      assert Placed(hash64, dat, placed[k], ws[k]);
    }
  }

  /** What one bucket answers for a key that is filed in it. */
  lemma BucketAnswers(hash64: Hash64, dat: bytes, placed: seq<Entry>, ws: seq<Write>, primary: seq<Entry>, spill: nat,
                      n: nat, b: nat, key: Hash256)
    requires AllPlaced(hash64, dat, placed, ws) && DistinctHashes(ws) && |dat| < U48
    requires BucketStored(dat, primary, spill, InBucket(placed, b, n))
    ensures Descends(dat, BucketBlock(primary, spill), |dat|)
    ensures BucketIndex(NHash(hash64, key, SALT), n, Modulus(n)) == b ==>
              Follow(dat, BucketBlock(primary, spill), key, NHash(hash64, key, SALT), |dat|) == Success(Lookup(ws, key))
  {
    hide SortBy, BucketBlock, Search, Modulus, Chain, InFile, EntriesFit, AllPlaced, DistinctHashes, Follow, Descends,
         InBucket, BucketStored, Lookup;
    var bucket, nhash := InBucket(placed, b, n), NHash(hash64, key, SALT);
    PrimaryPrefix(dat, primary, spill, bucket);
    BucketEntries(hash64, dat, placed, ws, bucket, primary);
    BucketServes(dat, primary, spill, bucket, key, nhash);
    if BucketIndex(nhash, n, Modulus(n)) == b {
      BucketSearch(hash64, dat, placed, ws, n, b, key);
    }
  }

  lemma PrimaryPrefix(dat: bytes, primary: seq<Entry>, spill: nat, bucket: seq<Entry>)
    requires BucketStored(dat, primary, spill, bucket)
    ensures primary <= SortBy(NHashKey, bucket)
  {
  }

  lemma BucketSearch(hash64: Hash64, dat: bytes, placed: seq<Entry>, ws: seq<Write>, n: nat, b: nat, key: Hash256)
    requires AllPlaced(hash64, dat, placed, ws) && DistinctHashes(ws)
    requires BucketIndex(NHash(hash64, key, SALT), n, Modulus(n)) == b
    ensures Search(dat, SortBy(NHashKey, InBucket(placed, b, n)), key, NHash(hash64, key, SALT)) == Lookup(ws, key)
  {
    hide SortBy, KeyAt, ValueAt, Search, Modulus, InBucket;
    var bucket := InBucket(placed, b, n);
    SortMembers(NHashKey, bucket);
    if key in Hashes(ws) {
      var w :| w in ws && w.hash == key;
      var j :| 0 <= j < |ws| && ws[j] == w;
      assert Placed(hash64, dat, placed[j], ws[j]);
      assert placed[j] in bucket;
      SearchFinds(hash64, dat, placed, ws, SortBy(NHashKey, bucket), j);
      LookupAt(ws, j);
    } else {
      SearchMisses(hash64, dat, placed, ws, SortBy(NHashKey, bucket), key, NHash(hash64, key, SALT));
      LookupMissing(ws, key);
    }
  }

  /**
   * For every 64-bit hash and every sequence of writes, a finished store whose data file is below
   * 2^48 bytes opens, every chain of spilled buckets descends, and fetching any key returns the
   * first value written for it, or nothing.
   */
  lemma StoreServes(hash64: Hash64, dat: bytes, key: bytes, placed: seq<Entry>, calls: seq<Write>)
    requires IsStore(hash64, dat, key, placed) && AllPlaced(hash64, dat, placed, Deduped(calls)) && |dat| < U48
    ensures Opened(dat, key).Success? && Serves(hash64, Opened(dat, key).value, calls)
  {
    hide AllPlaced, Blocks, KeyHeader, Modulus, BucketBlock, BucketStored, Descends, Opened;
    var ws := Deduped(calls);
    DedupedDistinct(calls);
    var buckets, primary, spills :| StoreOf(hash64, dat, key, placed, buckets, primary, spills);
    var n := |primary|;
    OpensAs(hash64, dat, primary, spills);
    var s := Opened(dat, key).value;
    forall b | 0 <= b && PrimaryBlock(s, b).Success? ensures Descends(dat, PrimaryBlock(s, b).value, |dat|) {
      PrimaryIs(s, hash64, primary, spills, b);
      BucketAnswers(hash64, dat, placed, ws, primary[b], spills[b], n, b, ZERO_HASH);
    }
    forall k ensures Fetched(hash64, s, k) == Success(Lookup(calls, k)) {
      var b := BucketIndex(NHash(hash64, k, SALT), n, Modulus(n));
      BucketExists(NHash(hash64, k, SALT), n);
      PrimaryIs(s, hash64, primary, spills, b);
      BucketAnswers(hash64, dat, placed, ws, primary[b], spills[b], n, b, k);
      DedupedLookup(calls, k);
    }
  }

  /** Writes a store from a list of entries. */
  method WriteStore(hash64: Hash64, entries: seq<Write>) returns (dat: bytes, key: bytes)
    ensures |dat| < U48 ==> Opened(dat, key).Success? && Serves(hash64, Opened(dat, key).value, entries)
  {
    hide AllPlaced, IsStore, Serves;
    var sink := new NuDbSink(hash64);
    for i := 0 to |entries|
      invariant sink.Valid() && sink.hash64 == hash64 && sink.calls == entries[..i]
    {
      assert entries[..i + 1] == entries[..i] + [Write(entries[i].hash, entries[i].value)];
      sink.WriteNode(entries[i].hash, entries[i].value);
    }
    assert entries[..|entries|] == entries;
    key := sink.Finish();
    dat := sink.dat;
    if |dat| < U48 {
      StoreServes(hash64, dat, key, sink.placed, entries);
    }
  }
}
