/** Writing a NuDB store in one pass, with the bucket table built at the end. */
module NuDbWriter {
  import opened Prelude
  import opened Bytes
  import opened Sorting
  import opened Replay
  import opened NuDbFormat
  import opened NuDbReader
  import opened BucketBuffer

  const DAT_HEADER_SIZE: nat := 92
  const DAT_MAGIC: bytes := [0x6E, 0x75, 0x64, 0x62, 0x2E, 0x64, 0x61, 0x74]
  const SALT: u64 := 0x5852_4C41_5852_4C41
  const VERSION: u16 := 2
  const UID: u64 := 1
  const APPNUM: u64 := 1
  const LOAD_FACTOR: u16 := 0x8000

  function DatHeader(): (b: bytes)
    ensures |b| == DAT_HEADER_SIZE
  {
    DAT_MAGIC + ToBE(2, VERSION) + ToBE(8, UID) + ToBE(8, APPNUM) + ToBE(2, KEY_SIZE) + Zeros(DAT_HEADER_SIZE - 28)
  }

  function Pepper(hash64: Hash64): u64 {
    hash64(Reversed(ToBE(8, SALT)), SALT)
  }

  function KeyHeader(hash64: Hash64): (b: bytes)
    ensures |b| == BLOCK_SIZE
  {
    KEY_MAGIC + ToBE(2, VERSION) + ToBE(8, UID) + ToBE(8, APPNUM) + ToBE(2, KEY_SIZE) + ToBE(8, SALT)
    + ToBE(8, Pepper(hash64)) + ToBE(2, BLOCK_SIZE) + ToBE(2, LOAD_FACTOR) + Zeros(BLOCK_SIZE - 48)
  }

  function NHashKey(e: Entry): nat {
    e.nhash
  }

  /** Half-full buckets: `ceil(2n / capacity)`, and at least one. */
  function NumBuckets(n: nat): (b: nat)
    ensures b >= 1
  {
    var b := (2 * n + BUCKET_CAPACITY - 1) / BUCKET_CAPACITY;
    if b == 0 then 1 else b
  }

  // ---------------------------------------------------------------------------------------------
  // Spill chains

  /** The chain of blocks at `at` in the data file holds exactly `es`; every pointer leads down. */
  ghost predicate Chain(dat: bytes, at: nat, es: seq<Entry>, limit: nat)
    decreases limit
  {
    if at == 0 then es == []
    else
      && es != [] && at < limit && SpillBlock(dat, at).Success?
      && var block := SpillBlock(dat, at).value;
         var here := Min(BUCKET_CAPACITY, |es|);
         |block| >= BUCKET_HEADER && IsBucket(block, es[..here], Field(block, 2, 6))
             && Chain(dat, Field(block, 2, 6), es[here..], at)
  }

  lemma BlockAppended(dat: bytes, more: bytes, at: nat)
    requires SpillBlock(dat, at).Success?
    ensures SpillBlock(dat + more, at) == SpillBlock(dat, at)
  {
    assert (dat + more)[at..at + 2] == dat[at..at + 2];
    var len := BUCKET_HEADER + Field(dat, at, 2) * ENTRY_SIZE;
    assert (dat + more)[at..at + len] == dat[at..at + len];
  }

  lemma {:induction false} ChainAppended(dat: bytes, more: bytes, at: nat, es: seq<Entry>, limit: nat)
    requires Chain(dat, at, es, limit)
    ensures Chain(dat + more, at, es, limit)
    decreases limit
  {
    hide IsBucket;
    if at != 0 {
      BlockAppended(dat, more, at);
      var block := SpillBlock(dat, at).value;
      ChainAppended(dat, more, Field(block, 2, 6), es[Min(BUCKET_CAPACITY, |es|)..], at);
    }
  }

  lemma ChainLimit(dat: bytes, at: nat, es: seq<Entry>, a: nat, b: nat)
    requires Chain(dat, at, es, a) && a <= b
    ensures Chain(dat, at, es, b)
  {
  }

  /** Writing a spill record puts a block in front of the chain it points to. */
  lemma ChainGrows(dat: bytes, next: nat, here: seq<Entry>, es: seq<Entry>)
    requires Chain(dat, next, es, |dat|) && here != [] && EntriesFit(here)
    requires |here| == BUCKET_CAPACITY || (|here| < BUCKET_CAPACITY && es == [])
    requires |dat| < U48
    ensures
      var grown := dat + SpillRecord(here, next);
      Chain(grown, |dat| + 8, here + es, |grown|)
  {
    hide IsBucket, EntryFits, Chain, SpillBlock, SpillRecord, BucketBytes;
    var record, body := SpillRecord(here, next), BucketBytes(here, next);
    var grown, at := dat + record, |dat| + 8;
    ChainBelow(dat, next, es);
    RecordReads(dat, here, next);
    ChainAppended(dat, record, next, es, |dat|);
    ChainLimit(grown, next, es, |dat|, at);
    ChainCons(grown, at, body, here, next, es);
  }

  lemma ChainBelow(dat: bytes, at: nat, es: seq<Entry>)
    requires Chain(dat, at, es, |dat|)
    ensures at == 0 || at < |dat|
  {
  }

  /** A spill record's body reads back as the bucket it was written for. */
  lemma RecordReads(dat: bytes, here: seq<Entry>, next: nat)
    requires EntriesFit(here) && |here| <= BUCKET_CAPACITY && next < U48
    ensures SpillBlock(dat + SpillRecord(here, next), |dat| + 8) == Success(BucketBytes(here, next))
    ensures IsBucket(BucketBytes(here, next), here, next)
  {
    hide IsBucket, EntryFits, ToBE, EntriesFit;
    var grown, at, body := dat + SpillRecord(here, next), |dat| + 8, BucketBytes(here, next);
    BucketBack(here, next, []);
    assert body + [] == body;
    BodyFields(here, next, body);
    assert grown == dat + (Zeros(6) + ToBE(2, |body|)) + body;
    assert grown[at..at + |body|] == body;
    assert grown[at..at + 2] == body[0..2];
  }

  lemma ChainCons(dat: bytes, at: nat, body: bytes, here: seq<Entry>, next: nat, es: seq<Entry>)
    requires at != 0 && SpillBlock(dat, at) == Success(body) && IsBucket(body, here, next) && here != []
    requires |here| == BUCKET_CAPACITY || (|here| < BUCKET_CAPACITY && es == [])
    requires Chain(dat, next, es, at) && at < |dat|
    ensures Chain(dat, at, here + es, |dat|)
  {
    hide SpillBlock, EntryAt;
    var all, k := here + es, Min(BUCKET_CAPACITY, |here + es|);
    assert all[..k] == here && all[k..] == es;
    BodyFields(here, next, body);
  }

  lemma BodyFields(here: seq<Entry>, next: nat, body: bytes)
    requires IsBucket(body, here, next)
    ensures |body| >= BUCKET_HEADER && Field(body, 0, 2) == |here| && Field(body, 2, 6) == next
  {
  }

  // ---------------------------------------------------------------------------------------------
  // What was written

  /** Every call of the writer, with repeated hashes dropped: the first write wins. */
  ghost function Deduped(calls: seq<Write>): seq<Write> {
    if calls == [] then []
    else
      var before, w := Deduped(calls[..|calls| - 1]), calls[|calls| - 1];
      if w.hash in Hashes(before) then before else before + [w]
  }

  /** The first value written for a key. */
  ghost function Lookup(ws: seq<Write>, key: Hash256): Option<bytes> {
    if ws == [] then None
    else if ws[0].hash == key then Some(ws[0].value)
    else Lookup(ws[1..], key)
  }

  /** `e` is where `w` was written. */
  ghost predicate Placed(hash64: Hash64, dat: bytes, e: Entry, w: Write) {
    && e.nhash == NHash(hash64, w.hash, SALT) && e.size == |w.value| && RecordAt(dat, e, w.hash, w.value)
  }

  ghost predicate AllPlaced(hash64: Hash64, dat: bytes, placed: seq<Entry>, ws: seq<Write>) {
    |placed| == |ws| && forall i :: 0 <= i < |ws| ==> Placed(hash64, dat, placed[i], ws[i])
  }

  lemma PlacedAppended(hash64: Hash64, dat: bytes, more: bytes, placed: seq<Entry>, ws: seq<Write>)
    requires AllPlaced(hash64, dat, placed, ws)
    ensures AllPlaced(hash64, dat + more, placed, ws)
  {
    hide RecordAt;
    forall i | 0 <= i < |ws| ensures Placed(hash64, dat + more, placed[i], ws[i]) {
      RecordAppended(dat, more, placed[i], ws[i].hash, ws[i].value);
    }
  }

  lemma DedupedSnoc(calls: seq<Write>, w: Write)
    ensures Deduped(calls + [w]) == if w.hash in Hashes(Deduped(calls)) then Deduped(calls) else Deduped(calls) + [w]
  {
    assert (calls + [w])[..|calls + [w]| - 1] == calls;
  }

  lemma OneMoreRecord(hash64: Hash64, dat: bytes, placed: seq<Entry>, ws: seq<Write>, e: Entry, w: Write)
    requires AllPlaced(hash64, dat, placed, ws)
    requires e == Entry(NHash(hash64, w.hash, SALT), |dat|, |w.value|)
    ensures AllPlaced(hash64, dat + RecordBytes(w.hash, w.value), placed + [e], ws + [w])
    ensures |placed| == |ws|
  {
    hide RecordBytes, RecordAt, NHash;
    PlacedAppended(hash64, dat, RecordBytes(w.hash, w.value), placed, ws);
    RecordWritten(dat, e, w.hash, w.value);
  }

  /** Entries of a data file below 2^48 bytes fit their fields. */
  lemma PlacedFit(hash64: Hash64, dat: bytes, placed: seq<Entry>, ws: seq<Write>)
    requires AllPlaced(hash64, dat, placed, ws) && |dat| < U48
    ensures EntriesFit(placed)
  {
    forall i | 0 <= i < |placed| ensures EntryFits(placed[i]) {
      assert Placed(hash64, dat, placed[i], ws[i]);
    }
  }

  /** The entries that belong to bucket `b`, in order of writing. */
  ghost function InBucket(placed: seq<Entry>, b: nat, numBuckets: nat): (es: seq<Entry>)
    ensures forall e :: e in es <==> e in placed && BucketIndex(e.nhash, numBuckets, Modulus(numBuckets)) == b
  {
    if placed == [] then []
    else
      var before, e := InBucket(placed[..|placed| - 1], b, numBuckets), placed[|placed| - 1];
      if BucketIndex(e.nhash, numBuckets, Modulus(numBuckets)) == b then before + [e] else before
  }

  /** The key file's bucket blocks. */
  function Blocks(primary: seq<seq<Entry>>, spills: seq<nat>): (b: bytes)
    requires |primary| == |spills| && forall i :: 0 <= i < |primary| ==> |primary[i]| <= BUCKET_CAPACITY
    ensures |b| == BLOCK_SIZE * |primary|
  {
    if primary == [] then []
    else
      var last := |primary| - 1;
      Blocks(primary[..last], spills[..last]) + BucketBlock(primary[last], spills[last])
  }

  lemma {:induction false} BlocksSlice(primary: seq<seq<Entry>>, spills: seq<nat>, i: nat)
    requires |primary| == |spills| && forall i :: 0 <= i < |primary| ==> |primary[i]| <= BUCKET_CAPACITY
    requires i < |primary|
    ensures Blocks(primary, spills)[BLOCK_SIZE * i..BLOCK_SIZE * i + BLOCK_SIZE] == BucketBlock(primary[i], spills[i])
  {
    hide BucketBlock;
    var last := |primary| - 1;
    var front := Blocks(primary[..last], spills[..last]);
    if i < last {
      BlocksSlice(primary[..last], spills[..last], i);
      assert Blocks(primary, spills)[BLOCK_SIZE * i..BLOCK_SIZE * i + BLOCK_SIZE]
          == front[BLOCK_SIZE * i..BLOCK_SIZE * i + BLOCK_SIZE];
    }
  }

  /** A bucket whose first entries stand in the key file and whose others stand in the chain at `spill`. */
  ghost predicate BucketStored(dat: bytes, primary: seq<Entry>, spill: nat, bucket: seq<Entry>) {
    var sorted := SortBy(NHashKey, bucket);
    && |primary| <= |sorted| && primary == sorted[..|primary|] && |primary| <= BUCKET_CAPACITY
    && Chain(dat, spill, sorted[|primary|..], |dat|)
  }

  lemma StoredAppended(dat: bytes, more: bytes, primary: seq<Entry>, spill: nat, bucket: seq<Entry>)
    requires BucketStored(dat, primary, spill, bucket)
    ensures BucketStored(dat + more, primary, spill, bucket)
  {
    hide Chain;
    var rest := SortBy(NHashKey, bucket)[|primary|..];
    ChainAppended(dat, more, spill, rest, |dat|);
    ChainLimit(dat + more, spill, rest, |dat|, |dat + more|);
  }

  ghost predicate AllStored(dat: bytes, primary: seq<seq<Entry>>, spills: seq<nat>, buckets: seq<seq<Entry>>) {
    && |primary| == |spills| <= |buckets|
    && forall i :: 0 <= i < |primary| ==> BucketStored(dat, primary[i], spills[i], buckets[i])
  }

  lemma AllStoredAppended(dat: bytes, more: bytes, primary: seq<seq<Entry>>, spills: seq<nat>, buckets: seq<seq<Entry>>)
    requires AllStored(dat, primary, spills, buckets)
    ensures AllStored(dat + more, primary, spills, buckets)
  {
    hide BucketStored;
    forall i | 0 <= i < |primary| ensures BucketStored(dat + more, primary[i], spills[i], buckets[i]) {
      StoredAppended(dat, more, primary[i], spills[i], buckets[i]);
    }
  }

  lemma NoneStored(dat: bytes, buckets: seq<seq<Entry>>)
    ensures AllStored(dat, [], [], buckets)
  {
  }

  lemma OneMoreStored(dat: bytes, primary: seq<seq<Entry>>, spills: seq<nat>, buckets: seq<seq<Entry>>,
                      here: seq<Entry>, spill: nat)
    requires |primary| < |buckets| && AllStored(dat, primary, spills, buckets)
    requires BucketStored(dat, here, spill, buckets[|primary|])
    ensures AllStored(dat, primary + [here], spills + [spill], buckets)
  {
    hide BucketStored;
  }

  // ---------------------------------------------------------------------------------------------
  // Exactly what is appended behind the records

  /** Chunk `j` of an overflow: as many entries as fill a block, or what is left. */
  function Chunk(overflow: seq<Entry>, j: nat): seq<Entry>
    requires BUCKET_CAPACITY * j <= |overflow|
  {
    overflow[BUCKET_CAPACITY * j..Min(BUCKET_CAPACITY * (j + 1), |overflow|)]
  }

  /** The records of an overflow's chunks from `j` on, the last one first, and where chunk `j`'s body stands. */
  function ChainBytes(offset: nat, overflow: seq<Entry>, j: nat): (bytes, nat)
    decreases |overflow| - BUCKET_CAPACITY * j
  {
    if BUCKET_CAPACITY * j >= |overflow| then ([], 0)
    else
      var later := ChainBytes(offset, overflow, j + 1);
      (later.0 + SpillRecord(Chunk(overflow, j), later.1), offset + |later.0| + 8)
  }

  /** The entries of each bucket, in order of hash. */
  function SortedBucket(bucket: seq<Entry>): seq<Entry> {
    SortBy(NHashKey, bucket)
  }

  /** What the first `i` buckets spill, one after the other, and where each one's overflow begins. */
  function SpilledBytes(offset: nat, buckets: seq<seq<Entry>>, i: nat): (r: (bytes, seq<nat>))
    requires i <= |buckets|
    ensures |r.1| == i
  {
    if i == 0 then ([], [])
    else
      var before := SpilledBytes(offset, buckets, i - 1);
      var sorted := SortedBucket(buckets[i - 1]);
      if |sorted| > BUCKET_CAPACITY then
        var chain := ChainBytes(offset + |before.0|, sorted[BUCKET_CAPACITY..], 0);
        (before.0 + chain.0, before.1 + [chain.1])
      else (before.0, before.1 + [0])
  }

  /** The overflow of a bucket, if it has one, is appended as a chain that begins at `spill`. */
  predicate SpillsTo(before: bytes, after: bytes, bucket: seq<Entry>, spill: nat) {
    var sorted := SortedBucket(bucket);
    if |sorted| > BUCKET_CAPACITY then
      && after == before + ChainBytes(|before|, sorted[BUCKET_CAPACITY..], 0).0
      && spill == ChainBytes(|before|, sorted[BUCKET_CAPACITY..], 0).1
    else after == before && spill == 0
  }

  lemma SpillsBehind(before: bytes, after: bytes, bucket: seq<Entry>, spill: nat)
    requires SpillsTo(before, after, bucket, spill)
    ensures before <= after && before + after[|before|..] == after
  {
    hide ChainBytes, SortedBucket;
  }

  lemma SpilledNone(start: bytes, buckets: seq<seq<Entry>>)
    ensures start == start + SpilledBytes(|start|, buckets, 0).0 && SpilledBytes(|start|, buckets, 0).1 == []
  {
  }

  lemma SpilledNext(start: bytes, buckets: seq<seq<Entry>>, i: nat, before: bytes, after: bytes, spill: nat)
    requires i < |buckets| && before == start + SpilledBytes(|start|, buckets, i).0
    requires SpillsTo(before, after, buckets[i], spill)
    ensures after == start + SpilledBytes(|start|, buckets, i + 1).0
    ensures SpilledBytes(|start|, buckets, i + 1).1 == SpilledBytes(|start|, buckets, i).1 + [spill]
  {
    hide ChainBytes, SortedBucket;
  }

  /** What stays in the key file: the first entries of each bucket. */
  function Kept(bucket: seq<Entry>): (here: seq<Entry>)
    ensures |here| == Min(BUCKET_CAPACITY, |bucket|)
  {
    SortedBucket(bucket)[..Min(BUCKET_CAPACITY, |bucket|)]
  }

  function AllKept(buckets: seq<seq<Entry>>): (primary: seq<seq<Entry>>)
    ensures |primary| == |buckets| && forall i :: 0 <= i < |primary| ==> primary[i] == Kept(buckets[i])
  {
    seq(|buckets|, i requires 0 <= i < |buckets| => Kept(buckets[i]))
  }

  ghost function AllBuckets(placed: seq<Entry>): (buckets: seq<seq<Entry>>)
    ensures |buckets| == NumBuckets(|placed|)
    ensures forall b :: 0 <= b < |buckets| ==> buckets[b] == InBucket(placed, b, |buckets|)
  {
    var n := NumBuckets(|placed|);
    seq(n, b requires 0 <= b < n => InBucket(placed, b, n))
  }

  /** The key file of a store: its header, and a block for each bucket. */
  ghost function KeyFile(hash64: Hash64, offset: nat, placed: seq<Entry>): bytes {
    var buckets := AllBuckets(placed);
    KeyHeader(hash64) + Blocks(AllKept(buckets), SpilledBytes(offset, buckets, |buckets|).1)
  }

  /** Entries of a bucket ascend by hash, in the key file and along the chain behind it. */
  lemma BucketAscends(bucket: seq<Entry>, i: nat, j: nat)
    requires i < j < |bucket|
    ensures SortedBucket(bucket)[i].nhash <= SortedBucket(bucket)[j].nhash
  {
    SortSorts(NHashKey, bucket);
    assert NHashKey(SortedBucket(bucket)[i]) <= NHashKey(SortedBucket(bucket)[j]);
  }

  // ---------------------------------------------------------------------------------------------
  // The writer

  /** `calls` are all the writes asked for. */
  class NuDbSink {
    const hash64: Hash64
    var dat: bytes
    var offset: nat
    var seen: set<Hash256>
    var placed: seq<Entry>
    ghost var calls: seq<Write>

    ghost predicate Valid()
      reads this
    {
      && offset == |dat| && DatHeader() <= dat && seen == Hashes(Deduped(calls))
      && AllPlaced(hash64, dat, placed, Deduped(calls)) && REC_HEADER * |placed| <= offset
    }

    constructor (hash64: Hash64)
      ensures Valid() && this.hash64 == hash64 && calls == []
    {
      this.hash64 := hash64;
      dat, offset, seen, placed, calls := DatHeader(), DAT_HEADER_SIZE, {}, [], [];
    }

    /** Appends the record of a new hash; a hash seen before is skipped. */
    method WriteNode(hash: Hash256, value: bytes)
      requires Valid()
      modifies this
      ensures Valid() && calls == old(calls) + [Write(hash, value)]
      ensures hash in old(seen) ==> dat == old(dat) && placed == old(placed)
      ensures hash !in old(seen) ==>
                && dat == old(dat) + RecordBytes(hash, value)
                && placed == old(placed) + [Entry(NHash(hash64, hash, SALT), |old(dat)|, |value|)]
    {
      hide RecordBytes, AllPlaced, NHash, Deduped, Hashes;
      ghost var w, ws := Write(hash, value), Deduped(calls);
      DedupedSnoc(calls, w);
      calls := calls + [w];
      if hash in seen {
        return;
      }
      HashesSnoc(ws, w);
      seen := seen + {hash};
      var e := Entry(NHash(hash64, hash, SALT), offset, |value|);
      OneMoreRecord(hash64, dat, placed, ws, e, w);
      dat := dat + RecordBytes(hash, value);
      placed := placed + [e];
      offset := offset + REC_HEADER + |value|;
    }

    /** Appends bytes behind the records. */
    method Append(more: bytes)
      requires Valid()
      modifies `dat, `offset
      ensures Valid() && dat == old(dat) + more
    {
      PlacedAppended(hash64, dat, more, placed, Deduped(calls));
      dat := dat + more;
      offset := offset + |more|;
    }

    /** Appends one spill record in front of the chain at `next`; returns where its body stands. */
    method WriteSpillRecord(chunk: seq<Entry>, next: nat, ghost rest: seq<Entry>) returns (body: nat)
      requires Valid() && chunk != []
      requires |chunk| == BUCKET_CAPACITY || (|chunk| < BUCKET_CAPACITY && rest == [])
      requires |dat| < U48 ==> EntriesFit(chunk) && Chain(dat, next, rest, |dat|)
      modifies `dat, `offset
      ensures Valid() && dat == old(dat) + SpillRecord(chunk, next) && body == |old(dat)| + 8
      ensures |dat| < U48 ==> Chain(dat, body, chunk + rest, |dat|)
    {
      hide Chain, SpillRecord, AllPlaced, EntriesFit, Deduped, Hashes;
      if |dat| < U48 {
        ChainGrows(dat, next, chunk, rest);
      }
      body := offset + 8;
      var record := SpillBytes(chunk, next);
      Append(record);
    }

    /** Writes the overflow of a bucket from its tail backward, and returns where its head stands. */
    method WriteSpillChain(overflow: seq<Entry>) returns (head: nat)
      requires Valid() && (|dat| < U48 ==> EntriesFit(overflow))
      modifies `dat, `offset
      ensures Valid() && dat == old(dat) + ChainBytes(|old(dat)|, overflow, 0).0
      ensures head == ChainBytes(|old(dat)|, overflow, 0).1
      ensures |dat| < U48 ==> Chain(dat, head, overflow, |dat|)
    {
      hide Chain, AllPlaced, EntriesFit, Deduped, Hashes, Behind, SpillRecord;
      var count := (|overflow| + BUCKET_CAPACITY - 1) / BUCKET_CAPACITY;
      head := 0;
      EmptyChain(dat, |dat|);
      BehindEnds(overflow);
      assert dat == old(dat) + [];
      for j := count downto 0
        invariant Valid() && dat == old(dat) + ChainBytes(|old(dat)|, overflow, j).0
        invariant head == ChainBytes(|old(dat)|, overflow, j).1
        invariant |dat| < U48 ==> Chain(dat, head, Behind(overflow, j), |dat|)
      {
        ChunkStep(overflow, j);
        var from, end := BUCKET_CAPACITY * j, Min(BUCKET_CAPACITY * (j + 1), |overflow|);
        ghost var later := ChainBytes(|old(dat)|, overflow, j + 1);
        assert overflow[from..end] == Chunk(overflow, j);
        AppendAssoc(old(dat), later.0, SpillRecord(Chunk(overflow, j), later.1));
        head := WriteSpillRecord(overflow[from..end], head, Behind(overflow, j + 1));
      }
    }

    /** Places every entry in its bucket. */
    method Distribute(numBuckets: nat, modulus: nat) returns (buckets: seq<seq<Entry>>)
      requires numBuckets >= 1 && modulus == Modulus(numBuckets)
      ensures |buckets| == numBuckets
      ensures forall b :: 0 <= b < numBuckets ==> buckets[b] == InBucket(placed, b, numBuckets)
    {
      buckets := seq(numBuckets, _ => []);
      for i := 0 to |placed|
        invariant |buckets| == numBuckets
        invariant forall b :: 0 <= b < numBuckets ==> buckets[b] == InBucket(placed[..i], b, numBuckets)
      {
        var e := placed[i];
        assert placed[..i + 1][..i] == placed[..i];
        BucketExists(e.nhash, numBuckets);
        var n := BucketIndex(e.nhash, numBuckets, modulus);
        buckets := buckets[n := buckets[n] + [e]];
      }
      assert placed[..|placed|] == placed;
    }

    /** Sorts each bucket and moves what does not fit into the data file. */
    method SpillBuckets(buckets: seq<seq<Entry>>) returns (primary: seq<seq<Entry>>, spills: seq<nat>)
      requires Valid() && forall b, e :: 0 <= b < |buckets| && e in buckets[b] ==> e in placed
      modifies `dat, `offset
      ensures Valid() && primary == AllKept(buckets)
      ensures dat == old(dat) + SpilledBytes(|old(dat)|, buckets, |buckets|).0
      ensures spills == SpilledBytes(|old(dat)|, buckets, |buckets|).1
      ensures |dat| < U48 ==> AllStored(dat, primary, spills, buckets)
    {
      hide AllPlaced, BucketStored, Chain, SpillsTo, SpilledBytes, AllStored;
      primary, spills := [], [];
      SpilledNone(dat, buckets);
      NoneStored(dat, buckets);
      for i := 0 to |buckets|
        invariant Valid()
        invariant dat == old(dat) + SpilledBytes(|old(dat)|, buckets, i).0
        invariant spills == SpilledBytes(|old(dat)|, buckets, i).1
        invariant |primary| == |spills| == i && forall k :: 0 <= k < i ==> primary[k] == Kept(buckets[k])
        invariant |dat| < U48 ==> AllStored(dat, primary, spills, buckets)
      {
        ghost var before := dat;
        var here, spill := SpillBucket(buckets[i]);
        if |dat| < U48 {
          SpillsBehind(before, dat, buckets[i], spill);
          AllStoredAppended(before, dat[|before|..], primary, spills, buckets);
          OneMoreStored(dat, primary, spills, buckets, here, spill);
        }
        SpilledNext(old(dat), buckets, i, before, dat, spill);
        primary, spills := primary + [here], spills + [spill];
      }
    }

    method SpillBucket(bucket: seq<Entry>) returns (here: seq<Entry>, spill: nat)
      requires Valid() && forall e :: e in bucket ==> e in placed
      modifies `dat, `offset
      ensures Valid() && here == Kept(bucket)
      ensures SpillsTo(old(dat), dat, bucket, spill)
      ensures |dat| < U48 ==> BucketStored(dat, here, spill, bucket)
    {
      hide AllPlaced, Chain, SortBy, ChainBytes;
      var sorted := SortBy(NHashKey, bucket);
      spill := 0;
      if |sorted| > BUCKET_CAPACITY {
        here := sorted[..BUCKET_CAPACITY];
        if |dat| < U48 {
          PlacedFit(hash64, dat, placed, Deduped(calls));
          SomeFit(placed, bucket);
        }
        spill := WriteSpillChain(sorted[BUCKET_CAPACITY..]);
      } else {
        here := sorted;
        EmptyChain(dat, |dat|);
        assert sorted[..|sorted|] == sorted && sorted[|sorted|..] == [];
      }
    }

    /** Writes the key file: its header, then one block per bucket. */
    method WriteKey(primary: seq<seq<Entry>>, spills: seq<nat>) returns (key: bytes)
      requires |primary| == |spills| && forall i :: 0 <= i < |primary| ==> |primary[i]| <= BUCKET_CAPACITY
      ensures key == KeyHeader(hash64) + Blocks(primary, spills)
    {
      hide KeyHeader, BucketBlock;
      key := KeyHeader(hash64);
      assert key == KeyHeader(hash64) + Blocks(primary[..0], spills[..0]);
      for i := 0 to |primary|
        invariant key == KeyHeader(hash64) + Blocks(primary[..i], spills[..i])
      {
        assert primary[..i + 1][..i] == primary[..i] && spills[..i + 1][..i] == spills[..i];
        AppendAssoc(KeyHeader(hash64), Blocks(primary[..i], spills[..i]), BucketBlock(primary[i], spills[i]));
        var block := FullBlock(primary[i], spills[i]);
        key := key + block;
      }
      assert primary[..|primary|] == primary && spills[..|spills|] == spills;
    }

    /**
     * Builds the bucket table and returns the finished pair of files. While the data file stays
     * below 2^48 bytes the pair is a store of everything written.
     */
    method Finish() returns (key: bytes)
      requires Valid()
      modifies `dat, `offset
      ensures Valid()
      ensures dat == old(dat) + SpilledBytes(|old(dat)|, AllBuckets(placed), |AllBuckets(placed)|).0
      ensures key == KeyFile(hash64, |old(dat)|, placed)
      ensures |dat| < U48 ==> IsStore(hash64, dat, key, placed)
    {
      hide AllPlaced, AllStored, Blocks, KeyHeader, SpilledBytes, InBucket;
      var numBuckets := NumBuckets(|placed|);
      var modulus := FindModulus(numBuckets);
      var buckets := Distribute(numBuckets, modulus);
      assert buckets == AllBuckets(placed);
      var primary, spills := SpillBuckets(buckets);
      key := WriteKey(primary, spills);
      assert |dat| < U48 ==> StoreOf(hash64, dat, key, placed, buckets, primary, spills);
    }
  }

  /** The files hold these buckets of the placed entries. */
  ghost predicate StoreOf(hash64: Hash64, dat: bytes, key: bytes, placed: seq<Entry>, buckets: seq<seq<Entry>>,
                          primary: seq<seq<Entry>>, spills: seq<nat>) {
    && |buckets| == NumBuckets(|placed|)
    && (forall b :: 0 <= b < |buckets| ==> buckets[b] == InBucket(placed, b, |buckets|))
    && AllStored(dat, primary, spills, buckets) && |primary| == |buckets|
    && (forall i :: 0 <= i < |primary| ==> |primary[i]| <= BUCKET_CAPACITY)
    && key == KeyHeader(hash64) + Blocks(primary, spills) && REC_HEADER * |placed| <= |dat|
  }

  ghost predicate IsStore(hash64: Hash64, dat: bytes, key: bytes, placed: seq<Entry>) {
    exists buckets, primary, spills :: StoreOf(hash64, dat, key, placed, buckets, primary, spills)
  }

  lemma SomeFit(placed: seq<Entry>, bucket: seq<Entry>)
    requires EntriesFit(placed) && forall e :: e in bucket ==> e in placed
    ensures EntriesFit(SortBy(NHashKey, bucket)) && EntriesFit(bucket)
    ensures |SortBy(NHashKey, bucket)| > BUCKET_CAPACITY ==> EntriesFit(SortBy(NHashKey, bucket)[BUCKET_CAPACITY..])
  {
    SortMembers(NHashKey, bucket);
    var sorted := SortBy(NHashKey, bucket);
    forall i | 0 <= i < |sorted| ensures EntryFits(sorted[i]) {
      assert sorted[i] in sorted;
    }
    forall i | 0 <= i < |bucket| ensures EntryFits(bucket[i]) {
      assert bucket[i] in bucket;
    }
  }

  /** What is left of the overflow from its chunk `j` on. */
  ghost function Behind(overflow: seq<Entry>, j: nat): seq<Entry> {
    overflow[Min(BUCKET_CAPACITY * j, |overflow|)..]
  }

  lemma BehindEnds(overflow: seq<Entry>)
    ensures Behind(overflow, 0) == overflow
    ensures Behind(overflow, (|overflow| + BUCKET_CAPACITY - 1) / BUCKET_CAPACITY) == []
  {
  }

  lemma ChunkStep(overflow: seq<Entry>, j: nat)
    requires BUCKET_CAPACITY * j < |overflow|
    ensures
      var chunk := overflow[BUCKET_CAPACITY * j..Min(BUCKET_CAPACITY * (j + 1), |overflow|)];
      chunk != [] && Behind(overflow, j) == chunk + Behind(overflow, j + 1)
      && (|chunk| == BUCKET_CAPACITY || (|chunk| < BUCKET_CAPACITY && Behind(overflow, j + 1) == []))
      && (EntriesFit(overflow) ==> EntriesFit(chunk))
  {
    hide EntryFits;
  }

  lemma EmptyChain(dat: bytes, limit: nat)
    ensures Chain(dat, 0, [], limit)
  {
  }

  lemma HashesSnoc(ws: seq<Write>, w: Write)
    ensures Hashes(ws + [w]) == Hashes(ws) + {w.hash}
  {
  }
}
