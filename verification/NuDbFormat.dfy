/** The byte layout of a NuDB store: records and bucket blocks. */
module NuDbFormat {
  import opened Prelude
  import opened Bytes

  const BLOCK_SIZE: nat := 4096
  const ENTRY_SIZE: nat := 18
  const BUCKET_HEADER: nat := 8
  const BUCKET_CAPACITY: nat := 227 // (BLOCK_SIZE - BUCKET_HEADER) / ENTRY_SIZE
  const REC_HEADER: nat := 38
  const U48: nat := 0x1_0000_0000_0000

  /** Any 64-bit hash of a byte string under a seed. */
  type Hash64 = (bytes, u64) -> u64

  /** The 48 bits of a key's hash that the store keeps. */
  function NHash(hash64: Hash64, key: Hash256, salt: u64): nat {
    hash64(key, salt) / 0x1_0000
  }

  /** Where a record stands in the data file, and the 48-bit hash it is filed under. */
  datatype Entry = Entry(nhash: nat, offset: nat, size: nat)

  ghost predicate EntryFits(e: Entry) {
    e.nhash < U48 && e.offset < U48 && e.size < U48
  }

  ghost predicate EntriesFit(es: seq<Entry>) {
    forall i :: 0 <= i < |es| ==> EntryFits(es[i])
  }

  function EntryBytes(e: Entry): (b: bytes)
    ensures |b| == ENTRY_SIZE
  {
    ToBE(6, e.offset) + ToBE(6, e.size) + ToBE(6, e.nhash)
  }

  function EntriesBytes(es: seq<Entry>): (b: bytes)
    ensures |b| == ENTRY_SIZE * |es|
  {
    if es == [] then [] else EntriesBytes(es[..|es| - 1]) + EntryBytes(es[|es| - 1])
  }

  /** A bucket: its entries and where the rest of them spilled to, or 0. */
  function BucketBytes(es: seq<Entry>, spill: nat): (b: bytes)
    ensures |b| == BUCKET_HEADER + ENTRY_SIZE * |es|
  {
    ToBE(2, |es|) + ToBE(6, spill) + EntriesBytes(es)
  }

  /** A bucket as a block of the key file, padded with zeros. */
  function BucketBlock(es: seq<Entry>, spill: nat): (b: bytes)
    requires |es| <= BUCKET_CAPACITY
    ensures |b| == BLOCK_SIZE
  {
    BucketBytes(es, spill) + Zeros(BLOCK_SIZE - BUCKET_HEADER - ENTRY_SIZE * |es|)
  }

  /** A spilled bucket as a record of the data file. */
  function SpillRecord(es: seq<Entry>, spill: nat): (b: bytes)
    ensures |b| == 8 + BUCKET_HEADER + ENTRY_SIZE * |es|
  {
    Zeros(6) + ToBE(2, BUCKET_HEADER + ENTRY_SIZE * |es|) + BucketBytes(es, spill)
  }

  /** A big-endian field of `n` bytes. */
  function Field(b: bytes, at: nat, n: nat): nat
    requires at + n <= |b|
  {
    FromBE(b[at..at + n])
  }

  function EntryAt(block: bytes, i: nat): Result<Entry> {
    var at := BUCKET_HEADER + i * ENTRY_SIZE;
    if |block| < at + ENTRY_SIZE then Failure
    else Success(Entry(Field(block, at + 12, 6), Field(block, at, 6), Field(block, at + 6, 6)))
  }

  lemma {:induction false} EntriesSlice(es: seq<Entry>, i: nat)
    requires i < |es|
    ensures EntriesBytes(es)[ENTRY_SIZE * i..ENTRY_SIZE * i + ENTRY_SIZE] == EntryBytes(es[i])
  {
    var front := es[..|es| - 1];
    if i < |es| - 1 {
      EntriesSlice(front, i);
      assert EntriesBytes(es)[ENTRY_SIZE * i..ENTRY_SIZE * i + ENTRY_SIZE]
          == EntriesBytes(front)[ENTRY_SIZE * i..ENTRY_SIZE * i + ENTRY_SIZE];
    }
  }

  lemma U48Back(v: nat)
    requires v < U48
    ensures FromBE(ToBE(6, v)) == v
  {
    Widths();
    FromToBE(6, v);
  }

  lemma EntryBack(b: bytes, at: nat, e: Entry)
    requires EntryFits(e) && at + ENTRY_SIZE <= |b| && b[at..at + ENTRY_SIZE] == EntryBytes(e)
    ensures Entry(Field(b, at + 12, 6), Field(b, at, 6), Field(b, at + 6, 6)) == e
  {
    hide ToBE, FromBE;
    var x, y, z := ToBE(6, e.offset), ToBE(6, e.size), ToBE(6, e.nhash);
    var s := b[at..at + ENTRY_SIZE];
    assert s == x + y + z;
    assert b[at..at + 6] == s[0..6] == x;
    assert b[at + 6..at + 12] == s[6..12] == y;
    assert b[at + 12..at + 18] == s[12..18] == z;
    U48Back(e.offset);
    U48Back(e.size);
    U48Back(e.nhash);
  }

  /** `block` begins with a bucket of these entries. */
  ghost predicate IsBucket(block: bytes, es: seq<Entry>, spill: nat) {
    && |block| >= BUCKET_HEADER && Field(block, 0, 2) == |es| && Field(block, 2, 6) == spill
    && forall i :: 0 <= i < |es| ==> EntryAt(block, i) == Success(es[i])
  }

  /** A written bucket reads back, whatever follows it. */
  lemma BucketBack(es: seq<Entry>, spill: nat, tail: bytes)
    requires EntriesFit(es) && |es| < 0x1_0000 && spill < U48
    ensures IsBucket(BucketBytes(es, spill) + tail, es, spill)
  {
    hide ToBE, FromBE, EntriesBytes, EntryFits;
    var block := BucketBytes(es, spill) + tail;
    var x, y, z := ToBE(2, |es|), ToBE(6, spill), EntriesBytes(es);
    assert block[0..2] == x && block[2..8] == y;
    Widths();
    FromToBE(2, |es|);
    U48Back(spill);
    forall i | 0 <= i < |es| ensures EntryAt(block, i) == Success(es[i]) {
      var at := BUCKET_HEADER + i * ENTRY_SIZE;
      EntriesSlice(es, i);
      assert block[at..at + ENTRY_SIZE] == z[ENTRY_SIZE * i..ENTRY_SIZE * i + ENTRY_SIZE];
      EntryBack(block, at, es[i]);
    }
  }

  // ---------------------------------------------------------------------------------------------
  // Records

  function RecordBytes(key: Hash256, value: bytes): (b: bytes)
    ensures |b| == REC_HEADER + |value|
  {
    ToBE(6, |value|) + key + value
  }

  /** The key of the record at `offset`. */
  function KeyAt(dat: bytes, offset: nat): Result<Hash256> {
    if |dat| < offset + REC_HEADER then Failure else Success(dat[offset + 6..offset + REC_HEADER])
  }

  function ValueAt(dat: bytes, e: Entry): Result<bytes> {
    if |dat| < e.offset + REC_HEADER + e.size then Failure
    else Success(dat[e.offset + REC_HEADER..e.offset + REC_HEADER + e.size])
  }

  ghost predicate RecordAt(dat: bytes, e: Entry, key: Hash256, value: bytes) {
    KeyAt(dat, e.offset) == Success(key) && ValueAt(dat, e) == Success(value)
  }

  lemma RecordAppended(dat: bytes, more: bytes, e: Entry, key: Hash256, value: bytes)
    requires RecordAt(dat, e, key, value)
    ensures RecordAt(dat + more, e, key, value)
  {
    var from, end := e.offset + REC_HEADER, e.offset + REC_HEADER + e.size;
    assert (dat + more)[e.offset + 6..from] == dat[e.offset + 6..from];
    assert (dat + more)[from..end] == dat[from..end];
  }

  lemma RecordWritten(dat: bytes, e: Entry, key: Hash256, value: bytes)
    requires e.offset == |dat| && e.size == |value|
    ensures RecordAt(dat + RecordBytes(key, value), e, key, value)
  {
    var r := ToBE(6, |value|) + key + value;
    var all := dat + r;
    assert all[e.offset + 6..e.offset + REC_HEADER] == r[6..REC_HEADER] == key;
    assert all[e.offset + REC_HEADER..e.offset + REC_HEADER + e.size] == r[REC_HEADER..] == value;
  }
}
