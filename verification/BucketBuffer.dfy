/** Writing buckets into byte buffers in place, as the store writer does for blocks and spill records. */
module BucketBuffer {
  import opened Prelude
  import opened Bytes
  import opened NuDbFormat

  /** Copies `b` to position `at` and leaves the rest alone. */
  method CopyInto(buf: array<byte>, at: nat, b: bytes)
    requires at + |b| <= buf.Length
    modifies buf
    ensures buf[at..at + |b|] == b
    ensures buf[..at] == old(buf[..at]) && buf[at + |b|..] == old(buf[at + |b|..])
  {
    forall i | 0 <= i < |b| {
      buf[at + i] := b[i];
    }
  }

  /** Count and spill offset. */
  method WriteHead(buf: array<byte>, count: nat, spill: nat)
    requires BUCKET_HEADER <= buf.Length
    modifies buf
    ensures buf[..BUCKET_HEADER] == ToBE(2, count) + ToBE(6, spill)
    ensures buf[BUCKET_HEADER..] == old(buf[BUCKET_HEADER..])
  {
    hide ToBE;
    CopyInto(buf, 0, ToBE(2, count));
    ghost var first := buf[..];
    CopyInto(buf, 2, ToBE(6, spill));
    assert buf[..2] == first[..2] == ToBE(2, count);
    HeadWritten(buf[..], ToBE(2, count), ToBE(6, spill));
  }

  /** An entry, behind what is written already. */
  method WriteEntry(buf: array<byte>, at: nat, e: Entry, ghost done: bytes, ghost left: bytes)
    requires |done| == at && |left| >= ENTRY_SIZE && buf[..] == done + left
    modifies buf
    ensures buf[..] == (done + EntryBytes(e)) + left[ENTRY_SIZE..]
  {
    hide EntryBytes;
    assert buf.Length == |done| + |left|;
    assert buf[..at] == done && buf[at + ENTRY_SIZE..] == left[ENTRY_SIZE..];
    CopyInto(buf, at, EntryBytes(e));
    assert buf[..] == buf[..at] + buf[at..at + ENTRY_SIZE] + buf[at + ENTRY_SIZE..];
  }

  /** Count, spill offset and entries, at the front of the buffer. */
  method WriteBucketInto(buf: array<byte>, es: seq<Entry>, spill: nat)
    requires BUCKET_HEADER + ENTRY_SIZE * |es| <= buf.Length
    modifies buf
    ensures buf[..] == BucketBytes(es, spill) + old(buf[BUCKET_HEADER + ENTRY_SIZE * |es|..])
  {
    hide ToBE, EntryBytes, EntriesBytes;
    ghost var head, rest := ToBE(2, |es|) + ToBE(6, spill), buf[BUCKET_HEADER..];
    ghost var behind := buf[BUCKET_HEADER + ENTRY_SIZE * |es|..];
    assert behind == rest[ENTRY_SIZE * |es|..];
    WriteHead(buf, |es|, spill);
    NoEntries();
    assert es[..0] == [] && buf[..] == buf[..BUCKET_HEADER] + buf[BUCKET_HEADER..];
    ghost var done, left := head, rest;
    assert head + [] == head;
    for i := 0 to |es|
      invariant buf[..] == done + left && done == head + EntriesBytes(es[..i]) && left == rest[ENTRY_SIZE * i..]
    {
      WriteEntry(buf, BUCKET_HEADER + i * ENTRY_SIZE, es[i], done, left);
      EntriesSnoc(es, i);
      AppendAssoc(head, EntriesBytes(es[..i]), EntryBytes(es[i]));
      DropMore(rest, ENTRY_SIZE * i, ENTRY_SIZE);
      done, left := done + EntryBytes(es[i]), left[ENTRY_SIZE..];
    }
    assert es[..|es|] == es;
  }

  lemma DropMore(b: bytes, m: nat, n: nat)
    requires m + n <= |b|
    ensures b[m..][n..] == b[m + n..]
  {
  }

  lemma HeadWritten(b: bytes, x: bytes, y: bytes)
    requires |b| >= 8 && |x| == 2 && |y| == 6 && b[..2] == x && b[2..8] == y
    ensures b[..8] == x + y
  {
    assert b[..8] == b[..2] + b[2..8];
  }

  lemma NoEntries()
    ensures EntriesBytes([]) == []
  {
  }

  lemma EntriesSnoc(es: seq<Entry>, i: nat)
    requires i < |es|
    ensures EntriesBytes(es[..i + 1]) == EntriesBytes(es[..i]) + EntryBytes(es[i])
  {
    assert es[..i + 1][..i] == es[..i];
  }

  /** A bucket as a full block of the key file. */
  method FullBlock(es: seq<Entry>, spill: nat) returns (block: bytes)
    requires |es| <= BUCKET_CAPACITY
    ensures block == BucketBlock(es, spill)
  {
    hide BucketBytes;
    var buf := new byte[BLOCK_SIZE](_ => 0);
    WriteBucketInto(buf, es, spill);
    block := buf[..];
    assert block == BucketBytes(es, spill) + Zeros(BLOCK_SIZE - BUCKET_HEADER - ENTRY_SIZE * |es|);
  }

  /** A spilled bucket as a record of the data file: six zero bytes, the body's size, the body. */
  method SpillBytes(es: seq<Entry>, spill: nat) returns (record: bytes)
    ensures record == SpillRecord(es, spill)
  {
    hide BucketBytes, ToBE;
    var size := BUCKET_HEADER + ENTRY_SIZE * |es|;
    var body := new byte[size](_ => 0);
    WriteBucketInto(body, es, spill);
    assert body[..] == BucketBytes(es, spill) + [];
    record := Zeros(6) + ToBE(2, size) + body[..];
  }
}
