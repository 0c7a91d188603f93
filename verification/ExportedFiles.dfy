/** What an exported file says about itself, read off its bytes and off what it parses to. */
module ExportedFiles {
  import opened Prelude
  import opened Bytes
  import opened SHAMap
  import opened TxTree
  import opened ChunkFormat
  import opened ChunkProofs
  import opened Replay
  import opened Ledgers
  import opened Exporter
  import opened ExportRun
  import opened FormatLayout

  /** The number of the first ledger of chunk `k`. */
  ghost function FirstOf(src: Source, k: nat): int {
    src.start + k * src.chunkSize
  }

  /** The last ledger its header announces; the addition wraps at 32 bits. */
  ghost function AnnouncedEnd(src: Source, k: nat): int {
    Min((FirstOf(src, k) + src.chunkSize - 1) % 0x1_0000_0000, src.end)
  }

  /** `h` is the hash in the source's row for ledger `s`. */
  ghost predicate IsRowHash(src: Source, s: int, h: Hash256) {
    0 <= s < 0x1_0000_0000 && s in src.db && src.db[s].ledgerHash == h
  }

  /** Chunk `k` of an export, as it was written. */
  lemma FilePiece(src: Source, rank: Hash256 -> nat, hist: seq<Ledger>, files: seq<bytes>, k: nat)
    returns (c: Chunk)
    requires k < |files| && Exported(src, rank, hist, files)
    ensures |c.txMaps| == |c.deltas| + 1 && files[k] == SerializeStreamed(src.sha, c)
    ensures c.networkId == src.networkId && c.startLedger == FirstOf(src, k) && c.endLedger == AnnouncedEnd(src, k)
    ensures IsRowHash(src, FirstOf(src, k), c.checkpointHash)
  {
    hide LedgerFrom, HistoryOf, FirstState, StateAfter, SerializeStreamed, Ranked, InfoOk;
    var a, b := k * src.chunkSize, Min((k + 1) * src.chunkSize, |hist|);
    assert ChunkFile(src, FirstState(src, rank), hist, files[k], k);
    c := PieceAt(src, rank, hist, files[k], a, b);
  }

  lemma PieceAt(src: Source, rank: Hash256 -> nat, hist: seq<Ledger>, file: bytes, a: nat, b: nat)
    returns (c: Chunk)
    requires Whole(src, rank, hist) && src.start in src.db && Keyed(FirstState(src, rank)) && a < b <= |hist|
    requires src.start + b <= 0x1_0000_0000 && file == FileOf(src, FirstState(src, rank), hist, a, b)
    ensures |c.txMaps| == |c.deltas| + 1 && file == SerializeStreamed(src.sha, c)
    ensures c.networkId == src.networkId && c.startLedger == src.start + a
    ensures c.endLedger == Min((src.start + a + src.chunkSize - 1) % 0x1_0000_0000, src.end)
    ensures IsRowHash(src, src.start + a, c.checkpointHash)
  {
    hide LedgerFrom, FirstState, StateAfter, SerializeStreamed, Ranked, InfoOk;
    var first := FirstState(src, rank);
    StateKeyed(first, hist, a);
    c := Piece(src, first, hist, a, b, ChunkEnd(src, src.start + a));
    assert LedgerFrom(src, rank, hist[a], src.start + a);
    RowOfLedger(src, rank, hist[a], src.start + a);
  }

  lemma RowOfLedger(src: Source, rank: Hash256 -> nat, l: Ledger, s: u32)
    requires ValidSource(src, rank) && LedgerFrom(src, rank, l, s)
    ensures s in src.db && l.seqNo == s && l.info == src.db[s]
  {
  }

  /**
   * Every exported file carries, byte by byte, the network it is from, the numbers of its first and last
   * ledger, the hash of its first ledger, and the hash of everything behind its header.
   */
  lemma FileNamesLedger(src: Source, rank: Hash256 -> nat, hist: seq<Ledger>, files: seq<bytes>, k: nat)
    returns (first: Hash256)
    requires k < |files| && Exported(src, rank, hist, files)
    ensures |files[k]| >= 81 && IsRowHash(src, FirstOf(src, k), first)
    ensures IsChunkHeader(files[k], 3, src.networkId, FirstOf(src, k), AnnouncedEnd(src, k), first,
                          src.sha(files[k][81..]))
  {
    hide Exported, SerializeStreamed, IsChunkHeader, WriteNodeList, WriteTxMap, WritePairs, FirstOf, AnnouncedEnd;
    var c := FilePiece(src, rank, hist, files, k);
    StreamedLayout(src.sha, c);
    first := c.checkpointHash;
  }

  /** So does what it parses to. */
  lemma ParsedNamesLedger(src: Source, rank: Hash256 -> nat, hist: seq<Ledger>, files: seq<bytes>, k: nat)
    requires k < |files| && Exported(src, rank, hist, files) && DeserializeChunk(src.sha, files[k]).Success?
    ensures
      var c := DeserializeChunk(src.sha, files[k]).value;
      && c.networkId == src.networkId && c.startLedger == FirstOf(src, k) && c.endLedger == AnnouncedEnd(src, k)
      && IsRowHash(src, FirstOf(src, k), c.checkpointHash)
      && |files[k]| >= 81 && c.chunkHash == src.sha(files[k][81..])
  {
    hide Exported, ReadHeader, WriteHeader, ReadNodeList, ReadLedgers, StreamedBody, FirstOf, AnnouncedEnd;
    var c := FilePiece(src, rank, hist, files, k);
    var body := StreamedBody(c);
    HeaderBack(3, c, src.sha(body), body);
    HeaderLength(3, c, src.sha(body));
    assert files[k][81..] == body;
  }
}
