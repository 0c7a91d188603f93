/** The archive from one end to the other: export, chunk file, parsing, replay, store, fetch. */
module ArchiveRun {
  import opened Prelude
  import opened SHAMap
  import ApplyDiff
  import opened TxTree
  import opened ChunkFormat
  import opened ChunkProofs
  import opened ChunkInput
  import opened Replay
  import opened Importer
  import opened ReplayProofs
  import opened StreamReplay
  import opened Ledgers
  import opened Exporter
  import opened ExportRun
  import opened ExportProofs
  import opened NuDbFormat
  import opened NuDbReader
  import opened NuDbProofs
  import opened ImportStore
  import opened ArchiveProofs

  /** What the importer makes of a file: its fifth byte chooses streaming or parsing the whole first. */
  ghost function FileReplayed(sha: Sha, verify: bool, data: bytes): Result<Live> {
    if |data| < 5 then Failure
    else if data[4] == FORMAT_VERSION_STREAMED then StreamReplayed(sha, verify, data)
    else Buffered(sha, verify, data)
  }

  /** The walks of a verifying import come to an end. */
  ghost predicate FileTerminates(sha: Sha, verify: bool, data: bytes) {
    if |data| < 5 then true
    else if data[4] == FORMAT_VERSION_STREAMED then
      ReadHeader(data).Success? ==>
        BodyTerminates(sha, verify, ReadHeader(data).value.value, ReadHeader(data).value.rest)
    else DeserializeChunk(sha, data).Success? ==> Terminates(sha, verify, DeserializeChunk(sha, data).value)
  }

  lemma AcceptedFileTerminates(sha: Sha, verify: bool, data: bytes)
    requires FileReplayed(sha, verify, data).Success?
    ensures FileTerminates(sha, verify, data)
  {
    hide DeserializeChunk, Replayed, Terminates, ReadHeader, StreamReplayed, BodyTerminates;
    if data[4] == FORMAT_VERSION_STREAMED {
      StreamAcceptedTerminates(sha, verify, data);
    } else {
      AcceptedTerminates(sha, verify, DeserializeChunk(sha, data).value);
    }
  }

  /** Replays a chunk file, streaming it if it can be, and writes its nodes to a new store. */
  method ImportFile(sha: Sha, data: bytes, verify: bool, hash64: Hash64) returns (ok: bool, dat: bytes, key: bytes)
    requires FileTerminates(sha, verify, data)
    ensures ok <==> FileReplayed(sha, verify, data).Success?
    ensures ok && |dat| < U48 ==>
              && Opened(dat, key).Success?
              && Serves(hash64, Opened(dat, key).value, Sunk(false, [], FileReplayed(sha, verify, data).value.sunk))
  {
    hide DeserializeChunk, Replayed, Terminates, ReadHeader, StreamReplayed, BodyTerminates, Serves, Opened, Sunk;
    ok, dat, key := false, [], [];
    if |data| < 5 {
      return;
    }
    if data[4] == FORMAT_VERSION_STREAMED {
      var sink := new NodeSink(false);
      var state, rows;
      ok, state, rows := ReplayChunkStreaming(sha, data, verify, sink);
      if ok {
        dat, key := WriteStore(hash64, sink.writes);
      }
    } else {
      var c := ReadChunkFile(sha, data);
      if c.Success? {
        ok, dat, key := ImportChunk(sha, c.value, verify, hash64);
      }
    }
  }

  /** The ledgers of chunk `k`. */
  ghost predicate InChunk(src: Source, hist: seq<Ledger>, k: nat, i: nat) {
    k * src.chunkSize <= i < Min((k + 1) * src.chunkSize, |hist|)
  }

  lemma InPiece(src: Source, hist: seq<Ledger>, k: nat, i: nat, a: nat, b: nat)
    requires InChunk(src, hist, k, i) && a == k * src.chunkSize && b == Min(a + src.chunkSize, |hist|)
    ensures a <= i < b <= |hist|
  {
    NextCut(k, src.chunkSize);
  }

  /** What importing an exported file amounts to. */
  lemma FileIsReplayed(src: Source, rank: Hash256 -> nat, verify: bool, hist: seq<Ledger>, a: nat, b: nat, file: bytes)
    requires SoundSource(src, rank) && Whole(src, rank, hist) && a < b <= |hist| && LedgersFit(src, hist)
    requires ChunkEnd(src, src.start + a) == src.start + b - 1
    requires file == SerializeStreamed(src.sha, PieceOf(src, rank, hist, a, b))
    ensures FileReplayed(src.sha, verify, file) == Buffered(src.sha, verify, file)
    ensures FileReplayed(src.sha, verify, file) == Replayed(src.sha, verify, PieceOf(src, rank, hist, a, b))
    ensures FileReplayed(src.sha, verify, file).Success?
  {
    hide SoundSource, Whole, LedgersFit, ChunkFits, DeserializeChunk, SerializeStreamed, Replayed, PieceOf, ChunkEnd,
         StandsAt, StreamReplayed, IsStreamed, EndsAtFooter;
    var c := PieceOf(src, rank, hist, a, b);
    var chunkHash := PieceParses(src, rank, hist, a, b);
    HashUnread(src.sha, verify, c, chunkHash);
    PieceReplays(src, rank, verify, hist, a, b);
    PieceEndsAtFooter(src, rank, hist, a, b);
    StreamingAgrees(src.sha, verify, file);
  }

  lemma PieceEndsAtFooter(src: Source, rank: Hash256 -> nat, hist: seq<Ledger>, a: nat, b: nat)
    requires SoundSource(src, rank) && Whole(src, rank, hist) && a < b <= |hist| && LedgersFit(src, hist)
    requires ChunkEnd(src, src.start + a) == src.start + b - 1
    ensures
      var file := SerializeStreamed(src.sha, PieceOf(src, rank, hist, a, b));
      |file| >= 5 && file[4] == FORMAT_VERSION_STREAMED && IsStreamed(file) && EndsAtFooter(file)
  {
    hide SoundSource, Whole, LedgersFit, ChunkFits, SerializeStreamed, StateAfter, ChunkEnd, IsStreamed, EndsAtFooter;
    PieceHead(src, rank, hist, a, b);
    PieceFits(src, rank, hist, a, b);
    WrittenEndsAtFooter(src.sha, PieceOf(src, rank, hist, a, b));
  }

  /** An exported file, for the importer: replay of it comes to an end and succeeds. */
  ghost predicate Importable(src: Source, verify: bool, file: bytes) {
    FileTerminates(src.sha, verify, file) && FileReplayed(src.sha, verify, file).Success?
  }

  lemma FileImportable(src: Source, rank: Hash256 -> nat, verify: bool, hist: seq<Ledger>, files: seq<bytes>, k: nat)
    returns (a: nat, b: nat)
    requires k < |files| && src.chunkSize > 0 && src.start + k * src.chunkSize + src.chunkSize - 1 < 0x1_0000_0000
    requires SoundSource(src, rank) && LedgersFit(src, hist) && Exported(src, rank, hist, files)
    ensures a == k * src.chunkSize && b == Min(a + src.chunkSize, |hist|) && a < b
    ensures Importable(src, verify, files[k])
    ensures FileReplayed(src.sha, verify, files[k]) == Replayed(src.sha, verify, PieceOf(src, rank, hist, a, b))
  {
    hide SoundSource, LedgersFit, SerializeStreamed, PieceOf, ChunkFiles, HistoryOf, FirstState, Replayed,
         FileReplayed, FileTerminates;
    a, b := FileIsPiece(src, rank, hist, files, k);
    HeaderEndIff(src, src.start + a);
    FileIsReplayed(src, rank, verify, hist, a, b, files[k]);
    AcceptedFileTerminates(src.sha, verify, files[k]);
  }

  /**
   * From file bytes to fetched nodes. For every sound run of ledgers and every exported file whose
   * header end does not wrap: importing the file succeeds, and a store that holds what it sank, together
   * with whatever else came from the same source, serves every state and transaction node of every
   * ledger of the chunk.
   */
  lemma FileServes(src: Source, rank: Hash256 -> nat, verify: bool, hist: seq<Ledger>, files: seq<bytes>, k: nat,
                   i: nat, all: seq<Node>, hash64: Hash64, shard: Shard)
    requires k < |files| && src.chunkSize > 0 && src.start + k * src.chunkSize + src.chunkSize - 1 < 0x1_0000_0000
    requires SoundSource(src, rank) && LedgersFit(src, hist) && Exported(src, rank, hist, files)
    requires InChunk(src, hist, k, i)
    requires FileReplayed(src.sha, verify, files[k]).Success? ==>
               forall n :: n in FileReplayed(src.sha, verify, files[k]).value.sunk ==> n in all
    requires ApplyDiff.From(all, src.m) && Serves(hash64, shard, Sunk(false, [], all))
    ensures Importable(src, verify, files[k])
    ensures src.start + |hist| <= 0x1_0000_0000 && i < |hist| && LedgerServed(src, rank, hist, hash64, shard, i)
  {
    hide SoundSource, LedgersFit, HistoryOf, ChunkFiles, FirstState, Importable, FileReplayed, Replayed, PieceOf,
         Serves, Sunk, ApplyDiff.From, InChunk;
    var a, b := FileImportable(src, rank, verify, hist, files, k);
    InPiece(src, hist, k, i, a, b);
    WholeBound(src, rank, hist);
    ImportableSucceeds(src, verify, files[k]);
    ArchiveServes(src, rank, verify, hist, a, b, i, all, hash64, shard);
  }

  lemma ImportableSucceeds(src: Source, verify: bool, file: bytes)
    requires Importable(src, verify, file)
    ensures FileReplayed(src.sha, verify, file).Success?
  {
  }

  /** Nothing but nodes of the source is sunk. */
  lemma FileSinks(src: Source, rank: Hash256 -> nat, verify: bool, hist: seq<Ledger>, files: seq<bytes>, k: nat)
    requires k < |files| && src.chunkSize > 0 && src.start + k * src.chunkSize + src.chunkSize - 1 < 0x1_0000_0000
    requires SoundSource(src, rank) && LedgersFit(src, hist) && Exported(src, rank, hist, files)
    ensures Importable(src, verify, files[k])
    ensures FileReplayed(src.sha, verify, files[k]).Success?
    ensures ApplyDiff.From(FileReplayed(src.sha, verify, files[k]).value.sunk, src.m)
  {
    hide SoundSource, LedgersFit, HistoryOf, ChunkFiles, FirstState, Importable, FileReplayed, Replayed, PieceOf,
         ApplyDiff.From;
    var a, b := FileImportable(src, rank, verify, hist, files, k);
    ImportableSucceeds(src, verify, files[k]);
    ChunkLists(src, rank, verify, hist, a, b);
  }

  /** Whatever is exported fits the widths of the format. */
  ghost predicate SourceFits(src: Source, rank: Hash256 -> nat) {
    forall hist :: Whole(src, rank, hist) ==> LedgersFit(src, hist)
  }

  ghost predicate AllServed(src: Source, rank: Hash256 -> nat, hist: seq<Ledger>, k: nat, hash64: Hash64, shard: Shard)
    requires ValidSource(src, rank) && Sound(shard) && src.start + |hist| <= 0x1_0000_0000
  {
    forall i: nat :: InChunk(src, hist, k, i) ==> LedgerServed(src, rank, hist, hash64, shard, i)
  }

  lemma OwnServes(src: Source, rank: Hash256 -> nat, verify: bool, hist: seq<Ledger>, files: seq<bytes>, k: nat,
                  hash64: Hash64, shard: Shard)
    requires k < |files| && src.chunkSize > 0 && src.start + k * src.chunkSize + src.chunkSize - 1 < 0x1_0000_0000
    requires SoundSource(src, rank) && LedgersFit(src, hist) && Exported(src, rank, hist, files)
    requires FileReplayed(src.sha, verify, files[k]).Success? ==>
               Serves(hash64, shard, Sunk(false, [], FileReplayed(src.sha, verify, files[k]).value.sunk))
    ensures src.start + |hist| <= 0x1_0000_0000 && Sound(shard) && AllServed(src, rank, hist, k, hash64, shard)
  {
    hide SoundSource, LedgersFit, HistoryOf, ChunkFiles, FirstState, Importable, FileReplayed, Replayed, Sunk,
         ApplyDiff.From, InChunk, Sound, Fetched, LedgerServed;
    WholeBound(src, rank, hist);
    FileSinks(src, rank, verify, hist, files, k);
    var all := FileReplayed(src.sha, verify, files[k]).value.sunk;
    forall i: nat | InChunk(src, hist, k, i) ensures i < |hist| {
      Covered(src, hist, k, i);
    }
    forall i: nat | InChunk(src, hist, k, i) ensures LedgerServed(src, rank, hist, hash64, shard, i) {
      FileServes(src, rank, verify, hist, files, k, i, all, hash64, shard);
    }
  }

  lemma Covered(src: Source, hist: seq<Ledger>, k: nat, i: nat)
    requires InChunk(src, hist, k, i)
    ensures i < |hist|
  {
  }

  lemma FileExists(src: Source, rank: Hash256 -> nat, hist: seq<Ledger>, files: seq<bytes>, k: nat)
    requires Exported(src, rank, hist, files) && k * src.chunkSize < |hist|
    ensures k < |files|
  {
    hide HistoryOf, ChunkFile, FirstState, Ranked;
    assert |hist| <= |files| * src.chunkSize;
    if |files| <= k {
      MulLe(|files|, k, src.chunkSize);
    }
  }

  /**
   * The whole way, for one chunk: export the range, take the chunk's file, import it. Below 2^48 bytes
   * the store serves every state and transaction node of every ledger of the chunk.
   */
  method RoundTrip(src: Source, concurrency: u32, k: nat, verify: bool, hash64: Hash64, ghost rank: Hash256 -> nat)
    returns (ok: bool, dat: bytes, key: bytes, ghost hist: seq<Ledger>)
    requires SoundSource(src, rank) && SourceFits(src, rank) && src.start < src.end && src.chunkSize > 0
    requires BatchesFit(src, concurrency)
    requires src.start + k * src.chunkSize <= src.end
    requires src.start + k * src.chunkSize + src.chunkSize - 1 < 0x1_0000_0000
    ensures ok && ValidSource(src, rank) && Whole(src, rank, hist) && src.start + |hist| <= 0x1_0000_0000
    ensures |dat| < U48 ==>
              && Opened(dat, key).Success? && Sound(Opened(dat, key).value)
              && AllServed(src, rank, hist, k, hash64, Opened(dat, key).value)
  {
    hide SoundLedger, SoundLink, SelfHashedMap, Ranked, Exportable, LedgersFit, HistoryOf, ChunkFiles, FirstState,
         FileReplayed, FileTerminates, Opened, Fetched, Sound, Sunk, LedgerServed, InChunk;
    SoundExportable(src, rank);
    var files;
    files, hist := Export(src, concurrency, rank);
    WholeBound(src, rank, hist);
    FileExists(src, rank, hist, files.value, k);
    var file := files.value[k];
    FileSinks(src, rank, verify, hist, files.value, k);
    ok, dat, key := ImportFile(src.sha, file, verify, hash64);
    if |dat| < U48 {
      OwnServes(src, rank, verify, hist, files.value, k, hash64, Opened(dat, key).value);
    }
  }
}
