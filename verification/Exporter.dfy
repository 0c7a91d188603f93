/** The exporter's loop. */
module Exporter {
  import opened Prelude
  import opened SHAMap
  import opened Sorting
  import opened TreeDiff
  import opened ApplyDiff
  import opened Walks
  import opened TxTree
  import opened TxCollect
  import opened ChunkFormat
  import opened ChunkStream
  import opened Replay
  import opened Ledgers

  /** What the exporter reads: the node store, the ledger table, and the range it was asked for. */
  datatype Source = Source(sha: Sha, m: NodeMap, db: LedgerDb, networkId: u32, start: u32, end: u32, chunkSize: u32)

  ghost predicate ValidSource(src: Source, rank: Hash256 -> nat) {
    Ranked(src.m, rank)
  }

  /** The last ledger number the header of a chunk announces; the addition wraps at 32 bits. */
  function ChunkEnd(src: Source, chunkStart: u32): u32 {
    Min((chunkStart + src.chunkSize - 1) % 0x1_0000_0000, src.end)
  }

  ghost function StateTree(src: Source, rank: Hash256 -> nat, root: Hash256): (t: Tree)
    requires ValidSource(src, rank)
    ensures SlotUnfolds(src.m, root, t)
  {
    if root == ZERO_HASH then Nil else Unfold(src.m, rank, root)
  }

  ghost predicate TxOk(m: NodeMap, txRoot: Hash256) {
    txRoot == ZERO_HASH || forall h :: Reach(m, txRoot, h) ==> TxUsable(m, h)
  }

  ghost predicate TxFrom(m: NodeMap, txRoot: Hash256, txns: seq<TxRecord>) {
    && CollectedTxs(m, txRoot) == Success(txns)
    && if txRoot == ZERO_HASH then txns == [] else CollectsTx(m, txRoot, Success(txns))
  }

  ghost predicate InfoOk(src: Source, s: u32) {
    s in src.db && InfoVerified(src.sha, src.db[s], s)
  }

  ghost predicate LedgerOk(src: Source, s: u32) {
    InfoOk(src, s) && TxOk(src.m, src.db[s].txHash)
  }

  ghost predicate DiffOk(src: Source, rank: Hash256 -> nat, s: u32)
    requires ValidSource(src, rank)
  {
    && s > 0 && s - 1 in src.db && s in src.db
    && SortedDiff(StateTree(src, rank, src.db[s - 1].accountHash), StateTree(src, rank, src.db[s].accountHash)).Success?
  }

  /** Everything the export needs can be read. */
  ghost predicate Exportable(src: Source, rank: Hash256 -> nat)
    requires ValidSource(src, rank)
  {
    && src.start < src.end && src.chunkSize > 0
    && (forall s: u32 :: src.start <= s <= src.end ==> LedgerOk(src, s))
    && (forall s: u32 :: src.start < s <= src.end ==> DiffOk(src, rank, s))
    && src.start in src.db
    && forall h :: Reach(src.m, src.db[src.start].accountHash, h) ==> Usable(src.m, h)
  }

  /** `l` is ledger `s` as the source holds it. */
  ghost predicate LedgerFrom(src: Source, rank: Hash256 -> nat, l: Ledger, s: u32)
    requires ValidSource(src, rank)
  {
    && l.seqNo == s && InfoOk(src, s) && l.info == src.db[s] && TxFrom(src.m, l.info.txHash, l.txns)
    && (s > src.start ==>
          s - 1 in src.db &&
          SortedDiff(StateTree(src, rank, src.db[s - 1].accountHash), StateTree(src, rank, l.info.accountHash))
              == Success(l.diff))
  }

  /** `hist` is the first `|hist|` ledgers of the range. */
  ghost predicate HistoryOf(src: Source, rank: Hash256 -> nat, hist: seq<Ledger>)
    requires ValidSource(src, rank)
  {
    && src.start + |hist| <= src.end + 1
    && forall i :: 0 <= i < |hist| ==> LedgerFrom(src, rank, hist[i], src.start + i)
  }

  lemma {:induction false} StateKeyed(first: NodeMap, hist: seq<Ledger>, i: nat)
    requires Keyed(first) && i < |hist|
    ensures Keyed(StateAfter(first, hist, i))
  {
    if i > 0 {
      StateKeyed(first, hist, i - 1);
      InsertKeyed(RemoveAll(StateAfter(first, hist, i - 1), hist[i].diff.deleted), hist[i].diff.added);
    }
  }

  lemma {:induction false} StatePrefix(first: NodeMap, hist: seq<Ledger>, more: seq<Ledger>, i: nat)
    requires i < |hist|
    ensures StateAfter(first, hist + more, i) == StateAfter(first, hist, i)
  {
    if i > 0 {
      StatePrefix(first, hist, more, i - 1);
    }
  }

  /** The chunk over `a..b`, whose keyed state the first ledger's keyed map guarantees. */
  ghost function Piece(src: Source, first: NodeMap, hist: seq<Ledger>, a: nat, b: nat, endLedger: u32): (c: Chunk)
    requires a < b <= |hist| && Keyed(first)
    ensures |c.deltas| == b - a - 1 && |c.txMaps| == b - a && c.txMaps[0] == MapOf(hist[a])
    ensures SortedListing(StateAfter(first, hist, a), c.checkpoint)
  {
    StateKeyed(first, hist, a);
    ChunkOf(src.networkId, endLedger, first, hist, a, b)
  }

  lemma PiecePrefix(src: Source, first: NodeMap, hist: seq<Ledger>, l: Ledger, a: nat, b: nat, endLedger: u32)
    requires a < b <= |hist| && Keyed(first)
    ensures Piece(src, first, hist + [l], a, b, endLedger) == Piece(src, first, hist, a, b, endLedger)
  {
    StatePrefix(first, hist, [l], a);
    assert (hist + [l])[a + 1..b] == hist[a + 1..b] && (hist + [l])[a..b] == hist[a..b];
  }

  lemma PieceSnoc(src: Source, first: NodeMap, hist: seq<Ledger>, l: Ledger, a: nat, endLedger: u32)
    requires a < |hist| && Keyed(first)
    ensures
      var c := Piece(src, first, hist, a, |hist|, endLedger);
      Piece(src, first, hist + [l], a, |hist| + 1, endLedger)
      == c.(deltas := c.deltas + [DeltaOf(l)], txMaps := c.txMaps + [MapOf(l)])
  {
    StatePrefix(first, hist, [l], a);
    assert (hist + [l])[a + 1..|hist| + 1] == hist[a + 1..] + [l] && hist[a + 1..|hist|] == hist[a + 1..];
    assert (hist + [l])[a..|hist| + 1] == hist[a..] + [l] && hist[a..|hist|] == hist[a..];
    MapAppend(DeltaOf, hist[a + 1..], [l]);
    MapAppend(MapOf, hist[a..], [l]);
    assert MapSeq(DeltaOf, [l]) == [DeltaOf(l)] && MapSeq(MapOf, [l]) == [MapOf(l)];
  }

  /** The file written for the ledgers `a..b` of the history. */
  ghost function FileOf(src: Source, first: NodeMap, hist: seq<Ledger>, a: nat, b: nat): bytes
    requires a < b <= |hist| && Keyed(first) && src.start + b <= 0x1_0000_0000
  {
    SerializeStreamed(src.sha, Piece(src, first, hist, a, b, ChunkEnd(src, src.start + a)))
  }

  /** `cuts` are the boundaries of consecutive chunks of `chunkSize` ledgers. */
  ghost predicate Cuts(src: Source, cuts: seq<nat>) {
    && cuts != [] && cuts[0] == 0
    && forall k :: 0 < k < |cuts| ==> cuts[k] == cuts[k - 1] + src.chunkSize
  }

  lemma {:induction false} CutsExact(src: Source, cuts: seq<nat>, k: nat)
    requires Cuts(src, cuts) && k < |cuts|
    ensures cuts[k] == k * src.chunkSize
  {
    if k > 0 {
      CutsExact(src, cuts, k - 1);
      assert k * src.chunkSize == (k - 1) * src.chunkSize + src.chunkSize;
    }
  }

  ghost predicate FilesOf(src: Source, first: NodeMap, hist: seq<Ledger>, cuts: seq<nat>, files: seq<bytes>)
    requires Keyed(first) && src.start + |hist| <= 0x1_0000_0000
  {
    |files| < |cuts| && forall k :: 0 <= k < |files| ==> FileAt(src, first, hist, cuts, files, k)
  }

  /** File `k` covers the ledgers between cuts `k` and `k + 1`. */
  ghost predicate FileAt(src: Source, first: NodeMap, hist: seq<Ledger>, cuts: seq<nat>, files: seq<bytes>, k: nat)
    requires Keyed(first) && src.start + |hist| <= 0x1_0000_0000 && k < |files| < |cuts|
  {
    cuts[k] < cuts[k + 1] <= |hist| && files[k] == FileOf(src, first, hist, cuts[k], cuts[k + 1])
  }

  lemma FilesPrefix(src: Source, first: NodeMap, hist: seq<Ledger>, l: Ledger, cuts: seq<nat>, files: seq<bytes>)
    requires Keyed(first) && src.start + |hist| + 1 <= 0x1_0000_0000
    requires FilesOf(src, first, hist, cuts, files)
    ensures FilesOf(src, first, hist + [l], cuts, files)
  {
    forall k | 0 <= k < |files| ensures FileAt(src, first, hist + [l], cuts, files, k) {
      assert FileAt(src, first, hist, cuts, files, k);
      PiecePrefix(src, first, hist, l, cuts[k], cuts[k + 1], ChunkEnd(src, src.start + cuts[k]));
    }
  }

  // ---------------------------------------------------------------------------------------------
  // The loop's variables

  /** The nodes of a map, in whatever order its iterator yields them. */
  method Values(m: NodeMap) returns (ns: seq<Node>)
    requires Keyed(m)
    ensures Lists(m, ns)
  {
    ns := [];
    var left := m.Keys;
    while left != {}
      invariant left <= m.Keys
      invariant From(ns, m) && Distinct(HashesOf(ns))
      invariant forall h :: h in HashesOf(ns) <==> h in m && h !in left
      decreases left
    {
      var h :| h in left;
      HashesAppend(ns, [m[h]]);
      assert HashesOf([m[h]]) == [h];
      assert HashesOf(ns + [m[h]]) == HashesOf(ns) + [h];
      ns := ns + [m[h]];
      left := left - {h};
    }
  }

  /**
   * Where the loop stands: `hist` has been exported, `files` are the closed chunks, `cuts` their
   * boundaries, and `head` and `hashed` are the header and body of the open chunk.
   */
  ghost predicate Run(src: Source, rank: Hash256 -> nat, first: NodeMap, hist: seq<Ledger>, cuts: seq<nat>,
                      files: seq<bytes>, state: NodeMap, chunkStart: u32, chunkEnd: u32, head: Chunk, hashed: bytes)
  {
    && ValidSource(src, rank) && src.chunkSize > 0
    && Keyed(first) && hist != [] && HistoryOf(src, rank, hist)
    && state == StateAfter(first, hist, |hist| - 1)
    && Cuts(src, cuts) && |cuts| == |files| + 1 && FilesOf(src, first, hist, cuts, files)
    && OpenChunk(src, first, hist, cuts[|files|], chunkStart, chunkEnd, head, hashed)
  }

  /** The open chunk starts at ledger `a` of the history. */
  ghost predicate OpenChunk(src: Source, first: NodeMap, hist: seq<Ledger>, a: nat, chunkStart: u32, chunkEnd: u32,
                            head: Chunk, hashed: bytes)
    requires Keyed(first)
  {
    && a < |hist| <= a + src.chunkSize
    && chunkStart == src.start + a && chunkEnd == ChunkEnd(src, chunkStart)
    && head == HeadOf(src.networkId, chunkStart, chunkEnd, hist[a].info.ledgerHash)
    && hashed == OpenBody(Piece(src, first, hist, a, |hist|, chunkEnd))
  }

  /** The body of a chunk that holds one ledger so far. */
  lemma OpenFirst(src: Source, first: NodeMap, hist: seq<Ledger>, a: nat, endLedger: u32, nodes: seq<Node>)
    requires Keyed(first) && |hist| == a + 1
    requires Lists(StateAfter(first, hist, a), nodes)
    ensures OpenBody(Piece(src, first, hist, a, |hist|, endLedger)) == WriteNodeList(nodes) + WriteTxMap(MapOf(hist[a]))
  {
    hide StateAfter, Lists, Sorted, WriteTxMap, WriteNodes, SortBy, Keyed;
    var c := Piece(src, first, hist, a, |hist|, endLedger);
    StateKeyed(first, hist, a);
    SameListing(StateAfter(first, hist, a), nodes, c.checkpoint);
    assert c.deltas == [] && c.txMaps[1..] == [];
    assert WriteTxMap(c.txMaps[0]) + [] == WriteTxMap(c.txMaps[0]);
  }

  lemma SameListing(m: NodeMap, nodes: seq<Node>, listing: seq<Node>)
    requires Keyed(m) && Lists(m, nodes) && SortedListing(m, listing)
    ensures WriteNodeList(listing) == WriteNodeList(nodes)
  {
    ListingUnique(m, nodes);
    ListingUnique(m, listing);
  }

  lemma RunStart(src: Source, rank: Hash256 -> nat, l: Ledger, state: NodeMap, nodes: seq<Node>, end: u32)
    requires ValidSource(src, rank) && Keyed(state) && Lists(state, nodes)
    requires src.start < src.end && src.chunkSize > 0
    requires LedgerFrom(src, rank, l, src.start) && end == ChunkEnd(src, src.start)
    ensures Run(src, rank, state, [l], [0], [], state, src.start, end,
                HeadOf(src.networkId, src.start, end, l.info.ledgerHash), WriteNodeList(nodes) + WriteTxMap(MapOf(l)))
  {
    hide LedgerFrom, Lists, WriteNodeList, WriteTxMap;
    OpenFirst(src, state, [l], 0, end, nodes);
  }

  lemma RunHistory(src: Source, rank: Hash256 -> nat, hist: seq<Ledger>, l: Ledger)
    requires ValidSource(src, rank) && HistoryOf(src, rank, hist)
    requires src.start + |hist| <= src.end && LedgerFrom(src, rank, l, src.start + |hist|)
    ensures HistoryOf(src, rank, hist + [l])
  {
    hide LedgerFrom;
  }

  lemma HistorySeq(src: Source, rank: Hash256 -> nat, hist: seq<Ledger>, i: nat)
    requires ValidSource(src, rank) && HistoryOf(src, rank, hist) && i < |hist|
    ensures hist[i].seqNo == src.start + i
  {
    assert LedgerFrom(src, rank, hist[i], src.start + i);
  }

  lemma RunDelta(src: Source, rank: Hash256 -> nat, first: NodeMap, hist: seq<Ledger>, cuts: seq<nat>,
                 files: seq<bytes>,
                 state: NodeMap, chunkStart: u32, chunkEnd: u32, head: Chunk, hashed: bytes, l: Ledger)
    requires Run(src, rank, first, hist, cuts, files, state, chunkStart, chunkEnd, head, hashed)
    requires src.start + |hist| <= src.end && LedgerFrom(src, rank, l, src.start + |hist|)
    requires src.start + |hist| - chunkStart != src.chunkSize
    ensures Run(src, rank, first, hist + [l], cuts, files, Applied(state, l.diff), chunkStart, chunkEnd, head,
                hashed + WriteDelta(DeltaOf(l)) + WriteTxMap(MapOf(l)))
  {
    hide LedgerFrom, Applied, FilesOf, OpenBody, WriteDelta, WriteTxMap, Cuts, Piece, ChunkEnd, Ranked, HeadOf;
    var a := cuts[|files|];
    RunHistory(src, rank, hist, l);
    FilesPrefix(src, first, hist, l, cuts, files);
    StatePrefix(first, hist, [l], |hist| - 1);
    PieceSnoc(src, first, hist, l, a, chunkEnd);
    OpenBodySnoc(Piece(src, first, hist, a, |hist|, chunkEnd), DeltaOf(l), MapOf(l));
  }

  lemma RunCut(src: Source, rank: Hash256 -> nat, first: NodeMap, hist: seq<Ledger>, cuts: seq<nat>, files: seq<bytes>,
               state: NodeMap, chunkStart: u32, chunkEnd: u32, head: Chunk, hashed: bytes,
               l: Ledger, nodes: seq<Node>, file: bytes, newEnd: u32)
    requires Run(src, rank, first, hist, cuts, files, state, chunkStart, chunkEnd, head, hashed)
    requires src.start + |hist| <= src.end && LedgerFrom(src, rank, l, src.start + |hist|)
    requires src.start + |hist| - chunkStart == src.chunkSize && newEnd == ChunkEnd(src, src.start + |hist|)
    requires Lists(Applied(state, l.diff), nodes)
    requires file == WriteHeader(FORMAT_VERSION_STREAMED, head, src.sha(hashed + MAGIC_FOOTER)) +
        (hashed + MAGIC_FOOTER)
    ensures Run(src, rank, first, hist + [l], cuts + [|hist|], files + [file], Applied(state, l.diff),
                src.start + |hist|, newEnd, HeadOf(src.networkId, src.start + |hist|, newEnd, l.info.ledgerHash),
                WriteNodeList(nodes) + WriteTxMap(MapOf(l)))
  {
    hide LedgerFrom, Applied, WriteNodeList, WriteTxMap, Lists, FilesOf, Cuts, WriteHeader, OpenBody, ChunkEnd;
    RunHistory(src, rank, hist, l);
    StatePrefix(first, hist, [l], |hist| - 1);
    OpenFirst(src, first, hist + [l], |hist|, newEnd, nodes);
    HistorySeq(src, rank, hist, cuts[|files|]);
    CutFiles(src, first, hist, cuts, files, chunkStart, chunkEnd, head, hashed, l, file);
  }

  /** The file made by closing the open chunk is the file of the ledgers it covers. */
  lemma ClosedFile(src: Source, first: NodeMap, hist: seq<Ledger>, a: nat, chunkStart: u32, chunkEnd: u32, head: Chunk,
                   hashed: bytes)
    requires Keyed(first) && OpenChunk(src, first, hist, a, chunkStart, chunkEnd, head, hashed)
    requires src.start + |hist| <= 0x1_0000_0000
    requires hist[a].seqNo == chunkStart
    ensures WriteHeader(FORMAT_VERSION_STREAMED, head, src.sha(hashed + MAGIC_FOOTER)) + (hashed + MAGIC_FOOTER)
         == FileOf(src, first, hist, a, |hist|)
  {
    hide OpenBody, StreamedBody, StateAfter, Listing, WriteNodeList, WriteTxMap;
    OpenBodyCloses(Piece(src, first, hist, a, |hist|, chunkEnd));
  }

  lemma CutFiles(src: Source, first: NodeMap, hist: seq<Ledger>, cuts: seq<nat>, files: seq<bytes>,
                 chunkStart: u32, chunkEnd: u32, head: Chunk, hashed: bytes, l: Ledger, file: bytes)
    requires Keyed(first) && src.start + |hist| <= src.end
    requires Cuts(src, cuts) && |cuts| == |files| + 1 && FilesOf(src, first, hist, cuts, files)
    requires OpenChunk(src, first, hist, cuts[|files|], chunkStart, chunkEnd, head, hashed)
    requires hist[cuts[|files|]].seqNo == chunkStart
    requires src.start + |hist| - chunkStart == src.chunkSize
    requires file == WriteHeader(FORMAT_VERSION_STREAMED, head, src.sha(hashed + MAGIC_FOOTER)) +
        (hashed + MAGIC_FOOTER)
    ensures Cuts(src, cuts + [|hist|]) && FilesOf(src, first, hist + [l], cuts + [|hist|], files + [file])
  {
    hide FileOf, WriteHeader, OpenBody;
    var a, cuts', files' := cuts[|files|], cuts + [|hist|], files + [file];
    ClosedFile(src, first, hist, a, chunkStart, chunkEnd, head, hashed);
    forall k | 0 <= k < |files'| ensures FileAt(src, first, hist, cuts', files', k) {
      if k < |files| {
        assert FileAt(src, first, hist, cuts, files, k);
      }
    }
    FilesPrefix(src, first, hist, l, cuts', files');
  }

  // ---------------------------------------------------------------------------------------------
  // The loop

  class Exporter {
    const src: Source
    var state: NodeMap
    var chunkStart: u32
    var chunkEnd: u32
    var writer: ChunkWriter
    var files: seq<bytes>
    ghost const rank: Hash256 -> nat
    ghost const first: NodeMap
    ghost var hist: seq<Ledger>
    ghost var cuts: seq<nat>

    ghost predicate Valid()
      reads this, writer
    {
      && writer.Valid() && writer.sha == src.sha
      && Run(src, rank, first, hist, cuts, files, state, chunkStart, chunkEnd, writer.head, writer.hashed)
    }

    /** Starts the first chunk with the first ledger's state and transactions. */
    constructor (src: Source, l: Ledger, state: NodeMap, ghost rank: Hash256 -> nat)
      requires ValidSource(src, rank) && Keyed(state)
      requires src.start < src.end && src.chunkSize > 0
      requires LedgerFrom(src, rank, l, src.start)
      ensures Valid() && fresh(writer)
      ensures this.src == src && this.rank == rank && hist == [l] && first == state
    {
      hide Run, LedgerFrom, WriteNodeList, WriteTxMap;
      var end := ChunkEnd(src, src.start);
      var w := new ChunkWriter(src.sha, src.networkId, src.start, end, l.info.ledgerHash);
      var nodes := Values(state);
      w.AddCheckpoint(nodes);
      w.AddTxMap(MapOf(l));
      assert w.hashed == WriteNodeList(nodes) + WriteTxMap(MapOf(l));
      RunStart(src, rank, l, state, nodes, end);
      this.src, this.state, this.rank, this.first := src, state, rank, state;
      hist, cuts, files := [l], [0], [];
      chunkStart, chunkEnd, writer := src.start, end, w;
    }

    /** `l` is the next ledger of the range and `next` the state it leaves. */
    ghost predicate Ready(l: Ledger, next: NodeMap)
      reads this, writer
    {
      && ValidSource(src, rank) && src.start + |hist| <= src.end && Valid()
      && LedgerFrom(src, rank, l, src.start + |hist|) && l.seqNo == src.start + |hist|
      && next == Applied(state, l.diff) && Keyed(next)
      && 0 < src.chunkSize
    }

    lemma IsReady(l: Ledger, next: NodeMap)
      requires ValidSource(src, rank) && src.start + |hist| <= src.end && Valid()
      requires LedgerFrom(src, rank, l, src.start + |hist|) && next == Applied(state, l.diff)
      ensures Ready(l, next)
    {
      hide Applied, FilesOf, Cuts, OpenChunk, LedgerFrom;
      assert Run(src, rank, first, hist, cuts, files, state, chunkStart, chunkEnd, writer.head, writer.hashed);
      RunFacts(src, rank, first, hist, cuts, files, state, chunkStart, chunkEnd, writer.head, writer.hashed, l);
    }

    /** Exports one further ledger: into the open chunk, or as the checkpoint of the next one. */
    method Next(l: Ledger, next: NodeMap)
      requires Ready(l, next)
      modifies this, writer
      ensures Valid() && (writer == old(writer) || fresh(writer))
      ensures hist == old(hist) + [l]
    {
      hide *;
      if l.seqNo - chunkStart == src.chunkSize {
        Cut(l, next);
      } else {
        Extend(l, next);
      }
    }

    /** Adds the ledger to the open chunk. */
    method Extend(l: Ledger, next: NodeMap)
      requires Ready(l, next) && l.seqNo - chunkStart != src.chunkSize
      modifies this, writer
      ensures Valid() && writer == old(writer)
      ensures hist == old(hist) + [l]
    {
      hide Run, LedgerFrom, Applied, WriteDelta, WriteTxMap;
      RunDelta(src, rank, first, hist, cuts, files, state, chunkStart, chunkEnd, writer.head, writer.hashed, l);
      writer.AddDelta(DeltaOf(l));
      writer.AddTxMap(MapOf(l));
      state, hist := next, hist + [l];
    }

    /** Closes the open chunk; the ledger becomes the checkpoint of the next. */
    method Cut(l: Ledger, next: NodeMap)
      requires Ready(l, next) && l.seqNo - chunkStart == src.chunkSize
      modifies this, writer
      ensures Valid() && fresh(writer)
      ensures hist == old(hist) + [l]
    {
      hide Run, LedgerFrom, Applied, WriteNodeList, WriteTxMap, WriteHeader;
      ghost var head, hashed := writer.head, writer.hashed;
      var file := writer.Finish();
      var end := ChunkEnd(src, l.seqNo);
      var w := OpenWriter(l, next, end);
      RunCut(src, rank, first, hist, cuts, files, state, chunkStart, chunkEnd, head, hashed, l, w.1, file, end);
      files, cuts := files + [file], cuts + [|hist|];
      chunkStart, chunkEnd, writer := l.seqNo, end, w.0;
      state, hist := next, hist + [l];
    }

    method OpenWriter(l: Ledger, state: NodeMap, end: u32) returns (w: (ChunkWriter, seq<Node>))
      requires Keyed(state)
      ensures fresh(w.0) && w.0.Valid() && w.0.sha == src.sha && Lists(state, w.1)
      ensures w.0.head == HeadOf(src.networkId, l.seqNo, end, l.info.ledgerHash)
      ensures w.0.hashed == WriteNodeList(w.1) + WriteTxMap(MapOf(l))
    {
      hide WriteNodeList, WriteTxMap;
      var writer := new ChunkWriter(src.sha, src.networkId, l.seqNo, end, l.info.ledgerHash);
      var nodes := Values(state);
      writer.AddCheckpoint(nodes);
      writer.AddTxMap(MapOf(l));
      assert writer.hashed == WriteNodeList(nodes) + WriteTxMap(MapOf(l));
      return (writer, nodes);
    }
  }

  lemma RunFacts(src: Source, rank: Hash256 -> nat, first: NodeMap, hist: seq<Ledger>, cuts: seq<nat>,
                 files: seq<bytes>,
                 state: NodeMap, chunkStart: u32, chunkEnd: u32, head: Chunk, hashed: bytes, l: Ledger)
    requires Run(src, rank, first, hist, cuts, files, state, chunkStart, chunkEnd, head, hashed)
    requires src.start + |hist| <= src.end && LedgerFrom(src, rank, l, src.start + |hist|)
    ensures Keyed(Applied(state, l.diff)) && l.seqNo == src.start + |hist|
    ensures 0 < src.chunkSize
  {
    hide Applied, Run, StateAfter, Keyed, LedgerFrom;
    RunParts(src, rank, first, hist, cuts, files, state, chunkStart, chunkEnd, head, hashed);
    LedgerNumber(src, rank, l, src.start + |hist|);
    StateKeyed(first, hist, |hist| - 1);
    AppliedKeyed(state, l.diff);
  }

  lemma RunParts(src: Source, rank: Hash256 -> nat, first: NodeMap, hist: seq<Ledger>, cuts: seq<nat>,
                 files: seq<bytes>,
                 state: NodeMap, chunkStart: u32, chunkEnd: u32, head: Chunk, hashed: bytes)
    requires Run(src, rank, first, hist, cuts, files, state, chunkStart, chunkEnd, head, hashed)
    ensures ValidSource(src, rank) && src.chunkSize > 0 && Keyed(first) && hist != []
    ensures state == StateAfter(first, hist, |hist| - 1)
  {
    hide StateAfter, Keyed, HistoryOf, Cuts, FilesOf, OpenChunk, ValidSource;
  }

  lemma LedgerNumber(src: Source, rank: Hash256 -> nat, l: Ledger, s: u32)
    requires ValidSource(src, rank) && LedgerFrom(src, rank, l, s)
    ensures l.seqNo == s
  {
    hide InfoOk, TxFrom, SortedDiff, StateTree, Ranked;
  }

}
