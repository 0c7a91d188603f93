/** A whole export: the batches of ledgers, from the first walk to the last chunk. */
module ExportRun {
  import opened Prelude
  import opened SHAMap
  import opened TreeDiff
  import opened ApplyDiff
  import opened Walks
  import opened TxTree
  import opened TxCollect
  import opened ChunkFormat
  import opened Replay
  import opened Ledgers
  import opened Exporter

  // ---------------------------------------------------------------------------------------------
  // What an export yields

  /** The nodes of the first ledger's state tree. */
  ghost function FirstState(src: Source, rank: Hash256 -> nat): NodeMap
    requires ValidSource(src, rank) && src.start in src.db
  {
    NodesOf(src.m, Unfold(src.m, rank, src.db[src.start].accountHash))
  }

  lemma FirstKeyed(src: Source, rank: Hash256 -> nat)
    requires ValidSource(src, rank) && src.start in src.db
    ensures Keyed(FirstState(src, rank))
  {
  }

  /** The ledgers of the whole range. */
  ghost predicate Whole(src: Source, rank: Hash256 -> nat, hist: seq<Ledger>) {
    ValidSource(src, rank) && src.start <= src.end && |hist| == src.end - src.start + 1 && HistoryOf(src, rank, hist)
  }

  /** File `k` holds the ledgers from `k * chunkSize` up to the next chunk or the end of the range. */
  ghost predicate ChunkFile(src: Source, first: NodeMap, hist: seq<Ledger>, file: bytes, k: nat)
    requires Keyed(first) && src.start + |hist| <= 0x1_0000_0000
  {
    var a, b := k * src.chunkSize, Min((k + 1) * src.chunkSize, |hist|);
    a < b && file == FileOf(src, first, hist, a, b)
  }

  /** `files` are the chunks of `hist`, and the last of them reaches its end. */
  ghost predicate ChunkFiles(src: Source, first: NodeMap, hist: seq<Ledger>, files: seq<bytes>)
    requires Keyed(first) && src.start + |hist| <= 0x1_0000_0000
  {
    && (forall k :: 0 <= k < |files| ==> ChunkFile(src, first, hist, files[k], k))
    && |hist| <= |files| * src.chunkSize
  }

  ghost predicate Exported(src: Source, rank: Hash256 -> nat, hist: seq<Ledger>, files: seq<bytes>) {
    && Whole(src, rank, hist) && src.start in src.db && Keyed(FirstState(src, rank))
    && ChunkFiles(src, FirstState(src, rank), hist, files)
  }

  // ---------------------------------------------------------------------------------------------
  // The steps of a batch

  /** `infos` are the rows of the ledgers from `seqNo`. */
  ghost predicate Rows(src: Source, seqNo: u32, infos: seq<LedgerInfo>) {
    forall i :: 0 <= i < |infos| ==> RowAt(src, seqNo + i, infos[i])
  }

  ghost predicate RowAt(src: Source, s: int, info: LedgerInfo) {
    s in src.db && info == src.db[s]
  }

  /** The rows of a batch, each checked against its own hash. */
  method LoadBatch(src: Source, seqNo: u32, batchEnd: u32) returns (r: Result<seq<LedgerInfo>>)
    requires seqNo <= batchEnd
    ensures r.Success? <==> forall s: u32 :: seqNo <= s <= batchEnd ==> InfoOk(src, s)
    ensures r.Success? ==> |r.value| == batchEnd - seqNo + 1 && Rows(src, seqNo, r.value)
  {
    var infos: seq<LedgerInfo> := [];
    var s: int := seqNo;
    while s <= batchEnd
      invariant seqNo <= s <= batchEnd + 1 && |infos| == s - seqNo
      invariant forall t: u32 :: seqNo <= t < s ==> InfoOk(src, t)
      invariant Rows(src, seqNo, infos)
    {
      if s !in src.db || !InfoVerified(src.sha, src.db[s], s) {
        assert !InfoOk(src, s);
        return Failure;
      }
      infos := infos + [src.db[s]];
      s := s + 1;
    }
    return Success(infos);
  }

  /** The diffs of a batch, each from the ledger before; a parallel map in the program. */
  method DiffBatch(src: Source, prev: Hash256, infos: seq<LedgerInfo>, ghost rank: Hash256 -> nat, ghost seqNo: u32)
    returns (r: Result<seq<Diff>>)
    requires ValidSource(src, rank) && 0 < seqNo && seqNo + |infos| <= 0x1_0000_0000
    requires seqNo - 1 in src.db && prev == src.db[seqNo - 1].accountHash
    requires Rows(src, seqNo, infos)
    ensures r.Success? <==> forall s: u32 :: seqNo <= s < seqNo + |infos| ==> DiffOk(src, rank, s)
    ensures r.Success? ==> |r.value| == |infos|
    ensures r.Success? ==> forall i :: 0 <= i < |infos| ==> IsDiff(src, rank, seqNo + i, r.value[i])
  {
    hide Ranked, SortedDiff, Unfold;
    var diffs: seq<Diff> := [];
    var running := prev;
    for i := 0 to |infos|
      invariant |diffs| == i && seqNo + i - 1 in src.db && running == src.db[seqNo + i - 1].accountHash
      invariant forall s: u32 :: seqNo <= s < seqNo + i ==> DiffOk(src, rank, s)
      invariant forall k :: 0 <= k < i ==> IsDiff(src, rank, seqNo + k, diffs[k])
    {
      ghost var o := StateTree(src, rank, running);
      ghost var n := StateTree(src, rank, infos[i].accountHash);
      var d := DiffRoots(src.m, running, infos[i].accountHash, o, n);
      if d.Failure? {
        assert !DiffOk(src, rank, seqNo + i);
        return Failure;
      }
      assert IsDiff(src, rank, seqNo + i, d.value);
      diffs := diffs + [d.value];
      running := infos[i].accountHash;
    }
    return Success(diffs);
  }

  ghost predicate IsDiff(src: Source, rank: Hash256 -> nat, s: u32, d: Diff)
    requires ValidSource(src, rank)
  {
    && 0 < s && s - 1 in src.db && s in src.db
    && SortedDiff(StateTree(src, rank, src.db[s - 1].accountHash), StateTree(src, rank, src.db[s].accountHash))
        == Success(d)
  }

  /** A transaction tree is collected, or has a node that cannot be used. */
  method TxsOf(src: Source, txRoot: Hash256) returns (r: Result<seq<TxRecord>>)
    requires Keyed(src.m)
    ensures r.Success? <==> TxOk(src.m, txRoot)
    ensures r.Success? ==> TxFrom(src.m, txRoot, r.value)
  {
    r := CollectTransactions(src.m, txRoot);
  }

  /** The state the export starts from. */
  method FirstWalk(src: Source, concurrency: nat, ghost rank: Hash256 -> nat) returns (r: Result<NodeMap>)
    requires ValidSource(src, rank) && src.start in src.db
    ensures r.Success? <==> forall h :: Reach(src.m, src.db[src.start].accountHash, h) ==> Usable(src.m, h)
    ensures r.Success? ==> r.value == FirstState(src, rank)
  {
    var root := src.db[src.start].accountHash;
    var nodes := CollectReachableConcurrent(src.m, root, concurrency);
    if nodes.Failure? {
      return Failure;
    }
    var d := Diff(nodes.value, []);
    var state := Apply(map[], d);
    FirstIsTree(src, rank, nodes.value);
    return Success(state);
  }

  lemma FirstIsTree(src: Source, rank: Hash256 -> nat, ns: seq<Node>)
    requires ValidSource(src, rank) && src.start in src.db
    requires CollectsReach(src.m, src.db[src.start].accountHash, Success(ns))
    ensures Applied(map[], Diff(ns, [])) == FirstState(src, rank)
  {
    hide Usable;
    var m, root := src.m, src.db[src.start].accountHash;
    var t := Unfold(m, rank, root);
    ReachIsOcc(m, root, t);
    assert RemoveAll(map[], []) == map[];
    InsertAllKeys(m, map[], ns);
    forall h ensures h in FirstState(src, rank) <==> h in HashesOf(ns) {
      assert h in HashesOf(ns) ==> Holds(m, h, m[h]);
    }
    AgreesEqual(m, InsertAll(map[], ns), FirstState(src, rank));
  }

  /** Exports the ledgers of one batch in order. */
  method RunBatch(ex: Exporter, infos: seq<LedgerInfo>, diffs: seq<Diff>, seqNo: u32) returns (ok: bool)
    requires ValidSource(ex.src, ex.rank) && seqNo + |infos| <= ex.src.end + 1 && ex.src.start < seqNo
    requires ex.Valid() && ex.src.start + |ex.hist| == seqNo
    requires Rows(ex.src, seqNo, infos) && |diffs| == |infos|
    requires forall s: u32 :: seqNo <= s < seqNo + |infos| ==> InfoOk(ex.src, s)
    requires forall i :: 0 <= i < |infos| ==> IsDiff(ex.src, ex.rank, seqNo + i, diffs[i])
    modifies ex, ex.writer
    ensures ok <==> forall i :: 0 <= i < |infos| ==> TxOk(ex.src.m, infos[i].txHash)
    ensures ok ==> ex.Valid() && ex.src.start + |ex.hist| == seqNo + |infos|
    ensures ex.writer == old(ex.writer) || fresh(ex.writer)
  {
    hide Run, Ranked, TxOk, TxFrom, Applied, InfoOk, SortedDiff, Unfold, StateTree;
    KeyedSource(ex.src, ex.rank);
    for i := 0 to |infos|
      invariant ex.Valid() && ex.src.start + |ex.hist| == seqNo + i
      invariant forall k :: 0 <= k < i ==> TxOk(ex.src.m, infos[k].txHash)
      invariant ex.writer == old(ex.writer) || fresh(ex.writer)
    {
      assert RowAt(ex.src, seqNo + i, infos[i]);
      assert IsDiff(ex.src, ex.rank, seqNo + i, diffs[i]);
      var next := Apply(ex.state, diffs[i]);
      var txns := TxsOf(ex.src, infos[i].txHash);
      if txns.Failure? {
        return false;
      }
      var l := Ledger(seqNo + i, infos[i], diffs[i], txns.value);
      IsLedger(ex.src, ex.rank, l);
      ex.IsReady(l, next);
      ex.Next(l, next);
    }
    return true;
  }

  lemma IsLedger(src: Source, rank: Hash256 -> nat, l: Ledger)
    requires ValidSource(src, rank) && InfoOk(src, l.seqNo) && l.info == src.db[l.seqNo]
    requires TxFrom(src.m, l.info.txHash, l.txns) && IsDiff(src, rank, l.seqNo, l.diff)
    ensures LedgerFrom(src, rank, l, l.seqNo)
  {
    hide TxFrom, SortedDiff, StateTree;
  }

  lemma KeyedSource(src: Source, rank: Hash256 -> nat)
    requires ValidSource(src, rank)
    ensures Keyed(src.m)
  {
  }

  // ---------------------------------------------------------------------------------------------
  // The export

  /** Closing the open chunk at the end of the range completes the list of files. */
  lemma AllFiles(src: Source, rank: Hash256 -> nat, first: NodeMap, hist: seq<Ledger>, cuts: seq<nat>,
                 files: seq<bytes>,
                 state: NodeMap, chunkStart: u32, chunkEnd: u32, head: Chunk, hashed: bytes, file: bytes)
    requires Run(src, rank, first, hist, cuts, files, state, chunkStart, chunkEnd, head, hashed)
    requires src.start + |hist| <= 0x1_0000_0000
    requires file == WriteHeader(FORMAT_VERSION_STREAMED, head, src.sha(hashed + MAGIC_FOOTER)) +
        (hashed + MAGIC_FOOTER)
    ensures HistoryOf(src, rank, hist) && Keyed(first) && ChunkFiles(src, first, hist, files + [file])
  {
    hide FileOf, WriteHeader, OpenBody, StateAfter, LedgerFrom, Ranked;
    var a, all := cuts[|files|], files + [file];
    HistorySeq(src, rank, hist, a);
    ClosedFile(src, first, hist, a, chunkStart, chunkEnd, head, hashed);
    forall k | 0 <= k < |all| ensures ChunkFile(src, first, hist, all[k], k) {
      CutsExact(src, cuts, k);
      if k < |files| {
        CutsExact(src, cuts, k + 1);
        assert FileAt(src, first, hist, cuts, files, k);
      } else {
        NextCut(k, src.chunkSize);
      }
    }
    CutsExact(src, cuts, |files|);
    NextCut(|files|, src.chunkSize);
  }

  lemma NextCut(k: nat, size: nat)
    ensures (k + 1) * size == k * size + size
  {
  }

  /** Exports the first ledger: its whole tree, and its transactions. */
  method Begin(src: Source, concurrency: nat, ghost rank: Hash256 -> nat) returns (r: Result<(NodeMap, Ledger)>)
    requires ValidSource(src, rank)
    ensures r.Success? <==>
              LedgerOk(src, src.start) && forall h :: Reach(src.m, src.db[src.start].accountHash, h) ==>
                  Usable(src.m, h)
    ensures r.Success? ==> LedgerFrom(src, rank, r.value.1, src.start)
    ensures r.Success? ==> src.start in src.db && r.value.0 == FirstState(src, rank)
  {
    hide Ranked, TxOk, TxFrom, Reach, Usable, Unfold, SortedDiff;
    KeyedSource(src, rank);
    var infos := LoadBatch(src, src.start, src.start);
    if infos.Failure? {
      assert !LedgerOk(src, src.start);
      return Failure;
    }
    assert RowAt(src, src.start + 0, infos.value[0]);
    var info := infos.value[0];
    var state := FirstWalk(src, concurrency, rank);
    if state.Failure? {
      return Failure;
    }
    var txns := TxsOf(src, info.txHash);
    if txns.Failure? {
      return Failure;
    }
    return Success((state.value, Ledger(src.start, info, Diff([], []), txns.value)));
  }

  // ---------------------------------------------------------------------------------------------
  // The batches

  function BatchSize(concurrency: u32): (size: u32)
    ensures size >= 1
  {
    if concurrency == 0 then 1 else concurrency
  }

  /** The first ledger of batch `k`. */
  function BatchStart(src: Source, concurrency: u32, k: nat): nat {
    src.start + 1 + k * BatchSize(concurrency)
  }

  /** The last ledger of the batch that starts at `seqNo`; the addition wraps at 32 bits. */
  function BatchEnd(src: Source, concurrency: u32, seqNo: u32): u32 {
    Min((seqNo + BatchSize(concurrency) - 1) % 0x1_0000_0000, src.end)
  }

  /** The last batch of the range, and the step behind it, stay below 2^32. */
  predicate BatchesFit(src: Source, concurrency: u32) {
    src.start < src.end ==>
      && src.end < 0xFFFF_FFFF
      && BatchStart(src, concurrency, (src.end - src.start - 1) / BatchSize(concurrency)) + BatchSize(concurrency)
         <= 0x1_0000_0000
  }

  lemma LastBatch(range: nat, size: nat, k: nat)
    requires size > 0
    ensures k * size <= range <==> k <= range / size
  {
    var q, r := range / size, range % size;
    assert range == q * size + r;
    if k <= q {
      MulMonotone(k, q, size);
    } else {
      MulMonotone(q + 1, k, size);
      NextCut(q, size);
    }
  }

  lemma MulMonotone(a: nat, b: nat, n: nat)
    requires a <= b
    ensures a * n <= b * n
  {
  }

  /** A batch that begins within the range begins no later than the last one. */
  lemma BatchBound(src: Source, concurrency: u32, k: nat)
    requires src.start < src.end
    ensures
      var last := (src.end - src.start - 1) / BatchSize(concurrency);
      BatchStart(src, concurrency, k) <= src.end
      <==> k <= last && BatchStart(src, concurrency, k) <= BatchStart(src, concurrency, last)
  {
    var size := BatchSize(concurrency);
    var range := src.end - src.start - 1;
    LastBatch(range, size, k);
    if k <= range / size {
      MulMonotone(k, range / size, size);
    }
  }

  lemma SizeIs(concurrency: u32)
    ensures BatchSize(concurrency) >= concurrency && (concurrency > 0 ==> BatchSize(concurrency) == concurrency)
  {
  }

  lemma NextStart(src: Source, concurrency: u32, k: nat)
    ensures BatchStart(src, concurrency, k + 1) == BatchStart(src, concurrency, k) + BatchSize(concurrency)
  {
    NextCut(k, BatchSize(concurrency));
  }

  /** That is what it takes for no addition of any batch to wrap. */
  lemma BatchesFitIff(src: Source, concurrency: u32)
    requires src.start < src.end
    ensures
      BatchesFit(src, concurrency) <==>
        && src.end + 1 < 0x1_0000_0000
        && forall k: nat :: BatchStart(src, concurrency, k) <= src.end ==>
             BatchStart(src, concurrency, k) + BatchSize(concurrency) - 1 < 0x1_0000_0000
    ensures BatchSize(concurrency) >= concurrency && (concurrency > 0 ==> BatchSize(concurrency) == concurrency)
    ensures forall k: nat ::
        BatchStart(src, concurrency, k + 1) == BatchStart(src, concurrency, k) + BatchSize(concurrency)
  {
    SizeIs(concurrency);
    hide BatchStart, BatchSize;
    forall k: nat ensures BatchStart(src, concurrency, k + 1)
        == BatchStart(src, concurrency, k) + BatchSize(concurrency) {
      NextStart(src, concurrency, k);
    }
    var last := (src.end - src.start - 1) / BatchSize(concurrency);
    BatchBound(src, concurrency, last);
    forall k: nat ensures BatchStart(src, concurrency, k) <= src.end
        ==> BatchStart(src, concurrency, k) <= BatchStart(src, concurrency, last) {
      BatchBound(src, concurrency, k);
    }
  }

  /**
   * A batch whose addition wraps is empty, and the next one starts before it: what follows is no longer
   * a run over the range.
   */
  lemma WrapGoesBack(src: Source, concurrency: u32, seqNo: u32)
    requires seqNo <= src.end && seqNo + BatchSize(concurrency) - 1 >= 0x1_0000_0000
    ensures BatchEnd(src, concurrency, seqNo) + 1 < seqNo
  {
  }

  /**
   * Exports the range in batches of `concurrency` ledgers. It succeeds exactly when everything it
   * reads is there, and then its files are the chunks of the range.
   */
  method Export(src: Source, concurrency: u32, ghost rank: Hash256 -> nat)
    returns (r: Result<seq<bytes>>, ghost hist: seq<Ledger>)
    requires ValidSource(src, rank) && BatchesFit(src, concurrency)
    ensures r.Success? <==> Exportable(src, rank)
    ensures r.Success? ==> Exported(src, rank, hist, r.value)
  {
    hide Run, Ranked, LedgerFrom, Reach, Usable, TxOk, InfoVerified, SortedDiff, Unfold, StateTree, ChunkFiles,
         HistoryOf, NodesOf, WriteHeader, BatchesFit, BatchStart, BatchEnd;
    hist := [];
    if src.end <= src.start || src.chunkSize == 0 {
      return Failure, hist;
    }
    var first := Begin(src, concurrency, rank);
    if first.Failure? {
      return Failure, hist;
    }
    FirstKeyed(src, rank);
    var ex := new Exporter(src, first.value.1, first.value.0, rank);
    var seqNo: u32 := src.start + 1;
    ghost var batch: nat := 0;
    FirstBatch(src, concurrency);
    while seqNo <= src.end
      invariant src.start < seqNo <= src.end + 1
      invariant seqNo == BatchStart(src, concurrency, batch) || seqNo == src.end + 1
      invariant ex.Valid() && fresh(ex) && fresh(ex.writer) && ex.src.start + |ex.hist| == seqNo
      invariant forall s: u32 :: src.start <= s < seqNo ==> LedgerOk(src, s)
      invariant forall s: u32 :: src.start < s < seqNo ==> DiffOk(src, rank, s)
      decreases src.end + 1 - seqNo
    {
      BatchFits(src, concurrency, batch);
      var batchEnd := BatchEnd(src, concurrency, seqNo);
      var infos := LoadBatch(src, seqNo, batchEnd);
      if infos.Failure? {
        ghost var s: u32 :| seqNo <= s <= batchEnd && !InfoOk(src, s);
        assert !LedgerOk(src, s);
        return Failure, hist;
      }
      assert LedgerOk(src, seqNo - 1);
      var diffs := DiffBatch(src, src.db[seqNo - 1].accountHash, infos.value, rank, seqNo);
      if diffs.Failure? {
        return Failure, hist;
      }
      var ok := RunBatch(ex, infos.value, diffs.value, seqNo);
      BatchLedgers(src, seqNo, infos.value);
      if !ok {
        return Failure, hist;
      }
      seqNo, batch := batchEnd + 1, batch + 1;
    }
    hist := ex.hist;
    ghost var w := ex.writer;
    ghost var hashed := w.hashed;
    assert Run(src, rank, ex.first, hist, ex.cuts, ex.files, ex.state, ex.chunkStart, ex.chunkEnd, w.head, hashed);
    var file := ex.writer.Finish();
    AllFiles(src, rank, ex.first, hist, ex.cuts, ex.files, ex.state, ex.chunkStart, ex.chunkEnd, w.head, hashed, file);
    return Success(ex.files + [file]), hist;
  }

  lemma FirstBatch(src: Source, concurrency: u32)
    ensures BatchStart(src, concurrency, 0) == src.start + 1
  {
  }

  /** The batch at hand ends where the next begins, or at the end of the range. */
  lemma BatchFits(src: Source, concurrency: u32, k: nat)
    requires src.start < src.end && BatchesFit(src, concurrency) && BatchStart(src, concurrency, k) <= src.end
    ensures
      var end := BatchEnd(src, concurrency, BatchStart(src, concurrency, k));
      BatchStart(src, concurrency, k) <= end <= src.end < 0xFFFF_FFFF
      && (end == src.end || end + 1 == BatchStart(src, concurrency, k + 1))
  {
    BatchBound(src, concurrency, k);
    NextCut(k, BatchSize(concurrency));
  }

  lemma BatchLedgers(src: Source, seqNo: u32, infos: seq<LedgerInfo>)
    requires Rows(src, seqNo, infos) && seqNo + |infos| <= 0x1_0000_0000
    requires forall s: u32 :: seqNo <= s < seqNo + |infos| ==> InfoOk(src, s)
    ensures (forall i :: 0 <= i < |infos| ==> TxOk(src.m, infos[i].txHash))
       <==> forall s: u32 :: seqNo <= s < seqNo + |infos| ==> LedgerOk(src, s)
  {
    hide InfoOk, TxOk;
    forall i | 0 <= i < |infos| ensures TxOk(src.m, infos[i].txHash) <==> LedgerOk(src, seqNo + i) {
      assert RowAt(src, seqNo + i, infos[i]);
    }
    if forall i :: 0 <= i < |infos| ==> TxOk(src.m, infos[i].txHash) {
      forall s: u32 | seqNo <= s < seqNo + |infos| ensures LedgerOk(src, s) {
        assert TxOk(src.m, infos[s - seqNo].txHash);
      }
    }
  }
}
