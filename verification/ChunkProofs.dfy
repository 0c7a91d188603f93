/** Every reader undoes its writer, and both layouts parse back to the chunk with its lists sorted. */
module ChunkProofs {
  import opened Prelude
  import opened Reading
  import opened Bytes
  import opened SHAMap
  import opened Sorting
  import opened TreeDiff
  import opened TxTree
  import opened ChunkFormat

  lemma U32Back(v: u32, rest: bytes)
    ensures ReadU32(ToBE(4, v) + rest) == Success(Parsed(v, rest))
  {
    Widths();
    IntBack(4, v, rest);
  }

  lemma HashBack(h: Hash256, rest: bytes)
    ensures ReadHash(h + rest) == Success(Parsed(h, rest))
  {
    ExactBack(h, rest);
  }

  // ---------------------------------------------------------------------------------------------
  // Nodes

  lemma NodeHead(n: Node, rest: bytes)
    ensures
      var tail := ToBE(2, |n.content|) + (n.content + rest);
      WriteNode(n) + rest == n.hash + ([WireByte(n.nodeType)] + tail)
      && ReadHash(WriteNode(n) + rest) == Success(Parsed(n.hash, [WireByte(n.nodeType)] + tail))
      && ReadByte([WireByte(n.nodeType)] + tail) == Success(Parsed(WireByte(n.nodeType), tail))
      && NodeTypeOf(WireByte(n.nodeType)) == Success(n.nodeType)
  {
    var tail := ToBE(2, |n.content|) + (n.content + rest);
    assert WriteNode(n) + rest == n.hash + ([WireByte(n.nodeType)] + tail);
    HashBack(n.hash, [WireByte(n.nodeType)] + tail);
    ByteBack(WireByte(n.nodeType), tail);
  }

  /** A 16-bit length field keeps only the low sixteen bits. */
  lemma LengthBack(len: nat, rest: bytes)
    ensures ReadInt(ToBE(2, len) + rest, 2) == Success(Parsed(len % 0x1_0000, rest))
  {
    Widths();
    ExactBack(ToBE(2, len), rest);
    LowBytes(2, len);
  }

  /** A node is read back exactly when its content fits the 16-bit length field. */
  lemma NodeBackIff(n: Node, rest: bytes)
    ensures ReadNode(WriteNode(n) + rest) == Success(Parsed(n, rest)) <==> |n.content| < 0x1_0000
  {
    hide WriteNode, ReadHash, ReadByte, ToBE, FromBE, ReadInt, WireByte, NodeTypeOf;
    NodeHead(n, rest);
    LengthBack(|n.content|, n.content + rest);
    if |n.content| < 0x1_0000 {
      ExactBack(n.content, rest);
    }
  }

  ghost predicate NodesFit(ns: seq<Node>) {
    forall n :: n in ns ==> |n.content| < 0x1_0000
  }

  lemma {:induction false} NodesBack(ns: seq<Node>, rest: bytes)
    requires NodesFit(ns)
    ensures ReadNodes(WriteNodes(ns) + rest, |ns|) == Success(Parsed(ns, rest))
  {
    hide ReadNode, WriteNode;
    if ns == [] {
      assert WriteNodes(ns) + rest == rest;
    } else {
      assert ns[0] in ns && forall n :: n in ns[1..] ==> n in ns;
      AppendAssoc(WriteNode(ns[0]), WriteNodes(ns[1..]), rest);
      NodeBackIff(ns[0], WriteNodes(ns[1..]) + rest);
      NodesBack(ns[1..], rest);
      assert ns == [ns[0]] + ns[1..];
    }
  }

  ghost predicate ListFits(ns: seq<Node>) {
    NodesFit(ns) && |ns| < 0x1_0000_0000
  }

  lemma NodeListBack(ns: seq<Node>, rest: bytes)
    requires ListFits(ns)
    ensures ReadNodeList(WriteNodeList(ns) + rest) == Success(Parsed(SortBy(NodeKey, ns), rest))
  {
    var sorted := SortBy(NodeKey, ns);
    SortMembers(NodeKey, ns);
    assert WriteNodeList(ns) + rest == ToBE(4, |ns|) + (WriteNodes(sorted) + rest);
    U32Back(|ns|, WriteNodes(sorted) + rest);
    NodesBack(sorted, rest);
  }

  // ---------------------------------------------------------------------------------------------
  // Deltas

  lemma {:induction false} HashesBack(hs: seq<Hash256>, rest: bytes)
    ensures ReadHashes(WriteHashes(hs) + rest, |hs|) == Success(Parsed(hs, rest))
  {
    if hs == [] {
      assert WriteHashes(hs) + rest == rest;
    } else {
      AppendAssoc(hs[0], WriteHashes(hs[1..]), rest);
      HashBack(hs[0], WriteHashes(hs[1..]) + rest);
      HashesBack(hs[1..], rest);
      assert hs == [hs[0]] + hs[1..];
    }
  }

  ghost predicate DeltaFits(d: LedgerDelta) {
    ListFits(d.diff.added) && |d.diff.deleted| < 0x1_0000_0000
  }

  function SortedDelta(d: LedgerDelta): LedgerDelta {
    d.(diff := Diff(SortBy(NodeKey, d.diff.added), SortBy(HashKey, d.diff.deleted)))
  }

  lemma DeltaBack(d: LedgerDelta, rest: bytes)
    requires DeltaFits(d)
    ensures ReadDelta(WriteDelta(d) + rest) == Success(Parsed(SortedDelta(d), rest))
  {
    var deleted := SortBy(HashKey, d.diff.deleted);
    var tail2 := WriteHashes(deleted) + rest;
    var tail1 := ToBE(4, |d.diff.deleted|) + tail2;
    assert WriteDelta(d) + rest == ToBE(4, d.ledgerSeq) + (WriteNodeList(d.diff.added) + tail1);
    U32Back(d.ledgerSeq, WriteNodeList(d.diff.added) + tail1);
    NodeListBack(d.diff.added, tail1);
    U32Back(|d.diff.deleted|, tail2);
    HashesBack(deleted, rest);
  }

  // ---------------------------------------------------------------------------------------------
  // Transaction maps

  ghost predicate TxsFit(txns: seq<TxRecord>) {
    forall tx :: tx in txns ==> |tx.txBlob| < 0x1_0000_0000 && |tx.metaBlob| < 0x1_0000_0000
  }

  lemma TxBack(tx: TxRecord, rest: bytes)
    requires |tx.txBlob| < 0x1_0000_0000 && |tx.metaBlob| < 0x1_0000_0000
    ensures ReadTx(WriteTx(tx) + rest) == Success(Parsed(tx, rest))
  {
    var tail4 := tx.metaBlob + rest;
    var tail3 := ToBE(4, |tx.metaBlob|) + tail4;
    var tail2 := tx.txBlob + tail3;
    var tail1 := ToBE(4, |tx.txBlob|) + tail2;
    assert WriteTx(tx) + rest == tx.txHash + tail1;
    HashBack(tx.txHash, tail1);
    U32Back(|tx.txBlob|, tail2);
    ExactBack(tx.txBlob, tail3);
    U32Back(|tx.metaBlob|, tail4);
    ExactBack(tx.metaBlob, rest);
  }

  lemma {:induction false} TxsBack(txns: seq<TxRecord>, rest: bytes)
    requires TxsFit(txns)
    ensures ReadTxs(WriteTxs(txns) + rest, |txns|) == Success(Parsed(txns, rest))
  {
    hide ReadTx, WriteTx;
    if txns == [] {
      assert WriteTxs(txns) + rest == rest;
    } else {
      assert txns[0] in txns && forall tx :: tx in txns[1..] ==> tx in txns;
      AppendAssoc(WriteTx(txns[0]), WriteTxs(txns[1..]), rest);
      TxBack(txns[0], WriteTxs(txns[1..]) + rest);
      TxsBack(txns[1..], rest);
      assert txns == [txns[0]] + txns[1..];
    }
  }

  ghost predicate TxMapFits(t: TxMap) {
    TxsFit(t.txns) && |t.txns| < 0x1_0000
  }

  function SortedTxMap(t: TxMap): TxMap {
    t.(txns := SortBy(TxKey, t.txns))
  }

  lemma TxHeadBack(t: TxMap, rest: bytes)
    ensures ReadTxHead(WriteTxHead(t) + rest) ==
            Success(Parsed(TxMap(t.ledgerSeq, t.ledgerHash, t.accountHash, t.drops, 0, 0, 0, 0, []), rest))
  {
    var tail3 := ToBE(8, t.drops) + rest;
    var tail2 := t.accountHash + tail3;
    var tail1 := t.ledgerHash + tail2;
    assert WriteTxHead(t) + rest == ToBE(4, t.ledgerSeq) + tail1;
    U32Back(t.ledgerSeq, tail1);
    HashBack(t.ledgerHash, tail2);
    HashBack(t.accountHash, tail3);
    Widths();
    IntBack(8, t.drops, rest);
  }

  lemma TxTimesBack(t: TxMap, head: TxMap, rest: bytes)
    ensures ReadTxTimes(WriteTxTimes(t) + rest, head) ==
            Success(Parsed(head.(parentCloseTime := t.parentCloseTime, closeTime := t.closeTime,
                                 resolution := t.resolution, flags := t.flags), rest))
  {
    var tail3 := [t.flags] + rest;
    var tail2 := [t.resolution] + tail3;
    var tail1 := ToBE(4, t.closeTime) + tail2;
    assert WriteTxTimes(t) + rest == ToBE(4, t.parentCloseTime) + tail1;
    U32Back(t.parentCloseTime, tail1);
    U32Back(t.closeTime, tail2);
    ByteBack(t.resolution, tail3);
    ByteBack(t.flags, rest);
  }

  lemma TxMapBack(t: TxMap, rest: bytes)
    requires TxMapFits(t)
    ensures ReadTxMap(WriteTxMap(t) + rest) == Success(Parsed(SortedTxMap(t), rest))
  {
    var sorted := SortBy(TxKey, t.txns);
    SortMembers(TxKey, t.txns);
    var tail3 := WriteTxs(sorted) + rest;
    var tail2 := ToBE(2, |t.txns|) + tail3;
    var tail1 := WriteTxTimes(t) + tail2;
    assert WriteTxMap(t) + rest == WriteTxHead(t) + tail1;
    TxHeadBack(t, tail1);
    TxTimesBack(t, ReadTxHead(WriteTxHead(t) + tail1).value.value, tail2);
    Widths();
    IntBack(2, |t.txns|, tail3);
    TxsBack(sorted, rest);
  }

  // ---------------------------------------------------------------------------------------------
  // Whole chunks

  ghost predicate DeltasFit(ds: seq<LedgerDelta>) {
    forall d :: d in ds ==> DeltaFits(d)
  }

  ghost predicate TxMapsFit(ts: seq<TxMap>) {
    forall t :: t in ts ==> TxMapFits(t)
  }

  function SortDeltas(ds: seq<LedgerDelta>): seq<LedgerDelta> {
    MapSeq(SortedDelta, ds)
  }

  function SortTxMaps(ts: seq<TxMap>): seq<TxMap> {
    MapSeq(SortedTxMap, ts)
  }

  lemma {:induction false} DeltasBack(ds: seq<LedgerDelta>, rest: bytes)
    requires DeltasFit(ds)
    ensures ReadDeltas(WriteDeltas(ds) + rest, |ds|) == Success(Parsed(SortDeltas(ds), rest))
  {
    hide ReadDelta, WriteDelta, SortedDelta;
    if ds == [] {
      assert WriteDeltas(ds) + rest == rest;
    } else {
      assert ds[0] in ds && forall d :: d in ds[1..] ==> d in ds;
      AppendAssoc(WriteDelta(ds[0]), WriteDeltas(ds[1..]), rest);
      DeltaBack(ds[0], WriteDeltas(ds[1..]) + rest);
      DeltasBack(ds[1..], rest);
      assert SortDeltas(ds) == [SortedDelta(ds[0])] + SortDeltas(ds[1..]);
    }
  }

  lemma {:induction false} TxMapsBack(ts: seq<TxMap>, rest: bytes)
    requires TxMapsFit(ts)
    ensures ReadTxMaps(WriteTxMaps(ts) + rest, |ts|) == Success(Parsed(SortTxMaps(ts), rest))
  {
    hide ReadTxMap, WriteTxMap, SortedTxMap;
    if ts == [] {
      assert WriteTxMaps(ts) + rest == rest;
    } else {
      assert ts[0] in ts && forall t :: t in ts[1..] ==> t in ts;
      AppendAssoc(WriteTxMap(ts[0]), WriteTxMaps(ts[1..]), rest);
      TxMapBack(ts[0], WriteTxMaps(ts[1..]) + rest);
      TxMapsBack(ts[1..], rest);
      assert SortTxMaps(ts) == [SortedTxMap(ts[0])] + SortTxMaps(ts[1..]);
    }
  }

  lemma {:induction false} PairsBack(ds: seq<LedgerDelta>, ts: seq<TxMap>, rest: bytes)
    requires |ds| == |ts| && DeltasFit(ds) && TxMapsFit(ts)
    ensures ReadPairs(WritePairs(ds, ts) + rest, |ds|) == Success(Parsed(Pairs(SortDeltas(ds), SortTxMaps(ts)), rest))
  {
    hide ReadDelta, WriteDelta, SortedDelta, ReadTxMap, WriteTxMap, SortedTxMap;
    if ds == [] {
      assert WritePairs(ds, ts) + rest == rest;
      assert SortDeltas(ds) == [] && SortTxMaps(ts) == [];
    } else {
      assert ds[0] in ds && ts[0] in ts;
      assert (forall d :: d in ds[1..] ==> d in ds) && forall t :: t in ts[1..] ==> t in ts;
      var tail2 := WritePairs(ds[1..], ts[1..]) + rest;
      var tail1 := WriteTxMap(ts[0]) + tail2;
      AppendAssoc(WriteDelta(ds[0]), WriteTxMap(ts[0]) + WritePairs(ds[1..], ts[1..]), rest);
      AppendAssoc(WriteTxMap(ts[0]), WritePairs(ds[1..], ts[1..]), rest);
      DeltaBack(ds[0], tail1);
      TxMapBack(ts[0], tail2);
      PairsBack(ds[1..], ts[1..], rest);
      assert SortDeltas(ds) == [SortedDelta(ds[0])] + SortDeltas(ds[1..]);
      assert SortTxMaps(ts) == [SortedTxMap(ts[0])] + SortTxMaps(ts[1..]);
    }
  }

  /** Every count and length fits its field, and there is one entry per ledger of the range. */
  ghost predicate ChunkFits(c: Chunk) {
    && ListFits(c.checkpoint) && DeltasFit(c.deltas) && TxMapsFit(c.txMaps)
    && |c.txMaps| == |c.deltas| + 1 && |c.deltas| == DeltaCount(c.startLedger, c.endLedger)
  }

  /** The chunk with every list in file order and the given chunk hash. */
  function SortedChunk(c: Chunk, chunkHash: Hash256): Chunk {
    c.(chunkHash := chunkHash, checkpoint := SortBy(NodeKey, c.checkpoint), deltas := SortDeltas(c.deltas),
       txMaps := SortTxMaps(c.txMaps))
  }

  lemma HeaderBack(version: byte, c: Chunk, chunkHash: Hash256, rest: bytes)
    ensures ReadHeader(WriteHeader(version, c, chunkHash) + rest) ==
            Success(Parsed(Header(version, c.networkId, c.startLedger, c.endLedger, c.checkpointHash, chunkHash), rest))
  {
    var tail5 := chunkHash + rest;
    var tail4 := c.checkpointHash + tail5;
    var tail3 := ToBE(4, c.endLedger) + tail4;
    var tail2 := ToBE(4, c.startLedger) + tail3;
    var tail1 := ToBE(4, c.networkId) + tail2;
    var tail0 := [version] + tail1;
    HeaderSplit(version, c, chunkHash, rest);
    ExactBack(MAGIC_HEADER, tail0);
    ByteBack(version, tail1);
    U32Back(c.networkId, tail2);
    U32Back(c.startLedger, tail3);
    U32Back(c.endLedger, tail4);
    HashBack(c.checkpointHash, tail5);
    HashBack(chunkHash, rest);
  }

  lemma HeaderSplit(version: byte, c: Chunk, chunkHash: Hash256, rest: bytes)
    ensures WriteHeader(version, c, chunkHash) + rest ==
            MAGIC_HEADER + ([version] + (ToBE(4, c.networkId) + (ToBE(4, c.startLedger) + (ToBE(4, c.endLedger)
              + (c.checkpointHash + (chunkHash + rest))))))
  {
    var ids := ToBE(4, c.networkId) +
        (ToBE(4, c.startLedger) + (ToBE(4, c.endLedger) + (c.checkpointHash + chunkHash)));
    assert WriteHeader(version, c, chunkHash) + rest == MAGIC_HEADER + ([version] + (ids + rest));
    var tail := ToBE(4, c.endLedger) + (c.checkpointHash + (chunkHash + rest));
    assert ids + rest == ToBE(4, c.networkId) + (ToBE(4, c.startLedger) + tail);
  }

  /** Version 2 parses back to the chunk with its lists sorted. */
  lemma BlockRoundTrip(sha: Sha, c: Chunk)
    requires ChunkFits(c)
    ensures DeserializeChunk(sha, SerializeBlock(sha, c)) == Success(SortedChunk(c, sha(BlockBody(c))))
  {
    hide ReadHeader, WriteHeader, ReadNodeList, WriteNodeList, ReadDeltas, WriteDeltas, ReadTxMaps, WriteTxMaps;
    HeaderBack(FORMAT_VERSION, c, sha(BlockBody(c)), BlockBody(c));
    var tail1 := WriteTxMaps(c.txMaps) + MAGIC_FOOTER;
    NodeListBack(c.checkpoint, WriteDeltas(c.deltas) + tail1);
    DeltasBack(c.deltas, tail1);
    TxMapsBack(c.txMaps, MAGIC_FOOTER);
    ExactBack(MAGIC_FOOTER, []);
    assert MAGIC_FOOTER + [] == MAGIC_FOOTER;
  }

  lemma StreamedLedgersBack(c: Chunk, rest: bytes)
    requires ChunkFits(c)
    ensures ReadLedgers(FORMAT_VERSION_STREAMED, WriteTxMap(c.txMaps[0]) + (WritePairs(c.deltas, c.txMaps[1..]) + rest),
                        DeltaCount(c.startLedger, c.endLedger)) ==
            Success(Parsed(Pairs(SortDeltas(c.deltas), SortTxMaps(c.txMaps)), rest))
  {
    hide ReadTxMap, WriteTxMap, SortedTxMap, ReadPairs, WritePairs;
    assert c.txMaps[0] in c.txMaps && forall t :: t in c.txMaps[1..] ==> t in c.txMaps;
    TxMapBack(c.txMaps[0], WritePairs(c.deltas, c.txMaps[1..]) + rest);
    PairsBack(c.deltas, c.txMaps[1..], rest);
    assert SortTxMaps(c.txMaps) == [SortedTxMap(c.txMaps[0])] + SortTxMaps(c.txMaps[1..]);
  }

  /** So does version 3: the layouts differ only in the order of sections and in the chunk hash. */
  lemma StreamedRoundTrip(sha: Sha, c: Chunk)
    requires ChunkFits(c)
    ensures DeserializeChunk(sha, SerializeStreamed(sha, c)) == Success(SortedChunk(c, sha(StreamedBody(c))))
  {
    hide ReadHeader, WriteHeader, ReadNodeList, WriteNodeList, ReadLedgers;
    HeaderBack(FORMAT_VERSION_STREAMED, c, sha(StreamedBody(c)), StreamedBody(c));
    NodeListBack(c.checkpoint, WriteTxMap(c.txMaps[0]) + (WritePairs(c.deltas, c.txMaps[1..]) + MAGIC_FOOTER));
    StreamedLedgersBack(c, MAGIC_FOOTER);
    ExactBack(MAGIC_FOOTER, []);
    assert MAGIC_FOOTER + [] == MAGIC_FOOTER;
  }
}
