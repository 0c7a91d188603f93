/** The chunk file format: what is written, and how it is read back. */
module ChunkFormat {
  import opened Prelude
  import opened Reading
  import opened Bytes
  import opened SHAMap
  import opened Sorting
  import opened TreeDiff
  import opened TxTree

  datatype TxMap = TxMap(
    ledgerSeq: u32, ledgerHash: Hash256, accountHash: Hash256, drops: u64,
    parentCloseTime: u32, closeTime: u32, resolution: byte, flags: byte, txns: seq<TxRecord>)

  datatype LedgerDelta = LedgerDelta(ledgerSeq: u32, diff: Diff)

  datatype Chunk = Chunk(
    networkId: u32, startLedger: u32, endLedger: u32, checkpointHash: Hash256, chunkHash: Hash256,
    checkpoint: seq<Node>, deltas: seq<LedgerDelta>, txMaps: seq<TxMap>)

  const MAGIC_HEADER: bytes := [0x58, 0x52, 0x4C, 0x41]
  const MAGIC_FOOTER: bytes := [0x45, 0x4E, 0x44, 0x58]
  const FORMAT_VERSION: byte := 2
  const FORMAT_VERSION_STREAMED: byte := 3

  // ---------------------------------------------------------------------------------------------
  // Writing

  /** Lengths and counts are cut to the width of their field. */
  function WriteNode(n: Node): bytes {
    n.hash + ([WireByte(n.nodeType)] + (ToBE(2, |n.content|) + n.content))
  }

  function WriteNodes(ns: seq<Node>): bytes {
    if ns == [] then [] else WriteNode(ns[0]) + WriteNodes(ns[1..])
  }

  function WriteNodeList(ns: seq<Node>): bytes {
    ToBE(4, |ns|) + WriteNodes(SortBy(NodeKey, ns))
  }

  function WriteHashes(hs: seq<Hash256>): bytes {
    if hs == [] then [] else hs[0] + WriteHashes(hs[1..])
  }

  function WriteDelta(d: LedgerDelta): bytes {
    ToBE(4, d.ledgerSeq) + (WriteNodeList(d.diff.added)
      + (ToBE(4, |d.diff.deleted|) + WriteHashes(SortBy(HashKey, d.diff.deleted))))
  }

  function WriteTx(tx: TxRecord): bytes {
    tx.txHash + (ToBE(4, |tx.txBlob|) + (tx.txBlob + (ToBE(4, |tx.metaBlob|) + tx.metaBlob)))
  }

  function WriteTxs(txns: seq<TxRecord>): bytes {
    if txns == [] then [] else WriteTx(txns[0]) + WriteTxs(txns[1..])
  }

  function WriteTxHead(t: TxMap): bytes {
    ToBE(4, t.ledgerSeq) + (t.ledgerHash + (t.accountHash + ToBE(8, t.drops)))
  }

  function WriteTxTimes(t: TxMap): bytes {
    ToBE(4, t.parentCloseTime) + (ToBE(4, t.closeTime) + [t.resolution, t.flags])
  }

  function WriteTxMap(t: TxMap): bytes {
    WriteTxHead(t) + (WriteTxTimes(t) + (ToBE(2, |t.txns|) + WriteTxs(SortBy(TxKey, t.txns))))
  }

  function WriteDeltas(ds: seq<LedgerDelta>): bytes {
    if ds == [] then [] else WriteDelta(ds[0]) + WriteDeltas(ds[1..])
  }

  function WriteTxMaps(ts: seq<TxMap>): bytes {
    if ts == [] then [] else WriteTxMap(ts[0]) + WriteTxMaps(ts[1..])
  }

  /** One delta and one transaction map per ledger, in turn. */
  function WritePairs(ds: seq<LedgerDelta>, ts: seq<TxMap>): bytes
    requires |ds| == |ts|
  {
    if ds == [] then [] else WriteDelta(ds[0]) + (WriteTxMap(ts[0]) + WritePairs(ds[1..], ts[1..]))
  }

  function WriteHeader(version: byte, c: Chunk, chunkHash: Hash256): bytes {
    (MAGIC_HEADER + [version]) + (ToBE(4, c.networkId) + (ToBE(4, c.startLedger) + (ToBE(4, c.endLedger)
      + (c.checkpointHash + chunkHash))))
  }

  /** Version 2: all deltas, then all transaction maps. */
  function BlockBody(c: Chunk): bytes {
    WriteNodeList(c.checkpoint) + (WriteDeltas(c.deltas) + (WriteTxMaps(c.txMaps) + MAGIC_FOOTER))
  }

  /** Version 3: the first transaction map, then a delta and a transaction map per further ledger. */
  function StreamedBody(c: Chunk): bytes
    requires |c.txMaps| == |c.deltas| + 1
  {
    WriteNodeList(c.checkpoint) + (WriteTxMap(c.txMaps[0]) + (WritePairs(c.deltas, c.txMaps[1..]) + MAGIC_FOOTER))
  }

  function SerializeBlock(sha: Sha, c: Chunk): bytes {
    WriteHeader(FORMAT_VERSION, c, sha(BlockBody(c))) + BlockBody(c)
  }

  function SerializeStreamed(sha: Sha, c: Chunk): bytes
    requires |c.txMaps| == |c.deltas| + 1
  {
    WriteHeader(FORMAT_VERSION_STREAMED, c, sha(StreamedBody(c))) + StreamedBody(c)
  }

  // ---------------------------------------------------------------------------------------------
  // Reading: each reader returns its value and the bytes behind it

  function ReadU32(b: bytes): Result<Parsed<u32>> {
    var p :- ReadInt(b, 4);
    Widths();
    Success(Parsed(p.value, p.rest))
  }

  function ReadU64(b: bytes): Result<Parsed<u64>> {
    var p :- ReadInt(b, 8);
    Widths();
    Success(Parsed(p.value, p.rest))
  }

  function ReadHash(b: bytes): Result<Parsed<Hash256>> {
    var p :- ReadExact(b, 32);
    Success(Parsed(p.value, p.rest))
  }

  function ReadNode(b: bytes): Result<Parsed<Node>> {
    var hash :- ReadHash(b);
    var kind :- ReadByte(hash.rest);
    var nodeType :- NodeTypeOf(kind.value);
    var len :- ReadInt(kind.rest, 2);
    var content :- ReadExact(len.rest, len.value);
    Success(Parsed(Node(hash.value, nodeType, content.value), content.rest))
  }

  function ReadNodes(b: bytes, count: nat): Result<Parsed<seq<Node>>>
    decreases count
  {
    if count == 0 then Success(Parsed([], b))
    else
      var first :- ReadNode(b);
      var others :- ReadNodes(first.rest, count - 1);
      Success(Parsed([first.value] + others.value, others.rest))
  }

  function ReadNodeList(b: bytes): Result<Parsed<seq<Node>>> {
    var count :- ReadInt(b, 4);
    ReadNodes(count.rest, count.value)
  }

  function ReadHashes(b: bytes, count: nat): Result<Parsed<seq<Hash256>>>
    decreases count
  {
    if count == 0 then Success(Parsed([], b))
    else
      var first :- ReadHash(b);
      var others :- ReadHashes(first.rest, count - 1);
      Success(Parsed([first.value] + others.value, others.rest))
  }

  function ReadDelta(b: bytes): Result<Parsed<LedgerDelta>> {
    var ledgerSeq :- ReadU32(b);
    var added :- ReadNodeList(ledgerSeq.rest);
    var count :- ReadInt(added.rest, 4);
    var deleted :- ReadHashes(count.rest, count.value);
    Success(Parsed(LedgerDelta(ledgerSeq.value, Diff(added.value, deleted.value)), deleted.rest))
  }

  function ReadTx(b: bytes): Result<Parsed<TxRecord>> {
    var txHash :- ReadHash(b);
    var txLen :- ReadInt(txHash.rest, 4);
    var txBlob :- ReadExact(txLen.rest, txLen.value);
    var metaLen :- ReadInt(txBlob.rest, 4);
    var metaBlob :- ReadExact(metaLen.rest, metaLen.value);
    Success(Parsed(TxRecord(txHash.value, txBlob.value, metaBlob.value), metaBlob.rest))
  }

  function ReadTxs(b: bytes, count: nat): Result<Parsed<seq<TxRecord>>>
    decreases count
  {
    if count == 0 then Success(Parsed([], b))
    else
      var first :- ReadTx(b);
      var others :- ReadTxs(first.rest, count - 1);
      Success(Parsed([first.value] + others.value, others.rest))
  }

  /** The fixed-width fields in front of the transactions. */
  function ReadTxHead(b: bytes): Result<Parsed<TxMap>> {
    var ledgerSeq :- ReadU32(b);
    var ledgerHash :- ReadHash(ledgerSeq.rest);
    var accountHash :- ReadHash(ledgerHash.rest);
    var drops :- ReadU64(accountHash.rest);
    Success(Parsed(TxMap(ledgerSeq.value, ledgerHash.value, accountHash.value, drops.value, 0, 0, 0, 0, []),
        drops.rest))
  }

  function ReadTxTimes(b: bytes, t: TxMap): Result<Parsed<TxMap>> {
    var parentCloseTime :- ReadU32(b);
    var closeTime :- ReadU32(parentCloseTime.rest);
    var resolution :- ReadByte(closeTime.rest);
    var flags :- ReadByte(resolution.rest);
    Success(Parsed(t.(parentCloseTime := parentCloseTime.value, closeTime := closeTime.value,
                      resolution := resolution.value, flags := flags.value), flags.rest))
  }

  function ReadTxMap(b: bytes): Result<Parsed<TxMap>> {
    var head :- ReadTxHead(b);
    var times :- ReadTxTimes(head.rest, head.value);
    var count :- ReadInt(times.rest, 2);
    var txns :- ReadTxs(count.rest, count.value);
    Success(Parsed(times.value.(txns := txns.value), txns.rest))
  }

  function ReadDeltas(b: bytes, count: nat): Result<Parsed<seq<LedgerDelta>>>
    decreases count
  {
    if count == 0 then Success(Parsed([], b))
    else
      var first :- ReadDelta(b);
      var others :- ReadDeltas(first.rest, count - 1);
      Success(Parsed([first.value] + others.value, others.rest))
  }

  function ReadTxMaps(b: bytes, count: nat): Result<Parsed<seq<TxMap>>>
    decreases count
  {
    if count == 0 then Success(Parsed([], b))
    else
      var first :- ReadTxMap(b);
      var others :- ReadTxMaps(first.rest, count - 1);
      Success(Parsed([first.value] + others.value, others.rest))
  }

  /** Deltas and the transaction maps that go with them. */
  datatype Pairs = Pairs(deltas: seq<LedgerDelta>, txMaps: seq<TxMap>)

  function ReadPairs(b: bytes, count: nat): (r: Result<Parsed<Pairs>>)
    ensures r.Success? ==> |r.value.value.deltas| == |r.value.value.txMaps| == count
    decreases count
  {
    if count == 0 then Success(Parsed(Pairs([], []), b))
    else
      var delta :- ReadDelta(b);
      var txMap :- ReadTxMap(delta.rest);
      var others :- ReadPairs(txMap.rest, count - 1);
      Success(Parsed(Pairs([delta.value] + others.value.deltas, [txMap.value] + others.value.txMaps), others.rest))
  }

  datatype Header = Header(version: byte, networkId: u32, startLedger: u32, endLedger: u32, checkpointHash: Hash256,
                           chunkHash: Hash256)

  function ReadHeader(b: bytes): Result<Parsed<Header>> {
    var magic :- ReadExact(b, 4);
    if magic.value != MAGIC_HEADER then Failure
    else
      var version :- ReadByte(magic.rest);
      var networkId :- ReadU32(version.rest);
      var startLedger :- ReadU32(networkId.rest);
      var endLedger :- ReadU32(startLedger.rest);
      var checkpointHash :- ReadHash(endLedger.rest);
      var chunkHash :- ReadHash(checkpointHash.rest);
      Success(Parsed(Header(version.value, networkId.value, startLedger.value, endLedger.value,
                            checkpointHash.value, chunkHash.value), chunkHash.rest))
  }

  /** `end_ledger - start_ledger` in 32-bit arithmetic. */
  function DeltaCount(start: u32, end: u32): nat {
    (end - start) % 0x1_0000_0000
  }

  /** Reads deltas and transaction maps in the layout of the given version. */
  function ReadLedgers(version: byte, b: bytes, count: nat): (r: Result<Parsed<Pairs>>)
    ensures r.Success? && version == FORMAT_VERSION_STREAMED ==>
              |r.value.value.deltas| == count && |r.value.value.txMaps| == count + 1
  {
    if version == FORMAT_VERSION_STREAMED then
      var first :- ReadTxMap(b);
      var pairs :- ReadPairs(first.rest, count);
      Success(Parsed(Pairs(pairs.value.deltas, [first.value] + pairs.value.txMaps), pairs.rest))
    else
      var deltas :- ReadDeltas(b, count);
      var txMaps :- ReadTxMaps(deltas.rest, count + 1);
      Success(Parsed(Pairs(deltas.value, txMaps.value), txMaps.rest))
  }

  function DeserializeChunk(sha: Sha, data: bytes): Result<Chunk> {
    var head :- ReadHeader(data);
    var h := head.value;
    if h.version != FORMAT_VERSION && h.version != FORMAT_VERSION_STREAMED then Failure
    else if sha(head.rest) != h.chunkHash then Failure
    else
      var checkpoint :- ReadNodeList(head.rest);
      var ledgers :- ReadLedgers(h.version, checkpoint.rest, DeltaCount(h.startLedger, h.endLedger));
      var footer :- ReadExact(ledgers.rest, 4);
      if footer.value != MAGIC_FOOTER then Failure
      else Success(Chunk(h.networkId, h.startLedger, h.endLedger, h.checkpointHash, h.chunkHash,
                         checkpoint.value, ledgers.value.deltas, ledgers.value.txMaps))
  }
}
