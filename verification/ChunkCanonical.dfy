/**
 * The other direction of the chunk format: what a reader accepts is what a writer writes. An accepted
 * file starts with the header of its chunk, and if its lists are in order and nothing follows its
 * footer it is, byte for byte, the serialization of that chunk.
 */
module ChunkCanonical {
  import opened Prelude
  import opened Reading
  import opened Bytes
  import opened SHAMap
  import opened Sorting
  import opened TxTree
  import opened ChunkFormat

  // ---------------------------------------------------------------------------------------------
  // Fields

  lemma IntWas(b: bytes, n: nat)
    requires ReadInt(b, n).Success?
    ensures b == ToBE(n, ReadInt(b, n).value.value) + ReadInt(b, n).value.rest
  {
    ToFromBE(b[..n]);
  }

  lemma U32Was(b: bytes)
    requires ReadU32(b).Success?
    ensures b == ToBE(4, ReadU32(b).value.value) + ReadU32(b).value.rest
  {
    IntWas(b, 4);
  }

  lemma ByteWas(b: bytes)
    requires ReadByte(b).Success?
    ensures b == [ReadByte(b).value.value] + ReadByte(b).value.rest
  {
  }

  lemma HashWas(b: bytes)
    requires ReadHash(b).Success?
    ensures b == ReadHash(b).value.value + ReadHash(b).value.rest
  {
  }

  // ---------------------------------------------------------------------------------------------
  // Lists

  lemma NodeWas(b: bytes)
    requires ReadNode(b).Success?
    ensures b == WriteNode(ReadNode(b).value.value) + ReadNode(b).value.rest
  {
    hide ReadInt, ReadExact, ToBE;
    var hash := ReadHash(b).value;
    var kind := ReadByte(hash.rest).value;
    var len := ReadInt(kind.rest, 2).value;
    var content := ReadExact(len.rest, len.value).value;
    HashWas(b);
    ByteWas(hash.rest);
    IntWas(kind.rest, 2);
    assert WireByte(NodeTypeOf(kind.value).value) == kind.value;
    var n := ReadNode(b).value.value;
    assert WriteNode(n) == hash.value + ([kind.value] + (ToBE(2, len.value) + content.value));
    Four(hash.value, [kind.value], ToBE(2, len.value), content.value, content.rest);
  }

  lemma Four(a: bytes, b: bytes, c: bytes, d: bytes, rest: bytes)
    ensures (a + (b + (c + d))) + rest == a + (b + (c + (d + rest)))
  {
  }

  lemma {:induction false} NodesWas(b: bytes, count: nat)
    requires ReadNodes(b, count).Success?
    ensures b == WriteNodes(ReadNodes(b, count).value.value) + ReadNodes(b, count).value.rest
    ensures |ReadNodes(b, count).value.value| == count
    decreases count
  {
    hide ReadNode, WriteNode;
    if count > 0 {
      var first := ReadNode(b).value;
      var others := ReadNodes(first.rest, count - 1).value;
      NodeWas(b);
      NodesWas(first.rest, count - 1);
      assert ([first.value] + others.value)[1..] == others.value;
      AppendAssoc(WriteNode(first.value), WriteNodes(others.value), others.rest);
    }
  }

  lemma NodeListWas(b: bytes)
    requires ReadNodeList(b).Success? && Sorted(NodeKey, ReadNodeList(b).value.value)
    ensures b == WriteNodeList(ReadNodeList(b).value.value) + ReadNodeList(b).value.rest
  {
    hide ReadNodes, WriteNodes, ReadInt, ToBE;
    var count := ReadInt(b, 4).value;
    var p := ReadNodeList(b).value;
    IntWas(b, 4);
    NodesWas(count.rest, count.value);
    SortIdempotent(NodeKey, p.value);
    AppendAssoc(ToBE(4, count.value), WriteNodes(p.value), p.rest);
  }

  lemma {:induction false} HashesWas(b: bytes, count: nat)
    requires ReadHashes(b, count).Success?
    ensures b == WriteHashes(ReadHashes(b, count).value.value) + ReadHashes(b, count).value.rest
    ensures |ReadHashes(b, count).value.value| == count
    decreases count
  {
    hide ReadHash;
    if count > 0 {
      var first := ReadHash(b).value;
      var others := ReadHashes(first.rest, count - 1).value;
      HashWas(b);
      HashesWas(first.rest, count - 1);
      assert ([first.value] + others.value)[1..] == others.value;
      AppendAssoc(first.value, WriteHashes(others.value), others.rest);
    }
  }

  /** The lists of a delta are in order. */
  ghost predicate DeltaOrdered(d: LedgerDelta) {
    Sorted(NodeKey, d.diff.added) && Sorted(HashKey, d.diff.deleted)
  }

  lemma DeltaWas(b: bytes)
    requires ReadDelta(b).Success? && DeltaOrdered(ReadDelta(b).value.value)
    ensures b == WriteDelta(ReadDelta(b).value.value) + ReadDelta(b).value.rest
  {
    hide ReadU32, ReadNodeList, ReadInt, ReadHashes, WriteNodeList, WriteHashes, ToBE;
    var ledgerSeq := ReadU32(b).value;
    var added := ReadNodeList(ledgerSeq.rest).value;
    var count := ReadInt(added.rest, 4).value;
    var deleted := ReadHashes(count.rest, count.value).value;
    U32Was(b);
    NodeListWas(ledgerSeq.rest);
    IntWas(added.rest, 4);
    HashesWas(count.rest, count.value);
    SortIdempotent(HashKey, deleted.value);
    Four(ToBE(4, ledgerSeq.value), WriteNodeList(added.value), ToBE(4, count.value), WriteHashes(deleted.value),
        deleted.rest);
  }

  lemma TxWas(b: bytes)
    requires ReadTx(b).Success?
    ensures b == WriteTx(ReadTx(b).value.value) + ReadTx(b).value.rest
  {
    hide ReadInt, ReadExact, ToBE;
    var txHash := ReadHash(b).value;
    var txLen := ReadInt(txHash.rest, 4).value;
    var txBlob := ReadExact(txLen.rest, txLen.value).value;
    var metaLen := ReadInt(txBlob.rest, 4).value;
    var metaBlob := ReadExact(metaLen.rest, metaLen.value).value;
    HashWas(b);
    IntWas(txHash.rest, 4);
    IntWas(txBlob.rest, 4);
    var a, c, d, e, f := txHash.value, ToBE(4, txLen.value), txBlob.value, ToBE(4, metaLen.value), metaBlob.value;
    assert b == a + (c + (d + (e + (f + metaBlob.rest))));
    Four(a, c, d, e + f, metaBlob.rest);
    AppendAssoc(e, f, metaBlob.rest);
  }

  lemma {:induction false} TxsWas(b: bytes, count: nat)
    requires ReadTxs(b, count).Success?
    ensures b == WriteTxs(ReadTxs(b, count).value.value) + ReadTxs(b, count).value.rest
    ensures |ReadTxs(b, count).value.value| == count
    decreases count
  {
    hide ReadTx, WriteTx;
    if count > 0 {
      var first := ReadTx(b).value;
      var others := ReadTxs(first.rest, count - 1).value;
      TxWas(b);
      TxsWas(first.rest, count - 1);
      assert ([first.value] + others.value)[1..] == others.value;
      AppendAssoc(WriteTx(first.value), WriteTxs(others.value), others.rest);
    }
  }

  // ---------------------------------------------------------------------------------------------
  // Transaction maps

  lemma TxHeadWas(b: bytes)
    requires ReadTxHead(b).Success?
    ensures b == WriteTxHead(ReadTxHead(b).value.value) + ReadTxHead(b).value.rest
  {
    hide ReadInt, ToBE;
    var ledgerSeq := ReadU32(b).value;
    var ledgerHash := ReadHash(ledgerSeq.rest).value;
    var accountHash := ReadHash(ledgerHash.rest).value;
    var drops := ReadU64(accountHash.rest).value;
    IntWas(b, 4);
    HashWas(ledgerSeq.rest);
    HashWas(ledgerHash.rest);
    IntWas(accountHash.rest, 8);
    Four(ToBE(4, ledgerSeq.value), ledgerHash.value, accountHash.value, ToBE(8, drops.value), drops.rest);
  }

  lemma TxTimesWas(b: bytes, t: TxMap)
    requires ReadTxTimes(b, t).Success?
    ensures b == WriteTxTimes(ReadTxTimes(b, t).value.value) + ReadTxTimes(b, t).value.rest
  {
    hide ReadInt, ToBE;
    var parentCloseTime := ReadU32(b).value;
    var closeTime := ReadU32(parentCloseTime.rest).value;
    var resolution := ReadByte(closeTime.rest).value;
    var flags := ReadByte(resolution.rest).value;
    IntWas(b, 4);
    IntWas(parentCloseTime.rest, 4);
    Four(ToBE(4, parentCloseTime.value), ToBE(4, closeTime.value), [resolution.value], [flags.value], flags.rest);
    assert [resolution.value] + [flags.value] == [resolution.value, flags.value];
  }

  ghost predicate TxMapOrdered(t: TxMap) {
    Sorted(TxKey, t.txns)
  }

  /** The fields in front do not depend on the list behind them. */
  lemma TxMapFields(b: bytes)
    requires ReadTxMap(b).Success?
    ensures
      var t, head := ReadTxMap(b).value.value, ReadTxHead(b).value;
      var times := ReadTxTimes(head.rest, head.value).value;
      WriteTxHead(t) == WriteTxHead(head.value) && WriteTxTimes(t) == WriteTxTimes(times.value)
  {
    hide ReadInt, ReadTxs, ToBE;
    var head := ReadTxHead(b).value;
    assert ReadTxTimes(head.rest, head.value).Success?;
  }

  lemma TxMapWas(b: bytes)
    requires ReadTxMap(b).Success? && TxMapOrdered(ReadTxMap(b).value.value)
    ensures b == WriteTxMap(ReadTxMap(b).value.value) + ReadTxMap(b).value.rest
  {
    hide ReadTxHead, ReadTxTimes, ReadInt, ReadTxs, ToBE, WriteTxHead, WriteTxTimes, WriteTxs;
    var head := ReadTxHead(b).value;
    var times := ReadTxTimes(head.rest, head.value).value;
    var count := ReadInt(times.rest, 2).value;
    var txns := ReadTxs(count.rest, count.value).value;
    TxMapFields(b);
    TxHeadWas(b);
    TxTimesWas(head.rest, head.value);
    IntWas(times.rest, 2);
    TxsWas(count.rest, count.value);
    SortIdempotent(TxKey, txns.value);
    Four(WriteTxHead(head.value), WriteTxTimes(times.value), ToBE(2, count.value), WriteTxs(txns.value), txns.rest);
  }

  // ---------------------------------------------------------------------------------------------
  // The body

  ghost predicate Ordered(c: Chunk) {
    && Sorted(NodeKey, c.checkpoint)
    && (forall d :: d in c.deltas ==> DeltaOrdered(d)) && forall t :: t in c.txMaps ==> TxMapOrdered(t)
  }

  lemma {:induction false} DeltasWas(b: bytes, count: nat)
    requires ReadDeltas(b, count).Success? && forall d :: d in ReadDeltas(b, count).value.value ==> DeltaOrdered(d)
    ensures b == WriteDeltas(ReadDeltas(b, count).value.value) + ReadDeltas(b, count).value.rest
    ensures |ReadDeltas(b, count).value.value| == count
    decreases count
  {
    hide ReadDelta, WriteDelta, DeltaOrdered;
    if count > 0 {
      var first := ReadDelta(b).value;
      var others := ReadDeltas(first.rest, count - 1).value;
      var all := [first.value] + others.value;
      assert all[0] in all && all[1..] == others.value;
      DeltaWas(b);
      DeltasWas(first.rest, count - 1);
      AppendAssoc(WriteDelta(first.value), WriteDeltas(others.value), others.rest);
    }
  }

  lemma {:induction false} TxMapsWas(b: bytes, count: nat)
    requires ReadTxMaps(b, count).Success? && forall t :: t in ReadTxMaps(b, count).value.value ==> TxMapOrdered(t)
    ensures b == WriteTxMaps(ReadTxMaps(b, count).value.value) + ReadTxMaps(b, count).value.rest
    ensures |ReadTxMaps(b, count).value.value| == count
    decreases count
  {
    hide ReadTxMap, WriteTxMap, TxMapOrdered;
    if count > 0 {
      var first := ReadTxMap(b).value;
      var others := ReadTxMaps(first.rest, count - 1).value;
      var all := [first.value] + others.value;
      assert all[0] in all && all[1..] == others.value;
      TxMapWas(b);
      TxMapsWas(first.rest, count - 1);
      AppendAssoc(WriteTxMap(first.value), WriteTxMaps(others.value), others.rest);
    }
  }

  lemma {:induction false} PairsWas(b: bytes, count: nat)
    requires ReadPairs(b, count).Success?
    requires forall d :: d in ReadPairs(b, count).value.value.deltas ==> DeltaOrdered(d)
    requires forall t :: t in ReadPairs(b, count).value.value.txMaps ==> TxMapOrdered(t)
    ensures
      var p := ReadPairs(b, count).value;
      b == WritePairs(p.value.deltas, p.value.txMaps) + p.rest
    decreases count
  {
    hide ReadDelta, ReadTxMap, WriteDelta, WriteTxMap, DeltaOrdered, TxMapOrdered;
    if count > 0 {
      var delta := ReadDelta(b).value;
      var txMap := ReadTxMap(delta.rest).value;
      var others := ReadPairs(txMap.rest, count - 1).value;
      var ds, ts := [delta.value] + others.value.deltas, [txMap.value] + others.value.txMaps;
      assert ds[0] in ds && ts[0] in ts && ds[1..] == others.value.deltas && ts[1..] == others.value.txMaps;
      DeltaWas(b);
      TxMapWas(delta.rest);
      PairsWas(txMap.rest, count - 1);
      var x, y, z := WriteDelta(delta.value), WriteTxMap(txMap.value),
          WritePairs(others.value.deltas, others.value.txMaps);
      AppendAssoc(y, z, others.rest);
      AppendAssoc(x, y + z, others.rest);
    }
  }

  // ---------------------------------------------------------------------------------------------
  // The file

  lemma HeaderWas(data: bytes, c: Chunk)
    requires ReadHeader(data).Success?
    requires
      var h := ReadHeader(data).value.value;
      c.networkId == h.networkId && c.startLedger == h.startLedger && c.endLedger == h.endLedger
      && c.checkpointHash == h.checkpointHash
    ensures
      var h := ReadHeader(data).value;
      data == WriteHeader(h.value.version, c, h.value.chunkHash) + h.rest
  {
    hide ReadInt, ToBE;
    var magic := ReadExact(data, 4).value;
    var version := ReadByte(magic.rest).value;
    var networkId := ReadU32(version.rest).value;
    var startLedger := ReadU32(networkId.rest).value;
    var endLedger := ReadU32(startLedger.rest).value;
    var checkpointHash := ReadHash(endLedger.rest).value;
    var chunkHash := ReadHash(checkpointHash.rest).value;
    IntWas(version.rest, 4);
    IntWas(networkId.rest, 4);
    IntWas(startLedger.rest, 4);
    HashWas(endLedger.rest);
    HashWas(checkpointHash.rest);
    var f, x, y, z := MAGIC_HEADER + [version.value], ToBE(4, networkId.value), ToBE(4, startLedger.value),
        ToBE(4, endLedger.value);
    AppendAssoc(MAGIC_HEADER, [version.value], version.rest);
    AppendAssoc(checkpointHash.value, chunkHash.value, chunkHash.rest);
    var first: bytes, second: bytes := checkpointHash.value, chunkHash.value;
    var e := first + second;
    Four(f, x, y, z + e, chunkHash.rest);
    AppendAssoc(z, e, chunkHash.rest);
  }

  /** Every accepted file starts with its chunk's header, and its chunk hash is that of all that follows. */
  lemma AcceptedHeader(sha: Sha, data: bytes)
    requires DeserializeChunk(sha, data).Success?
    ensures
      var c, version := DeserializeChunk(sha, data).value, ReadHeader(data).value.value.version;
      && (version == FORMAT_VERSION || version == FORMAT_VERSION_STREAMED)
      && data == WriteHeader(version, c, c.chunkHash) + ReadHeader(data).value.rest
      && c.chunkHash == sha(ReadHeader(data).value.rest)
  {
    hide ReadHeader, WriteHeader, ReadNodeList, ReadLedgers;
    HeaderWas(data, DeserializeChunk(sha, data).value);
  }

  /** Nothing stands behind the footer of an accepted file. */
  predicate NothingBehind(sha: Sha, data: bytes)
    requires DeserializeChunk(sha, data).Success?
  {
    var head := ReadHeader(data).value;
    var checkpoint := ReadNodeList(head.rest).value;
    var ledgers := ReadLedgers(head.value.version, checkpoint.rest,
        DeltaCount(head.value.startLedger, head.value.endLedger)).value;
    |ledgers.rest| == 4
  }

  lemma StreamedBodyWas(b: bytes, c: Chunk, count: nat)
    requires ReadNodeList(b).Success? && ReadNodeList(b).value.value == c.checkpoint && Ordered(c)
    requires
      var r := ReadLedgers(FORMAT_VERSION_STREAMED, ReadNodeList(b).value.rest, count);
      r.Success? && r.value.value == Pairs(c.deltas, c.txMaps) && r.value.rest == MAGIC_FOOTER
    ensures |c.txMaps| == |c.deltas| + 1 && b == StreamedBody(c)
  {
    hide ReadNodeList, ReadTxMap, WriteNodeList, WriteTxMap, WritePairs, ReadPairs, TxMapOrdered, DeltaOrdered,
         Sorted;
    var checkpoint := ReadNodeList(b).value;
    var first := ReadTxMap(checkpoint.rest).value;
    assert c.txMaps[0] == first.value && c.txMaps[0] in c.txMaps;
    assert c.txMaps[1..] == ReadPairs(first.rest, count).value.value.txMaps;
    NodeListWas(b);
    TxMapWas(checkpoint.rest);
    PairsWas(first.rest, count);
  }

  lemma BlockBodyWas(b: bytes, c: Chunk, count: nat)
    requires ReadNodeList(b).Success? && ReadNodeList(b).value.value == c.checkpoint && Ordered(c)
    requires
      var r := ReadLedgers(FORMAT_VERSION, ReadNodeList(b).value.rest, count);
      r.Success? && r.value.value == Pairs(c.deltas, c.txMaps) && r.value.rest == MAGIC_FOOTER
    ensures b == BlockBody(c)
  {
    hide ReadNodeList, WriteNodeList, ReadDeltas, WriteDeltas, ReadTxMaps, WriteTxMaps, TxMapOrdered, DeltaOrdered,
         Sorted;
    var checkpoint := ReadNodeList(b).value;
    var deltas := ReadDeltas(checkpoint.rest, count).value;
    NodeListWas(b);
    DeltasWas(checkpoint.rest, count);
    TxMapsWas(deltas.rest, count + 1);
  }

  /** An accepted file whose lists are in order and which ends at its footer is its chunk's serialization. */
  lemma AcceptedIsSerialization(sha: Sha, data: bytes)
    requires DeserializeChunk(sha, data).Success? && NothingBehind(sha, data)
    requires Ordered(DeserializeChunk(sha, data).value)
    ensures
      var c := DeserializeChunk(sha, data).value;
      data == SerializeBlock(sha, c) || (|c.txMaps| == |c.deltas| + 1 && data == SerializeStreamed(sha, c))
  {
    hide ReadHeader, WriteHeader, ReadNodeList, ReadLedgers, BlockBody, StreamedBody, Ordered;
    AcceptedHeader(sha, data);
    var c, head := DeserializeChunk(sha, data).value, ReadHeader(data).value;
    var count := DeltaCount(head.value.startLedger, head.value.endLedger);
    var rest := ReadLedgers(head.value.version, ReadNodeList(head.rest).value.rest, count).value.rest;
    assert rest[..4] == rest;
    if head.value.version == FORMAT_VERSION {
      BlockBodyWas(head.rest, c, count);
    } else {
      StreamedBodyWas(head.rest, c, count);
    }
  }
}
