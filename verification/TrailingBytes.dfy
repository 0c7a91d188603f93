/**
 * Bytes behind the footer. The streaming reader stops at the footer and hashes what it consumed; the
 * other reader hashes all there is. So anything may be appended to an accepted file for the one, and
 * nothing for the other.
 */
module TrailingBytes {
  import opened Prelude
  import opened Reading
  import opened TxTree
  import opened ChunkFormat
  import opened Replay
  import opened Streaming
  import opened StreamReplay

  // ---------------------------------------------------------------------------------------------
  // What a successful read returned does not depend on what follows

  lemma HashExtends(b: bytes, x: bytes)
    requires ReadHash(b).Success?
    ensures ReadHash(b + x) == Success(Parsed(ReadHash(b).value.value, ReadHash(b).value.rest + x))
  {
    hide ReadExact;
    ExactExtends(b, 32, x);
  }

  lemma NodeExtends(b: bytes, x: bytes)
    requires ReadNode(b).Success?
    ensures ReadNode(b + x) == Success(Parsed(ReadNode(b).value.value, ReadNode(b).value.rest + x))
  {
    hide ReadHash, ReadInt, ReadExact;
    var hash := ReadHash(b).value;
    var kind := ReadByte(hash.rest).value;
    var len := ReadInt(kind.rest, 2).value;
    HashExtends(b, x);
    ByteExtends(hash.rest, x);
    IntExtends(kind.rest, 2, x);
    ExactExtends(len.rest, len.value, x);
  }

  lemma {:induction false} NodesExtend(b: bytes, count: nat, x: bytes)
    requires ReadNodes(b, count).Success?
    ensures ReadNodes(b + x, count)
        == Success(Parsed(ReadNodes(b, count).value.value, ReadNodes(b, count).value.rest + x))
    decreases count
  {
    hide ReadNode;
    if count > 0 {
      NodeExtends(b, x);
      NodesExtend(ReadNode(b).value.rest, count - 1, x);
    }
  }

  lemma NodeListExtends(b: bytes, x: bytes)
    requires ReadNodeList(b).Success?
    ensures ReadNodeList(b + x) == Success(Parsed(ReadNodeList(b).value.value, ReadNodeList(b).value.rest + x))
  {
    hide ReadInt, ReadNodes;
    IntExtends(b, 4, x);
    NodesExtend(ReadInt(b, 4).value.rest, ReadInt(b, 4).value.value, x);
  }

  lemma {:induction false} HashesExtend(b: bytes, count: nat, x: bytes)
    requires ReadHashes(b, count).Success?
    ensures ReadHashes(b + x, count)
        == Success(Parsed(ReadHashes(b, count).value.value, ReadHashes(b, count).value.rest + x))
    decreases count
  {
    hide ReadHash;
    if count > 0 {
      HashExtends(b, x);
      HashesExtend(ReadHash(b).value.rest, count - 1, x);
    }
  }

  lemma DeltaExtends(b: bytes, x: bytes)
    requires ReadDelta(b).Success?
    ensures ReadDelta(b + x) == Success(Parsed(ReadDelta(b).value.value, ReadDelta(b).value.rest + x))
  {
    hide ReadNodeList, ReadHashes, ReadInt;
    var ledgerSeq := ReadU32(b).value;
    var added := ReadNodeList(ledgerSeq.rest).value;
    var count := ReadInt(added.rest, 4).value;
    IntExtends(b, 4, x);
    NodeListExtends(ledgerSeq.rest, x);
    IntExtends(added.rest, 4, x);
    HashesExtend(count.rest, count.value, x);
  }

  lemma TxExtends(b: bytes, x: bytes)
    requires ReadTx(b).Success?
    ensures ReadTx(b + x) == Success(Parsed(ReadTx(b).value.value, ReadTx(b).value.rest + x))
  {
    hide ReadHash, ReadInt, ReadExact;
    var txHash := ReadHash(b).value;
    var txLen := ReadInt(txHash.rest, 4).value;
    var txBlob := ReadExact(txLen.rest, txLen.value).value;
    var metaLen := ReadInt(txBlob.rest, 4).value;
    HashExtends(b, x);
    IntExtends(txHash.rest, 4, x);
    ExactExtends(txLen.rest, txLen.value, x);
    IntExtends(txBlob.rest, 4, x);
    ExactExtends(metaLen.rest, metaLen.value, x);
  }

  lemma {:induction false} TxsExtend(b: bytes, count: nat, x: bytes)
    requires ReadTxs(b, count).Success?
    ensures ReadTxs(b + x, count) == Success(Parsed(ReadTxs(b, count).value.value, ReadTxs(b, count).value.rest + x))
    decreases count
  {
    hide ReadTx;
    if count > 0 {
      TxExtends(b, x);
      TxsExtend(ReadTx(b).value.rest, count - 1, x);
    }
  }

  lemma TxHeadExtends(b: bytes, x: bytes)
    requires ReadTxHead(b).Success?
    ensures ReadTxHead(b + x) == Success(Parsed(ReadTxHead(b).value.value, ReadTxHead(b).value.rest + x))
  {
    hide ReadHash, ReadInt;
    var ledgerSeq := ReadU32(b).value;
    var ledgerHash := ReadHash(ledgerSeq.rest).value;
    var accountHash := ReadHash(ledgerHash.rest).value;
    IntExtends(b, 4, x);
    HashExtends(ledgerSeq.rest, x);
    HashExtends(ledgerHash.rest, x);
    IntExtends(accountHash.rest, 8, x);
  }

  lemma TxTimesExtends(b: bytes, t: TxMap, x: bytes)
    requires ReadTxTimes(b, t).Success?
    ensures ReadTxTimes(b + x, t) == Success(Parsed(ReadTxTimes(b, t).value.value, ReadTxTimes(b, t).value.rest + x))
  {
    hide ReadInt;
    var parentCloseTime := ReadU32(b).value;
    var closeTime := ReadU32(parentCloseTime.rest).value;
    IntExtends(b, 4, x);
    IntExtends(parentCloseTime.rest, 4, x);
    ByteExtends(closeTime.rest, x);
    ByteExtends(closeTime.rest[1..], x);
  }

  lemma TxMapExtends(b: bytes, x: bytes)
    requires ReadTxMap(b).Success?
    ensures ReadTxMap(b + x) == Success(Parsed(ReadTxMap(b).value.value, ReadTxMap(b).value.rest + x))
  {
    hide ReadTxHead, ReadTxTimes, ReadTxs, ReadInt;
    var head := ReadTxHead(b).value;
    var times := ReadTxTimes(head.rest, head.value).value;
    var count := ReadInt(times.rest, 2).value;
    TxHeadExtends(b, x);
    TxTimesExtends(head.rest, head.value, x);
    IntExtends(times.rest, 2, x);
    TxsExtend(count.rest, count.value, x);
  }

  lemma {:induction false} PairsExtend(b: bytes, count: nat, x: bytes)
    requires ReadPairs(b, count).Success?
    ensures ReadPairs(b + x, count)
        == Success(Parsed(ReadPairs(b, count).value.value, ReadPairs(b, count).value.rest + x))
    decreases count
  {
    hide ReadDelta, ReadTxMap;
    if count > 0 {
      var delta := ReadDelta(b).value;
      DeltaExtends(b, x);
      TxMapExtends(delta.rest, x);
      PairsExtend(ReadTxMap(delta.rest).value.rest, count - 1, x);
    }
  }

  lemma BodyExtends(h: Header, body: bytes, x: bytes)
    requires ReadBody(h, body).Success?
    ensures ReadBody(h, body + x) == Success(Parsed(ReadBody(h, body).value.value, ReadBody(h, body).value.rest + x))
  {
    hide ReadNodeList, ReadTxMap, ReadPairs;
    var checkpoint := ReadNodeList(body).value;
    NodeListExtends(body, x);
    TxMapExtends(checkpoint.rest, x);
    PairsExtend(ReadTxMap(checkpoint.rest).value.rest, DeltaCount(h.startLedger, h.endLedger), x);
  }

  lemma HeaderExtends(data: bytes, x: bytes)
    requires ReadHeader(data).Success?
    ensures ReadHeader(data + x) == Success(Parsed(ReadHeader(data).value.value, ReadHeader(data).value.rest + x))
  {
    hide ReadHash, ReadInt, ReadExact;
    var magic := ReadExact(data, 4).value;
    var version := ReadByte(magic.rest).value;
    var networkId := ReadU32(version.rest).value;
    var startLedger := ReadU32(networkId.rest).value;
    var endLedger := ReadU32(startLedger.rest).value;
    var checkpointHash := ReadHash(endLedger.rest).value;
    ExactExtends(data, 4, x);
    ByteExtends(magic.rest, x);
    IntExtends(version.rest, 4, x);
    IntExtends(networkId.rest, 4, x);
    IntExtends(startLedger.rest, 4, x);
    HashExtends(endLedger.rest, x);
    HashExtends(checkpointHash.rest, x);
  }

  // ---------------------------------------------------------------------------------------------
  // The two readers

  lemma ClosesExtended(sha: Sha, chunkHash: Hash256, body: bytes, rest: bytes, x: bytes)
    requires Suffix(rest, body) && Closes(sha, chunkHash, body, rest)
    ensures Suffix(rest + x, body + x) && Closes(sha, chunkHash, body + x, rest + x)
  {
    ExactExtends(rest, 4, x);
    var footer := ReadExact(rest, 4).value;
    var k := |body| - |footer.rest|;
    assert (body + x)[..k] == body[..k];
  }

  /** What the streaming reader accepts it accepts with anything appended, and with the same result. */
  lemma StreamingIgnoresTrailing(sha: Sha, verify: bool, data: bytes, x: bytes)
    requires StreamReplayed(sha, verify, data).Success?
    ensures StreamReplayed(sha, verify, data + x) == StreamReplayed(sha, verify, data)
  {
    hide Replayed, ReadHeader, ReadBody, StreamBody, Closes;
    var head := ReadHeader(data).value;
    var h, body := head.value, head.rest;
    HeaderExtends(data, x);
    StreamedBodyIsReplay(sha, verify, h, body);
    StreamedBodyIsReplay(sha, verify, h, body + x);
    BodyExtends(h, body, x);
    ClosesExtended(sha, h.chunkHash, body, ReadBody(h, body).value.rest, x);
  }

  /**
   * To a file that streaming accepts and that ends at its footer, append anything: streaming still
   * accepts it with the same result, and the other reader accepts it if and only if the two bodies,
   * with and without what was appended, have the same hash.
   */
  lemma TrailingBytesIff(sha: Sha, verify: bool, data: bytes, x: bytes)
    requires StreamReplayed(sha, verify, data).Success? && EndsAtFooter(data)
    ensures StreamReplayed(sha, verify, data + x) == StreamReplayed(sha, verify, data)
    ensures
      var body := ReadHeader(data).value.rest;
      DeserializeChunk(sha, data + x).Success? <==> sha(body + x) == sha(body)
  {
    hide Replayed, ReadHeader, ReadNodeList, ReadLedgers, StreamBody;
    StreamingIgnoresTrailing(sha, verify, data, x);
    var head := ReadHeader(data).value;
    var h, body := head.value, head.rest;
    HeaderExtends(data, x);
    StreamedBodyIsReplay(sha, verify, h, body);
    AcceptedFooter(sha, h, body);
    BodyExtends(h, body, x);
    ExactExtends(ReadBody(h, body).value.rest, 4, x);
  }

  lemma AcceptedFooter(sha: Sha, h: Header, body: bytes)
    requires ReadBody(h, body).Success? && Suffix(ReadBody(h, body).value.rest, body)
    requires Closes(sha, h.chunkHash, body, ReadBody(h, body).value.rest)
    requires BehindFooter(h, body).Success? ==> BehindFooter(h, body).value == []
    ensures ReadBody(h, body).value.rest == MAGIC_FOOTER && sha(body) == h.chunkHash
  {
    hide ReadNodeList, ReadLedgers;
    var rest := ReadBody(h, body).value.rest;
    var footer := ReadExact(rest, 4).value;
    assert footer.rest == [];
    assert rest == footer.value + footer.rest;
    assert body[..|body|] == body;
  }
}
