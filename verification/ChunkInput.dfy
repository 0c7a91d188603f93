/** The chunk reader's loops, over a stream that is consumed from the front. */
module ChunkInput {
  import opened Prelude
  import opened Reading
  import opened Bytes
  import opened SHAMap
  import opened TreeDiff
  import opened TxTree
  import opened ChunkFormat

  /** Elements read so far in front of those still to be read. */
  ghost function Prepend<T>(xs: seq<T>, p: Result<Parsed<seq<T>>>): Result<Parsed<seq<T>>> {
    if p.Failure? then Failure else Success(Parsed(xs + p.value.value, p.value.rest))
  }

  lemma PrependMore<T>(xs: seq<T>, x: T, p: Result<Parsed<seq<T>>>)
    ensures Prepend(xs, Prepend([x], p)) == Prepend(xs + [x], p)
  {
    if p.Success? {
      AppendAssoc(xs, [x], p.value.value);
    }
  }

  lemma PrependNone<T>(p: Result<Parsed<seq<T>>>)
    ensures Prepend([], p) == p
  {
    if p.Success? {
      assert [] + p.value.value == p.value.value;
    }
  }

  lemma PrependAll<T>(xs: seq<T>, rest: bytes)
    ensures Prepend(xs, Success(Parsed([], rest))) == Success(Parsed(xs, rest))
  {
    assert xs + [] == xs;
  }

  ghost function PrependPair(ds: seq<LedgerDelta>, ts: seq<TxMap>, p: Result<Parsed<Pairs>>): Result<Parsed<Pairs>> {
    if p.Failure? then Failure
    else Success(Parsed(Pairs(ds + p.value.value.deltas, ts + p.value.value.txMaps), p.value.rest))
  }

  class ByteSource {
    var rest: bytes

    constructor (data: bytes)
      ensures rest == data
    {
      rest := data;
    }

    /** `r` is what the reader returned, and the stream stands where it left off. */
    ghost predicate Reads<T>(p: Result<Parsed<T>>, r: Result<T>)
      reads this
    {
      if p.Failure? then r.Failure? else r == Success(p.value.value) && rest == p.value.rest
    }

    method Exact(n: nat) returns (r: Result<bytes>)
      modifies this
      ensures Reads(ReadExact(old(rest), n), r)
    {
      if |rest| < n {
        return Failure;
      }
      r := Success(rest[..n]);
      rest := rest[n..];
    }

    method Int(n: nat) returns (r: Result<nat>)
      modifies this
      ensures Reads(ReadInt(old(rest), n), r)
    {
      var b := Exact(n);
      return if b.Success? then Success(FromBE(b.value)) else Failure;
    }

    method U32() returns (r: Result<u32>)
      modifies this
      ensures Reads(ReadU32(old(rest)), r)
    {
      Widths();
      var v := Int(4);
      return if v.Success? then Success(v.value) else Failure;
    }

    method U64() returns (r: Result<u64>)
      modifies this
      ensures Reads(ReadU64(old(rest)), r)
    {
      Widths();
      var v := Int(8);
      return if v.Success? then Success(v.value) else Failure;
    }

    method Byte() returns (r: Result<byte>)
      modifies this
      ensures Reads(ReadByte(old(rest)), r)
    {
      var b := Exact(1);
      return if b.Success? then Success(b.value[0]) else Failure;
    }

    method Hash() returns (r: Result<Hash256>)
      modifies this
      ensures Reads(ReadHash(old(rest)), r)
    {
      var b := Exact(32);
      return if b.Success? then Success(b.value) else Failure;
    }

    method NextNode() returns (r: Result<Node>)
      modifies this
      ensures Reads(ReadNode(old(rest)), r)
    {
      hide ReadInt, ReadExact, ReadByte, ReadHash;
      var hash :- Hash();
      var kind :- Byte();
      var nodeType :- NodeTypeOf(kind);
      var len :- Int(2);
      var content :- Exact(len);
      return Success(Node(hash, nodeType, content));
    }

    method Nodes(count: nat) returns (r: Result<seq<Node>>)
      modifies this
      ensures Reads(ReadNodes(old(rest), count), r)
    {
      hide ReadNode;
      var nodes: seq<Node> := [];
      PrependNone(ReadNodes(rest, count));
      for i := 0 to count
        invariant Prepend(nodes, ReadNodes(rest, count - i)) == ReadNodes(old(rest), count)
      {
        var n :- NextNode();
        PrependMore(nodes, n, ReadNodes(rest, count - i - 1));
        nodes := nodes + [n];
      }
      PrependAll(nodes, rest);
      return Success(nodes);
    }

    method NodeList() returns (r: Result<seq<Node>>)
      modifies this
      ensures Reads(ReadNodeList(old(rest)), r)
    {
      hide ReadInt, ReadNodes;
      var count :- Int(4);
      r := Nodes(count);
    }

    method Hashes(count: nat) returns (r: Result<seq<Hash256>>)
      modifies this
      ensures Reads(ReadHashes(old(rest), count), r)
    {
      hide ReadHash;
      var hashes: seq<Hash256> := [];
      PrependNone(ReadHashes(rest, count));
      for i := 0 to count
        invariant Prepend(hashes, ReadHashes(rest, count - i)) == ReadHashes(old(rest), count)
      {
        var h :- Hash();
        PrependMore(hashes, h, ReadHashes(rest, count - i - 1));
        hashes := hashes + [h];
      }
      PrependAll(hashes, rest);
      return Success(hashes);
    }

    method NextDelta() returns (r: Result<LedgerDelta>)
      modifies this
      ensures Reads(ReadDelta(old(rest)), r)
    {
      hide ReadU32, ReadInt, ReadNodeList, ReadHashes;
      var ledgerSeq :- U32();
      var added :- NodeList();
      var count :- Int(4);
      var deleted :- Hashes(count);
      return Success(LedgerDelta(ledgerSeq, Diff(added, deleted)));
    }

    method NextTx() returns (r: Result<TxRecord>)
      modifies this
      ensures Reads(ReadTx(old(rest)), r)
    {
      hide ReadHash, ReadInt, ReadExact;
      var txHash :- Hash();
      var txLen :- Int(4);
      var txBlob :- Exact(txLen);
      var metaLen :- Int(4);
      var metaBlob :- Exact(metaLen);
      return Success(TxRecord(txHash, txBlob, metaBlob));
    }

    method Txs(count: nat) returns (r: Result<seq<TxRecord>>)
      modifies this
      ensures Reads(ReadTxs(old(rest), count), r)
    {
      hide ReadTx;
      var txns: seq<TxRecord> := [];
      PrependNone(ReadTxs(rest, count));
      for i := 0 to count
        invariant Prepend(txns, ReadTxs(rest, count - i)) == ReadTxs(old(rest), count)
      {
        var tx :- NextTx();
        PrependMore(txns, tx, ReadTxs(rest, count - i - 1));
        txns := txns + [tx];
      }
      PrependAll(txns, rest);
      return Success(txns);
    }

    method NextTxMap() returns (r: Result<TxMap>)
      modifies this
      ensures Reads(ReadTxMap(old(rest)), r)
    {
      hide ReadU32, ReadU64, ReadHash, ReadByte, ReadInt, ReadTxs;
      var ledgerSeq :- U32();
      var ledgerHash :- Hash();
      var accountHash :- Hash();
      var drops :- U64();
      var parentCloseTime :- U32();
      var closeTime :- U32();
      var resolution :- Byte();
      var flags :- Byte();
      var count :- Int(2);
      var txns :- Txs(count);
      return Success(TxMap(ledgerSeq, ledgerHash, accountHash, drops, parentCloseTime, closeTime, resolution, flags,
          txns));
    }

    method Deltas(count: nat) returns (r: Result<seq<LedgerDelta>>)
      modifies this
      ensures Reads(ReadDeltas(old(rest), count), r)
    {
      hide ReadDelta;
      var deltas: seq<LedgerDelta> := [];
      PrependNone(ReadDeltas(rest, count));
      for i := 0 to count
        invariant Prepend(deltas, ReadDeltas(rest, count - i)) == ReadDeltas(old(rest), count)
      {
        var d :- NextDelta();
        PrependMore(deltas, d, ReadDeltas(rest, count - i - 1));
        deltas := deltas + [d];
      }
      PrependAll(deltas, rest);
      return Success(deltas);
    }

    method TxMaps(count: nat) returns (r: Result<seq<TxMap>>)
      modifies this
      ensures Reads(ReadTxMaps(old(rest), count), r)
    {
      hide ReadTxMap;
      var txMaps: seq<TxMap> := [];
      PrependNone(ReadTxMaps(rest, count));
      for i := 0 to count
        invariant Prepend(txMaps, ReadTxMaps(rest, count - i)) == ReadTxMaps(old(rest), count)
      {
        var t :- NextTxMap();
        PrependMore(txMaps, t, ReadTxMaps(rest, count - i - 1));
        txMaps := txMaps + [t];
      }
      PrependAll(txMaps, rest);
      return Success(txMaps);
    }

    /** A delta and a transaction map per ledger. */
    method InPairs(count: nat) returns (r: Result<Pairs>)
      modifies this
      ensures Reads(ReadPairs(old(rest), count), r)
    {
      hide ReadDelta, ReadTxMap;
      var deltas: seq<LedgerDelta>, txMaps: seq<TxMap> := [], [];
      PairsNone(ReadPairs(rest, count));
      for i := 0 to count
        invariant PrependPair(deltas, txMaps, ReadPairs(rest, count - i)) == ReadPairs(old(rest), count)
      {
        var d :- NextDelta();
        var t :- NextTxMap();
        PairsMore(deltas, txMaps, d, t, ReadPairs(rest, count - i - 1));
        deltas, txMaps := deltas + [d], txMaps + [t];
      }
      PairsAll(deltas, txMaps, rest);
      return Success(Pairs(deltas, txMaps));
    }

    /** The ledgers in the layout of the version. */
    method Ledgers(version: byte, count: nat) returns (r: Result<Pairs>)
      modifies this
      ensures Reads(ReadLedgers(version, old(rest), count), r)
    {
      hide ReadTxMap, ReadPairs, ReadDeltas, ReadTxMaps;
      if version == FORMAT_VERSION_STREAMED {
        var first :- NextTxMap();
        var pairs :- InPairs(count);
        return Success(Pairs(pairs.deltas, [first] + pairs.txMaps));
      }
      var deltas :- Deltas(count);
      var txMaps :- TxMaps(count + 1);
      return Success(Pairs(deltas, txMaps));
    }
  }

  lemma PairsMore(ds: seq<LedgerDelta>, ts: seq<TxMap>, d: LedgerDelta, t: TxMap, p: Result<Parsed<Pairs>>)
    ensures PrependPair(ds, ts, PrependPair([d], [t], p)) == PrependPair(ds + [d], ts + [t], p)
  {
    if p.Success? {
      AppendAssoc(ds, [d], p.value.value.deltas);
      AppendAssoc(ts, [t], p.value.value.txMaps);
    }
  }

  lemma PairsNone(p: Result<Parsed<Pairs>>)
    ensures PrependPair([], [], p) == p
  {
    if p.Success? {
      assert [] + p.value.value.deltas == p.value.value.deltas && [] + p.value.value.txMaps == p.value.value.txMaps;
    }
  }

  lemma PairsAll(ds: seq<LedgerDelta>, ts: seq<TxMap>, rest: bytes)
    ensures PrependPair(ds, ts, Success(Parsed(Pairs([], []), rest))) == Success(Parsed(Pairs(ds, ts), rest))
  {
    assert ds + [] == ds && ts + [] == ts;
  }

  /** Parses a whole chunk file. */
  method ReadChunkFile(sha: Sha, data: bytes) returns (r: Result<Chunk>)
    ensures r == DeserializeChunk(sha, data)
  {
    hide ReadExact, ReadByte, ReadU32, ReadHash, ReadNodeList, ReadLedgers;
    var source := new ByteSource(data);
    var magic :- source.Exact(4);
    if magic != MAGIC_HEADER {
      return Failure;
    }
    var version :- source.Byte();
    if version != FORMAT_VERSION && version != FORMAT_VERSION_STREAMED {
      BadVersion(sha, data);
      return Failure;
    }
    var networkId :- source.U32();
    var startLedger :- source.U32();
    var endLedger :- source.U32();
    var checkpointHash :- source.Hash();
    var chunkHash :- source.Hash();
    if sha(source.rest) != chunkHash {
      return Failure;
    }
    var checkpoint :- source.NodeList();
    var ledgers :- source.Ledgers(version, DeltaCount(startLedger, endLedger));
    var footer :- source.Exact(4);
    if footer != MAGIC_FOOTER {
      return Failure;
    }
    return Success(Chunk(networkId, startLedger, endLedger, checkpointHash, chunkHash, checkpoint, ledgers.deltas,
        ledgers.txMaps));
  }

  /** A version the reader does not know is refused, whatever else the header holds. */
  lemma BadVersion(sha: Sha, data: bytes)
    requires
      var magic := ReadExact(data, 4);
      magic.Success? && ReadByte(magic.value.rest).Success?
      && ReadByte(magic.value.rest).value.value != FORMAT_VERSION
      && ReadByte(magic.value.rest).value.value != FORMAT_VERSION_STREAMED
    ensures DeserializeChunk(sha, data).Failure?
  {
  }
}
