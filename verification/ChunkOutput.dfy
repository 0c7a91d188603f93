/** The chunk writer's loops, appending to a buffer. */
module ChunkOutput {
  import opened Prelude
  import opened Bytes
  import opened SHAMap
  import opened Sorting
  import opened TxTree
  import opened ChunkFormat

  class ByteBuffer {
    var buf: bytes

    constructor ()
      ensures buf == []
    {
      buf := [];
    }

    method Put(b: bytes)
      modifies this
      ensures buf == old(buf) + b
    {
      buf := buf + b;
    }

    method PutNode(n: Node)
      modifies this
      ensures buf == old(buf) + WriteNode(n)
    {
      hide ToBE;
      Put(n.hash);
      Put([WireByte(n.nodeType)]);
      Put(ToBE(2, |n.content|));
      Put(n.content);
      Join4(old(buf), n.hash, [WireByte(n.nodeType)], ToBE(2, |n.content|), n.content);
    }

    /** The count, then the nodes in order of hash. */
    method PutNodeList(ns: seq<Node>)
      modifies this
      ensures buf == old(buf) + WriteNodeList(ns)
    {
      hide WriteNode, ToBE;
      var sorted := SortBy(NodeKey, ns);
      Put(ToBE(4, |sorted|));
      ghost var start := buf;
      assert sorted[0..] == sorted;
      for i := 0 to |sorted|
        invariant buf + WriteNodes(sorted[i..]) == start + WriteNodes(sorted)
      {
        assert sorted[i..][0] == sorted[i] && sorted[i..][1..] == sorted[i + 1..];
        AppendAssoc(buf, WriteNode(sorted[i]), WriteNodes(sorted[i + 1..]));
        PutNode(sorted[i]);
      }
      assert buf + [] == buf;
      AppendAssoc(old(buf), ToBE(4, |ns|), WriteNodes(sorted));
    }

    method PutHashes(hs: seq<Hash256>)
      modifies this
      ensures buf == old(buf) + WriteHashes(hs)
    {
      assert hs[0..] == hs;
      for i := 0 to |hs|
        invariant buf + WriteHashes(hs[i..]) == old(buf) + WriteHashes(hs)
      {
        assert hs[i..][0] == hs[i] && hs[i..][1..] == hs[i + 1..];
        AppendAssoc(buf, hs[i], WriteHashes(hs[i + 1..]));
        Put(hs[i]);
      }
      assert buf + [] == buf;
    }

    method PutDelta(d: LedgerDelta)
      modifies this
      ensures buf == old(buf) + WriteDelta(d)
    {
      hide ToBE, WriteNodeList, WriteHashes;
      var deleted := SortBy(HashKey, d.diff.deleted);
      Put(ToBE(4, d.ledgerSeq));
      PutNodeList(d.diff.added);
      Put(ToBE(4, |deleted|));
      PutHashes(deleted);
      Join4(old(buf), ToBE(4, d.ledgerSeq), WriteNodeList(d.diff.added), ToBE(4, |deleted|), WriteHashes(deleted));
    }

    method PutTx(tx: TxRecord)
      modifies this
      ensures buf == old(buf) + WriteTx(tx)
    {
      hide ToBE;
      Put(tx.txHash);
      Put(ToBE(4, |tx.txBlob|));
      Put(tx.txBlob);
      Put(ToBE(4, |tx.metaBlob|));
      Put(tx.metaBlob);
      var a, b, c, d, e := tx.txHash, ToBE(4, |tx.txBlob|), tx.txBlob, ToBE(4, |tx.metaBlob|), tx.metaBlob;
      AppendAssoc(old(buf) + a + b + c, d, e);
      Join4(old(buf), a, b, c, d + e);
    }

    method PutTxMap(t: TxMap)
      modifies this
      ensures buf == old(buf) + WriteTxMap(t)
    {
      hide ToBE, WriteTx;
      PutTxHead(t);
      PutTxTimes(t);
      Put(ToBE(2, |t.txns|));
      ghost var start := buf;
      var sorted := SortBy(TxKey, t.txns);
      assert sorted[0..] == sorted;
      for i := 0 to |sorted|
        invariant buf + WriteTxs(sorted[i..]) == start + WriteTxs(sorted)
      {
        assert sorted[i..][0] == sorted[i] && sorted[i..][1..] == sorted[i + 1..];
        AppendAssoc(buf, WriteTx(sorted[i]), WriteTxs(sorted[i + 1..]));
        PutTx(sorted[i]);
      }
      assert buf + [] == buf;
      Join4(old(buf), WriteTxHead(t), WriteTxTimes(t), ToBE(2, |t.txns|), WriteTxs(sorted));
    }

    method PutTxHead(t: TxMap)
      modifies this
      ensures buf == old(buf) + WriteTxHead(t)
    {
      hide ToBE;
      Put(ToBE(4, t.ledgerSeq));
      Put(t.ledgerHash);
      Put(t.accountHash);
      Put(ToBE(8, t.drops));
      Join4(old(buf), ToBE(4, t.ledgerSeq), t.ledgerHash, t.accountHash, ToBE(8, t.drops));
    }

    method PutTxTimes(t: TxMap)
      modifies this
      ensures buf == old(buf) + WriteTxTimes(t)
    {
      hide ToBE;
      Put(ToBE(4, t.parentCloseTime));
      Put(ToBE(4, t.closeTime));
      Put([t.resolution]);
      Put([t.flags]);
      Join4(old(buf), ToBE(4, t.parentCloseTime), ToBE(4, t.closeTime), [t.resolution], [t.flags]);
      assert [t.resolution] + [t.flags] == [t.resolution, t.flags];
    }

    /** The version 2 body: checkpoint, deltas, transaction maps, footer. */
    method PutBody(c: Chunk)
      modifies this
      ensures buf == old(buf) + BlockBody(c)
    {
      hide WriteNodeList, WriteDelta, WriteTxMap;
      PutNodeList(c.checkpoint);
      ghost var start := buf;
      assert c.deltas[0..] == c.deltas && c.txMaps[0..] == c.txMaps;
      for i := 0 to |c.deltas|
        invariant buf + WriteDeltas(c.deltas[i..]) == start + WriteDeltas(c.deltas)
      {
        assert c.deltas[i..][0] == c.deltas[i] && c.deltas[i..][1..] == c.deltas[i + 1..];
        AppendAssoc(buf, WriteDelta(c.deltas[i]), WriteDeltas(c.deltas[i + 1..]));
        PutDelta(c.deltas[i]);
      }
      assert buf + [] == buf;
      ghost var mid := buf;
      for i := 0 to |c.txMaps|
        invariant buf + WriteTxMaps(c.txMaps[i..]) == mid + WriteTxMaps(c.txMaps)
      {
        assert c.txMaps[i..][0] == c.txMaps[i] && c.txMaps[i..][1..] == c.txMaps[i + 1..];
        AppendAssoc(buf, WriteTxMap(c.txMaps[i]), WriteTxMaps(c.txMaps[i + 1..]));
        PutTxMap(c.txMaps[i]);
      }
      assert buf + [] == buf;
      Put(MAGIC_FOOTER);
      Join4(old(buf), WriteNodeList(c.checkpoint), WriteDeltas(c.deltas), WriteTxMaps(c.txMaps), MAGIC_FOOTER);
    }
  }

  lemma Join4(start: bytes, a: bytes, b: bytes, c: bytes, d: bytes)
    ensures start + a + b + c + d == start + (a + (b + (c + d)))
  {
  }

  /** Writes a version 2 chunk: the body first, for its hash, then the header in front of it. */
  method SerializeChunkFile(sha: Sha, c: Chunk) returns (data: bytes)
    ensures data == SerializeBlock(sha, c)
  {
    hide BlockBody, WriteHeader;
    var body := new ByteBuffer();
    body.PutBody(c);
    assert [] + BlockBody(c) == BlockBody(c);
    data := WriteHeader(FORMAT_VERSION, c, sha(body.buf)) + body.buf;
  }
}
