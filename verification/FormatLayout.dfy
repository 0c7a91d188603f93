/**
 * Where every field stands, byte by byte: ledger headers, the preimages of hashes, chunk files.
 *
 * The offsets, prefixes and type codes below are written out as numbers. A layout that a writer and a
 * reader agreed on among themselves would pass every round trip, but not these.
 */
module FormatLayout {
  import opened Prelude
  import opened Bytes
  import opened SHAMap
  import opened Sorting
  import opened VarLength
  import opened TxTree
  import opened ChunkFormat
  import opened Replay
  import opened Ledgers

  /** `n` bytes at `at` are a big-endian number. */
  ghost predicate HasNumber(b: bytes, at: nat, n: nat, v: int) {
    at + n <= |b| && FromBE(b[at..at + n]) == v
  }

  ghost predicate HasBytes(b: bytes, at: nat, s: bytes) {
    at + |s| <= |b| && b[at..at + |s|] == s
  }

  lemma NumberAt(b: bytes, at: nat, n: nat, v: nat)
    requires at + n <= |b| && b[at..at + n] == ToBE(n, v)
    ensures HasNumber(b, at, n, v % Pow(256, n))
  {
    LowBytes(n, v);
  }

  // ---------------------------------------------------------------------------------------------
  // Ledger headers

  /** The 122 bytes a ledger's hash is taken of. */
  ghost predicate IsLedgerObject(b: bytes, seqNo: u32, drops: u64, parentHash: Hash256, txHash: Hash256,
                                 accountHash: Hash256, parentCloseTime: u32, closeTime: u32, resolution: byte,
                                 flags: byte) {
    && |b| == 122 && HasBytes(b, 0, [0x4C, 0x57, 0x52, 0x00]) && HasNumber(b, 4, 4, seqNo) && HasNumber(b, 8, 8, drops)
    && HasBytes(b, 16, parentHash) && HasBytes(b, 48, txHash) && HasBytes(b, 80, accountHash)
    && HasNumber(b, 112, 4, parentCloseTime) && HasNumber(b, 116, 4, closeTime)
    && b[120] == resolution && b[121] == flags
  }

  lemma LedgerObjectLayout(h: LedgerHeader)
    ensures IsLedgerObject(HeaderObject(h), h.seqNo, h.drops, h.parentHash, h.txHash, h.accountHash,
                           h.parentCloseTime, h.closeTime, h.resolution, h.flags)
  {
    hide ToBE, FromBE;
    var b := HeaderObject(h);
    assert b[0..4] == [0x4C, 0x57, 0x52, 0x00];
    assert b[4..8] == ToBE(4, h.seqNo) && b[8..16] == ToBE(8, h.drops);
    assert b[16..48] == h.parentHash && b[48..80] == h.txHash && b[80..112] == h.accountHash;
    assert b[112..116] == ToBE(4, h.parentCloseTime) && b[116..120] == ToBE(4, h.closeTime);
    Widths();
    NumberAt(b, 4, 4, h.seqNo);
    NumberAt(b, 8, 8, h.drops);
    NumberAt(b, 112, 4, h.parentCloseTime);
    NumberAt(b, 116, 4, h.closeTime);
  }

  /** A row of the source passes exactly if its hash is that of these bytes, filled from its own columns. */
  lemma RowObject(sha: Sha, info: LedgerInfo, seqNo: u32) returns (b: bytes)
    ensures IsLedgerObject(b, seqNo, info.totalCoins, info.parentHash, info.txHash, info.accountHash,
                           info.prevClosingTime, info.closingTime, info.resolution, info.flags)
    ensures InfoVerified(sha, info, seqNo) <==> sha(b) == info.ledgerHash
  {
    hide HeaderObject;
    b := HeaderObject(InfoHeader(info, seqNo));
    LedgerObjectLayout(InfoHeader(info, seqNo));
  }

  /** A replayed ledger's hash is that of these bytes, filled from its transaction map and what was recomputed. */
  lemma ReplayedObject(sha: Sha, t: TxMap, parentHash: Hash256, txRoot: Hash256, accountHash: Hash256)
    returns (b: bytes)
    ensures IsLedgerObject(b, t.ledgerSeq, t.drops, parentHash, txRoot, accountHash, t.parentCloseTime, t.closeTime,
                           t.resolution, t.flags)
    ensures LedgerHash(sha, HeaderOf(t, parentHash, txRoot, accountHash)) == sha(b)
  {
    hide HeaderObject;
    var h := HeaderOf(t, parentHash, txRoot, accountHash);
    b := HeaderObject(h);
    LedgerObjectLayout(h);
  }

  // ---------------------------------------------------------------------------------------------
  // What the other hashes are taken of

  lemma TransactionIdLayout(sha: Sha, txBlob: bytes)
    ensures TxId(sha, txBlob) == sha([0x54, 0x58, 0x4E, 0x00] + txBlob)
  {
  }

  /** An inner node's hash is taken of a prefix and its sixteen children in slot order. */
  lemma InnerLayout(sha: Sha, s: Slots)
    ensures
      var n := InnerOf(sha, s);
      var b := [0x4D, 0x49, 0x4E, 0x00] + n.content;
      && n.nodeType.Inner? && n.hash == sha(b) && |b| == 516 && Preimage(n) == b
      && forall i :: 0 <= i < 16 ==> HasBytes(b, 4 + 32 * i, s[i])
  {
    hide Concat;
    var b := [0x4D, 0x49, 0x4E, 0x00] + Concat(s);
    forall i | 0 <= i < 16 ensures HasBytes(b, 4 + 32 * i, s[i]) {
      ConcatSlot(s, i);
      assert b[4 + 32 * i..4 + 32 * i + 32] == Concat(s)[32 * i..32 * i + 32];
    }
  }

  /** A state or transaction leaf is hashed as it stands, an inner node of either kind behind the prefix. */
  lemma PreimageLayout(n: Node)
    ensures Preimage(n) == if n.nodeType.Inner? || n.nodeType.CompressedInner? then [0x4D, 0x49, 0x4E, 0x00] + n.content
                           else n.content
  {
  }

  /** A transaction leaf: prefix, transaction, metadata, and the transaction's hash at the end. */
  lemma TxLeafLayout(sha: Sha, tx: TxRecord)
    ensures
      var n := TxLeaf(sha, tx);
      var b := n.content;
      var x, y := |VlPrefix(|tx.txBlob|)|, |VlPrefix(|tx.metaBlob|)|;
      && n.nodeType.TransactionWithMeta? && n.hash == sha(b)
      && |b| == 36 + x + |tx.txBlob| + y + |tx.metaBlob| && HasBytes(b, 0, [0x53, 0x4E, 0x44, 0x00])
      && HasBytes(b, 4, VlPrefix(|tx.txBlob|)) && HasBytes(b, 4 + x, tx.txBlob)
      && HasBytes(b, 4 + x + |tx.txBlob|, VlPrefix(|tx.metaBlob|))
      && HasBytes(b, 4 + x + |tx.txBlob| + y, tx.metaBlob) && HasBytes(b, |b| - 32, tx.txHash)
  {
    hide VlPrefix;
    var b := LeafContent(tx);
    var p, q := VlPrefix(|tx.txBlob|), VlPrefix(|tx.metaBlob|);
    assert b == PREFIX_TX_NODE + p + tx.txBlob + q + tx.metaBlob + tx.txHash;
  }

  /** Length prefixes at the ends of their ranges. */
  lemma PrefixLayout()
    ensures VlPrefix(0) == [0] && VlPrefix(192) == [192] && VlPrefix(193) == [193, 0] && VlPrefix(448) == [193, 255]
    ensures VlPrefix(449) == [194, 0] && VlPrefix(12_480) == [240, 255] && VlPrefix(12_481) == [241, 0, 0]
    ensures VlPrefix(12_737) == [241, 1, 0] && VlPrefix(929_984) == [254, 255, 255]
  {
  }

  // ---------------------------------------------------------------------------------------------
  // Orders

  /** All lists are sorted as byte strings are compared: by the first byte that differs. */
  lemma OrdersAreLexicographic(a: Hash256, b: Hash256, x: Node, y: Node, t: TxRecord, u: TxRecord)
    ensures HashKey(a) < HashKey(b) <==> LexLess(a, b)
    ensures NodeKey(x) < NodeKey(y) <==> LexLess(x.hash, y.hash)
    ensures TxKey(t) < TxKey(u) <==> LexLess(t.txHash, u.txHash)
  {
    LexIsNumeric(a, b);
    LexIsNumeric(x.hash, y.hash);
    LexIsNumeric(t.txHash, u.txHash);
  }

  lemma {:induction false} LexIsFirstDifference(a: bytes, b: bytes, k: nat)
    requires |a| == |b| && k < |a| && a[..k] == b[..k] && a[k] < b[k]
    ensures LexLess(a, b)
  {
    if k > 0 {
      assert a[0] == a[..k][0] == b[..k][0] == b[0];
      assert a[1..][..k - 1] == a[..k][1..] == b[..k][1..] == b[1..][..k - 1];
      LexIsFirstDifference(a[1..], b[1..], k - 1);
    }
  }

  // ---------------------------------------------------------------------------------------------
  // Chunk files

  /** The 81 bytes at the front of a file. */
  ghost predicate IsChunkHeader(b: bytes, version: byte, networkId: int, startLedger: int, endLedger: int,
                                checkpointHash: Hash256, chunkHash: Hash256) {
    && |b| >= 81 && HasBytes(b, 0, [0x58, 0x52, 0x4C, 0x41]) && b[4] == version && HasNumber(b, 5, 4, networkId)
    && HasNumber(b, 9, 4, startLedger) && HasNumber(b, 13, 4, endLedger)
    && HasBytes(b, 17, checkpointHash) && HasBytes(b, 49, chunkHash)
  }

  lemma ChunkHeaderLayout(version: byte, c: Chunk, chunkHash: Hash256, rest: bytes)
    ensures
      var b := WriteHeader(version, c, chunkHash) + rest;
      && IsChunkHeader(b, version, c.networkId, c.startLedger, c.endLedger, c.checkpointHash, chunkHash)
      && b[81..] == rest
  {
    hide ToBE, FromBE;
    var b := WriteHeader(version, c, chunkHash) + rest;
    assert b[0..4] == [0x58, 0x52, 0x4C, 0x41];
    assert b[5..9] == ToBE(4, c.networkId) && b[9..13] == ToBE(4, c.startLedger) && b[13..17] == ToBE(4, c.endLedger);
    assert b[17..49] == c.checkpointHash && b[49..81] == chunkHash;
    Widths();
    NumberAt(b, 5, 4, c.networkId);
    NumberAt(b, 9, 4, c.startLedger);
    NumberAt(b, 13, 4, c.endLedger);
  }

  /** The code of a node type in a chunk file. */
  ghost predicate IsTypeCode(t: NodeType, code: byte) {
    || (code == 0 && t.Transaction?) || (code == 1 && t.AccountState?) || (code == 2 && t.Inner?)
    || (code == 3 && t.CompressedInner?) || (code == 4 && t.TransactionWithMeta?)
  }

  lemma NodeLayout(n: Node)
    ensures
      var b := WriteNode(n);
      && |b| == 35 + |n.content| && HasBytes(b, 0, n.hash) && IsTypeCode(n.nodeType, b[32])
      && HasNumber(b, 33, 2, |n.content| % 0x1_0000) && HasBytes(b, 35, n.content)
  {
    hide ToBE, FromBE;
    var b := WriteNode(n);
    assert b[33..35] == ToBE(2, |n.content|);
    Widths();
    NumberAt(b, 33, 2, |n.content|);
  }

  /** Lists of nodes, hashes and transactions are their elements one after the other. */
  lemma {:induction false} NodesLayout(a: seq<Node>, b: seq<Node>)
    ensures WriteNodes(a + b) == WriteNodes(a) + WriteNodes(b)
    ensures |a| == 1 ==> WriteNodes(a) == WriteNode(a[0])
  {
    hide WriteNode;
    if a == [] {
      assert a + b == b;
    } else {
      NodesLayout(a[1..], b);
      assert (a + b)[1..] == a[1..] + b;
    }
  }

  lemma {:induction false} HashesLayout(hs: seq<Hash256>, i: nat)
    requires i < |hs|
    ensures |WriteHashes(hs)| == 32 * |hs| && HasBytes(WriteHashes(hs), 32 * i, hs[i])
    decreases |hs|
  {
    var b, tail := WriteHashes(hs), WriteHashes(hs[1..]);
    if |hs| > 1 {
      HashesLayout(hs[1..], if i > 0 then i - 1 else 0);
    }
    if i > 0 {
      assert b[32 * i..32 * i + 32] == tail[32 * (i - 1)..32 * (i - 1) + 32];
    }
  }

  lemma {:induction false} TxsLayout(a: seq<TxRecord>, b: seq<TxRecord>)
    ensures WriteTxs(a + b) == WriteTxs(a) + WriteTxs(b)
    ensures |a| == 1 ==> WriteTxs(a) == WriteTx(a[0])
  {
    hide WriteTx;
    if a == [] {
      assert a + b == b;
    } else {
      TxsLayout(a[1..], b);
      assert (a + b)[1..] == a[1..] + b;
    }
  }

  lemma NodeListLayout(ns: seq<Node>)
    ensures
      var b := WriteNodeList(ns);
      && HasNumber(b, 0, 4, |ns| % 0x1_0000_0000) && b[4..] == WriteNodes(SortBy(NodeKey, ns))
  {
    hide ToBE, FromBE, WriteNodes;
    var b := WriteNodeList(ns);
    assert b[0..4] == ToBE(4, |ns|);
    Widths();
    NumberAt(b, 0, 4, |ns|);
  }

  /** A delta: its number, the nodes it adds, how many it deletes, and their hashes. */
  lemma DeltaLayout(d: LedgerDelta)
    ensures
      var b, added := WriteDelta(d), WriteNodeList(d.diff.added);
      && HasNumber(b, 0, 4, d.ledgerSeq) && HasBytes(b, 4, added)
      && HasNumber(b, 4 + |added|, 4, |d.diff.deleted| % 0x1_0000_0000)
      && b[8 + |added|..] == WriteHashes(SortBy(HashKey, d.diff.deleted))
  {
    hide ToBE, FromBE, WriteNodeList, WriteHashes;
    var b, added := WriteDelta(d), WriteNodeList(d.diff.added);
    assert b[0..4] == ToBE(4, d.ledgerSeq);
    assert b[4 + |added|..8 + |added|] == ToBE(4, |d.diff.deleted|);
    Widths();
    NumberAt(b, 0, 4, d.ledgerSeq);
    NumberAt(b, 4 + |added|, 4, |d.diff.deleted|);
  }

  /** A transaction: its hash, then its two blobs, each behind its length. */
  lemma TxLayout(tx: TxRecord)
    ensures
      var b, x, y := WriteTx(tx), |tx.txBlob|, |tx.metaBlob|;
      && |b| == 40 + x + y && HasBytes(b, 0, tx.txHash) && HasNumber(b, 32, 4, x % 0x1_0000_0000)
      && HasBytes(b, 36, tx.txBlob) && HasNumber(b, 36 + x, 4, y % 0x1_0000_0000) && HasBytes(b, 40 + x, tx.metaBlob)
  {
    hide ToBE, FromBE;
    var b, x, y := WriteTx(tx), |tx.txBlob|, |tx.metaBlob|;
    assert b[32..36] == ToBE(4, x) && b[36 + x..40 + x] == ToBE(4, y);
    Widths();
    NumberAt(b, 32, 4, x);
    NumberAt(b, 36 + x, 4, y);
  }

  /** A transaction map: 88 bytes of header fields, parent close time first, then the transactions. */
  lemma TxMapLayout(t: TxMap)
    ensures
      var b := WriteTxMap(t);
      && |b| >= 88 && HasNumber(b, 0, 4, t.ledgerSeq) && HasBytes(b, 4, t.ledgerHash) && HasBytes(b, 36, t.accountHash)
      && HasNumber(b, 68, 8, t.drops) && HasNumber(b, 76, 4, t.parentCloseTime) && HasNumber(b, 80, 4, t.closeTime)
      && b[84] == t.resolution && b[85] == t.flags && HasNumber(b, 86, 2, |t.txns| % 0x1_0000)
      && b[88..] == WriteTxs(SortBy(TxKey, t.txns))
  {
    hide ToBE, FromBE, WriteTxs;
    var b := WriteTxMap(t);
    assert b[0..4] == ToBE(4, t.ledgerSeq) && b[68..76] == ToBE(8, t.drops);
    assert b[76..80] == ToBE(4, t.parentCloseTime) && b[80..84] == ToBE(4, t.closeTime);
    assert b[86..88] == ToBE(2, |t.txns|);
    Widths();
    NumberAt(b, 0, 4, t.ledgerSeq);
    NumberAt(b, 68, 8, t.drops);
    NumberAt(b, 76, 4, t.parentCloseTime);
    NumberAt(b, 80, 4, t.closeTime);
    NumberAt(b, 86, 2, |t.txns|);
  }

  /** Deltas, and transaction maps, are written one after the other; pairs are a delta and then a map. */
  lemma {:induction false} DeltasLayout(a: seq<LedgerDelta>, b: seq<LedgerDelta>)
    ensures WriteDeltas(a + b) == WriteDeltas(a) + WriteDeltas(b)
    ensures |a| == 1 ==> WriteDeltas(a) == WriteDelta(a[0])
  {
    hide WriteDelta;
    if a == [] {
      assert a + b == b;
    } else {
      DeltasLayout(a[1..], b);
      assert (a + b)[1..] == a[1..] + b;
    }
  }

  lemma {:induction false} TxMapsLayout(a: seq<TxMap>, b: seq<TxMap>)
    ensures WriteTxMaps(a + b) == WriteTxMaps(a) + WriteTxMaps(b)
    ensures |a| == 1 ==> WriteTxMaps(a) == WriteTxMap(a[0])
  {
    hide WriteTxMap;
    if a == [] {
      assert a + b == b;
    } else {
      TxMapsLayout(a[1..], b);
      assert (a + b)[1..] == a[1..] + b;
    }
  }

  lemma {:induction false} PairsLayout(a: seq<LedgerDelta>, b: seq<LedgerDelta>, s: seq<TxMap>, t: seq<TxMap>)
    requires |a| == |s| && |b| == |t|
    ensures WritePairs(a + b, s + t) == WritePairs(a, s) + WritePairs(b, t)
    ensures |a| == 1 ==> WritePairs(a, s) == WriteDelta(a[0]) + WriteTxMap(s[0])
  {
    hide WriteDelta, WriteTxMap;
    if a == [] {
      assert a + b == b && s + t == t;
    } else {
      PairsLayout(a[1..], b, s[1..], t);
      assert (a + b)[1..] == a[1..] + b && (s + t)[1..] == s[1..] + t;
      AppendAssoc(WriteTxMap(s[0]), WritePairs(a[1..], s[1..]), WritePairs(b, t));
      AppendAssoc(WriteDelta(a[0]), WriteTxMap(s[0]) + WritePairs(a[1..], s[1..]), WritePairs(b, t));
    }
  }

  /** A version 2 file: header, checkpoint, deltas, transaction maps, footer. */
  lemma BlockLayout(sha: Sha, c: Chunk)
    ensures
      var b, x, y, z := SerializeBlock(sha, c), WriteNodeList(c.checkpoint), WriteDeltas(c.deltas),
          WriteTxMaps(c.txMaps);
      && |b| == 81 + |x| + |y| + |z| + 4
      && IsChunkHeader(b, 2, c.networkId, c.startLedger, c.endLedger, c.checkpointHash, sha(b[81..]))
      && HasBytes(b, 81, x) && HasBytes(b, 81 + |x|, y) && HasBytes(b, 81 + |x| + |y|, z)
      && HasBytes(b, 81 + |x| + |y| + |z|, [0x45, 0x4E, 0x44, 0x58])
  {
    hide WriteHeader, WriteNodeList, WriteDeltas, WriteTxMaps, IsChunkHeader;
    var body := BlockBody(c);
    ChunkHeaderLayout(2, c, sha(body), body);
    HeaderLength(2, c, sha(body));
    var h, x, y, z := WriteHeader(2, c, sha(body)), WriteNodeList(c.checkpoint), WriteDeltas(c.deltas),
        WriteTxMaps(c.txMaps);
    FourParts(h, x, y, z, [0x45, 0x4E, 0x44, 0x58]);
  }

  /** A version 3 file: header, checkpoint, the first transaction map, a delta and a map per ledger, footer. */
  lemma StreamedLayout(sha: Sha, c: Chunk)
    requires |c.txMaps| == |c.deltas| + 1
    ensures
      var b, x, y, z := SerializeStreamed(sha, c), WriteNodeList(c.checkpoint), WriteTxMap(c.txMaps[0]),
          WritePairs(c.deltas, c.txMaps[1..]);
      && |b| == 81 + |x| + |y| + |z| + 4
      && IsChunkHeader(b, 3, c.networkId, c.startLedger, c.endLedger, c.checkpointHash, sha(b[81..]))
      && HasBytes(b, 81, x) && HasBytes(b, 81 + |x|, y) && HasBytes(b, 81 + |x| + |y|, z)
      && HasBytes(b, 81 + |x| + |y| + |z|, [0x45, 0x4E, 0x44, 0x58])
  {
    hide WriteHeader, WriteNodeList, WriteTxMap, WritePairs, IsChunkHeader;
    var body := StreamedBody(c);
    ChunkHeaderLayout(3, c, sha(body), body);
    HeaderLength(3, c, sha(body));
    var h, x, y, z := WriteHeader(3, c, sha(body)), WriteNodeList(c.checkpoint), WriteTxMap(c.txMaps[0]),
        WritePairs(c.deltas, c.txMaps[1..]);
    FourParts(h, x, y, z, [0x45, 0x4E, 0x44, 0x58]);
  }

  lemma HeaderLength(version: byte, c: Chunk, chunkHash: Hash256)
    ensures |WriteHeader(version, c, chunkHash)| == 81
  {
  }

  lemma FourParts(h: bytes, x: bytes, y: bytes, z: bytes, w: bytes)
    requires |h| == 81
    ensures
      var b := h + (x + (y + (z + w)));
      && |b| == 81 + |x| + |y| + |z| + |w| && HasBytes(b, 81, x) && HasBytes(b, 81 + |x|, y)
      && HasBytes(b, 81 + |x| + |y|, z) && HasBytes(b, 81 + |x| + |y| + |z|, w)
  {
  }
}
