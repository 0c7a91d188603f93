/** The ledgers of an export, the state after each, and the chunk that covers a run of them. */
module Ledgers {
  import Bytes
  import opened Prelude
  import opened SHAMap
  import opened Sorting
  import opened TreeDiff
  import opened ApplyDiff
  import opened Walks
  import opened TxTree
  import opened ChunkFormat
  import opened Replay

  /** A row of the source's ledger table. */
  datatype LedgerInfo = LedgerInfo(
    ledgerHash: Hash256, accountHash: Hash256, txHash: Hash256, parentHash: Hash256, totalCoins: u64,
    closingTime: u32, prevClosingTime: u32, resolution: byte, flags: byte)

  type LedgerDb = map<u32, LedgerInfo>

  function InfoHeader(info: LedgerInfo, seqNo: u32): LedgerHeader {
    LedgerHeader(seqNo, info.totalCoins, info.parentHash, info.txHash, info.accountHash,
                 info.prevClosingTime, info.closingTime, info.resolution, info.flags)
  }

  predicate InfoVerified(sha: Sha, info: LedgerInfo, seqNo: u32) {
    LedgerHash(sha, InfoHeader(info, seqNo)) == info.ledgerHash
  }

  function TxMapOf(info: LedgerInfo, seqNo: u32, txns: seq<TxRecord>): TxMap {
    TxMap(seqNo, info.ledgerHash, info.accountHash, info.totalCoins, info.prevClosingTime, info.closingTime,
          info.resolution, info.flags, txns)
  }

  // ---------------------------------------------------------------------------------------------
  // What is exported

  /** One exported ledger: its row, its diff from the ledger before, and its transactions. */
  datatype Ledger = Ledger(seqNo: u32, info: LedgerInfo, diff: Diff, txns: seq<TxRecord>)

  function MapOf(l: Ledger): TxMap {
    TxMapOf(l.info, l.seqNo, l.txns)
  }

  function DeltaOf(l: Ledger): LedgerDelta {
    LedgerDelta(l.seqNo, l.diff)
  }

  /** The node map after ledger `i`, starting from the first ledger's tree. */
  function StateAfter(first: NodeMap, hist: seq<Ledger>, i: nat): NodeMap
    requires i < |hist|
  {
    if i == 0 then first else Applied(StateAfter(first, hist, i - 1), hist[i].diff)
  }

  /** `ns` lists the nodes of `m`, each once, in order of hash. */
  ghost predicate SortedListing(m: NodeMap, ns: seq<Node>) {
    Lists(m, ns) && Sorted(NodeKey, ns)
  }

  ghost predicate Lists(m: NodeMap, ns: seq<Node>) {
    && From(ns, m) && Distinct(HashesOf(ns))
    && forall h :: h in m ==> h in HashesOf(ns)
  }

  /** The checkpoint of a node map: its nodes in order of hash. */
  ghost function Listing(m: NodeMap): (ns: seq<Node>)
    requires Keyed(m)
    ensures SortedListing(m, ns)
  {
    ListingExists(m);
    var ns :| SortedListing(m, ns);
    ns
  }

  lemma {:induction false} ListingExists(m: NodeMap)
    requires Keyed(m)
    ensures exists ns :: SortedListing(m, ns)
  {
    var ns := AnyListing(m, m.Keys);
    SortedIsListing(m, ns);
  }

  lemma {:induction false} AnyListing(m: NodeMap, keys: set<Hash256>) returns (ns: seq<Node>)
    requires Keyed(m) && keys <= m.Keys
    ensures From(ns, m) && Distinct(HashesOf(ns)) && forall h :: h in keys <==> h in HashesOf(ns)
    decreases keys
  {
    if keys == {} {
      ns := [];
    } else {
      var h :| h in keys;
      var rest := AnyListing(m, keys - {h});
      ns := rest + [m[h]];
      HashesAppend(rest, [m[h]]);
      assert HashesOf([m[h]]) == [h];
    }
  }

  lemma {:induction false} SortedIsListing(m: NodeMap, ns: seq<Node>)
    requires Lists(m, ns)
    ensures SortedListing(m, SortBy(NodeKey, ns))
  {
    var sorted := SortBy(NodeKey, ns);
    SortSorts(NodeKey, ns);
    SortMembers(NodeKey, ns);
    SameHashes(ns, sorted);
    MapPermuted(NodeHash, ns, sorted);
    assert HashesOf(ns) == MapSeq(NodeHash, ns) && HashesOf(sorted) == MapSeq(NodeHash, sorted);
    DistinctBag(HashesOf(ns), HashesOf(sorted));
  }

  /** However a map's nodes are enumerated, sorting them gives its listing. */
  lemma ListingUnique(m: NodeMap, ns: seq<Node>)
    requires Keyed(m) && Lists(m, ns)
    ensures SortBy(NodeKey, ns) == Listing(m)
  {
    SortedIsListing(m, ns);
    var a, b := SortBy(NodeKey, ns), Listing(m);
    SameBag(m, a, b);
    forall x, y | x in a && y in a && NodeKey(x) == NodeKey(y) ensures x == y {
      Bytes.LexIsNumeric(x.hash, y.hash);
    }
    SortedUnique(NodeKey, a, b);
  }

  /** The chunk over ledgers `a` up to but not including `b`, counted from the first exported one. */
  ghost function ChunkOf(networkId: u32, endLedger: u32, first: NodeMap, hist: seq<Ledger>, a: nat, b: nat): Chunk
    requires a < b <= |hist| && Keyed(StateAfter(first, hist, a))
  {
    Chunk(networkId, hist[a].seqNo, endLedger, hist[a].info.ledgerHash, ZERO_HASH,
          Listing(StateAfter(first, hist, a)),
          MapSeq(DeltaOf, hist[a + 1..b]), MapSeq(MapOf, hist[a..b]))
  }

  // ---------------------------------------------------------------------------------------------
  // Appending to an unfinished chunk

  lemma {:induction false} WritePairsSnoc(ds: seq<LedgerDelta>, ts: seq<TxMap>, d: LedgerDelta, t: TxMap)
    requires |ds| == |ts|
    ensures WritePairs(ds + [d], ts + [t]) == WritePairs(ds, ts) + (WriteDelta(d) + WriteTxMap(t))
  {
    hide WriteDelta, WriteTxMap;
    if ds == [] {
      assert [d][1..] == [] && [t][1..] == [];
      assert WriteDelta(d) + (WriteTxMap(t) + []) == [] + (WriteDelta(d) + WriteTxMap(t));
    } else {
      WritePairsSnoc(ds[1..], ts[1..], d, t);
      assert (ds + [d])[1..] == ds[1..] + [d] && (ts + [t])[1..] == ts[1..] + [t];
      AppendAssoc(WriteTxMap(ts[0]), WritePairs(ds[1..], ts[1..]), WriteDelta(d) + WriteTxMap(t));
      AppendAssoc(WriteDelta(ds[0]), WriteTxMap(ts[0]) + WritePairs(ds[1..], ts[1..]), WriteDelta(d) + WriteTxMap(t));
    }
  }

  /** The body of a chunk without its footer. */
  function OpenBody(c: Chunk): bytes
    requires |c.txMaps| == |c.deltas| + 1
  {
    WriteNodeList(c.checkpoint) + (WriteTxMap(c.txMaps[0]) + WritePairs(c.deltas, c.txMaps[1..]))
  }

  lemma OpenBodyCloses(c: Chunk)
    requires |c.txMaps| == |c.deltas| + 1
    ensures OpenBody(c) + MAGIC_FOOTER == StreamedBody(c)
  {
    hide WriteNodeList, WriteTxMap, WritePairs;
    var x, y, z := WriteNodeList(c.checkpoint), WriteTxMap(c.txMaps[0]), WritePairs(c.deltas, c.txMaps[1..]);
    AppendAssoc(x, y + z, MAGIC_FOOTER);
    AppendAssoc(y, z, MAGIC_FOOTER);
  }

  lemma OpenBodySnoc(c: Chunk, d: LedgerDelta, t: TxMap)
    requires |c.txMaps| == |c.deltas| + 1
    ensures OpenBody(c.(deltas := c.deltas + [d], txMaps := c.txMaps + [t]))
        == OpenBody(c) + WriteDelta(d) + WriteTxMap(t)
  {
    hide WriteNodeList, WriteTxMap, WriteDelta, WritePairs;
    assert (c.txMaps + [t])[1..] == c.txMaps[1..] + [t];
    WritePairsSnoc(c.deltas, c.txMaps[1..], d, t);
    var x, y, z := WriteNodeList(c.checkpoint), WriteTxMap(c.txMaps[0]), WritePairs(c.deltas, c.txMaps[1..]);
    var w := WriteDelta(d) + WriteTxMap(t);
    AppendAssoc(y, z, w);
    AppendAssoc(x, y + z, w);
    AppendAssoc(OpenBody(c), WriteDelta(d), WriteTxMap(t));
  }
}
