/**
 * The archive end to end: what is exported, replayed and stored can be fetched again, node by node,
 * for every ledger of the range.
 */
module ArchiveProofs {
  import opened Prelude
  import opened SHAMap
  import opened Sorting
  import opened TreeDiff
  import opened ApplyDiff
  import opened TxTree
  import opened TxTreeProofs
  import opened TxCollect
  import opened NodeCodec
  import opened NodeCodecProofs
  import opened RootFinding
  import opened Replay
  import opened ReplayProofs
  import opened Ledgers
  import opened Exporter
  import opened ExportRun
  import opened ExportProofs
  import opened NuDbFormat
  import opened NuDbReader
  import opened NuDbProofs
  import opened ImportStore

  // ---------------------------------------------------------------------------------------------
  // Transaction tree nodes

  /** The nodes of a transaction tree do not depend on the order of the list. */
  lemma TxNodesPermuted(sha: Sha, a: seq<TxRecord>, b: seq<TxRecord>, n: Node)
    requires multiset(a) == multiset(b) && TxTreeOf(sha, a).Success? && TxTreeOf(sha, b).Success?
    requires n in TxNodes(sha, a)
    ensures n in TxNodes(sha, b)
  {
    hide Inners, TxTreeOf, TxLeaf;
    TreePermuted(sha, a, b);
    var la, lb := LeafNodes(MakeItems(sha, a)), LeafNodes(MakeItems(sha, b));
    if n in la {
      var i :| 0 <= i < |la| && la[i] == n;
      assert a[i] in multiset(b);
      var j :| 0 <= j < |b| && b[j] == a[i];
      assert lb[j] == n;
    }
  }

  lemma TxNodesFromStore(src: Source, txRoot: Hash256, txns: seq<TxRecord>)
    requires SoundTxs(src, txRoot) && TxFrom(src.m, txRoot, txns)
    ensures TxTreeOf(src.sha, txns).Success? && From(TxNodes(src.sha, txns), src.m)
  {
    hide CollectsTx, DistinctTxns, TxNodes;
    var sha := src.sha;
    TxsRebuild(src, txRoot, txns);
    var built :| TxsBehind(src, txRoot, built);
    if built == [] {
      assert txns == [];
    } else {
      TreeUnfolds(sha, built, src.m);
      CollectBuilt(sha, built, src.m, Success(txns));
      SortSorts(TxKey, built);
    }
    forall n | n in TxNodes(sha, txns) ensures Holds(src.m, n.hash, n) {
      TxNodesPermuted(sha, txns, built, n);
    }
  }

  // ---------------------------------------------------------------------------------------------
  // What replay hands to the store

  /** Every node of ledger `s` and of its transaction tree is in the list. */
  ghost predicate LedgerListed(src: Source, rank: Hash256 -> nat, hist: seq<Ledger>, all: seq<Node>, i: nat)
    requires ValidSource(src, rank) && i < |hist| && src.start + i < 0x1_0000_0000
  {
    && src.start + i in src.db && Listed(NodesAt(src, rank, src.start + i), all)
    && TxTreeOf(src.sha, hist[i].txns).Success? && forall n :: n in TxNodes(src.sha, hist[i].txns) ==> n in all
  }

  lemma ListedLonger(src: Source, rank: Hash256 -> nat, hist: seq<Ledger>, all: seq<Node>, more: seq<Node>, i: nat)
    requires ValidSource(src, rank) && i < |hist| && src.start + i < 0x1_0000_0000
    requires LedgerListed(src, rank, hist, all, i) && forall n :: n in all ==> n in more
    ensures LedgerListed(src, rank, hist, more, i)
  {
    hide Ranked, NodesOf, TxTreeOf, TxNodes;
    ListedMore(NodesAt(src, rank, src.start + i), all, more);
  }

  /** One ledger: everything it hands over comes from the source's store, and all of it is there. */
  lemma StepLists(src: Source, rank: Hash256 -> nat, verify: bool, hist: seq<Ledger>, i: nat, v: Live)
    requires SoundSource(src, rank) && Whole(src, rank, hist) && 0 < i < |hist|
    requires StandsAt(src, rank, v, src.start + i - 1) && StateSunk(v) && From(v.sunk, src.m)
    ensures
      var r := Stepped(src.sha, verify, v, DeltaOf(hist[i]), MapOf(hist[i]));
      r.Success? && StandsAt(src, rank, r.value, src.start + i) && StateSunk(r.value) && From(r.value.sunk, src.m)
      && LedgerListed(src, rank, hist, r.value.sunk, i) && v.sunk <= r.value.sunk
  {
    hide Ranked, SelfHashedMap, SoundState, TxFrom, NodesOf, SortedDiff, NewRoot, Applied, ChildrenHeld, DeletedHeld,
         LedgerVerified, TxTreeOf, TxNodes, SoundTxs, InfoVerified, Unfold;
    var l, s := hist[i], src.start + i;
    assert LedgerFrom(src, rank, l, s);
    assert SoundLedger(src, rank, s - 1) && SoundLedger(src, rank, s);
    StepReplays(src, rank, verify, l, v, s);
    StepSunk(src.sha, verify, v, DeltaOf(l), MapOf(l));
    DiffMoves(src, rank, s, l.diff);
    TxNodesFromStore(src, l.info.txHash, l.txns);
    var r := Stepped(src.sha, verify, v, DeltaOf(l), MapOf(l)).value;
    assert r.sunk == v.sunk + l.diff.added + TxNodes(src.sha, l.txns);
  }

  lemma {:induction false} StepsList(src: Source, rank: Hash256 -> nat, verify: bool, hist: seq<Ledger>, i: nat,
                                     b: nat, v: Live)
    requires SoundSource(src, rank) && Whole(src, rank, hist) && 0 < i <= b <= |hist|
    requires StandsAt(src, rank, v, src.start + i - 1) && StateSunk(v) && From(v.sunk, src.m)
    ensures
      var r := Steps(src.sha, verify, v, MapSeq(DeltaOf, hist[i..b]), MapSeq(MapOf, hist[i..b]));
      r.Success? && v.sunk <= r.value.sunk && From(r.value.sunk, src.m)
      && forall j :: i <= j < b ==> LedgerListed(src, rank, hist, r.value.sunk, j)
    decreases b - i
  {
    hide Stepped, StandsAt, SoundSource, Whole, LedgerListed, StateSunk, From, DeltaOf, MapOf;
    var ds, ts := MapSeq(DeltaOf, hist[i..b]), MapSeq(MapOf, hist[i..b]);
    WholeBound(src, rank, hist);
    if i < b {
      StepLists(src, rank, verify, hist, i, v);
      var next := Stepped(src.sha, verify, v, ds[0], ts[0]).value;
      assert ds[1..] == MapSeq(DeltaOf, hist[i + 1..b]) && ts[1..] == MapSeq(MapOf, hist[i + 1..b]);
      StepsList(src, rank, verify, hist, i + 1, b, next);
      var r := Steps(src.sha, verify, next, ds[1..], ts[1..]).value;
      ListedLonger(src, rank, hist, next.sunk, r.sunk, i);
    }
  }

  lemma WholeBound(src: Source, rank: Hash256 -> nat, hist: seq<Ledger>)
    requires Whole(src, rank, hist)
    ensures ValidSource(src, rank) && src.start + |hist| <= 0x1_0000_0000
  {
  }

  /** The first ledger of a chunk: its checkpoint and its transactions. */
  lemma StartLists(src: Source, rank: Hash256 -> nat, verify: bool, hist: seq<Ledger>, a: nat, b: nat)
    requires SoundSource(src, rank) && Whole(src, rank, hist) && a < b <= |hist|
    ensures
      var c := PieceOf(src, rank, hist, a, b);
      var r := Started(src.sha, verify, c.checkpoint, MapOf(hist[a]));
      r.Success? && StandsAt(src, rank, r.value, src.start + a) && StateSunk(r.value) && From(r.value.sunk, src.m)
      && LedgerListed(src, rank, hist, r.value.sunk, a)
  {
    hide SelfHashedMap, SoundState, TxFrom, TxTreeOf, TxNodes, StateAfter, NodesOf, Unfold, SoundTxs, InfoVerified,
         InsertAll;
    var c, s := PieceOf(src, rank, hist, a, b), src.start + a;
    assert LedgerFrom(src, rank, hist[a], s) && SoundLedger(src, rank, s);
    PieceStarts(src, rank, verify, hist, a, b);
    StateIsTree(src, rank, hist, a);
    CheckpointFrom(src, rank, s, c.checkpoint);
    TxNodesFromStore(src, hist[a].info.txHash, hist[a].txns);
    var r := Started(src.sha, verify, c.checkpoint, MapOf(hist[a])).value;
    assert r.sunk == c.checkpoint + TxNodes(src.sha, hist[a].txns);
    InsertSunk(map[], c.checkpoint, r.sunk);
  }

  lemma CheckpointFrom(src: Source, rank: Hash256 -> nat, s: u32, ns: seq<Node>)
    requires ValidSource(src, rank) && s in src.db && SortedListing(NodesAt(src, rank, s), ns)
    ensures From(ns, src.m)
  {
  }

  /** Replaying a chunk hands over every node of every ledger in it, and nothing the source does not hold. */
  lemma ChunkLists(src: Source, rank: Hash256 -> nat, verify: bool, hist: seq<Ledger>, a: nat, b: nat)
    requires SoundSource(src, rank) && Whole(src, rank, hist) && a < b <= |hist|
    ensures
      var r := Replayed(src.sha, verify, PieceOf(src, rank, hist, a, b));
      r.Success? && From(r.value.sunk, src.m) && forall j :: a <= j < b ==>
          LedgerListed(src, rank, hist, r.value.sunk, j)
  {
    hide Started, Steps, StandsAt, SoundSource, Whole, LedgerListed, StateSunk, From, StateAfter, ChunkEnd, Finished;
    var c := PieceOf(src, rank, hist, a, b);
    WholeBound(src, rank, hist);
    PieceReplays(src, rank, verify, hist, a, b);
    StartLists(src, rank, verify, hist, a, b);
    var start := Started(src.sha, verify, c.checkpoint, MapOf(hist[a])).value;
    PieceLists(src, rank, hist, a, b);
    StepsList(src, rank, verify, hist, a + 1, b, start);
    var last := Steps(src.sha, verify, start, c.deltas, c.txMaps[1..]).value;
    FinishedSame(verify, last);
    ListedLonger(src, rank, hist, start.sunk, last.sunk, a);
  }

  lemma PieceLists(src: Source, rank: Hash256 -> nat, hist: seq<Ledger>, a: nat, b: nat)
    requires SoundSource(src, rank) && Whole(src, rank, hist) && a < b <= |hist|
    ensures
      var c := PieceOf(src, rank, hist, a, b);
      && c.deltas == MapSeq(DeltaOf, hist[a + 1..b]) && c.txMaps[1..] == MapSeq(MapOf, hist[a + 1..b])
      && c.txMaps[0] == MapOf(hist[a])
  {
    hide SoundSource, Whole, StateAfter, ChunkEnd;
  }

  lemma FinishedSame(verify: bool, s: Live)
    ensures Finished(verify, s).Success? ==> Finished(verify, s).value == s
  {
  }

  // ---------------------------------------------------------------------------------------------
  // The store

  lemma FromOneNode(m: NodeMap, ns: seq<Node>)
    requires From(ns, m)
    ensures OneNodePerHash(ns)
  {
  }

  /** Whatever comes from a source's store is storable again. */
  lemma FromStorable(m: NodeMap, ns: seq<Node>)
    requires From(ns, m) && Decoded(m)
    ensures forall n :: n in ns ==> Storable(n)
  {
    hide IsDecoded, Storable;
    forall n | n in ns ensures Storable(n) {
      DecodedIsStorable(n);
    }
  }

  lemma SourceDecoded(src: Source, rank: Hash256 -> nat)
    requires SoundSource(src, rank)
    ensures Decoded(src.m)
  {
  }

  ghost predicate AllRetrieved(hash64: Hash64, shard: Shard, m: NodeMap)
    requires Sound(shard)
  {
    forall h :: h in m ==> Retrieves(hash64, shard, m[h])
  }

  /** Every node of the ledger's two trees is fetched by its hash, and decodes to its content and type. */
  ghost predicate LedgerServed(src: Source, rank: Hash256 -> nat, hist: seq<Ledger>, hash64: Hash64, shard: Shard,
                               i: nat)
    requires ValidSource(src, rank) && i < |hist| && src.start + i < 0x1_0000_0000 && Sound(shard)
  {
    && src.start + i in src.db
    && AllRetrieved(hash64, shard, NodesAt(src, rank, src.start + i))
    && TxTreeOf(src.sha, hist[i].txns).Success?
    && forall n :: n in TxNodes(src.sha, hist[i].txns) ==> Retrieves(hash64, shard, n)
  }

  /**
   * The archive keeps what it was given. For every sound run of ledgers, every 64-bit hash and every
   * import that includes a chunk of the run, a store below 2^48 bytes returns, for every node of the state
   * tree and of the transaction tree of every ledger in that chunk, a value that decodes to that node.
   */
  lemma ArchiveServes(src: Source, rank: Hash256 -> nat, verify: bool, hist: seq<Ledger>, a: nat, b: nat, i: nat,
                      all: seq<Node>, hash64: Hash64, shard: Shard)
    requires SoundSource(src, rank) && Whole(src, rank, hist) && a <= i < b <= |hist|
    requires Replayed(src.sha, verify, PieceOf(src, rank, hist, a, b)).Success? ==>
               forall n :: n in Replayed(src.sha, verify, PieceOf(src, rank, hist, a, b)).value.sunk ==> n in all
    requires From(all, src.m) && Serves(hash64, shard, Sunk(false, [], all))
    ensures LedgerServed(src, rank, hist, hash64, shard, i)
  {
    hide Replayed, SoundSource, Whole, From, Sunk, Fetched, Sound, NodesOf, TxTreeOf, TxNodes, Retrieves, StateAfter,
         Storable, Decoded;
    WholeBound(src, rank, hist);
    ChunkLists(src, rank, verify, hist, a, b);
    var r := Replayed(src.sha, verify, PieceOf(src, rank, hist, a, b)).value;
    ListedLonger(src, rank, hist, r.sunk, all, i);
    FromOneNode(src.m, all);
    SourceDecoded(src, rank);
    FromStorable(src.m, all);
    forall n | n in all ensures Retrieves(hash64, shard, n) {
      ListRetrieved(hash64, shard, all, n);
    }
  }
}
