/** What the exported chunks hold, and that a verifying replay accepts every one of them. */
module ExportProofs {
  import opened Prelude
  import opened SHAMap
  import opened Sorting
  import opened TreeDiff
  import opened ApplyDiff
  import opened Walks
  import opened Placement
  import opened RootFinding
  import opened TxTree
  import opened TxTreeProofs
  import opened TxCollect
  import opened NodeCodecProofs
  import opened ChunkFormat
  import opened ChunkProofs
  import opened Replay
  import opened ReplayProofs
  import opened Ledgers
  import opened Exporter
  import opened ExportRun

  // ---------------------------------------------------------------------------------------------
  // A sound source

  /** The state tree of ledger `s`. */
  ghost function TreeAt(src: Source, rank: Hash256 -> nat, s: u32): Tree
    requires ValidSource(src, rank) && s in src.db
  {
    Unfold(src.m, rank, src.db[s].accountHash)
  }

  /** The nodes of ledger `s`. */
  ghost function NodesAt(src: Source, rank: Hash256 -> nat, s: u32): NodeMap
    requires ValidSource(src, rank) && s in src.db
  {
    NodesOf(src.m, TreeAt(src, rank, s))
  }

  /** Ledger `s` has a state tree of full inner nodes, all there, that reaches no node twice. */
  ghost predicate SoundState(src: Source, rank: Hash256 -> nat, s: u32) {
    && ValidSource(src, rank) && s in src.db && src.db[s].accountHash != ZERO_HASH
    && var t := TreeAt(src, rank, s); t.Branch? && Complete(t) && NoDup(t) && FullInners(t)
  }

  /** Decoding yields no compressed inner node, so a tree read from a store has full ones only. */
  lemma {:induction false} DecodedFull(m: NodeMap, h: Hash256, t: Tree)
    requires Decoded(m) && SlotUnfolds(m, h, t)
    ensures FullInners(t)
    decreases t
  {
    hide IsDecoded;
    if t.Branch? {
      BranchParts(m, h, t);
      DecodedIsStorable(t.node);
      forall i | 0 <= i < 16 ensures FullInners(t.kids[i]) {
        DecodedFull(m, Children(t.node).value[i], t.kids[i]);
      }
    }
  }

  /** In a store, a state tree whose leaves stand where their keys put them is sound. */
  lemma PlacedSoundState(src: Source, rank: Hash256 -> nat, s: u32, key: Node -> seq<int>)
    requires ValidSource(src, rank) && Decoded(src.m) && s in src.db && src.db[s].accountHash != ZERO_HASH
    requires TreeAt(src, rank, s).Branch? && Placed(TreeAt(src, rank, s), [], key)
    ensures SoundState(src, rank, s)
  {
    hide Ranked, Placed, FullInners, Complete, NoDup, Decoded;
    DecodedFull(src.m, src.db[s].accountHash, TreeAt(src, rank, s));
    PlacedNoDup(src.m, src.db[s].accountHash, TreeAt(src, rank, s), [], key);
  }

  /** The tree built from these genuine transactions is in the store, below `txRoot`. */
  ghost predicate TxsBehind(src: Source, txRoot: Hash256, txns: seq<TxRecord>) {
    && HoldsTxTree(src.sha, txns, src.m) && RootHash(TxTreeOf(src.sha, txns).value) == txRoot
    && AllAuthentic(src.sha, txns)
  }

  ghost predicate AllAuthentic(sha: Sha, txns: seq<TxRecord>) {
    forall tx :: tx in txns ==> TxId(sha, tx.txBlob) == tx.txHash
  }

  ghost predicate SoundTxs(src: Source, txRoot: Hash256) {
    exists txns :: TxsBehind(src, txRoot, txns)
  }

  ghost predicate SoundLedger(src: Source, rank: Hash256 -> nat, s: u32) {
    InfoOk(src, s) && SoundState(src, rank, s) && SoundTxs(src, src.db[s].txHash)
  }

  /** The row names the hash of the row before it as its parent. */
  ghost predicate SoundLink(src: Source, s: u32) {
    s > 0 && s - 1 in src.db && s in src.db && src.db[s].parentHash == src.db[s - 1].ledgerHash
  }

  ghost predicate SoundSource(src: Source, rank: Hash256 -> nat) {
    && ValidSource(src, rank) && SelfHashedMap(src.sha, src.m) && Decoded(src.m)
    && (forall s: u32 :: src.start <= s <= src.end ==> SoundLedger(src, rank, s))
    && forall s: u32 :: src.start < s <= src.end ==> SoundLink(src, s)
  }

  // ---------------------------------------------------------------------------------------------
  // One ledger

  /** The diff of two sound ledgers turns the nodes of the first into the nodes of the second. */
  lemma DiffMoves(src: Source, rank: Hash256 -> nat, s: u32, d: Diff)
    requires 0 < s && SoundState(src, rank, s - 1) && SoundState(src, rank, s)
    requires IsDiff(src, rank, s, d)
    ensures Applied(NodesAt(src, rank, s - 1), d) == NodesAt(src, rank, s)
    ensures DeletedHeld(NodesAt(src, rank, s - 1), d.deleted)
    ensures From(d.added, src.m) && forall n :: n in d.added ==> n.hash in NodesAt(src, rank, s)
    ensures NewRoot(d.added, src.db[s - 1].accountHash) == Success(src.db[s].accountHash)
  {
    hide Complete, NoDup, FullInners, SortedDiff, NewRoot, Occ, InsertAll, Ranked, NodesOf, Unfolds;
    var m, a, b := src.m, src.db[s - 1].accountHash, src.db[s].accountHash;
    var o, n := TreeAt(src, rank, s - 1), TreeAt(src, rank, s);
    ApplyExact(m, a, b, o, n);
    DeletedPresent(m, a, b, o, n);
    DiffCover(m, a, b, o, n);
    NodesOfKeys(m, b, n);
    forall x | x in d.added ensures x.hash in NodesOf(m, n) {
      InHashes(d.added, x);
    }
    RootFollows(m, a, b, o, n);
  }

  /** Every inner node held by a complete state has its children there. */
  lemma ChildrenInState(src: Source, rank: Hash256 -> nat, s: u32, added: seq<Node>)
    requires SoundState(src, rank, s)
    requires From(added, src.m) && forall n :: n in added ==> n.hash in NodesAt(src, rank, s)
    ensures ChildrenHeld(NodesAt(src, rank, s), added)
  {
    hide NoDup, FullInners, Ranked, Unfolds;
    var m, root, t := src.m, src.db[s].accountHash, TreeAt(src, rank, s);
    forall n | n in added && IsInner(n.nodeType)
      ensures Children(n).Success? && forall c :: c in Children(n).value && c != ZERO_HASH ==> c in NodesOf(m, t)
    {
      ReachIsOcc(m, root, t);
      assert Usable(m, n.hash);
      forall c | c in Children(n).value && c != ZERO_HASH ensures c in NodesOf(m, t) {
        assert Walks.Linked(m, n.hash, c);
        ReachStep(m, root, n.hash, c);
        assert Usable(m, c);
      }
    }
  }

  /** The exported transactions are genuine, and rebuild the tree of the ledger's row. */
  lemma TxsRebuild(src: Source, txRoot: Hash256, txns: seq<TxRecord>)
    requires SoundTxs(src, txRoot) && TxFrom(src.m, txRoot, txns)
    ensures TxTreeOf(src.sha, txns).Success? && RootHash(TxTreeOf(src.sha, txns).value) == txRoot
    ensures AllAuthentic(src.sha, txns) && Sorted(TxKey, txns)
  {
    hide CollectsTx, DistinctTxns;
    var sha := src.sha;
    var built :| TxsBehind(src, txRoot, built);
    if built == [] {
      assert txns == [];
    } else {
      TreeUnfolds(sha, built, src.m);
      CollectBuilt(sha, built, src.m, Success(txns));
      SortSorts(TxKey, built);
      SortMembers(TxKey, built);
      TreePermuted(sha, built, txns);
    }
  }

  /** The complete tree of a sound ledger passes the completeness check. */
  lemma SoundStateChecks(src: Source, rank: Hash256 -> nat, s: u32)
    requires SoundState(src, rank, s)
    ensures CheckedAt(NodesAt(src, rank, s), src.db[s].accountHash)
    ensures src.db[s].accountHash in NodesAt(src, rank, s)
  {
    hide FullInners, Ranked;
    var m, root, t := src.m, src.db[s].accountHash, TreeAt(src, rank, s);
    var state := NodesAt(src, rank, s);
    NodesOfKeys(m, root, t);
    UnfoldsWithin(m, state, root, t);
    var held := Support(Occ(t));
    SupportSize(Occ(t));
    SizeIsOcc(t);
    assert held == state.Keys && |state.Keys| == |state|;
    assert root in Occ(t);
    assert Unfolds(state, root, t) && TreeComplete(state, t);
  }

  /** A complete tree is the same tree in any agreeing map that holds its nodes. */
  lemma {:induction false} UnfoldsWithin(m: NodeMap, state: NodeMap, h: Hash256, t: Tree)
    requires SlotUnfolds(m, h, t) && Complete(t) && Agrees(state, m)
    requires forall x :: x in Occ(t) ==> x in state
    ensures SlotUnfolds(state, h, t)
    decreases t
  {
    if t.Branch? {
      BranchParts(m, h, t);
      assert h in Occ(t);
      forall i | 0 <= i < 16 ensures SlotUnfolds(state, Children(t.node).value[i], t.kids[i]) {
        forall x | x in Occ(t.kids[i]) ensures x in state {
          OccKidsHas(t.kids, |t.kids|, i, x);
          InSum(OccKids(t.kids, |t.kids|), multiset{t.node.hash}, x);
        }
        UnfoldsWithin(m, state, Children(t.node).value[i], t.kids[i]);
      }
    } else if t.Leaf? {
      assert h in Occ(t);
    }
  }

  /** All nodes of the store are genuine, so those of a list taken from it are. */
  lemma FromGenuine(sha: Sha, m: NodeMap, ns: seq<Node>)
    requires SelfHashedMap(sha, m) && From(ns, m)
    ensures AllSelfHashed(sha, ns)
  {
  }

  // ---------------------------------------------------------------------------------------------
  // Replaying what was exported

  /** A replay standing at ledger `s`: its nodes, its root, its hash. */
  ghost predicate StandsAt(src: Source, rank: Hash256 -> nat, v: Live, s: u32) {
    && ValidSource(src, rank) && s in src.db
    && v.state == NodesAt(src, rank, s) && v.root == src.db[s].accountHash && v.prevHash == src.db[s].ledgerHash
  }

  /** The row the importer stores for ledger `s`: the source's own row. */
  function RowOf(src: Source, s: u32): LedgerRow
    requires s in src.db
  {
    LedgerRow(InfoHeader(src.db[s], s), src.db[s].ledgerHash)
  }

  lemma StepReplays(src: Source, rank: Hash256 -> nat, verify: bool, l: Ledger, v: Live, s: u32)
    requires 0 < s && s - 1 >= src.start && s <= src.end && SoundSource(src, rank)
    requires LedgerFrom(src, rank, l, s) && StandsAt(src, rank, v, s - 1)
    ensures
      var r := Stepped(src.sha, verify, v, DeltaOf(l), MapOf(l));
      s in src.db && r.Success? && StandsAt(src, rank, r.value, s) && r.value.rows == v.rows + [RowOf(src, s)]
  {
    hide Ranked, SelfHashedMap, Decoded, SoundState, TxFrom, Unfold, NodesOf, SortedDiff, NewRoot, Applied,
         ChildrenHeld, DeletedHeld, AllSelfHashed, TxTreeOf, SoundTxs;
    assert SoundLedger(src, rank, s - 1) && SoundLedger(src, rank, s) && SoundLink(src, s);
    DiffMoves(src, rank, s, l.diff);
    ChildrenInState(src, rank, s, l.diff.added);
    TxsRebuild(src, l.info.txHash, l.txns);
    FromGenuine(src.sha, src.m, l.diff.added);
    var t := MapOf(l);
    var header := HeaderOf(t, v.prevHash, RootHash(TxTreeOf(src.sha, t.txns).value), src.db[s].accountHash);
    assert header == InfoHeader(l.info, s);
    assert LedgerVerified(src.sha, l.diff.added, t, header);
  }

  /** The source's rows from ledger `s` up to but not including `e`. */
  ghost function RowsOf(src: Source, s: nat, e: nat): seq<LedgerRow>
    requires s <= e <= 0x1_0000_0000 && forall k: u32 :: s <= k < e ==> k in src.db
  {
    seq(e - s, i requires 0 <= i < e - s => RowOf(src, s + i))
  }

  lemma SoundRows(src: Source, rank: Hash256 -> nat, s: u32, e: int)
    requires SoundSource(src, rank) && src.start <= s <= e <= src.end + 1
    ensures forall k: u32 :: s <= k < e ==> k in src.db
  {
    forall k: u32 | s <= k < e ensures k in src.db {
      assert SoundLedger(src, rank, k);
    }
  }

  lemma {:induction false} StepsReplay(src: Source, rank: Hash256 -> nat, verify: bool, hist: seq<Ledger>, i: nat,
                                       b: nat, v: Live)
    requires SoundSource(src, rank) && Whole(src, rank, hist) && 0 < i <= b <= |hist|
    requires StandsAt(src, rank, v, src.start + i - 1)
    ensures forall k: u32 :: src.start + i <= k < src.start + b ==> k in src.db
    ensures
      var r := Steps(src.sha, verify, v, MapSeq(DeltaOf, hist[i..b]), MapSeq(MapOf, hist[i..b]));
      r.Success? && StandsAt(src, rank, r.value, src.start + b - 1)
      && r.value.rows == v.rows + RowsOf(src, src.start + i, src.start + b)
    decreases b - i
  {
    hide Stepped, StandsAt, SoundLedger, SoundLink, SelfHashedMap, Decoded, LedgerFrom, RowOf;
    SoundRows(src, rank, src.start + i - 1, src.start + b);
    var ds, ts := MapSeq(DeltaOf, hist[i..b]), MapSeq(MapOf, hist[i..b]);
    if i < b {
      assert LedgerFrom(src, rank, hist[i], src.start + i);
      StepReplays(src, rank, verify, hist[i], v, src.start + i);
      var next := Stepped(src.sha, verify, v, ds[0], ts[0]).value;
      assert ds[1..] == MapSeq(DeltaOf, hist[i + 1..b]) && ts[1..] == MapSeq(MapOf, hist[i + 1..b]);
      StepsReplay(src, rank, verify, hist, i + 1, b, next);
    }
  }

  /** After every exported ledger the running map is exactly the nodes of that ledger's tree. */
  lemma {:induction false} StateIsTree(src: Source, rank: Hash256 -> nat, hist: seq<Ledger>, i: nat)
    requires SoundSource(src, rank) && Whole(src, rank, hist) && i < |hist|
    ensures src.start in src.db && src.start + i in src.db
    ensures StateAfter(FirstState(src, rank), hist, i) == NodesAt(src, rank, src.start + i)
  {
    hide SelfHashedMap, Decoded, SoundState, SoundTxs, Applied, SortedDiff, TxFrom, NodesOf, Ranked, InfoVerified,
         SoundLink;
    assert SoundLedger(src, rank, src.start) && SoundLedger(src, rank, src.start + i);
    if i > 0 {
      StateIsTree(src, rank, hist, i - 1);
      assert LedgerFrom(src, rank, hist[i], src.start + i);
      assert SoundLedger(src, rank, src.start + (i - 1));
      DiffMoves(src, rank, src.start + i, hist[i].diff);
    }
  }

  /** Inserting a listing of a map into the empty map gives the map. */
  lemma ListingBack(m: NodeMap, ns: seq<Node>)
    requires Keyed(m) && Lists(m, ns)
    ensures StateOf(ns) == m
  {
    InsertAllKeys(m, map[], ns);
    forall h | h in HashesOf(ns) ensures h in m {
      var i :| 0 <= i < |ns| && HashesOf(ns)[i] == h;
      assert Holds(m, ns[i].hash, ns[i]);
    }
    AgreesEqual(m, StateOf(ns), m);
  }

  /** The chunk of the ledgers `a` up to but not including `b`. */
  ghost function PieceOf(src: Source, rank: Hash256 -> nat, hist: seq<Ledger>, a: nat, b: nat): Chunk
    requires SoundSource(src, rank) && Whole(src, rank, hist) && a < b <= |hist|
  {
    StateIsTree(src, rank, hist, 0);
    Piece(src, FirstState(src, rank), hist, a, b, ChunkEnd(src, src.start + a))
  }

  lemma PieceStarts(src: Source, rank: Hash256 -> nat, verify: bool, hist: seq<Ledger>, a: nat, b: nat)
    requires SoundSource(src, rank) && Whole(src, rank, hist) && a < b <= |hist|
    ensures
      var c := PieceOf(src, rank, hist, a, b);
      var r := Started(src.sha, verify, c.checkpoint, MapOf(hist[a]));
      r.Success? && StandsAt(src, rank, r.value, src.start + a) && r.value.rows == []
  {
    hide SelfHashedMap, Decoded, SoundState, SoundTxs, SortedDiff, TxFrom, AllSelfHashed, TxTreeOf, StateAfter,
         NodesOf, InsertAll, Unfold;
    var s := src.start + a;
    var c := PieceOf(src, rank, hist, a, b);
    assert SoundLedger(src, rank, s) && SoundLedger(src, rank, src.start);
    assert LedgerFrom(src, rank, hist[a], s);
    StateIsTree(src, rank, hist, a);
    PieceCheckpoint(src, rank, s, c.checkpoint);
    SoundStateChecks(src, rank, s);
    TxsRebuild(src, hist[a].info.txHash, hist[a].txns);
  }

  lemma PieceCheckpoint(src: Source, rank: Hash256 -> nat, s: u32, ns: seq<Node>)
    requires ValidSource(src, rank) && SelfHashedMap(src.sha, src.m) && s in src.db
    requires SortedListing(NodesAt(src, rank, s), ns)
    ensures StateOf(ns) == NodesAt(src, rank, s) && AllSelfHashed(src.sha, ns)
  {
    hide InsertAll;
    ListingBack(NodesAt(src, rank, s), ns);
    assert From(ns, src.m);
    FromGenuine(src.sha, src.m, ns);
  }

  /** Replay accepts the chunk, ends at its last ledger, and recovers the source's rows. */
  lemma PieceReplays(src: Source, rank: Hash256 -> nat, verify: bool, hist: seq<Ledger>, a: nat, b: nat)
    requires SoundSource(src, rank) && Whole(src, rank, hist) && a < b <= |hist|
    ensures forall k: u32 :: src.start + a < k < src.start + b ==> k in src.db
    ensures
      var r := Replayed(src.sha, verify, PieceOf(src, rank, hist, a, b));
      r.Success? && StandsAt(src, rank, r.value, src.start + b - 1)
      && r.value.rows == RowsOf(src, src.start + a + 1, src.start + b)
  {
    hide Started, Steps, StandsAt, SelfHashedMap, Decoded, LedgerFrom, Ranked, NodesOf, StateAfter, CheckedAt,
         SoundTxs, InfoOk, ChunkEnd;
    var c := PieceOf(src, rank, hist, a, b);
    PieceStarts(src, rank, verify, hist, a, b);
    var start := Started(src.sha, verify, c.checkpoint, MapOf(hist[a])).value;
    assert c.deltas == MapSeq(DeltaOf, hist[a + 1..b]) && c.txMaps[1..] == MapSeq(MapOf, hist[a + 1..b]);
    StepsReplay(src, rank, verify, hist, a + 1, b, start);
    var last := Steps(src.sha, verify, start, c.deltas, c.txMaps[1..]).value;
    assert SoundLedger(src, rank, src.start + b - 1);
    SoundStateChecks(src, rank, src.start + b - 1);
    Standing(src, rank, last, src.start + b - 1);
  }

  lemma Standing(src: Source, rank: Hash256 -> nat, v: Live, s: u32)
    requires StandsAt(src, rank, v, s)
    ensures v.state == NodesAt(src, rank, s) && v.root == src.db[s].accountHash
  {
  }

  // ---------------------------------------------------------------------------------------------
  // Exporting succeeds, and depends on nothing but the source

  lemma SoundTxsReadable(src: Source, txRoot: Hash256)
    requires SoundTxs(src, txRoot)
    ensures TxOk(src.m, txRoot)
  {
    var built :| TxsBehind(src, txRoot, built);
    if built != [] && !TxOk(src.m, txRoot) {
      CollectBuilt(src.sha, built, src.m, Failure);
    }
  }

  /** A sound source can be exported. */
  lemma SoundExportable(src: Source, rank: Hash256 -> nat)
    requires SoundSource(src, rank) && src.start < src.end && src.chunkSize > 0
    ensures Exportable(src, rank)
  {
    hide SelfHashedMap, Decoded, SoundTxs, TxOk, Usable, SortedDiff, InfoVerified;
    forall s: u32 | src.start <= s <= src.end ensures LedgerOk(src, s) {
      assert SoundLedger(src, rank, s);
      SoundTxsReadable(src, src.db[s].txHash);
    }
    forall s: u32 | src.start < s <= src.end ensures DiffOk(src, rank, s) {
      assert SoundLedger(src, rank, s - 1) && SoundLedger(src, rank, s);
      ApplyExact(src.m, src.db[s - 1].accountHash, src.db[s].accountHash, TreeAt(src, rank, s - 1),
          TreeAt(src, rank, s));
    }
    assert SoundLedger(src, rank, src.start);
    ReachIsOcc(src.m, src.db[src.start].accountHash, TreeAt(src, rank, src.start));
  }

  /** Two histories of a source agree, up to the diff that the first ledger does not have. */
  lemma SameHistory(src: Source, rank: Hash256 -> nat, a: seq<Ledger>, b: seq<Ledger>, i: nat)
    requires Whole(src, rank, a) && Whole(src, rank, b) && i < |a|
    ensures SameEntry(a, b, i)
  {
    hide CollectsTx, CollectedTxs, Ranked, SortedDiff, InfoVerified, StateTree;
    var s := src.start + i;
    assert LedgerFrom(src, rank, a[i], s) && LedgerFrom(src, rank, b[i], s);
  }

  lemma {:induction false} SameStates(first: NodeMap, a: seq<Ledger>, b: seq<Ledger>, i: nat)
    requires i < |a| == |b| && forall k :: 0 < k < |a| ==> a[k] == b[k]
    ensures StateAfter(first, a, i) == StateAfter(first, b, i)
  {
    if i > 0 {
      SameStates(first, a, b, i - 1);
    }
  }

  lemma SamePiece(src: Source, first: NodeMap, a: seq<Ledger>, b: seq<Ledger>, x: nat, y: nat, e: u32)
    requires Keyed(first) && x < y <= |a| == |b|
    requires forall i :: 0 <= i < |a| ==> SameEntry(a, b, i)
    ensures Piece(src, first, a, x, y, e) == Piece(src, first, b, x, y, e)
  {
    hide StateAfter, Listing, MapOf, DeltaOf;
    forall k | 0 < k < |a| ensures a[k] == b[k] {
      assert SameEntry(a, b, k);
    }
    SameStates(first, a, b, x);
    assert SameEntry(a, b, x);
    assert MapSeq(DeltaOf, a[x + 1..y]) == MapSeq(DeltaOf, b[x + 1..y]);
    assert MapSeq(MapOf, a[x..y]) == MapSeq(MapOf, b[x..y]);
  }

  /**
   * What is exported is a function of the source: any two exports of it, whatever their batch sizes and
   * the order in which they list the state, write the same files.
   */
  lemma SameBytes(src: Source, rank: Hash256 -> nat, a: seq<Ledger>, fa: seq<bytes>, b: seq<Ledger>, fb: seq<bytes>)
    requires src.chunkSize > 0 && Exported(src, rank, a, fa) && Exported(src, rank, b, fb)
    ensures fa == fb
  {
    hide HistoryOf, FirstState, Ranked, ChunkFile, SameEntry;
    forall i | 0 <= i < |a| ensures SameEntry(a, b, i) {
      SameHistory(src, rank, a, b, i);
    }
    SameCount(src, FirstState(src, rank), a, fa, b, fb);
    forall k | 0 <= k < |fa| ensures fa[k] == fb[k] {
      SameFile(src, FirstState(src, rank), a, b, k, fa[k], fb[k]);
    }
  }

  ghost predicate SameEntry(a: seq<Ledger>, b: seq<Ledger>, i: nat) {
    && i < |a| && i < |b|
    && MapOf(a[i]) == MapOf(b[i]) && a[i].seqNo == b[i].seqNo && a[i].info == b[i].info && (i > 0 ==> a[i] == b[i])
  }

  lemma SameCount(src: Source, first: NodeMap, a: seq<Ledger>, fa: seq<bytes>, b: seq<Ledger>, fb: seq<bytes>)
    requires Keyed(first) && |a| == |b| > 0 && src.start + |a| <= 0x1_0000_0000
    requires ChunkFiles(src, first, a, fa) && ChunkFiles(src, first, b, fb)
    ensures |fa| == |fb|
  {
    hide FileOf;
    assert fa != [] && fb != [];
    assert ChunkFile(src, first, a, fa[|fa| - 1], |fa| - 1) && ChunkFile(src, first, b, fb[|fb| - 1], |fb| - 1);
    if |fa| < |fb| {
      MulLe(|fa|, |fb| - 1, src.chunkSize);
    } else if |fb| < |fa| {
      MulLe(|fb|, |fa| - 1, src.chunkSize);
    }
  }

  lemma SameFile(src: Source, first: NodeMap, a: seq<Ledger>, b: seq<Ledger>, k: nat, x: bytes, y: bytes)
    requires Keyed(first) && |a| == |b| && src.start + |a| <= 0x1_0000_0000
    requires ChunkFile(src, first, a, x, k) && ChunkFile(src, first, b, y, k)
    requires forall i :: 0 <= i < |a| ==> SameEntry(a, b, i)
    ensures x == y
  {
    hide Piece, SameEntry, SerializeStreamed, ChunkEnd, Keyed;
    var p, q := k * src.chunkSize, Min((k + 1) * src.chunkSize, |a|);
    SamePiece(src, first, a, b, p, q, ChunkEnd(src, src.start + p));
  }

  // ---------------------------------------------------------------------------------------------
  // The files

  /** By arithmetic alone, a header announces the chunk's last ledger exactly when its 32-bit addition does not wrap. */
  lemma HeaderEndIff(src: Source, s: u32)
    requires s <= src.end && src.chunkSize > 0
    ensures ChunkEnd(src, s) == Min(s + src.chunkSize - 1, src.end) <==> s + src.chunkSize - 1 < 0x1_0000_0000
  {
  }

  /** Chunk `k` covers ledger `i` of the range exactly when `k` is `i / chunkSize`. */
  lemma EveryLedgerOnce(src: Source, rank: Hash256 -> nat, hist: seq<Ledger>, files: seq<bytes>, i: nat, k: nat)
    requires src.chunkSize > 0 && i < |hist| && Exported(src, rank, hist, files)
    ensures k < |files| && k * src.chunkSize <= i < Min((k + 1) * src.chunkSize, |hist|) <==> k == i / src.chunkSize
  {
    hide HistoryOf, ChunkFile, FirstState, Ranked;
    assert |hist| <= |files| * src.chunkSize;
    OnePart(i, k, src.chunkSize, |hist|, |files|);
  }

  lemma OnePart(i: nat, k: nat, n: nat, len: nat, count: nat)
    requires n > 0 && i < len <= count * n
    ensures k < count && k * n <= i < Min((k + 1) * n, len) <==> k == i / n
  {
    var q := i / n;
    assert q * n <= i < q * n + n;
    NextCut(k, n);
    NextCut(q, n);
    if k < q {
      MulLe(k + 1, q, n);
    } else if q < k {
      MulLe(q + 1, k, n);
    }
    if count <= q {
      MulLe(count, q, n);
    }
  }

  lemma MulLe(a: nat, b: nat, n: nat)
    requires a <= b
    ensures a * n <= b * n
  {
  }

  /** Every count and length of what is exported fits its field. */
  ghost predicate LedgersFit(src: Source, hist: seq<Ledger>) {
    && |src.m| < 0x1_0000_0000 && (forall h :: h in src.m ==> |src.m[h].content| < 0x1_0000)
    && forall l :: l in hist ==> LedgerFits(l)
  }

  ghost predicate LedgerFits(l: Ledger) {
    DeltaFits(DeltaOf(l)) && TxMapFits(MapOf(l))
  }

  lemma {:induction false} ListingFits(src: Source, m: NodeMap, ns: seq<Node>)
    requires Lists(m, ns) && Agrees(m, src.m)
    requires |src.m| < 0x1_0000_0000 && forall h :: h in src.m ==> |src.m[h].content| < 0x1_0000
    ensures ListFits(ns)
  {
    var hs := HashesOf(ns);
    forall h | h in hs ensures h in src.m {
      var i :| 0 <= i < |ns| && hs[i] == h;
      assert Holds(m, ns[i].hash, ns[i]);
    }
    DistinctWithin(hs, src.m.Keys);
    assert |src.m.Keys| == |src.m|;
  }

  lemma {:induction false} DistinctWithin<T>(s: seq<T>, all: set<T>)
    requires Distinct(s) && forall x :: x in s ==> x in all
    ensures |s| <= |all|
  {
    if s != [] {
      var last, front := s[|s| - 1], s[..|s| - 1];
      DistinctWithin(front, all - {last});
    }
  }

  /** The lists of an exported ledger are in order already. */
  lemma LedgerSorted(src: Source, rank: Hash256 -> nat, l: Ledger, s: u32)
    requires ValidSource(src, rank) && src.start < s && LedgerFrom(src, rank, l, s)
    ensures SortedDelta(DeltaOf(l)) == DeltaOf(l)
  {
    hide StateTree, Ranked, TxFrom, InfoOk, DiffTrees;
    var d := DiffTrees(StateTree(src, rank, src.db[s - 1].accountHash), StateTree(src, rank, l.info.accountHash)).value;
    SortSorts(NodeKey, d.added);
    SortSorts(HashKey, d.deleted);
    SortIdempotent(NodeKey, l.diff.added);
    SortIdempotent(HashKey, l.diff.deleted);
  }

  lemma SortedAlready(c: Chunk, chunkHash: Hash256)
    requires Sorted(NodeKey, c.checkpoint)
    requires forall k :: 0 <= k < |c.deltas| ==> SortedDelta(c.deltas[k]) == c.deltas[k]
    requires forall k :: 0 <= k < |c.txMaps| ==> Sorted(TxKey, c.txMaps[k].txns)
    ensures SortedChunk(c, chunkHash) == c.(chunkHash := chunkHash)
  {
    hide SortedDelta, Sorted;
    SortIdempotent(NodeKey, c.checkpoint);
    assert SortDeltas(c.deltas) == c.deltas;
    forall k | 0 <= k < |c.txMaps| ensures SortTxMaps(c.txMaps)[k] == c.txMaps[k] {
      SortIdempotent(TxKey, c.txMaps[k].txns);
    }
    assert SortTxMaps(c.txMaps) == c.txMaps;
  }

  /** What exporting one ledger puts into a chunk is in order. */
  lemma EntrySorted(src: Source, rank: Hash256 -> nat, hist: seq<Ledger>, i: nat)
    requires SoundSource(src, rank) && Whole(src, rank, hist) && i < |hist|
    ensures i > 0 ==> SortedDelta(DeltaOf(hist[i])) == DeltaOf(hist[i])
    ensures Sorted(TxKey, hist[i].txns)
  {
    hide SelfHashedMap, Decoded, SoundState, SoundTxs, TxFrom, SortedDelta, Ranked, Sorted;
    var s := src.start + i;
    assert LedgerFrom(src, rank, hist[i], s) && SoundLedger(src, rank, s);
    if i > 0 {
      LedgerSorted(src, rank, hist[i], s);
    }
    TxsRebuild(src, hist[i].info.txHash, hist[i].txns);
  }

  lemma PieceSorted(src: Source, rank: Hash256 -> nat, hist: seq<Ledger>, a: nat, b: nat, chunkHash: Hash256)
    requires SoundSource(src, rank) && Whole(src, rank, hist) && a < b <= |hist|
    ensures
      var c := PieceOf(src, rank, hist, a, b);
      SortedChunk(c, chunkHash) == c.(chunkHash := chunkHash)
  {
    hide SortedDelta, SortedChunk, SoundSource, Whole, StateAfter, Sorted;
    var c := PieceOf(src, rank, hist, a, b);
    forall k | 0 <= k < |c.deltas| ensures SortedDelta(c.deltas[k]) == c.deltas[k] {
      assert c.deltas[k] == DeltaOf(hist[a + 1 + k]);
      EntrySorted(src, rank, hist, a + 1 + k);
    }
    forall k | 0 <= k < |c.txMaps| ensures Sorted(TxKey, c.txMaps[k].txns) {
      assert c.txMaps[k] == MapOf(hist[a + k]);
      EntrySorted(src, rank, hist, a + k);
    }
    SortedAlready(c, chunkHash);
  }

  lemma EntriesFit(hist: seq<Ledger>, a: nat, b: nat)
    requires a < b <= |hist| && forall l :: l in hist ==> LedgerFits(l)
    ensures DeltasFit(MapSeq(DeltaOf, hist[a + 1..b])) && TxMapsFit(MapSeq(MapOf, hist[a..b]))
  {
    hide DeltaFits, TxMapFits;
    var ds, ts := MapSeq(DeltaOf, hist[a + 1..b]), MapSeq(MapOf, hist[a..b]);
    forall k | 0 <= k < |ds| ensures DeltaFits(ds[k]) {
      assert LedgerFits(hist[a + 1 + k]);
    }
    forall k | 0 <= k < |ts| ensures TxMapFits(ts[k]) {
      assert LedgerFits(hist[a + k]);
    }
  }

  lemma PieceFits(src: Source, rank: Hash256 -> nat, hist: seq<Ledger>, a: nat, b: nat)
    requires SoundSource(src, rank) && Whole(src, rank, hist) && a < b <= |hist| && LedgersFit(src, hist)
    requires ChunkEnd(src, src.start + a) == src.start + b - 1 && hist[a].seqNo == src.start + a
    ensures ChunkFits(PieceOf(src, rank, hist, a, b))
  {
    hide SoundLedger, SoundLink, SelfHashedMap, Decoded, Ranked, HistoryOf, StateAfter, LedgerFits, ChunkEnd, NodesOf,
         DeltasFit, TxMapsFit, SortedListing, ListFits;
    var c := PieceOf(src, rank, hist, a, b);
    StateIsTree(src, rank, hist, a);
    CheckpointFits(src, rank, src.start + a, c.checkpoint);
    EntriesFit(hist, a, b);
  }

  lemma CheckpointFits(src: Source, rank: Hash256 -> nat, s: u32, ns: seq<Node>)
    requires ValidSource(src, rank) && s in src.db && SortedListing(NodesAt(src, rank, s), ns)
    requires |src.m| < 0x1_0000_0000 && forall h :: h in src.m ==> |src.m[h].content| < 0x1_0000
    ensures ListFits(ns)
  {
    ListingFits(src, NodesAt(src, rank, s), ns);
  }

  /** What a reader makes of a chunk file: a chunk of the ledgers `first..last` that replays to the last. */
  ghost predicate ReplaysTo(src: Source, rank: Hash256 -> nat, verify: bool, file: bytes, first: int, last: int) {
    0 <= last < 0x1_0000_0000 &&
    match DeserializeChunk(src.sha, file)
    case Failure => false
    case Success(c) =>
      && c.startLedger == first && c.endLedger == last
      && |c.deltas| == last - first && |c.txMaps| == last - first + 1
      && var r := Replayed(src.sha, verify, c); r.Success? && StandsAt(src, rank, r.value, last)
  }

  lemma PieceHead(src: Source, rank: Hash256 -> nat, hist: seq<Ledger>, a: nat, b: nat)
    requires SoundSource(src, rank) && Whole(src, rank, hist) && a < b <= |hist|
    ensures
      var c := PieceOf(src, rank, hist, a, b);
      c.startLedger == src.start + a && c.endLedger == ChunkEnd(src, src.start + a)
      && |c.deltas| == b - a - 1 && |c.txMaps| == b - a
  {
    hide SoundSource, StateAfter, ChunkEnd;
    HistorySeq(src, rank, hist, a);
  }

  lemma HashUnread(sha: Sha, verify: bool, c: Chunk, chunkHash: Hash256)
    ensures Replayed(sha, verify, c.(chunkHash := chunkHash)) == Replayed(sha, verify, c)
  {
    hide Started, Steps, Finished;
  }

  lemma PieceParses(src: Source, rank: Hash256 -> nat, hist: seq<Ledger>, a: nat, b: nat) returns (chunkHash: Hash256)
    requires SoundSource(src, rank) && Whole(src, rank, hist) && a < b <= |hist| && LedgersFit(src, hist)
    requires ChunkEnd(src, src.start + a) == src.start + b - 1
    ensures
      var c := PieceOf(src, rank, hist, a, b);
      DeserializeChunk(src.sha, SerializeStreamed(src.sha, c)) == Success(c.(chunkHash := chunkHash))
  {
    hide SoundSource, Whole, LedgersFit, ChunkFits, DeserializeChunk, SerializeStreamed, StateAfter, ChunkEnd,
         SortedChunk;
    var c := PieceOf(src, rank, hist, a, b);
    PieceHead(src, rank, hist, a, b);
    PieceFits(src, rank, hist, a, b);
    StreamedRoundTrip(src.sha, c);
    chunkHash := src.sha(StreamedBody(c));
    PieceSorted(src, rank, hist, a, b, chunkHash);
  }

  /** The file of one chunk. */
  lemma FileReplays(src: Source, rank: Hash256 -> nat, verify: bool, hist: seq<Ledger>, a: nat, b: nat, file: bytes)
    requires SoundSource(src, rank) && Whole(src, rank, hist) && a < b <= |hist| && LedgersFit(src, hist)
    requires ChunkEnd(src, src.start + a) == src.start + b - 1
    requires file == SerializeStreamed(src.sha, PieceOf(src, rank, hist, a, b))
    ensures ReplaysTo(src, rank, verify, file, src.start + a, src.start + b - 1)
  {
    hide SoundSource, Replayed, StandsAt, LedgersFit, DeserializeChunk, SerializeStreamed, ChunkEnd, HistoryOf,
         PieceOf;
    var c := PieceOf(src, rank, hist, a, b);
    var chunkHash := PieceParses(src, rank, hist, a, b);
    PieceHead(src, rank, hist, a, b);
    HashUnread(src.sha, verify, c, chunkHash);
    PieceReplays(src, rank, verify, hist, a, b);
  }

  lemma FileIsPiece(src: Source, rank: Hash256 -> nat, hist: seq<Ledger>, files: seq<bytes>, k: nat)
    returns (a: nat, b: nat)
    requires k < |files| && src.chunkSize > 0 && SoundSource(src, rank) && Exported(src, rank, hist, files)
    ensures a == k * src.chunkSize && b == Min(a + src.chunkSize, |hist|)
    ensures a < b && files[k] == SerializeStreamed(src.sha, PieceOf(src, rank, hist, a, b))
  {
    hide SoundSource, HistoryOf, StateAfter, SerializeStreamed, Piece, FirstState, ChunkEnd;
    NextCut(k, src.chunkSize);
    assert ChunkFile(src, FirstState(src, rank), hist, files[k], k);
    a, b := k * src.chunkSize, Min((k + 1) * src.chunkSize, |hist|);
  }

  /** The header that a file announces is its chunk's, whatever the body holds. */
  lemma FileAnnounces(sha: Sha, c: Chunk)
    requires |c.txMaps| == |c.deltas| + 1 && DeserializeChunk(sha, SerializeStreamed(sha, c)).Success?
    ensures DeserializeChunk(sha, SerializeStreamed(sha, c)).value.endLedger == c.endLedger
  {
    hide ReadHeader, WriteHeader, ReadNodeList, ReadLedgers, StreamedBody;
    HeaderBack(FORMAT_VERSION_STREAMED, c, sha(StreamedBody(c)), StreamedBody(c));
  }

  lemma ReplaysToEnd(src: Source, rank: Hash256 -> nat, verify: bool, c: Chunk, first: int, last: int)
    requires |c.txMaps| == |c.deltas| + 1
    requires ReplaysTo(src, rank, verify, SerializeStreamed(src.sha, c), first, last)
    ensures c.endLedger == last
  {
    hide DeserializeChunk, SerializeStreamed, Replayed, StandsAt;
    FileAnnounces(src.sha, c);
  }

  /**
   * The round trip through the files. For every sound run of ledgers and every chunk file: it parses,
   * its header range matches its deltas and transaction maps, and replay of it, verifying or not,
   * succeeds and ends in exactly the nodes of its last ledger, if and only if the 32-bit addition
   * `chunk_start + chunk_size - 1` does not wrap.
   */
  lemma FileReplaysIff(src: Source, rank: Hash256 -> nat, verify: bool, hist: seq<Ledger>, files: seq<bytes>, k: nat)
    requires k < |files| && src.chunkSize > 0
    requires SoundSource(src, rank) && LedgersFit(src, hist) && Exported(src, rank, hist, files)
    ensures
      var s := src.start + k * src.chunkSize;
      ReplaysTo(src, rank, verify, files[k], s, Min(s + src.chunkSize - 1, src.end))
      <==> s + src.chunkSize - 1 < 0x1_0000_0000
  {
    hide SoundSource, LedgersFit, ReplaysTo, SerializeStreamed, PieceOf, ChunkFiles, HistoryOf, FirstState;
    var a, b := FileIsPiece(src, rank, hist, files, k);
    HeaderEndIff(src, src.start + a);
    PieceHead(src, rank, hist, a, b);
    if src.start + a + src.chunkSize - 1 < 0x1_0000_0000 {
      FileReplays(src, rank, verify, hist, a, b, files[k]);
    } else if ReplaysTo(src, rank, verify, files[k], src.start + a, Min(src.start + a + src.chunkSize - 1, src.end)) {
      ReplaysToEnd(src, rank, verify, PieceOf(src, rank, hist, a, b), src.start + a,
                   Min(src.start + a + src.chunkSize - 1, src.end));
    }
  }
}
