/**
 * A source that meets every hypothesis of the end-to-end theorems: two ledgers with different hashes and
 * different state trees, the second with one changed leaf and one transaction.
 */
module SoundWitness {
  import opened Prelude
  import opened Bytes
  import opened SHAMap
  import opened RootFinding
  import opened VarLength
  import opened NodeCodec
  import opened NodeCodecProofs
  import opened TxTree
  import opened Replay
  import opened ReplayProofs
  import opened Ledgers
  import opened Exporter
  import opened ExportProofs
  import opened DiffWitness
  import ReplayWitness

  /**
   * A hash that tells apart everything it is applied to: leaf `b` hashes to `b`, the transaction's id is
   * 3 and its leaf 4, an inner node over first child `b` hashes to `10 + b`, and ledger `s` to `100 + s`.
   */
  function WitnessHash(b: bytes): Hash256 {
    if |b| == 1 then Tag(b[0])
    else if |b| == 5 then Tag(3)
    else if |b| == 40 then Tag(4)
    else if |b| == 516 then Tag((10 + b[35] as int) % 256)
    else if |b| == 122 then Tag((100 + b[7] as int) % 256)
    else Tag(9)
  }

  function Tx(): TxRecord {
    TxRecord(Tag(3), [7], [8])
  }

  function TxNode(): Node {
    TxLeaf(WitnessHash, Tx())
  }

  /** An inner node with one child, in slot 0. */
  function Over(b: byte): Node
    requires b < 10
  {
    InnerNode(10 + b, Tag(b), Tag(0))
  }

  function Store(): NodeMap {
    map[Tag(1) := LeafNode(1), Tag(2) := LeafNode(2), Tag(11) := Over(1), Tag(12) := Over(2), Tag(4) := TxNode(),
        Tag(14) := Over(4)]
  }

  function First(): LedgerInfo {
    LedgerInfo(Tag(101), Tag(11), ZERO_HASH, Tag(100), 0, 0, 0, 0, 0)
  }

  function Second(): LedgerInfo {
    LedgerInfo(Tag(102), Tag(12), Tag(14), Tag(101), 0, 0, 0, 0, 0)
  }

  function Small(): Source {
    Source(WitnessHash, Store(), map[1 := First(), 2 := Second()], 1, 1, 2, 1)
  }

  /** References lead from the inner nodes to the leaves. */
  function Height(): Hash256 -> nat {
    (h: Hash256) => if h[31] >= 10 then 1 else 0
  }

  // ---------------------------------------------------------------------------------------------
  // The store

  lemma OverHolds(b: byte)
    requires 0 < b < 10
    ensures SelfHashed(WitnessHash, Over(b)) && NodeRanked(Over(b), Height()) && Over(b).hash == Tag(10 + b)
    ensures Children(Over(b)) == Success(EmptySlots()[0 := Tag(b)][1 := Tag(0)])
  {
    hide Concat, FullChildren;
    ReplayWitness.PreimageBytes(b, 0);
    FullChildrenOfConcat(EmptySlots()[0 := Tag(b)][1 := Tag(0)]);
  }

  lemma TxNodeHolds()
    ensures SelfHashed(WitnessHash, TxNode()) && TxNode().hash == Tag(4) && !IsInner(TxNode().nodeType)
    ensures TxId(WitnessHash, Tx().txBlob) == Tx().txHash
  {
    assert |WriteVl([7])| == 2 && |WriteVl([8])| == 2;
    assert |LeafContent(Tx())| == 40;
  }

  /** The node stands under its own hash and refers downward. */
  ghost predicate Fits(h: Hash256, n: Node) {
    n.hash == h && SelfHashed(WitnessHash, n) && NodeRanked(n, Height())
  }

  lemma StoreKeys(h: Hash256)
    requires h in Store()
    ensures h == Tag(1) || h == Tag(2) || h == Tag(11) || h == Tag(12) || h == Tag(4) || h == Tag(14)
  {
    hide Tag, Over, TxNode;
  }

  lemma NodesFit()
    ensures Fits(Tag(1), LeafNode(1)) && Fits(Tag(2), LeafNode(2)) && Fits(Tag(4), TxNode())
    ensures Fits(Tag(11), Over(1)) && Fits(Tag(12), Over(2)) && Fits(Tag(14), Over(4))
  {
    hide Tag, Over, TxNode, SelfHashed;
    OverHolds(1);
    OverHolds(2);
    OverHolds(4);
    TxNodeHolds();
    LeafHolds(1);
    LeafHolds(2);
  }

  lemma StoreHolds()
    ensures SelfHashedMap(WitnessHash, Store()) && Ranked(Store(), Height())
  {
    hide Tag, Over, TxNode, Store, SelfHashed, NodeRanked;
    StoreHas();
    NodesFit();
    forall h | h in Store() ensures Fits(h, Store()[h]) {
      StoreKeys(h);
    }
  }

  lemma LeafHolds(b: byte)
    ensures SelfHashed(WitnessHash, LeafNode(b)) && NodeRanked(LeafNode(b), Height()) && LeafNode(b).hash == Tag(b)
  {
  }

  // ---------------------------------------------------------------------------------------------
  // The state trees

  lemma StoreHas()
    ensures HasLeaf(Store(), 1) && HasLeaf(Store(), 2) && HasInner(Store(), 11, 1, 0) && HasInner(Store(), 12, 2, 0)
    ensures Store()[Tag(11)] == Over(1) && Store()[Tag(12)] == Over(2)
    ensures Tag(4) in Store() && Store()[Tag(4)] == TxNode() && Tag(14) in Store() && Store()[Tag(14)] == Over(4)
  {
    hide Tag, TxNode, InnerNode;
  }

  /** The tree of one leaf below a root. */
  lemma OneLeafTree(b: byte) returns (t: Tree)
    requires b == 1 || b == 2
    ensures Unfolds(Store(), Tag(10 + b), t) && Complete(t) && t.Branch? && NoDup(t) && FullInners(t)
  {
    hide Store, Unfolds, InnerNode, Tag;
    StoreHas();
    var leaf := LeafIn(Store(), b);
    t := BranchIn(Store(), 10 + b, b, 0, leaf, Nil);
    ReplayWitness.Apart(b, 10 + b);
    assert Occ(t) == multiset{Tag(b), Tag(10 + b)};
    TopIsInner(10 + b, Tag(b), Tag(0));
    SlotNode(t, Tag(10 + b));
    forall i | 0 <= i < 16 ensures FullInners(t.kids[i]) {
      assert t.kids[i] == leaf || t.kids[i] == Nil;
    }
  }

  lemma TopIsInner(b: byte, x: Hash256, y: Hash256)
    ensures InnerNode(b, x, y).nodeType.Inner?
  {
  }

  lemma SlotNode(t: Tree, h: Hash256)
    requires SlotUnfolds(Store(), h, t) && t.Branch?
    ensures h in Store() && t.node == Store()[h]
  {
    hide Store;
  }

  lemma SmallState(s: u32)
    requires s == 1 || s == 2
    ensures ValidSource(Small(), Height()) && SoundState(Small(), Height(), s)
  {
    hide Store, Unfolds, Complete, NoDup, FullInners, Tag, Ranked;
    StoreHolds();
    var t := OneLeafTree(s);
    assert Small().db[s].accountHash == Tag(10 + s);
    UnfoldUnique(Store(), Tag(10 + s), t, TreeAt(Small(), Height(), s));
  }

  // ---------------------------------------------------------------------------------------------
  // The transaction tree

  function TheItem(): Item {
    MakeItem(WitnessHash, Tx())
  }

  ghost function TxKids(k: nat): (kids: seq<Tree>)
    ensures |kids| == k && forall i :: 0 <= i < k ==> kids[i] == if i == 0 then Leaf(TxNode()) else Nil
  {
    seq(k, i => if i == 0 then Leaf(TxNode()) else Nil)
  }

  lemma OneBucket(slot: nat)
    requires slot < 16
    ensures Bucket([TheItem()], 0, slot) == if slot == 0 then [TheItem()] else []
  {
    hide Tag;
    FirstNibble();
    assert [TheItem()][..0] == [];
    assert Bucket([], 0, slot) == [];
  }

  lemma FirstNibble()
    ensures Nibble(TheItem().key, 0) == 0
  {
    assert TheItem().key == Zeros(31) + [3];
  }

  lemma {:induction false} OneItemKids(k: nat)
    requires k <= 16
    ensures LevelKids(WitnessHash, [TheItem()], 0, k) == Success(TxKids(k))
  {
    hide Tag, Bucket, TheItem, TxNode;
    if k > 0 {
      OneItemKids(k - 1);
      OneBucket(k - 1);
      ItemIsLeaf();
      assert TxKids(k) == TxKids(k - 1) + [if k == 1 then Leaf(TxNode()) else Nil];
    } else {
      assert TxKids(0) == [];
    }
  }

  lemma ItemIsLeaf()
    ensures TheItem().node == TxNode()
  {
  }

  /** The tree of the transaction is the inner node over its leaf. */
  lemma TxTreeIs()
    ensures TxTreeOf(WitnessHash, [Tx()]) == Success(Branch(Over(4), TxKids(16)))
  {
    hide Tag, TxNode, LevelKids, WitnessHash, Concat;
    OneItemKids(16);
    assert MakeItems(WitnessHash, [Tx()]) == [TheItem()];
    TxNodeHolds();
    var hashes := RootHashes(TxKids(16));
    assert hashes == EmptySlots()[0 := Tag(4)][1 := Tag(0)];
    RootIs(hashes);
  }

  lemma RootIs(hashes: seq<Hash256>)
    requires hashes == EmptySlots()[0 := Tag(4)][1 := Tag(0)]
    ensures InnerOf(WitnessHash, hashes) == Over(4)
  {
    hide Concat, Tag;
    ReplayWitness.PreimageBytes(4, 0);
  }

  lemma {:induction false} NoInnersBelow(k: nat)
    requires k <= 16
    ensures InnersOf(TxKids(16), k) == []
  {
    if k > 0 {
      NoInnersBelow(k - 1);
    }
  }

  lemma TxNodesAre()
    ensures TxTreeOf(WitnessHash, [Tx()]).Success? && TxNodes(WitnessHash, [Tx()]) == [TxNode(), Over(4)]
  {
    hide Tag, TxNode, Over, WitnessHash, TxTreeOf;
    TxTreeIs();
    NoInnersBelow(16);
    ItemIsLeaf();
    assert LeafNodes(MakeItems(WitnessHash, [Tx()])) == [TxNode()];
  }

  lemma SmallTxs()
    ensures SoundTxs(Small(), Tag(14)) && SoundTxs(Small(), ZERO_HASH)
  {
    hide Tag, TxNode, Over, WitnessHash, Store, TxTreeOf, TxNodes;
    NoTxTree();
    assert TxsBehind(Small(), ZERO_HASH, []);
    TxTreeIs();
    TxNodesAre();
    TxNodeHolds();
    OverHolds(4);
    StoreHas();
    assert TxsBehind(Small(), Tag(14), [Tx()]);
  }

  lemma NoTxTree()
    ensures TxTreeOf(WitnessHash, []) == Success(Nil) && TxNodes(WitnessHash, []) == []
  {
  }

  // ---------------------------------------------------------------------------------------------
  // The source

  lemma HeaderHashes(h: LedgerHeader)
    requires h.seqNo < 256
    ensures LedgerHash(WitnessHash, h) == Tag((100 + h.seqNo) % 256)
  {
    var object' := HeaderObject(h);
    assert |object'| == 122;
    ReplayWitness.LastByte(h.seqNo);
    assert object'[7] == ToBE(4, h.seqNo)[3];
  }

  lemma SmallInfos()
    ensures InfoOk(Small(), 1) && InfoOk(Small(), 2) && SoundLink(Small(), 2)
  {
    hide Tag, LedgerHash, Store;
    HeaderHashes(InfoHeader(First(), 1));
    HeaderHashes(InfoHeader(Second(), 2));
  }

  lemma StoreDecoded()
    ensures Decoded(Store())
  {
    hide IsDecoded;
    forall h | h in Store() ensures IsDecoded(Store()[h]) {
      FullContent(1);
      FullContent(2);
      FullContent(4);
      DecodedIsStorable(Store()[h]);
    }
  }

  lemma FullContent(b: byte)
    requires b < 10
    ensures Storable(Over(b))
  {
    hide Concat;
  }

  /** The hypotheses can be met by ledgers that differ, with a transaction. */
  lemma SmallIsSound()
    ensures SoundSource(Small(), Height()) && Small().start < Small().end && Small().chunkSize > 0
    ensures
      var a, b := Small().db[1], Small().db[2];
      a.ledgerHash != b.ledgerHash && a.accountHash != b.accountHash && a.txHash != b.txHash
  {
    hide SoundState, SoundTxs, InfoOk, SoundLink, Tag, Store, SelfHashedMap, Ranked, Decoded;
    StoreHolds();
    StoreDecoded();
    SmallState(1);
    SmallState(2);
    SmallTxs();
    SmallInfos();
  }
}
