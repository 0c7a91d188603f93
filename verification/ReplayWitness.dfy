/**
 * What a verified replay does not establish: that the trees of the ledgers between the checkpoint and
 * the end are complete. A delta may drop a node that an unchanged one still refers to, and a later
 * delta may bring it back.
 */
module ReplayWitness {
  import opened Prelude
  import opened Bytes
  import opened SHAMap
  import opened TreeDiff
  import opened ApplyDiff
  import opened Walks
  import opened RootFinding
  import opened TxTree
  import opened ChunkFormat
  import opened Replay
  import IntermediateLedgers
  import opened DiffWitness

  /** A hash under which the node with tag `b` below hashes to `b`, and the header of ledger `s` to `100 + s`. */
  function TagHash(b: bytes): Hash256 {
    if |b| == 1 then Tag(b[0])
    else if |b| == 516 then (if b[35] == 1 then Tag(5) else Tag((4 + b[67] as int) % 256))
    else if |b| == 122 then Tag((100 + b[7] as int) % 256)
    else Tag(9)
  }

  /** Node 5 holds leaf 1; the roots 6, 7 and 8 hold node 5 and one leaf each. */
  function Root(b: byte, leaf: byte): Node {
    InnerNode(b, Tag(5), Tag(leaf))
  }

  function Middle(): Node {
    InnerNode(5, Tag(1), Tag(0))
  }

  function LedgerMap(s: byte, root: byte): TxMap {
    TxMap(s, Tag((100 + s as int) % 256), Tag(root), 0, 0, 0, 0, 0, [])
  }

  /** The first delta also drops leaf 1, the second brings it back. */
  function DropAndRestore(): Chunk {
    Chunk(1, 1, 3, Tag(101), ZERO_HASH, [Root(6, 2), Middle(), LeafNode(1), LeafNode(2)],
          [LedgerDelta(2, Diff([Root(7, 3), LeafNode(3)], [Tag(6), Tag(2), Tag(1)])),
           LedgerDelta(3, Diff([Root(8, 4), LeafNode(4), LeafNode(1)], [Tag(7), Tag(3)]))],
          [LedgerMap(1, 6), LedgerMap(2, 7), LedgerMap(3, 8)])
  }

  lemma Apart(a: byte, b: byte)
    requires a != b
    ensures Tag(a) != Tag(b)
  {
    assert Tag(a)[31] == a && Tag(b)[31] == b;
  }

  lemma PreimageBytes(x: byte, y: byte)
    ensures
      var s: Slots := EmptySlots()[0 := Tag(x)][1 := Tag(y)];
      var p := PREFIX_INNER_NODE + Concat(s);
      |p| == 516 && p[35] == x && p[67] == y
  {
    hide Concat;
    var s: Slots := EmptySlots()[0 := Tag(x)][1 := Tag(y)];
    var content := Concat(s);
    ConcatSlot(s, 0);
    ConcatSlot(s, 1);
    assert content[31] == content[0..32][31] == Tag(x)[31];
    assert content[63] == content[32..64][31] == Tag(y)[31];
    assert (PREFIX_INNER_NODE + content)[35] == content[31] && (PREFIX_INNER_NODE + content)[67] == content[63];
  }

  lemma InnerHashes(b: byte, x: byte, y: byte)
    requires (x == 1 && b == 5) || (x != 1 && b == (4 + y as int) % 256)
    ensures SelfHashed(TagHash, InnerNode(b, Tag(x), Tag(y)))
    ensures Children(InnerNode(b, Tag(x), Tag(y))) == Success(EmptySlots()[0 := Tag(x)][1 := Tag(y)])
  {
    hide Concat, Tag, FullChildren;
    PreimageBytes(x, y);
    FullChildrenOfConcat(EmptySlots()[0 := Tag(x)][1 := Tag(y)]);
  }

  /** The three states of the replay. */
  function First(): NodeMap {
    map[Tag(6) := Root(6, 2), Tag(5) := Middle(), Tag(1) := LeafNode(1), Tag(2) := LeafNode(2)]
  }

  function Second(): NodeMap {
    map[Tag(5) := Middle(), Tag(7) := Root(7, 3), Tag(3) := LeafNode(3)]
  }

  function Third(): NodeMap {
    map[Tag(5) := Middle(), Tag(8) := Root(8, 4), Tag(4) := LeafNode(4), Tag(1) := LeafNode(1)]
  }

  lemma InsertTwo(m: NodeMap, a: Node, b: Node)
    ensures InsertAll(m, [a, b]) == m[a.hash := a][b.hash := b]
  {
    assert [a, b][..1] == [a] && [a][..0] == [];
    assert InsertAll(m, [a]) == InsertAll(m, [])[a.hash := a];
  }

  lemma InsertThree(m: NodeMap, a: Node, b: Node, c: Node)
    ensures InsertAll(m, [a, b, c]) == m[a.hash := a][b.hash := b][c.hash := c]
  {
    InsertTwo(m, a, b);
    assert [a, b, c][..2] == [a, b];
  }

  lemma FirstIs()
    ensures StateOf(DropAndRestore().checkpoint) == First()
  {
    hide Tag, InnerNode;
    var ns := DropAndRestore().checkpoint;
    InsertThree(map[], Root(6, 2), Middle(), LeafNode(1));
    assert ns[..3] == [Root(6, 2), Middle(), LeafNode(1)];
    InnerHash(6, 5, 2);
    InnerHash(5, 1, 0);
  }

  lemma InnerHash(b: byte, x: byte, y: byte)
    ensures InnerNode(b, Tag(x), Tag(y)).hash == Tag(b)
  {
  }

  lemma SecondIs()
    ensures Applied(First(), DropAndRestore().deltas[0].diff) == Second()
  {
    hide Tag, InnerNode, InsertAll;
    InnerHash(7, 5, 3);
    assert RemoveAll(First(), [Tag(6), Tag(2), Tag(1)]) == map[Tag(5) := Middle()];
    InsertTwo(map[Tag(5) := Middle()], Root(7, 3), LeafNode(3));
  }

  lemma ThirdIs()
    ensures Applied(Second(), DropAndRestore().deltas[1].diff) == Third()
  {
    hide Tag, InnerNode, InsertAll;
    InnerHash(8, 5, 4);
    assert RemoveAll(Second(), [Tag(7), Tag(3)]) == map[Tag(5) := Middle()];
    InsertThree(map[Tag(5) := Middle()], Root(8, 4), LeafNode(4), LeafNode(1));
  }

  /** A state with a root, the middle node, its leaf and the root's leaf is complete. */
  lemma FullStateChecks(m: NodeMap, root: byte, leaf: byte)
    requires |m| == 4 && HasInner(m, root, 5, leaf) && HasInner(m, 5, 1, 0) && HasLeaf(m, 1) && HasLeaf(m, leaf)
    requires root != 0 && leaf != 0
    ensures CheckedAt(m, Tag(root))
  {
    var x := LeafIn(m, 1);
    var y := LeafIn(m, leaf);
    var middle := BranchIn(m, 5, 1, 0, x, Nil);
    var t := BranchIn(m, root, 5, leaf, middle, y);
    SizeIsOcc(t);
    assert |Occ(t)| == 4;
    assert Unfolds(m, Tag(root), t) && TreeComplete(m, t);
  }

  lemma FirstChecks()
    ensures CheckedAt(First(), Tag(6)) && Tag(6) in First()
  {
    hide Tag, InnerNode;
    assert |First()| == 4;
    FullStateChecks(First(), 6, 2);
  }

  lemma ThirdChecks()
    ensures CheckedAt(Third(), Tag(8))
  {
    hide Tag, InnerNode;
    assert |Third()| == 4;
    FullStateChecks(Third(), 8, 4);
  }

  /** What an inner node with two children unfolds to. */
  lemma InnerAt(m: NodeMap, b: byte, x: byte, y: byte, t: Tree)
    requires HasInner(m, b, x, y) && Unfolds(m, Tag(b), t)
    ensures t.Branch? && |t.kids| == 16 && SlotUnfolds(m, Tag(x), t.kids[0])
  {
    var s: Slots := EmptySlots()[0 := Tag(x)][1 := Tag(y)];
    FullChildrenOfConcat(s);
    assert Children(m[Tag(b)]) == Success(s);
  }

  /** In the second state the middle node's leaf is missing. */
  lemma SecondIncomplete(t: Tree)
    requires Unfolds(Second(), Tag(7), t)
    ensures !Complete(t)
  {
    hide Tag, InnerNode, Unfolds;
    var m := Second();
    InnerAt(m, 7, 5, 3, t);
    Apart(5, 0);
    InnerAt(m, 5, 1, 0, t.kids[0]);
    MissingLeaf(m, t.kids[0].kids[0]);
  }

  lemma MissingLeaf(m: NodeMap, t: Tree)
    requires Tag(1) !in m && SlotUnfolds(m, Tag(1), t)
    ensures !Complete(t)
  {
  }

  // ---------------------------------------------------------------------------------------------
  // The replay

  lemma EmptyTxs()
    ensures TxTreeOf(TagHash, []) == Success(Nil) && TxNodes(TagHash, []) == []
  {
  }

  lemma HeaderHash(h: LedgerHeader)
    requires h.seqNo < 256
    ensures LedgerHash(TagHash, h) == Tag((100 + h.seqNo) % 256)
  {
    var bytes122 := HeaderObject(h);
    assert |bytes122| == 122;
    LastByte(h.seqNo);
    assert bytes122[7] == ToBE(4, h.seqNo)[3];
  }

  lemma LastByte(v: nat)
    ensures ToBE(4, v)[3] == v % 256
  {
  }

  lemma LeafHashes(b: byte)
    ensures SelfHashed(TagHash, LeafNode(b))
  {
  }

  lemma Starts()
    ensures Started(TagHash, true, DropAndRestore().checkpoint, LedgerMap(1, 6)).Success?
    ensures
      var v := Started(TagHash, true, DropAndRestore().checkpoint, LedgerMap(1, 6)).value;
      v.state == First() && v.root == Tag(6) && v.prevHash == Tag(101)
  {
    hide InsertAll, CheckedAt, AllSelfHashed, TxTreeOf, TxNodes, InnerNode, Tag, First;
    FirstIs();
    FirstChecks();
    EmptyTxs();
    CheckpointGenuine();
  }

  lemma CheckpointGenuine()
    ensures AllSelfHashed(TagHash, DropAndRestore().checkpoint)
  {
    hide SelfHashed, InnerNode, Tag;
    InnerHashes(6, 5, 2);
    InnerHashes(5, 1, 0);
    LeafHashes(1);
    LeafHashes(2);
  }

  /** One ledger of the replay, whose delta brings the new root first and leaves behind it. */
  lemma LedgerStep(v: Live, d: LedgerDelta, t: TxMap, next: NodeMap, root: byte, leaf: byte)
    requires 0 < leaf && root == (4 + leaf as int) % 256 && root != 0
    requires d.ledgerSeq < 256 && t == LedgerMap(d.ledgerSeq, root) && Applied(v.state, d.diff) == next
    requires DeletedHeld(v.state, d.diff.deleted)
    requires |d.diff.added| > 0 && d.diff.added[0] == Root(root, leaf)
    requires forall i :: 0 < i < |d.diff.added| ==> d.diff.added[i] == LeafNode(leaf) || d.diff.added[i] == LeafNode(1)
    requires Tag(5) in next && Tag(leaf) in next
    requires NewRoot(d.diff.added, v.root) == Success(Tag(root))
    ensures
      var r := Stepped(TagHash, true, v, d, t);
      r.Success? && r.value.state == next && r.value.root == Tag(root)
  {
    hide InsertAll, SelfHashed, TxTreeOf, TxNodes, InnerNode, Tag, NewRoot, LedgerHash;
    EmptyTxs();
    InnerHashes(root, 5, leaf);
    LeafHashes(1);
    LeafHashes(leaf);
    HeaderHash(HeaderOf(t, v.prevHash, ZERO_HASH, Tag(root)));
  }

  /** A root in front of leaves is the one unreferenced inner node. */
  lemma {:induction false} RootInFront(all: seq<Node>, ns: seq<Node>, root: byte, leaf: byte)
    requires 0 < |ns| && ns[0] == Root(root, leaf) && forall i :: 0 < i < |ns| ==> !IsInner(ns[i].nodeType)
    requires !Referenced(all, Tag(root))
    ensures Unreferenced(all, ns) == [Tag(root)]
  {
    hide Referenced, Tag;
    if |ns| > 1 {
      RootInFront(all, ns[..|ns| - 1], root, leaf);
    } else {
      assert ns[..0] == [];
      assert Root(root, leaf).nodeType.Inner? && Root(root, leaf).hash == Tag(root);
    }
  }

  lemma RootFound(added: seq<Node>, prev: Hash256, root: byte, leaf: byte)
    requires 0 < |added| && added[0] == Root(root, leaf) && forall i :: 0 < i < |added| ==> !IsInner(added[i].nodeType)
    requires root > 5 && leaf < root
    ensures NewRoot(added, prev) == Success(Tag(root))
  {
    Apart(root, 5);
    Apart(root, leaf);
    Apart(root, 0);
    NotReferenced(added, root, leaf);
    RootInFront(added, added, root, leaf);
  }

  lemma NotReferenced(added: seq<Node>, root: byte, leaf: byte)
    requires 0 < |added| && added[0] == Root(root, leaf) && forall i :: 0 < i < |added| ==> !IsInner(added[i].nodeType)
    requires Tag(root) != Tag(5) && Tag(root) != Tag(leaf) && Tag(root) != ZERO_HASH
    ensures !Referenced(added, Tag(root))
  {
    RootRefersToOthers(root, leaf);
    forall p | p in added ensures !RefersTo(p, Tag(root)) {
      assert p == Root(root, leaf) || !IsInner(p.nodeType);
    }
  }

  lemma RootRefersToOthers(root: byte, leaf: byte)
    requires Tag(root) != Tag(5) && Tag(root) != Tag(leaf) && Tag(root) != ZERO_HASH
    ensures !RefersTo(Root(root, leaf), Tag(root))
  {
    var s: Slots := EmptySlots()[0 := Tag(5)][1 := Tag(leaf)];
    FullChildrenOfConcat(s);
    assert FullChildren(Root(root, leaf).content) == Success(s);
  }

  lemma SecondStep(v: Live)
    requires v.state == First()
    ensures
      var c := DropAndRestore();
      var r := Stepped(TagHash, true, v, c.deltas[0], c.txMaps[1]);
      r.Success? && r.value.state == Second() && r.value.root == Tag(7)
  {
    hide InsertAll, Stepped, NewRoot, InnerNode, Tag;
    var d := DropAndRestore().deltas[0];
    SecondIs();
    LeafIsLeaf(3);
    RootFound(d.diff.added, v.root, 7, 3);
    LedgerStep(v, d, LedgerMap(2, 7), Second(), 7, 3);
  }

  lemma ThirdStep(v: Live)
    requires v.state == Second()
    ensures
      var c := DropAndRestore();
      var r := Stepped(TagHash, true, v, c.deltas[1], c.txMaps[2]);
      r.Success? && r.value.state == Third() && r.value.root == Tag(8)
  {
    hide InsertAll, Stepped, NewRoot, InnerNode, Tag;
    var d := DropAndRestore().deltas[1];
    ThirdIs();
    LeafIsLeaf(4);
    LeafIsLeaf(1);
    RootFound(d.diff.added, v.root, 8, 4);
    LedgerStep(v, d, LedgerMap(3, 8), Third(), 8, 4);
  }

  lemma LeafIsLeaf(b: byte)
    ensures !IsInner(LeafNode(b).nodeType)
  {
  }

  /**
   * Verified replay accepts a chunk although the tree of the ledger in its middle is incomplete: the
   * checks at the two ends do not reach it.
   */
  lemma MiddleLedgerIncomplete() returns (sha: Sha, c: Chunk, start: Live, middle: Live)
    ensures Replayed(sha, true, c).Success?
    ensures |c.txMaps| == |c.deltas| + 1 == 3
    ensures Started(sha, true, c.checkpoint, c.txMaps[0]) == Success(start)
    ensures Stepped(sha, true, start, c.deltas[0], c.txMaps[1]) == Success(middle)
    ensures forall t :: Unfolds(middle.state, middle.root, t) ==> !Complete(t)
  {
    hide Started, Stepped, CheckedAt, First, Second, Third, Tag, Unfolds, Complete;
    sha, c := TagHash, DropAndRestore();
    Starts();
    start := Started(sha, true, c.checkpoint, c.txMaps[0]).value;
    SecondStep(start);
    middle := Stepped(sha, true, start, c.deltas[0], c.txMaps[1]).value;
    ThirdStep(middle);
    ThirdChecks();
    forall t | Unfolds(middle.state, middle.root, t) ensures !Complete(t) {
      SecondIncomplete(t);
    }
    assert c.deltas[1..][0] == c.deltas[1] && c.deltas[1..][1..] == [];
    assert c.txMaps[1..][0] == c.txMaps[1] && c.txMaps[1..][1..][0] == c.txMaps[2];
    var last := Stepped(sha, true, middle, c.deltas[1], c.txMaps[2]).value;
    assert Steps(sha, true, last, [], []) == Success(last);
    assert Steps(sha, true, middle, c.deltas[1..], c.txMaps[1..][1..]) == Success(last);
    assert Steps(sha, true, start, c.deltas, c.txMaps[1..]) == Success(last);
  }

  /** Every node of the chunk, once. */
  function InPlay(): (ns: seq<Node>)
    ensures |ns| == 8
  {
    [LeafNode(1), LeafNode(2), LeafNode(3), LeafNode(4), Middle(), Root(6, 2), Root(7, 3), Root(8, 4)]
  }

  function NumberOf(i: nat): byte
    requires i < 8
  {
    i + 1
  }

  /** The hash keeps all that it is applied to apart: the nodes, and the headers of the two ledgers. */
  lemma NothingCollides(second: LedgerHeader, third: LedgerHeader)
    requires second.seqNo == 2 && third.seqNo == 3
    ensures forall i :: 0 <= i < 8 ==> InPlay()[i].hash == Tag(NumberOf(i))
    ensures forall i, j :: 0 <= i < j < 8 ==> InPlay()[i].hash != InPlay()[j].hash
    ensures LedgerHash(TagHash, second) == Tag(102) && LedgerHash(TagHash, third) == Tag(103) && Tag(102) != Tag(103)
    ensures forall i :: 0 <= i < 8 ==> InPlay()[i].hash != Tag(102) && InPlay()[i].hash != Tag(103)
  {
    hide InPlay, Tag;
    HeaderHash(second);
    HeaderHash(third);
    PlayHashes();
    Apart(102, 103);
    forall i, j | 0 <= i < j < 8 ensures InPlay()[i].hash != InPlay()[j].hash {
      Apart(NumberOf(i), NumberOf(j));
    }
    forall i | 0 <= i < 8 ensures InPlay()[i].hash != Tag(102) && InPlay()[i].hash != Tag(103) {
      Apart(NumberOf(i), 102);
      Apart(NumberOf(i), 103);
    }
  }

  lemma PlayHashes()
    ensures forall i :: 0 <= i < 8 ==> InPlay()[i].hash == Tag(NumberOf(i))
  {
    hide Tag, InnerNode;
    InnerHash(5, 1, 0);
    InnerHash(6, 5, 2);
    InnerHash(7, 5, 3);
    InnerHash(8, 5, 4);
  }

  // ---------------------------------------------------------------------------------------------
  // Closure is more than completeness

  /** The new root holds one new leaf only. Nothing reaches node 5 any more, and its leaf is dropped. */
  function LeaveBehind(): Diff {
    Diff([InnerNode(7, Tag(3), Tag(0)), LeafNode(3)], [Tag(6), Tag(2), Tag(1)])
  }

  function LeftBehind(): NodeMap {
    map[Tag(5) := Middle(), Tag(7) := InnerNode(7, Tag(3), Tag(0)), Tag(3) := LeafNode(3)]
  }

  lemma LeftBehindIs()
    ensures Applied(First(), LeaveBehind()) == LeftBehind()
  {
    hide Tag, InnerNode, InsertAll;
    InnerHash(7, 3, 0);
    assert RemoveAll(First(), [Tag(6), Tag(2), Tag(1)]) == map[Tag(5) := Middle()];
    InsertTwo(map[Tag(5) := Middle()], InnerNode(7, Tag(3), Tag(0)), LeafNode(3));
  }

  /** The nonzero children of an inner node with two slots filled. */
  lemma TwoChildren(b: byte, x: byte, y: byte, c: Hash256)
    ensures Children(InnerNode(b, Tag(x), Tag(y))).Success?
    ensures c in Children(InnerNode(b, Tag(x), Tag(y))).value && c != ZERO_HASH ==> c == Tag(x) || c == Tag(y)
    ensures Tag(x) in Children(InnerNode(b, Tag(x), Tag(y))).value
    ensures IsInner(InnerNode(b, Tag(x), Tag(y)).nodeType)
  {
    var s: Slots := EmptySlots()[0 := Tag(x)][1 := Tag(y)];
    FullChildrenOfConcat(s);
    assert s[0] == Tag(x);
    if c in s {
      var i :| 0 <= i < 16 && s[i] == c;
    }
  }

  lemma ZeroTag()
    ensures Tag(0) == ZERO_HASH
  {
  }

  lemma FirstClosed()
    ensures IntermediateLedgers.Closed(First())
  {
    hide Tag, InnerNode, Children;
    ZeroTag();
    TwoChildren(6, 5, 2, Tag(0));
    TwoChildren(5, 1, 0, Tag(0));
    forall c ensures c in Children(Root(6, 2)).value && c != ZERO_HASH ==> c in First() {
      TwoChildren(6, 5, 2, c);
    }
    forall c ensures c in Children(Middle()).value && c != ZERO_HASH ==> c in First() {
      TwoChildren(5, 1, 0, c);
    }
    assert IntermediateLedgers.ChildrenIn(First(), Root(6, 2)) && IntermediateLedgers.ChildrenIn(First(), Middle());
    LeafIsLeaf(1);
    LeafIsLeaf(2);
  }

  lemma NewTreeHeld()
    ensures IntermediateLedgers.TreeHeld(LeftBehind(), Tag(7)) && ChildrenHeld(LeftBehind(), LeaveBehind().added)
  {
    hide Tag, InnerNode, Children, Reach;
    ZeroTag();
    LeafIsLeaf(3);
    var m, root := LeftBehind(), InnerNode(7, Tag(3), Tag(0));
    Apart(7, 5);
    Apart(7, 3);
    Apart(3, 5);
    TwoChildren(7, 3, 0, Tag(0));
    forall c ensures c in Children(root).value && c != ZERO_HASH ==> c == Tag(3) {
      TwoChildren(7, 3, 0, c);
    }
    ClosedHoldsReach(m, Tag(7), {Tag(7), Tag(3)});
  }

  /**
   * A step that leaves a complete tree but not a closed state: what it leaves dangling is a node that
   * the new root does not reach. So closure is sufficient for a complete tree, and not necessary.
   */
  lemma CompleteThoughNotClosed()
    ensures
      var m, d := First(), LeaveBehind();
      && IntermediateLedgers.Closed(m) && DeletedHeld(m, d.deleted) && ChildrenHeld(Applied(m, d), d.added)
      && IntermediateLedgers.TreeHeld(Applied(m, d), Tag(7)) && !IntermediateLedgers.KeepsReferences(m, d)
  {
    hide Tag, InnerNode, Children;
    FirstClosed();
    LeftBehindIs();
    NewTreeHeld();
    ZeroTag();
    Apart(1, 0);
    Apart(1, 7);
    Apart(1, 3);
    Apart(5, 6);
    Apart(5, 2);
    Apart(5, 1);
    Apart(5, 7);
    Apart(5, 3);
    TwoChildren(5, 1, 0, Tag(1));
    InnerHash(7, 3, 0);
    assert First()[Tag(5)] == Middle();
    assert HashesOf(LeaveBehind().added) == [Tag(7), Tag(3)];
    assert Linked(First(), Tag(5), Tag(1)) && IntermediateLedgers.Untouched(First(), LeaveBehind(), Tag(5));
  }
}
