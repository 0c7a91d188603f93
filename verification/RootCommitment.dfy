/**
 * How far the last account hash commits a verified chunk to its ledger's state.
 *
 * A leaf is hashed as it stands, an inner node behind a prefix. A leaf whose content is an inner node's
 * prefix and content therefore has that node's hash, and replay accepts it in the inner node's place:
 * `ForgedChunkAccepted` shows the chunk. `RootCommitsIff` and `VerifiedStateIff` say exactly when the
 * tree and the state are those the root hash stands for.
 */
module RootCommitment {
  import opened Prelude
  import opened SHAMap
  import opened ApplyDiff
  import opened Walks
  import opened TxTree
  import opened ChunkFormat
  import opened Replay
  import opened ReplayProofs

  /** No two different preimages of nodes in play have the same hash. */
  ghost predicate CollisionFree(sha: Sha, a: NodeMap, b: NodeMap) {
    forall g, h :: g in a && h in b && sha(Preimage(a[g])) == sha(Preimage(b[h])) ==> Preimage(a[g]) == Preimage(b[h])
  }

  /** No leaf's content starts like the preimage of an inner node. */
  ghost predicate LeavesTagged(m: NodeMap) {
    forall h :: h in m && !IsInner(m[h].nodeType) ==> !(PREFIX_INNER_NODE <= m[h].content)
  }

  /** The same hashes with the same contents at the same positions. */
  ghost predicate SameTree(a: Tree, b: Tree)
    decreases a
  {
    match (a, b)
    case (Nil, Nil) => true
    case (Leaf(m), Leaf(n)) => m.hash == n.hash && m.content == n.content
    case (Branch(m, ks), Branch(n, ls)) =>
      && m.hash == n.hash && m.content == n.content && m.nodeType == n.nodeType && |ks| == |ls|
      && forall i :: 0 <= i < |ks| ==> SameTree(ks[i], ls[i])
    case (_, _) => false
  }

  /** Nor does that of any leaf of the tree. */
  ghost predicate TreeTagged(t: Tree)
    decreases t
  {
    match t
    case Nil => true
    case Absent(_) => true
    case Corrupt(_) => true
    case Leaf(n) => !(PREFIX_INNER_NODE <= n.content)
    case Branch(_, kids) => forall i :: 0 <= i < |kids| ==> TreeTagged(kids[i])
  }

  lemma SamePreimage(a: Node, b: Node)
    requires Preimage(a) == Preimage(b)
    requires !IsInner(a.nodeType) ==> !(PREFIX_INNER_NODE <= a.content)
    requires !IsInner(b.nodeType) ==> !(PREFIX_INNER_NODE <= b.content)
    requires IsInner(a.nodeType) ==> Children(a).Success?
    requires IsInner(b.nodeType) ==> Children(b).Success?
    ensures IsInner(a.nodeType) <==> IsInner(b.nodeType)
    ensures a.content == b.content
    ensures IsInner(a.nodeType) ==> a.nodeType == b.nodeType
  {
    if IsInner(a.nodeType) {
      assert PREFIX_INNER_NODE <= Preimage(a);
    }
    if IsInner(b.nodeType) {
      assert PREFIX_INNER_NODE <= Preimage(b);
    }
    if IsInner(a.nodeType) && IsInner(b.nodeType) {
      AppendInjective(PREFIX_INNER_NODE, a.content, PREFIX_INNER_NODE, b.content);
    }
  }

  lemma {:induction false} SameTreeTagged(a: Tree, b: Tree)
    requires SameTree(a, b) && TreeTagged(b)
    ensures TreeTagged(a)
    decreases a
  {
    if a.Branch? {
      forall i | 0 <= i < |a.kids| ensures TreeTagged(a.kids[i]) {
        SameTreeTagged(a.kids[i], b.kids[i]);
      }
    }
  }

  lemma {:induction false} TaggedRootCommits(sha: Sha, ma: NodeMap, mb: NodeMap, h: Hash256, a: Tree, b: Tree)
    requires SelfHashedMap(sha, ma) && SelfHashedMap(sha, mb) && CollisionFree(sha, ma, mb)
    requires SlotUnfolds(ma, h, a) && SlotUnfolds(mb, h, b) && Complete(a) && Complete(b)
    requires TreeTagged(a) && TreeTagged(b)
    ensures SameTree(a, b)
    decreases a
  {
    if h != ZERO_HASH {
      assert Holds(ma, h, a.node) && Holds(mb, h, b.node);
      SamePreimage(a.node, b.node);
      if a.Branch? {
        BranchParts(ma, h, a);
        BranchParts(mb, h, b);
        assert Children(a.node) == Children(b.node);
        forall i | 0 <= i < 16 ensures SameTree(a.kids[i], b.kids[i]) {
          TaggedRootCommits(sha, ma, mb, Children(a.node).value[i], a.kids[i], b.kids[i]);
        }
      }
    }
  }

  /**
   * A complete self-hashed tree is the tree its root hash stands for exactly when none of its leaves
   * starts like an inner node. A full and a compressed inner node cannot be confused: one has 512
   * bytes, the other a multiple of 33.
   */
  lemma RootCommitsIff(sha: Sha, ma: NodeMap, mb: NodeMap, h: Hash256, a: Tree, b: Tree)
    requires SelfHashedMap(sha, ma) && SelfHashedMap(sha, mb) && CollisionFree(sha, ma, mb)
    requires SlotUnfolds(ma, h, a) && SlotUnfolds(mb, h, b) && Complete(a) && Complete(b) && TreeTagged(b)
    ensures SameTree(a, b) <==> TreeTagged(a)
  {
    if TreeTagged(a) {
      TaggedRootCommits(sha, ma, mb, h, a, b);
    } else if SameTree(a, b) {
      SameTreeTagged(a, b);
    }
  }

  lemma {:induction false} SameTreeOcc(a: Tree, b: Tree)
    requires SameTree(a, b)
    ensures Occ(a) == Occ(b)
    decreases a, 1
  {
    if a.Branch? {
      SameKidsOcc(a.kids, b.kids, |a.kids|);
    }
  }

  lemma {:induction false} SameKidsOcc(ks: seq<Tree>, ls: seq<Tree>, k: nat)
    requires k <= |ks| == |ls| && forall i :: 0 <= i < |ks| ==> SameTree(ks[i], ls[i])
    ensures OccKids(ks, k) == OccKids(ls, k)
    decreases ks, k
  {
    if k > 0 {
      SameKidsOcc(ks, ls, k - 1);
      SameTreeOcc(ks[k - 1], ls[k - 1]);
    }
  }

  // ---------------------------------------------------------------------------------------------
  // The state of a verified chunk

  /** `state` holds every node of `t`, with the contents `truth` has for it, and nothing else. */
  ghost predicate HoldsExactly(state: NodeMap, truth: NodeMap, t: Tree) {
    && (forall h :: h in state <==> h in Occ(t))
    && forall h :: h in state ==> h in truth && state[h].content == truth[h].content
  }

  lemma {:induction false} LeavesTagTree(m: NodeMap, h: Hash256, t: Tree)
    requires SlotUnfolds(m, h, t) && LeavesTagged(m)
    ensures TreeTagged(t)
    decreases t
  {
    if t.Branch? {
      BranchParts(m, h, t);
      forall i | 0 <= i < 16 ensures TreeTagged(t.kids[i]) {
        LeavesTagTree(m, Children(t.node).value[i], t.kids[i]);
      }
    }
  }

  lemma {:induction false} WithinTagged(u: Tree, t: Tree)
    requires Within(u, t) && TreeTagged(t)
    ensures TreeTagged(u)
    decreases t
  {
    if u != t {
      var i :| 0 <= i < |t.kids| && Within(u, t.kids[i]);
      WithinTagged(u, t.kids[i]);
    }
  }

  lemma SameContentAt(sha: Sha, ma: NodeMap, mb: NodeMap, root: Hash256, a: Tree, b: Tree, h: Hash256)
    requires SelfHashedMap(sha, ma) && SelfHashedMap(sha, mb) && CollisionFree(sha, ma, mb)
    requires Unfolds(ma, root, a) && Unfolds(mb, root, b) && Complete(a) && Complete(b)
    requires TreeTagged(a) && TreeTagged(b) && h in Occ(a) && h in Occ(b)
    ensures h in ma && h in mb && ma[h].content == mb[h].content
  {
    hide SelfHashedMap, CollisionFree, TreeTagged;
    var x := SubtreeAt(ma, root, a, h);
    var y := SubtreeAt(mb, root, b, h);
    WithinOcc(x, a);
    WithinOcc(y, b);
    WithinTagged(x, a);
    WithinTagged(y, b);
    SameHashSameContent(sha, ma, mb, h, x, y);
  }

  lemma SameHashSameContent(sha: Sha, ma: NodeMap, mb: NodeMap, h: Hash256, x: Tree, y: Tree)
    requires SelfHashedMap(sha, ma) && SelfHashedMap(sha, mb) && CollisionFree(sha, ma, mb)
    requires Unfolds(ma, h, x) && Unfolds(mb, h, y) && Complete(x) && Complete(y)
    requires TreeTagged(x) && TreeTagged(y)
    ensures h in ma && h in mb && ma[h].content == mb[h].content
  {
    SamePreimage(x.node, y.node);
  }

  /**
   * A node with the content and the hash of a genuine one is a leaf that starts like an inner node only if
   * that one is.
   */
  lemma SameContentTagged(sha: Sha, ma: NodeMap, mb: NodeMap, h: Hash256, y: Tree)
    requires SelfHashedMap(sha, ma) && SelfHashedMap(sha, mb) && CollisionFree(sha, ma, mb)
    requires Unfolds(mb, h, y) && TreeTagged(y) && Complete(y) && h in ma && ma[h].content == mb[h].content
    ensures !IsInner(ma[h].nodeType) ==> !(PREFIX_INNER_NODE <= ma[h].content)
  {
    SameKind(ma[h], mb[h]);
  }

  /** With one content and one preimage both are inner nodes or both are leaves: the prefix makes a difference. */
  lemma SameKind(a: Node, b: Node)
    requires a.content == b.content && Preimage(a) == Preimage(b)
    ensures IsInner(a.nodeType) <==> IsInner(b.nodeType)
  {
    assert |PREFIX_INNER_NODE + a.content| == |a.content| + 4;
  }

  lemma TaggedStateHolds(sha: Sha, ma: NodeMap, mb: NodeMap, root: Hash256, a: Tree, b: Tree)
    requires SelfHashedMap(sha, ma) && SelfHashedMap(sha, mb) && CollisionFree(sha, ma, mb)
    requires Unfolds(ma, root, a) && Unfolds(mb, root, b) && Complete(a) && Complete(b)
    requires TreeTagged(a) && TreeTagged(b) && NoDup(b) && root != ZERO_HASH
    requires (forall h :: h in Occ(a) ==> h in ma) && (NoDup(a) ==> forall h :: h in ma ==> h in Occ(a))
    ensures HoldsExactly(ma, mb, b)
  {
    hide SelfHashedMap, CollisionFree, TreeTagged, Complete, Unfolds, SameTree, Occ;
    TaggedRootCommits(sha, ma, mb, root, a, b);
    SameTreeOcc(a, b);
    forall h | h in ma ensures h in mb && ma[h].content == mb[h].content {
      SameContentAt(sha, ma, mb, root, a, b, h);
    }
  }

  /** What is left of a chunk's own nodes, deletions and additions made in order, without any check. */
  function FinalState(c: Chunk): NodeMap {
    AfterDeltas(StateOf(c.checkpoint), c.deltas)
  }

  function AfterDeltas(m: NodeMap, ds: seq<LedgerDelta>): NodeMap
    decreases |ds|
  {
    if ds == [] then m else AfterDeltas(Applied(m, ds[0].diff), ds[1..])
  }

  lemma {:induction false} StepsLeave(sha: Sha, verify: bool, s: Live, ds: seq<LedgerDelta>, ts: seq<TxMap>)
    requires Steps(sha, verify, s, ds, ts).Success?
    ensures Steps(sha, verify, s, ds, ts).value.state == AfterDeltas(s.state, ds)
    decreases |ds|
  {
    hide Applied, DeletedHeld, ChildrenHeld, LedgerVerified, TxTreeOf, TxNodes;
    if ds != [] {
      StepsLeave(sha, verify, Stepped(sha, verify, s, ds[0], ts[0]).value, ds[1..], ts[1..]);
    }
  }

  /** Replay ends in just that state. */
  lemma ReplayLeaves(sha: Sha, verify: bool, c: Chunk)
    requires Replayed(sha, verify, c).Success?
    ensures Replayed(sha, verify, c).value.state == FinalState(c)
  {
    hide Steps, CheckedAt, AllSelfHashed, TxTreeOf, TxNodes, InsertAll;
    var start := Started(sha, verify, c.checkpoint, c.txMaps[0]).value;
    StepsLeave(sha, verify, start, c.deltas, c.txMaps[1..]);
  }

  /**
   * A verified chunk ends in exactly the nodes, with their contents, of the tree its last account hash
   * stands for if and only if no leaf that its lists leave in the end starts like an inner node. That can
   * be read off the chunk before it is replayed.
   */
  lemma VerifiedStateIff(sha: Sha, c: Chunk, r: Live, truth: NodeMap, t: Tree)
    requires Replayed(sha, true, c) == Success(r) && |c.deltas| < |c.txMaps| && LastAccountHash(c) != ZERO_HASH
    requires Unfolds(truth, LastAccountHash(c), t) && Complete(t) && NoDup(t) && TreeTagged(t)
    requires SelfHashedMap(sha, truth) && CollisionFree(sha, FinalState(c), truth)
    ensures HoldsExactly(r.state, truth, t) <==> LeavesTagged(FinalState(c))
  {
    ReplayLeaves(sha, true, c);
    VerifiedReplay(sha, c, r);
    hide Replayed, FinalState, SelfHashedMap, CollisionFree, Chained, RowsSound, Authentic, Occ, Complete, Unfolds,
         TreeTagged, NoDup;
    var root := LastAccountHash(c);
    var u :| IsStateTree(r.state, root, u);
    if LeavesTagged(r.state) {
      TreeOfState(r.state, root, u);
      TaggedStateHolds(sha, r.state, truth, root, u, t);
    }
    if HoldsExactly(r.state, truth, t) {
      forall h | h in r.state && !IsInner(r.state[h].nodeType) ensures !(PREFIX_INNER_NODE <= r.state[h].content) {
        var y := SubtreeAt(truth, root, t, h);
        WithinOcc(y, t);
        WithinTagged(y, t);
        SameContentTagged(sha, r.state, truth, h, y);
      }
    }
  }

  lemma TreeOfState(state: NodeMap, root: Hash256, u: Tree)
    requires IsStateTree(state, root, u) && LeavesTagged(state) && root != ZERO_HASH
    ensures TreeTagged(u)
  {
    hide LeavesTagged, TreeTagged;
    LeavesTagTree(state, root, u);
  }

  // ---------------------------------------------------------------------------------------------
  // The chunk that passes for an inner node

  /** A leaf with an inner node's preimage for content. */
  function ForgedLeaf(n: Node): Node {
    Node(n.hash, AccountState, PREFIX_INNER_NODE + n.content)
  }

  /** One checkpoint node and no deltas. */
  function ForgedChunk(n: Node): Chunk {
    Chunk(1, 1, 1, ZERO_HASH, ZERO_HASH, [ForgedLeaf(n)], [],
          [TxMap(1, ZERO_HASH, n.hash, 0, 0, 0, 0, 0, [])])
  }

  /**
   * For every genuine inner node, whatever it holds, verified replay accepts a chunk whose whole state
   * is one leaf under that node's hash: nothing below the node is in it.
   */
  lemma ForgedChunkAccepted(sha: Sha, n: Node)
    requires IsInner(n.nodeType) && SelfHashed(sha, n)
    ensures
      var c := ForgedChunk(n);
      var r := Replayed(sha, true, c);
      LastAccountHash(c) == n.hash && r.Success? && r.value.state == map[n.hash := ForgedLeaf(n)]
      && !LeavesTagged(r.value.state)
  {
    var c, leaf := ForgedChunk(n), ForgedLeaf(n);
    var state := StateOf(c.checkpoint);
    assert c.checkpoint == [leaf] && [leaf][..0] == [];
    assert InsertAll(map[], []) == map[];
    assert state == map[n.hash := leaf];
    assert Unfolds(state, n.hash, Leaf(leaf)) && TreeComplete(state, Leaf(leaf));
    assert AllSelfHashed(sha, c.checkpoint);
    assert Authentic(sha, c.txMaps[0]);
    assert leaf == state[n.hash] && PREFIX_INNER_NODE <= leaf.content;
  }
}
