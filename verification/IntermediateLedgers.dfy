/**
 * The ledgers between the checkpoint and the end of a verified chunk. Replay checks that deleted nodes
 * are held and that added nodes find their children, not that unchanged nodes keep theirs. The trees
 * in between are closed under references exactly when every delta leaves those references alone.
 */
module IntermediateLedgers {
  import opened Prelude
  import opened SHAMap
  import opened TreeDiff
  import opened ApplyDiff
  import opened Walks
  import opened RootFinding
  import opened ChunkFormat
  import opened TxTree
  import opened Replay

  // ---------------------------------------------------------------------------------------------
  // Closed states

  /** Every inner node parses and its children are held. */
  ghost predicate Closed(m: NodeMap) {
    forall h :: h in m && IsInner(m[h].nodeType) ==> ChildrenIn(m, m[h])
  }

  ghost predicate ChildrenIn(m: NodeMap, n: Node) {
    Children(n).Success? && forall c :: c in Children(n).value && c != ZERO_HASH ==> c in m
  }

  /** In a closed state every tree whose root is held is complete. */
  lemma {:induction false} ClosedComplete(m: NodeMap, h: Hash256, t: Tree)
    requires Closed(m) && SlotUnfolds(m, h, t) && (h != ZERO_HASH ==> h in m)
    ensures Complete(t)
    decreases t
  {
    if t.Branch? {
      BranchParts(m, h, t);
      assert ChildrenIn(m, m[h]);
      forall i | 0 <= i < 16 ensures Complete(t.kids[i]) {
        var c := Children(t.node).value[i];
        assert c in Children(t.node).value;
        ClosedComplete(m, c, t.kids[i]);
      }
    }
  }

  /** A state that passes the completeness check without reaching a node twice is closed. */
  lemma CheckedClosed(m: NodeMap, root: Hash256, t: Tree)
    requires Unfolds(m, root, t) && TreeComplete(m, t) && NoDup(t)
    ensures Closed(m) && root in m
  {
    hide TreeComplete, NoDup, Unfolds;
    CheckedReached(m, root, t);
    forall h | h in m && IsInner(m[h].nodeType) ensures ChildrenIn(m, m[h]) {
      assert Usable(m, h);
      forall c | c in Children(m[h]).value && c != ZERO_HASH ensures c in m {
        assert Linked(m, h, c);
        ReachStep(m, root, h, c);
        assert Usable(m, c);
      }
    }
    ReachRoot(m, root);
    assert Usable(m, root);
  }

  lemma CheckedReached(m: NodeMap, root: Hash256, t: Tree)
    requires Unfolds(m, root, t) && TreeComplete(m, t) && NoDup(t)
    ensures forall h :: Reach(m, root, h) ==> Usable(m, h)
    ensures forall h :: h in m ==> Reach(m, root, h)
  {
    NothingExtraIff(m, root, t);
    ReachIsOcc(m, root, t);
  }

  // ---------------------------------------------------------------------------------------------
  // One delta

  /** An inner node that a delta neither deletes nor adds again. */
  ghost predicate Untouched(m: NodeMap, d: Diff, h: Hash256) {
    h in m && IsInner(m[h].nodeType) && h !in d.deleted && h !in HashesOf(d.added)
  }

  /** No untouched inner node has a child that the delta deletes and does not bring back. */
  ghost predicate KeepsReferences(m: NodeMap, d: Diff) {
    forall h, c :: Untouched(m, d, h) && Linked(m, h, c) && c in d.deleted ==> c in HashesOf(d.added)
  }

  lemma {:induction false} InsertAllAt(m: NodeMap, ns: seq<Node>, h: Hash256)
    ensures h in InsertAll(m, ns) <==> h in m || h in HashesOf(ns)
    ensures h !in HashesOf(ns) && h in m ==> InsertAll(m, ns)[h] == m[h]
    ensures h in HashesOf(ns) ==> InsertAll(m, ns)[h] in ns
  {
    if ns != [] {
      var front, last := ns[..|ns| - 1], ns[|ns| - 1];
      InsertAllAt(m, front, h);
      HashesAppend(front, [last]);
      assert ns == front + [last] && HashesOf([last]) == [last.hash];
    }
  }

  /** Which nodes a delta leaves, and where they come from. */
  lemma AppliedAt(m: NodeMap, d: Diff, h: Hash256)
    ensures
      var next := Applied(m, d);
      && (h in next <==> (h in m && h !in d.deleted) || h in HashesOf(d.added))
      && (h in next && h !in HashesOf(d.added) ==> next[h] == m[h])
      && (h in HashesOf(d.added) ==> next[h] in d.added)
  {
    InsertAllAt(RemoveAll(m, d.deleted), d.added, h);
  }

  lemma KeptChildren(m: NodeMap, d: Diff, h: Hash256)
    requires Closed(m) && KeepsReferences(m, d) && Untouched(m, d, h)
    ensures ChildrenIn(Applied(m, d), m[h])
  {
    hide Applied;
    assert ChildrenIn(m, m[h]);
    forall c | c in Children(m[h]).value && c != ZERO_HASH ensures c in Applied(m, d) {
      assert Linked(m, h, c);
      AppliedAt(m, d, c);
    }
  }

  /**
   * A delta that passes replay's check of added nodes turns a closed state into a closed state if and
   * only if no untouched inner node has a child that the delta deletes and does not bring back.
   */
  lemma StepClosedIff(m: NodeMap, d: Diff)
    requires Closed(m) && ChildrenHeld(Applied(m, d), d.added)
    ensures Closed(Applied(m, d)) <==> KeepsReferences(m, d)
  {
    hide Applied;
    var next := Applied(m, d);
    if KeepsReferences(m, d) {
      forall h | h in next && IsInner(next[h].nodeType) ensures ChildrenIn(next, next[h]) {
        AppliedAt(m, d, h);
        if h !in HashesOf(d.added) {
          KeptChildren(m, d, h);
        }
      }
    }
    if Closed(next) {
      forall h, c | Untouched(m, d, h) && Linked(m, h, c) && c in d.deleted ensures c in HashesOf(d.added) {
        AppliedAt(m, d, h);
        AppliedAt(m, d, c);
        assert ChildrenIn(next, next[h]);
      }
    }
  }

  // ---------------------------------------------------------------------------------------------
  // The tree below the root, whatever else the state holds

  /** Everything below `root` is there and parses. */
  ghost predicate TreeHeld(m: NodeMap, root: Hash256) {
    forall h :: Reach(m, root, h) ==> Usable(m, h)
  }

  lemma TreeHeldComplete(m: NodeMap, root: Hash256, t: Tree)
    requires Unfolds(m, root, t)
    ensures TreeHeld(m, root) <==> Complete(t)
  {
    ReachIsOcc(m, root, t);
  }

  /** Held after the delta. */
  ghost predicate StillHeld(m: NodeMap, d: Diff, h: Hash256) {
    (h in m && h !in d.deleted) || h in HashesOf(d.added)
  }

  /** The node parses and the delta leaves all its children in place or adds them. */
  ghost predicate KeepsChildren(m: NodeMap, d: Diff, n: Node) {
    Children(n).Success? && forall c :: c in Children(n).value && c != ZERO_HASH ==> StillHeld(m, d, c)
  }

  /** The delta keeps the children of every untouched inner node that the new root still reaches. */
  ghost predicate KeepsReached(m: NodeMap, d: Diff, root: Hash256) {
    forall h :: Reach(Applied(m, d), root, h) && Untouched(m, d, h) ==> KeepsChildren(m, d, m[h])
  }

  /** An inner node of the next state has its children there. */
  lemma ReachedChildren(m: NodeMap, d: Diff, root: Hash256, h: Hash256)
    requires ChildrenHeld(Applied(m, d), d.added) && KeepsReached(m, d, root)
    requires h in Applied(m, d) && Reach(Applied(m, d), root, h) && IsInner(Applied(m, d)[h].nodeType)
    ensures ChildrenIn(Applied(m, d), Applied(m, d)[h])
  {
    hide Applied;
    AppliedAt(m, d, h);
    if h !in HashesOf(d.added) {
      assert Untouched(m, d, h);
      forall c | c in Children(m[h]).value && c != ZERO_HASH ensures c in Applied(m, d) {
        AppliedAt(m, d, c);
      }
    }
  }

  lemma {:induction false} PathHeld(m: NodeMap, d: Diff, root: Hash256, p: seq<Hash256>, h: Hash256)
    requires ChildrenHeld(Applied(m, d), d.added) && KeepsReached(m, d, root) && root in Applied(m, d)
    requires IsPath(Applied(m, d), root, p, h)
    ensures h in Applied(m, d)
  {
    hide Applied, KeepsReached, ChildrenHeld;
    if |p| > 1 {
      var q, g := p[..|p| - 1], p[|p| - 2];
      assert IsPath(Applied(m, d), root, q, g);
      PathHeld(m, d, root, q, g);
      assert Linked(Applied(m, d), p[|p| - 2], p[|p| - 1]);
      ReachedChildren(m, d, root, g);
    }
  }

  /**
   * Exactly when a delta that passes replay's check of added nodes leaves a complete tree below `root`,
   * whatever the state before: the root is there, and every untouched inner node that the root still
   * reaches parses and has its children left in place or added.
   */
  lemma StepCompleteIff(m: NodeMap, d: Diff, root: Hash256)
    requires ChildrenHeld(Applied(m, d), d.added)
    ensures TreeHeld(Applied(m, d), root) <==> StillHeld(m, d, root) && KeepsReached(m, d, root)
  {
    hide Applied, ChildrenHeld;
    var next := Applied(m, d);
    AppliedAt(m, d, root);
    if TreeHeld(next, root) {
      ReachRoot(next, root);
      assert Usable(next, root);
      forall h | Reach(next, root, h) && Untouched(m, d, h) ensures KeepsChildren(m, d, m[h]) {
        HeldKeeps(m, d, root, h);
      }
    }
    if root in next && KeepsReached(m, d, root) {
      forall h | Reach(next, root, h) ensures Usable(next, h) {
        var p :| IsPath(next, root, p, h);
        PathHeld(m, d, root, p, h);
        if IsInner(next[h].nodeType) {
          ReachedChildren(m, d, root, h);
        }
      }
    }
  }

  lemma HeldKeeps(m: NodeMap, d: Diff, root: Hash256, h: Hash256)
    requires TreeHeld(Applied(m, d), root) && Reach(Applied(m, d), root, h) && Untouched(m, d, h)
    ensures KeepsChildren(m, d, m[h])
  {
    hide Applied;
    var next := Applied(m, d);
    AppliedAt(m, d, h);
    assert Usable(next, h);
    forall c | c in Children(m[h]).value && c != ZERO_HASH ensures StillHeld(m, d, c) {
      assert Linked(next, h, c);
      ReachStep(next, root, h, c);
      assert Usable(next, c);
      AppliedAt(m, d, c);
    }
  }

  /**
   * From a closed state: the tree below a held root is complete if and only if no untouched inner node
   * that the root still reaches has a child that the delta deletes and does not bring back.
   */
  lemma ClosedStepCompleteIff(m: NodeMap, d: Diff, root: Hash256)
    requires Closed(m) && ChildrenHeld(Applied(m, d), d.added) && StillHeld(m, d, root)
    ensures TreeHeld(Applied(m, d), root) <==>
            forall h, c :: Reach(Applied(m, d), root, h) && Untouched(m, d, h) && Linked(m, h, c) && c in d.deleted
              ==> c in HashesOf(d.added)
  {
    hide Applied, ChildrenHeld;
    var next := Applied(m, d);
    StepCompleteIff(m, d, root);
    if KeepsReached(m, d, root) {
      forall h, c | Reach(next, root, h) && Untouched(m, d, h) && Linked(m, h, c) && c in d.deleted
        ensures c in HashesOf(d.added)
      {
        assert KeepsChildren(m, d, m[h]);
      }
    }
    if forall h, c :: Reach(next, root, h) && Untouched(m, d, h) && Linked(m, h, c) && c in d.deleted
        ==> c in HashesOf(d.added) {
      forall h | Reach(next, root, h) && Untouched(m, d, h) ensures KeepsChildren(m, d, m[h]) {
        assert ChildrenIn(m, m[h]);
        forall c | c in Children(m[h]).value && c != ZERO_HASH ensures StillHeld(m, d, c) {
          assert Linked(m, h, c);
        }
      }
    }
  }

  // ---------------------------------------------------------------------------------------------
  // Closed states, ledger by ledger

  /** The state is closed and its root is held, so the ledger's tree is complete. */
  ghost predicate Whole(v: Live) {
    Closed(v.state) && v.root in v.state
  }

  lemma WholeComplete(v: Live, t: Tree)
    requires Whole(v) && Unfolds(v.state, v.root, t)
    ensures Complete(t)
  {
    if v.root == ZERO_HASH {
      ZeroRootComplete(v, t);
    } else {
      ClosedComplete(v.state, v.root, t);
    }
  }

  lemma ZeroRootComplete(v: Live, t: Tree)
    requires Whole(v) && Unfolds(v.state, v.root, t)
    ensures Complete(t)
  {
    if t.Branch? {
      assert ChildrenIn(v.state, v.state[v.root]);
      forall i | 0 <= i < 16 ensures Complete(t.kids[i]) {
        var c := Children(t.node).value[i];
        assert c in Children(t.node).value;
        ClosedComplete(v.state, c, t.kids[i]);
      }
    }
  }

  /** The delta leaves references alone, and does not delete a root that it does not replace. */
  ghost predicate Careful(v: Live, d: Diff) {
    && KeepsReferences(v.state, d)
    && (NewRoot(d.added, v.root) == Success(v.root) && v.root in d.deleted ==> v.root in HashesOf(d.added))
  }

  /** A root that is new was added. */
  lemma {:induction false} UnreferencedAdded(all: seq<Node>, ns: seq<Node>, h: Hash256)
    requires h in Unreferenced(all, ns)
    ensures h in HashesOf(ns)
  {
    var front, last := ns[..|ns| - 1], ns[|ns| - 1];
    HashesAppend(front, [last]);
    assert ns == front + [last] && HashesOf([last]) == [last.hash];
    if h in Unreferenced(all, front) {
      UnreferencedAdded(all, front, h);
    }
  }

  lemma RootAdded(added: seq<Node>, prev: Hash256)
    requires NewRoot(added, prev).Success? && NewRoot(added, prev).value != prev
    ensures NewRoot(added, prev).value in HashesOf(added)
  {
    var roots := Unreferenced(added, added);
    assert roots[0] in roots;
    UnreferencedAdded(added, added, roots[0]);
  }

  /** One verified ledger: the next state is whole if and only if the delta is careful. */
  lemma StepWholeIff(sha: Sha, v: Live, d: LedgerDelta, t: TxMap, r: Live)
    requires Whole(v) && Stepped(sha, true, v, d, t) == Success(r)
    ensures Whole(r) <==> Careful(v, d.diff)
  {
    hide Applied, DeletedHeld, ChildrenHeld, LedgerVerified, TxTreeOf, TxNodes, Closed, KeepsReferences, NewRoot;
    StepClosedIff(v.state, d.diff);
    AppliedAt(v.state, d.diff, r.root);
    if r.root != v.root {
      RootAdded(d.diff.added, v.root);
    }
  }

  /** Where replay stands after the first `i` deltas of a chunk. */
  ghost function LedgerAt(sha: Sha, c: Chunk, i: nat): Result<Live>
    requires |c.deltas| < |c.txMaps| && i <= |c.deltas|
  {
    var start :- Started(sha, true, c.checkpoint, c.txMaps[0]);
    Steps(sha, true, start, c.deltas[..i], c.txMaps[1..][..i])
  }

  lemma {:induction false} StepsSnoc(sha: Sha, s: Live, ds: seq<LedgerDelta>, ts: seq<TxMap>, i: nat)
    requires i < |ds| <= |ts|
    ensures
      var before := Steps(sha, true, s, ds[..i], ts[..i]);
      Steps(sha, true, s, ds[..i + 1], ts[..i + 1])
      == if before.Failure? then Failure else Stepped(sha, true, before.value, ds[i], ts[i])
    decreases i
  {
    hide Stepped;
    var first := Stepped(sha, true, s, ds[0], ts[0]);
    if i == 0 {
      assert ds[..1][1..] == [] && ds[..1][0] == ds[0] && ts[..1][0] == ts[0];
      assert first.Success? ==> Steps(sha, true, first.value, [], ts[..1][1..]) == first;
    } else if first.Success? {
      StepsSnoc(sha, first.value, ds[1..], ts[1..], i - 1);
      assert ds[..i][1..] == ds[1..][..i - 1] && ts[..i][1..] == ts[1..][..i - 1];
      assert ds[..i + 1][1..] == ds[1..][..i] && ts[..i + 1][1..] == ts[1..][..i];
    }
  }

  lemma {:induction false} StepsPrefix(sha: Sha, s: Live, ds: seq<LedgerDelta>, ts: seq<TxMap>, i: nat)
    requires i <= |ds| <= |ts| && Steps(sha, true, s, ds, ts[..|ds|]).Success?
    ensures Steps(sha, true, s, ds[..i], ts[..i]).Success?
    decreases |ds| - i
  {
    hide Steps;
    if i < |ds| {
      StepsPrefix(sha, s, ds, ts, i + 1);
      StepsSnoc(sha, s, ds, ts, i);
    } else {
      assert ds[..i] == ds;
    }
  }

  lemma {:induction false} StepsEnough(sha: Sha, s: Live, ds: seq<LedgerDelta>, ts: seq<TxMap>)
    requires Steps(sha, true, s, ds, ts).Success?
    ensures |ds| <= |ts| && Steps(sha, true, s, ds, ts[..|ds|]) == Steps(sha, true, s, ds, ts)
    decreases |ds|
  {
    hide Stepped;
    if ds != [] {
      var next := Stepped(sha, true, s, ds[0], ts[0]).value;
      StepsEnough(sha, next, ds[1..], ts[1..]);
      assert ts[..|ds|][0] == ts[0] && ts[..|ds|][1..] == ts[1..][..|ds| - 1];
    }
  }

  /** Every ledger of a verified chunk has its state, one step after the other. */
  lemma LedgerStates(sha: Sha, c: Chunk)
    requires Replayed(sha, true, c).Success?
    ensures |c.deltas| < |c.txMaps|
    ensures forall i :: 0 <= i <= |c.deltas| ==> LedgerAt(sha, c, i).Success?
    ensures LedgerAt(sha, c, 0) == Started(sha, true, c.checkpoint, c.txMaps[0])
    ensures LedgerAt(sha, c, |c.deltas|) == Replayed(sha, true, c)
  {
    hide Started, Steps;
    var start := Started(sha, true, c.checkpoint, c.txMaps[0]).value;
    var ts := c.txMaps[1..];
    StepsEnough(sha, start, c.deltas, ts);
    forall i | 0 <= i <= |c.deltas| ensures LedgerAt(sha, c, i).Success? {
      StepsPrefix(sha, start, c.deltas, ts, i);
    }
    assert c.deltas[..|c.deltas|] == c.deltas && c.deltas[..0] == [];
    NoSteps(sha, start, ts[..0]);
  }

  lemma NoSteps(sha: Sha, s: Live, ts: seq<TxMap>)
    ensures Steps(sha, true, s, [], ts) == Success(s)
  {
  }

  lemma LedgerNext(sha: Sha, c: Chunk, i: nat)
    requires Replayed(sha, true, c).Success? && i < |c.deltas| < |c.txMaps|
    ensures LedgerAt(sha, c, i).Success?
    ensures LedgerAt(sha, c, i + 1) == Stepped(sha, true, LedgerAt(sha, c, i).value, c.deltas[i], c.txMaps[i + 1])
  {
    hide Started, Steps, Stepped;
    LedgerStates(sha, c);
    StepsSnoc(sha, Started(sha, true, c.checkpoint, c.txMaps[0]).value, c.deltas, c.txMaps[1..], i);
  }

  ghost predicate WholeAt(sha: Sha, c: Chunk, i: nat)
    requires |c.deltas| < |c.txMaps| && i <= |c.deltas|
  {
    LedgerAt(sha, c, i).Success? && Whole(LedgerAt(sha, c, i).value)
  }

  ghost predicate CarefulAt(sha: Sha, c: Chunk, i: nat)
    requires i < |c.deltas| < |c.txMaps|
  {
    LedgerAt(sha, c, i).Success? && Careful(LedgerAt(sha, c, i).value, c.deltas[i].diff)
  }

  lemma {:induction false} WholeUpTo(sha: Sha, c: Chunk, i: nat)
    requires Replayed(sha, true, c).Success? && |c.deltas| < |c.txMaps| && i <= |c.deltas|
    requires WholeAt(sha, c, 0) && forall k :: 0 <= k < i ==> CarefulAt(sha, c, k)
    ensures WholeAt(sha, c, i)
  {
    hide Replayed, LedgerAt, Whole, Careful, Stepped;
    if i > 0 {
      WholeUpTo(sha, c, i - 1);
      LedgerStates(sha, c);
      LedgerNext(sha, c, i - 1);
      assert CarefulAt(sha, c, i - 1);
      StepWholeIff(sha, LedgerAt(sha, c, i - 1).value, c.deltas[i - 1], c.txMaps[i], LedgerAt(sha, c, i).value);
    }
  }

  /**
   * For every chunk that verified replay accepts and whose checkpoint is closed: every ledger of it has
   * a closed state that holds its root, and so a complete tree, if and only if every delta is careful.
   */
  lemma EveryLedgerWholeIff(sha: Sha, c: Chunk)
    requires Replayed(sha, true, c).Success? && |c.deltas| < |c.txMaps| && Closed(StateOf(c.checkpoint))
    ensures (forall i :: 0 <= i <= |c.deltas| ==> WholeAt(sha, c, i))
       <==> forall i :: 0 <= i < |c.deltas| ==> CarefulAt(sha, c, i)
  {
    hide Replayed, LedgerAt, Whole, Careful, Stepped, Closed;
    LedgerStates(sha, c);
    StartWhole(sha, c.checkpoint, c.txMaps[0]);
    if forall i :: 0 <= i <= |c.deltas| ==> WholeAt(sha, c, i) {
      forall i | 0 <= i < |c.deltas| ensures CarefulAt(sha, c, i) {
        LedgerNext(sha, c, i);
        assert WholeAt(sha, c, i) && WholeAt(sha, c, i + 1);
        StepWholeIff(sha, LedgerAt(sha, c, i).value, c.deltas[i], c.txMaps[i + 1], LedgerAt(sha, c, i + 1).value);
      }
    }
    if forall i :: 0 <= i < |c.deltas| ==> CarefulAt(sha, c, i) {
      forall i | 0 <= i <= |c.deltas| ensures WholeAt(sha, c, i) {
        WholeUpTo(sha, c, i);
      }
    }
  }

  lemma StartWhole(sha: Sha, checkpoint: seq<Node>, cp: TxMap)
    requires Started(sha, true, checkpoint, cp).Success? && Closed(StateOf(checkpoint))
    ensures Whole(Started(sha, true, checkpoint, cp).value)
  {
    hide CheckpointVerified, TxTreeOf, TxNodes, Closed;
  }

  // ---------------------------------------------------------------------------------------------
  // Complete trees, ledger by ledger

  ghost predicate CompleteAt(sha: Sha, c: Chunk, i: nat)
    requires |c.deltas| < |c.txMaps| && i <= |c.deltas|
  {
    LedgerAt(sha, c, i).Success? && TreeHeld(LedgerAt(sha, c, i).value.state, LedgerAt(sha, c, i).value.root)
  }

  /** Delta `i` leaves the root of the ledger it leads to, and the children of what that root reaches. */
  ghost predicate KeepsAt(sha: Sha, c: Chunk, i: nat)
    requires i < |c.deltas| < |c.txMaps|
  {
    LedgerAt(sha, c, i).Success? &&
    var v, d := LedgerAt(sha, c, i).value, c.deltas[i].diff;
    var root := NewRoot(d.added, v.root);
    root.Success? && StillHeld(v.state, d, root.value) && KeepsReached(v.state, d, root.value)
  }

  /** One verified ledger: its tree is complete if and only if the delta keeps what its root reaches. */
  lemma StepTreeIff(sha: Sha, v: Live, d: LedgerDelta, t: TxMap, r: Live)
    requires Stepped(sha, true, v, d, t) == Success(r)
    ensures NewRoot(d.diff.added, v.root) == Success(r.root)
    ensures TreeHeld(r.state, r.root) <==>
            StillHeld(v.state, d.diff, r.root) && KeepsReached(v.state, d.diff, r.root)
  {
    hide Applied, DeletedHeld, ChildrenHeld, LedgerVerified, TxTreeOf, TxNodes, NewRoot, TreeHeld, KeepsReached,
         StillHeld;
    StepCompleteIff(v.state, d.diff, r.root);
  }

  /**
   * For every chunk that verified replay accepts and every ledger of it: the ledger's tree is complete
   * if and only if its own delta leaves its root, and the children of every untouched inner node its root
   * reaches, in place or adds them. The checkpoint's tree always is.
   */
  lemma LedgerCompleteIff(sha: Sha, c: Chunk, i: nat)
    requires Replayed(sha, true, c).Success? && i < |c.deltas| < |c.txMaps|
    ensures CompleteAt(sha, c, 0)
    ensures CompleteAt(sha, c, i + 1) <==> KeepsAt(sha, c, i)
  {
    hide Replayed, LedgerAt, Stepped, TreeHeld, KeepsReached, StillHeld, NewRoot, Started;
    LedgerStates(sha, c);
    LedgerNext(sha, c, i);
    StartHeld(sha, c.checkpoint, c.txMaps[0]);
    var v, r := LedgerAt(sha, c, i).value, LedgerAt(sha, c, i + 1).value;
    StepTreeIff(sha, v, c.deltas[i], c.txMaps[i + 1], r);
  }

  lemma StartHeld(sha: Sha, checkpoint: seq<Node>, cp: TxMap)
    requires Started(sha, true, checkpoint, cp).Success?
    ensures
      var start := Started(sha, true, checkpoint, cp).value;
      TreeHeld(start.state, start.root)
  {
    hide TxTreeOf, TxNodes, TreeHeld, Unfolds;
    var state := StateOf(checkpoint);
    var t :| Unfolds(state, cp.accountHash, t) && TreeComplete(state, t);
    TreeHeldComplete(state, cp.accountHash, t);
  }

  /** So every ledger of a verified chunk has a complete tree if and only if every delta keeps its own. */
  lemma EveryLedgerCompleteIff(sha: Sha, c: Chunk)
    requires Replayed(sha, true, c).Success? && |c.deltas| < |c.txMaps|
    ensures (forall i :: 0 <= i <= |c.deltas| ==> CompleteAt(sha, c, i))
       <==> forall i :: 0 <= i < |c.deltas| ==> KeepsAt(sha, c, i)
  {
    hide Replayed, LedgerAt, TreeHeld, KeepsReached, StillHeld, NewRoot, Started, CompleteAt, KeepsAt;
    forall i | 0 <= i < |c.deltas| ensures CompleteAt(sha, c, i + 1) <==> KeepsAt(sha, c, i) {
      LedgerCompleteIff(sha, c, i);
    }
    FirstComplete(sha, c);
    if forall i :: 0 <= i < |c.deltas| ==> KeepsAt(sha, c, i) {
      forall i | 0 <= i <= |c.deltas| ensures CompleteAt(sha, c, i) {
        assert i > 0 ==> KeepsAt(sha, c, i - 1);
      }
    }
    if forall i :: 0 <= i <= |c.deltas| ==> CompleteAt(sha, c, i) {
      forall i | 0 <= i < |c.deltas| ensures KeepsAt(sha, c, i) {
        assert CompleteAt(sha, c, i + 1);
      }
    }
  }

  lemma FirstComplete(sha: Sha, c: Chunk)
    requires Replayed(sha, true, c).Success? && |c.deltas| < |c.txMaps|
    ensures CompleteAt(sha, c, 0)
  {
    hide Replayed, LedgerAt, TreeHeld, Started;
    LedgerStates(sha, c);
    StartHeld(sha, c.checkpoint, c.txMaps[0]);
  }
}
