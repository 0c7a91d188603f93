/**
 * Applying a diff to the running node map.
 *
 * By position, the old tree is the deleted list plus the kept subtrees, and the new tree is the
 * added list plus the same kept subtrees (`DiffPartition`). The map forgets positions, so removing
 * the deleted hashes may hit a kept one; `ApplyExactIff` says exactly when that does harm, and
 * `ApplyExact` that it cannot when the old tree holds no hash twice.
 */
module ApplyDiff {
  import opened Prelude
  import opened SHAMap
  import opened Sorting
  import opened TreeDiff

  // ---------------------------------------------------------------------------------------------
  // The operation

  function InsertAll(state: NodeMap, added: seq<Node>): NodeMap {
    if added == [] then state
    else
      var last := added[|added| - 1];
      InsertAll(state, added[..|added| - 1])[last.hash := last]
  }

  function RemoveAll(state: NodeMap, deleted: seq<Hash256>): NodeMap {
    state - set h | h in deleted
  }

  /** Removal first, then insertion. */
  function Applied(state: NodeMap, d: Diff): NodeMap {
    InsertAll(RemoveAll(state, d.deleted), d.added)
  }

  /** The other order, which the exporter must not use. */
  function AppliedAddFirst(state: NodeMap, d: Diff): NodeMap {
    RemoveAll(InsertAll(state, d.added), d.deleted)
  }

  method Apply(state: NodeMap, d: Diff) returns (next: NodeMap)
    ensures next == Applied(state, d)
  {
    next := state;
    for i := 0 to |d.deleted|
      invariant next == RemoveAll(state, d.deleted[..i])
    {
      next := next - {d.deleted[i]};
      assert d.deleted[..i + 1] == d.deleted[..i] + [d.deleted[i]];
    }
    assert d.deleted[..|d.deleted|] == d.deleted;
    ghost var removed := next;
    for i := 0 to |d.added|
      invariant next == InsertAll(removed, d.added[..i])
    {
      next := next[d.added[i].hash := d.added[i]];
      assert d.added[..i + 1][..i] == d.added[..i];
    }
    assert d.added[..|d.added|] == d.added;
  }

  lemma {:induction false} InsertKeyed(m: NodeMap, ns: seq<Node>)
    requires Keyed(m)
    ensures Keyed(InsertAll(m, ns))
  {
    if ns != [] {
      InsertKeyed(m, ns[..|ns| - 1]);
    }
  }

  lemma AppliedKeyed(state: NodeMap, d: Diff)
    requires Keyed(state)
    ensures Keyed(Applied(state, d))
  {
    InsertKeyed(RemoveAll(state, d.deleted), d.added);
  }

  // ---------------------------------------------------------------------------------------------
  // Positions

  ghost function HashesOf(ns: seq<Node>): (hs: seq<Hash256>)
    ensures |hs| == |ns|
    ensures forall i :: 0 <= i < |ns| ==> hs[i] == ns[i].hash
  {
    seq(|ns|, i requires 0 <= i < |ns| => ns[i].hash)
  }

  lemma HashesAppend(a: seq<Node>, b: seq<Node>)
    ensures HashesOf(a + b) == HashesOf(a) + HashesOf(b)
  {
  }

  ghost predicate From(ns: seq<Node>, m: NodeMap) {
    forall n :: n in ns ==> Holds(m, n.hash, n)
  }

  /** The positions whose subtrees the walk skips because their hashes are equal. */
  ghost function Kept(o: Tree, n: Tree): multiset<Hash256>
    decreases o, n, 0
  {
    if RootHash(o) == RootHash(n) then Occ(o)
    else if n.Branch? && o.Branch? then KeptKids(o.kids, n.kids, Min(|o.kids|, |n.kids|))
    else multiset{}
  }

  ghost function KeptKids(os: seq<Tree>, ns: seq<Tree>, k: nat): multiset<Hash256>
    requires k <= |os| && k <= |ns|
    decreases os, ns, k
  {
    if k == 0 then multiset{} else KeptKids(os, ns, k - 1) + Kept(os[k - 1], ns[k - 1])
  }

  lemma {:induction false} AddedAll(m: NodeMap, h: Hash256, t: Tree)
    requires SlotUnfolds(m, h, t) && Complete(t)
    ensures Added(t).Success?
    ensures multiset(HashesOf(Added(t).value)) == Occ(t) && From(Added(t).value, m)
    decreases t, 0
  {
    if t.Branch? {
      AddedKidsAll(m, Children(t.node).value, t.kids, 16);
      HashesAppend(AddedKids(t.kids, 16).value, [t.node]);
      assert HashesOf([t.node]) == [t.node.hash];
    } else if t.Leaf? {
      assert HashesOf([t.node]) == [t.node.hash];
    }
  }

  lemma {:induction false} AddedKidsAll(m: NodeMap, s: Slots, kids: seq<Tree>, k: nat)
    requires k <= |kids| == 16
    requires forall i :: 0 <= i < 16 ==> SlotUnfolds(m, s[i], kids[i]) && Complete(kids[i])
    ensures AddedKids(kids, k).Success?
    ensures multiset(HashesOf(AddedKids(kids, k).value)) == OccKids(kids, k) && From(AddedKids(kids, k).value, m)
    decreases kids, k
  {
    if k > 0 {
      AddedKidsAll(m, s, kids, k - 1);
      AddedAll(m, s[k - 1], kids[k - 1]);
      HashesAppend(AddedKids(kids, k - 1).value, Added(kids[k - 1]).value);
    }
  }

  lemma {:induction false} DeletedAll(t: Tree)
    requires Complete(t)
    ensures Deleted(t).Success? && multiset(Deleted(t).value) == Occ(t)
    decreases t, 0
  {
    if t.Branch? {
      DeletedKidsAll(t.kids, |t.kids|);
    }
  }

  lemma {:induction false} DeletedKidsAll(kids: seq<Tree>, k: nat)
    requires k <= |kids|
    requires forall i :: 0 <= i < |kids| ==> Complete(kids[i])
    ensures DeletedKids(kids, k).Success? && multiset(DeletedKids(kids, k).value) == OccKids(kids, k)
    decreases kids, k
  {
    if k > 0 {
      DeletedKidsAll(kids, k - 1);
      DeletedAll(kids[k - 1]);
    }
  }

  /** What the diff of two trees accounts for, position by position. */
  ghost predicate Partition(m: NodeMap, d: Diff, kept: multiset<Hash256>, o: multiset<Hash256>, n: multiset<Hash256>) {
    && o == multiset(d.deleted) + kept
    && n == multiset(HashesOf(d.added)) + kept
    && From(d.added, m)
  }

  lemma PartitionAppend(m: NodeMap, a: Diff, ka: multiset<Hash256>, oa: multiset<Hash256>, na: multiset<Hash256>,
                        b: Diff, kb: multiset<Hash256>, ob: multiset<Hash256>, nb: multiset<Hash256>)
    requires Partition(m, a, ka, oa, na) && Partition(m, b, kb, ob, nb)
    ensures Partition(m, Diff(a.added + b.added, a.deleted + b.deleted), ka + kb, oa + ob, na + nb)
  {
    HashesAppend(a.added, b.added);
  }

  lemma PartitionSnoc(m: NodeMap, a: Diff, k: multiset<Hash256>, o: multiset<Hash256>, n: multiset<Hash256>,
                      node: Node, h: Hash256, d: Diff, o': multiset<Hash256>, n': multiset<Hash256>)
    requires Partition(m, a, k, o, n) && Holds(m, node.hash, node)
    requires d.added == a.added + [node] && d.deleted == a.deleted + [h]
    requires o' == o + multiset{h} && n' == n + multiset{node.hash}
    ensures Partition(m, d, k, o', n')
  {
    HashesAppend(a.added, [node]);
    assert HashesOf([node]) == [node.hash];
  }

  lemma DiffOfBranches(o: Tree, n: Tree)
    requires o.Branch? && n.Branch? && |o.kids| == |n.kids| && RootHash(o) != RootHash(n)
    ensures
      match DiffKids(o.kids, n.kids, |o.kids|)
      case Failure => DiffTrees(o, n).Failure?
      case Success(below) => DiffTrees(o, n) == Success(Diff(below.added + [n.node], below.deleted + [o.node.hash]))
    ensures Kept(o, n) == KeptKids(o.kids, n.kids, |o.kids|)
  {
  }

  lemma BranchPartition(m: NodeMap, o: Tree, n: Tree)
    requires o.Branch? && n.Branch? && |o.kids| == |n.kids|
    requires RootHash(o) != RootHash(n) && Holds(m, n.node.hash, n.node)
    requires DiffKids(o.kids, n.kids, |o.kids|).Success?
    requires Partition(m, DiffKids(o.kids, n.kids, |o.kids|).value, KeptKids(o.kids, n.kids, |o.kids|),
                       OccKids(o.kids, |o.kids|), OccKids(n.kids, |o.kids|))
    ensures DiffTrees(o, n).Success?
    ensures Partition(m, DiffTrees(o, n).value, Kept(o, n), Occ(o), Occ(n))
  {
    var k := |o.kids|;
    DiffOfBranches(o, n);
    PartitionSnoc(m, DiffKids(o.kids, n.kids, k).value, KeptKids(o.kids, n.kids, k), OccKids(o.kids, k),
                  OccKids(n.kids, k), n.node, o.node.hash, DiffTrees(o, n).value, Occ(o), Occ(n));
  }

  /** When the walk does not descend on both sides: equal roots, or one side replaced entirely. */
  lemma WholePartition(m: NodeMap, newHash: Hash256, o: Tree, n: Tree)
    requires SlotUnfolds(m, newHash, n) && Complete(o) && Complete(n)
    requires RootHash(o) == RootHash(n) ==> o == n
    requires !(o.Branch? && n.Branch? && RootHash(o) != RootHash(n))
    ensures DiffTrees(o, n).Success?
    ensures Partition(m, DiffTrees(o, n).value, Kept(o, n), Occ(o), Occ(n))
  {
    DeletedAll(o);
    AddedAll(m, newHash, n);
  }

  lemma {:induction false} DiffPartition(m: NodeMap, oldHash: Hash256, newHash: Hash256, o: Tree, n: Tree)
    requires SlotUnfolds(m, oldHash, o) && SlotUnfolds(m, newHash, n)
    requires Complete(o) && Complete(n)
    ensures DiffTrees(o, n).Success?
    ensures Partition(m, DiffTrees(o, n).value, Kept(o, n), Occ(o), Occ(n))
    decreases o, n, 0
  {
    SlotRoot(m, oldHash, o);
    SlotRoot(m, newHash, n);
    if oldHash == newHash {
      SlotUnfoldUnique(m, oldHash, o, n);
    }
    if oldHash != newHash && n.Branch? && o.Branch? {
      KidsPartition(m, Children(o.node).value, Children(n.node).value, o.kids, n.kids, |o.kids|);
      BranchPartition(m, o, n);
    } else {
      WholePartition(m, newHash, o, n);
    }
  }

  lemma {:induction false} KidsPartition(m: NodeMap, os: Slots, ns: Slots, oks: seq<Tree>, nks: seq<Tree>, k: nat)
    requires k <= |oks| == |nks| == 16
    requires forall i :: 0 <= i < 16 ==> SlotUnfolds(m, os[i], oks[i]) && Complete(oks[i])
    requires forall i :: 0 <= i < 16 ==> SlotUnfolds(m, ns[i], nks[i]) && Complete(nks[i])
    ensures DiffKids(oks, nks, k).Success?
    ensures Partition(m, DiffKids(oks, nks, k).value, KeptKids(oks, nks, k), OccKids(oks, k), OccKids(nks, k))
    decreases oks, nks, k
  {
    if k > 0 {
      KidsPartition(m, os, ns, oks, nks, k - 1);
      DiffPartition(m, os[k - 1], ns[k - 1], oks[k - 1], nks[k - 1]);
      PartitionAppend(m, DiffKids(oks, nks, k - 1).value, KeptKids(oks, nks, k - 1),
                      OccKids(oks, k - 1), OccKids(nks, k - 1),
                      DiffTrees(oks[k - 1], nks[k - 1]).value, Kept(oks[k - 1], nks[k - 1]),
                      Occ(oks[k - 1]), Occ(nks[k - 1]));
    }
  }

  // ---------------------------------------------------------------------------------------------
  // Hashes

  lemma {:induction false} InsertAllKeys(m: NodeMap, state: NodeMap, added: seq<Node>)
    requires Agrees(state, m) && From(added, m)
    ensures Agrees(InsertAll(state, added), m)
    ensures forall h :: h in InsertAll(state, added) <==> h in state || h in HashesOf(added)
  {
    if added != [] {
      var front := added[..|added| - 1];
      InsertAllKeys(m, state, front);
      HashesAppend(front, [added[|added| - 1]]);
      assert added == front + [added[|added| - 1]];
    }
  }

  lemma SameHashes(a: seq<Node>, b: seq<Node>)
    requires forall n :: n in a ==> n in b
    ensures forall h :: h in HashesOf(a) ==> h in HashesOf(b)
  {
    forall h | h in HashesOf(a) ensures h in HashesOf(b) {
      var i :| 0 <= i < |a| && a[i].hash == h;
      assert a[i] in b;
      var j :| 0 <= j < |b| && b[j] == a[i];
      assert HashesOf(b)[j] == h;
    }
  }

  lemma SortedDiffMembers(m: NodeMap, o: Tree, n: Tree)
    requires DiffTrees(o, n).Success? && From(DiffTrees(o, n).value.added, m)
    ensures SortedDiff(o, n).Success?
    ensures From(SortedDiff(o, n).value.added, m)
    ensures forall h :: h in SortedDiff(o, n).value.deleted <==> h in DiffTrees(o, n).value.deleted
    ensures forall h :: h in HashesOf(SortedDiff(o, n).value.added) <==> h in HashesOf(DiffTrees(o, n).value.added)
  {
    var d, s := DiffTrees(o, n).value, SortedDiff(o, n).value;
    SortMembers(NodeKey, d.added);
    SortMembers(HashKey, d.deleted);
    SameHashes(s.added, d.added);
    SameHashes(d.added, s.added);
  }

  /** Two complete trees in one node map. */
  ghost predicate TwoTrees(m: NodeMap, oldHash: Hash256, newHash: Hash256, o: Tree, n: Tree) {
    && SlotUnfolds(m, oldHash, o) && SlotUnfolds(m, newHash, n)
    && Complete(o) && Complete(n)
  }

  /** Where a hash can be found, by set: the old tree is deleted or kept, the new added or kept. */
  lemma DiffCover(m: NodeMap, oldHash: Hash256, newHash: Hash256, o: Tree, n: Tree)
    requires TwoTrees(m, oldHash, newHash, o, n)
    ensures SortedDiff(o, n).Success?
    ensures From(SortedDiff(o, n).value.added, m)
    ensures forall h :: h in Occ(o) <==> h in SortedDiff(o, n).value.deleted || h in Kept(o, n)
    ensures forall h :: h in Occ(n) <==> h in HashesOf(SortedDiff(o, n).value.added) || h in Kept(o, n)
  {
    hide SortedDiff, DiffTrees, Occ, Kept, SlotUnfolds, Complete;
    DiffPartition(m, oldHash, newHash, o, n);
    SortedDiffMembers(m, o, n);
    var d := DiffTrees(o, n).value;
    forall h
      ensures h in Occ(o) <==> h in d.deleted || h in Kept(o, n)
      ensures h in Occ(n) <==> h in HashesOf(d.added) || h in Kept(o, n)
    {
      assert h in d.deleted <==> h in multiset(d.deleted);
      assert h in HashesOf(d.added) <==> h in multiset(HashesOf(d.added));
    }
  }

  /**
   * Applying the diff turns the old tree's nodes into the new tree's exactly when every hash that
   * is deleted at one position and kept at another is also added back.
   */
  lemma ApplyExactIff(m: NodeMap, oldHash: Hash256, newHash: Hash256, o: Tree, n: Tree)
    requires TwoTrees(m, oldHash, newHash, o, n)
    ensures SortedDiff(o, n).Success?
    ensures
      var d := SortedDiff(o, n).value;
      Applied(NodesOf(m, o), d) == NodesOf(m, n)
      <==> forall h :: h in d.deleted && h in Kept(o, n) ==> h in HashesOf(d.added)
  {
    hide SortedDiff, Kept, Occ, InsertAll, SlotUnfolds, Complete;
    DiffCover(m, oldHash, newHash, o, n);
    var d := SortedDiff(o, n).value;
    NodesOfKeys(m, oldHash, o);
    NodesOfKeys(m, newHash, n);
    var removed := RemoveAll(NodesOf(m, o), d.deleted);
    InsertAllKeys(m, removed, d.added);
    var result := Applied(NodesOf(m, o), d);
    assert forall h :: h in result <==> (h in Occ(o) && h !in d.deleted) || h in HashesOf(d.added);
    if forall h :: h in d.deleted && h in Kept(o, n) ==> h in HashesOf(d.added) {
      AgreesEqual(m, result, NodesOf(m, n));
    } else {
      var h :| h in d.deleted && h in Kept(o, n) && h !in HashesOf(d.added);
      assert h in NodesOf(m, n) && h !in result;
    }
  }

  /** A hash deleted at one position and kept at another occurs twice in the old tree. */
  lemma DeletedNotKept(m: NodeMap, oldHash: Hash256, newHash: Hash256, o: Tree, n: Tree, h: Hash256)
    requires TwoTrees(m, oldHash, newHash, o, n) && NoDup(o)
    requires SortedDiff(o, n).Success? && h in SortedDiff(o, n).value.deleted
    ensures h !in Kept(o, n)
  {
    DiffPartition(m, oldHash, newHash, o, n);
    SortedDiffMembers(m, o, n);
    assert h in multiset(DiffTrees(o, n).value.deleted);
    assert Occ(o)[h] <= 1;
  }

  /**
   * The main result: between any two complete trees of which the old one holds no hash twice,
   * removing `deleted` and then inserting `added` turns exactly the old nodes into exactly the new.
   */
  lemma ApplyExact(m: NodeMap, oldHash: Hash256, newHash: Hash256, o: Tree, n: Tree)
    requires TwoTrees(m, oldHash, newHash, o, n) && NoDup(o)
    ensures SortedDiff(o, n).Success?
    ensures Applied(NodesOf(m, o), SortedDiff(o, n).value) == NodesOf(m, n)
  {
    ApplyExactIff(m, oldHash, newHash, o, n);
    forall h | h in SortedDiff(o, n).value.deleted ensures h !in Kept(o, n) {
      DeletedNotKept(m, oldHash, newHash, o, n, h);
    }
  }

  /** Every deleted hash is a node of the old tree. */
  lemma DeletedPresent(m: NodeMap, oldHash: Hash256, newHash: Hash256, o: Tree, n: Tree)
    requires TwoTrees(m, oldHash, newHash, o, n)
    ensures SortedDiff(o, n).Success?
    ensures forall h :: h in SortedDiff(o, n).value.deleted ==> h in NodesOf(m, o)
  {
    DiffCover(m, oldHash, newHash, o, n);
    NodesOfKeys(m, oldHash, o);
  }

  /** Adding first is right exactly when no deleted hash is in the new tree. */
  lemma AddFirstExactIff(m: NodeMap, oldHash: Hash256, newHash: Hash256, o: Tree, n: Tree)
    requires TwoTrees(m, oldHash, newHash, o, n)
    ensures SortedDiff(o, n).Success?
    ensures
      var d := SortedDiff(o, n).value;
      AppliedAddFirst(NodesOf(m, o), d) == NodesOf(m, n) <==> forall h :: h in d.deleted ==> h !in Occ(n)
  {
    hide SortedDiff, Kept, Occ, InsertAll, SlotUnfolds, Complete;
    DiffCover(m, oldHash, newHash, o, n);
    var d := SortedDiff(o, n).value;
    NodesOfKeys(m, oldHash, o);
    NodesOfKeys(m, newHash, n);
    InsertAllKeys(m, NodesOf(m, o), d.added);
    var result := AppliedAddFirst(NodesOf(m, o), d);
    assert forall h :: h in result <==> (h in Occ(o) || h in HashesOf(d.added)) && h !in d.deleted;
    if forall h :: h in d.deleted ==> h !in Occ(n) {
      AgreesEqual(m, result, NodesOf(m, n));
    } else {
      var h :| h in d.deleted && h in Occ(n);
      assert h in NodesOf(m, n) && h !in result;
    }
  }

  /** When the old tree holds no hash twice, that can be read off the diff: no hash is in both lists. */
  lemma AddFirstListsIff(m: NodeMap, oldHash: Hash256, newHash: Hash256, o: Tree, n: Tree)
    requires TwoTrees(m, oldHash, newHash, o, n) && NoDup(o)
    ensures SortedDiff(o, n).Success?
    ensures
      var d := SortedDiff(o, n).value;
      AppliedAddFirst(NodesOf(m, o), d) == NodesOf(m, n)
      <==> forall h :: h in d.deleted ==> h !in HashesOf(d.added)
  {
    hide SortedDiff, Kept, Occ, InsertAll, SlotUnfolds, Complete, NoDup;
    AddFirstExactIff(m, oldHash, newHash, o, n);
    DiffCover(m, oldHash, newHash, o, n);
    forall h | h in SortedDiff(o, n).value.deleted ensures h !in Kept(o, n) {
      DeletedNotKept(m, oldHash, newHash, o, n, h);
    }
  }
}
