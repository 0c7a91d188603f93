/** Finding the new account-state root among the nodes a delta adds. */
module RootFinding {
  import opened Prelude
  import opened SHAMap
  import opened InnerNodes
  import opened Sorting
  import opened TreeDiff
  import opened ApplyDiff

  /** `p` is a full inner node with `h` among its children. Compressed nodes are not looked into. */
  predicate RefersTo(p: Node, h: Hash256) {
    p.nodeType.Inner? && FullChildren(p.content).Success? && h != ZERO_HASH && h in FullChildren(p.content).value
  }

  ghost predicate Referenced(added: seq<Node>, h: Hash256) {
    exists p :: p in added && RefersTo(p, h)
  }

  /** The hashes of the full inner nodes of `ns` that no node of `added` refers to. */
  ghost function Unreferenced(added: seq<Node>, ns: seq<Node>): seq<Hash256> {
    if ns == [] then []
    else
      var before, last := Unreferenced(added, ns[..|ns| - 1]), ns[|ns| - 1];
      if last.nodeType.Inner? && !Referenced(added, last.hash) then before + [last.hash] else before
  }

  ghost function NewRoot(added: seq<Node>, prevRoot: Hash256): Result<Hash256> {
    var roots := Unreferenced(added, added);
    if |roots| == 0 then Success(prevRoot)
    else if |roots| == 1 then Success(roots[0])
    else Failure
  }

  method FindNewRoot(added: seq<Node>, prevRoot: Hash256) returns (r: Result<Hash256>)
    ensures r == NewRoot(added, prevRoot)
  {
    if added == [] {
      return Success(prevRoot);
    }
    var referenced: set<Hash256> := {};
    for i := 0 to |added|
      invariant forall h :: h in referenced <==> Referenced(added[..i], h)
    {
      hide Referenced;
      ghost var before := referenced;
      if added[i].nodeType.Inner? {
        var inner := FromFullBytes(added[i].content);
        if inner.Success? {
          referenced := referenced + (set c | c in inner.value && c != ZERO_HASH);
        }
      }
      assert forall h :: h in referenced <==> h in before || RefersTo(added[i], h);
      assert added[..i + 1] == added[..i] + [added[i]];
      forall h ensures h in referenced <==> Referenced(added[..i + 1], h) {
        ReferencedSnoc(added[..i], added[i], h);
      }
    }
    assert added[..|added|] == added;
    var roots: seq<Hash256> := [];
    for i := 0 to |added|
      invariant roots == Unreferenced(added, added[..i])
    {
      assert added[..i + 1][..i] == added[..i] && added[..i + 1][i] == added[i];
      if added[i].nodeType.Inner? && added[i].hash !in referenced {
        roots := roots + [added[i].hash];
      }
    }
    match |roots| {
      case 0 => return Success(prevRoot);
      case 1 => return Success(roots[0]);
      case _ => return Failure;
    }
  }

  lemma ReferencedSnoc(ns: seq<Node>, n: Node, h: Hash256)
    ensures Referenced(ns + [n], h) <==> Referenced(ns, h) || RefersTo(n, h)
  {
    if Referenced(ns, h) {
      var p :| p in ns && RefersTo(p, h);
      assert p in ns + [n];
    }
    if RefersTo(n, h) {
      assert n in ns + [n];
    }
  }

  // ---------------------------------------------------------------------------------------------
  // On a diff of two trees

  /** Every inner node of the tree is a full one, as the NuDB decoder always makes them. */
  ghost predicate FullInners(t: Tree) {
    match t
    case Nil => true
    case Absent(_) => true
    case Corrupt(_) => true
    case Leaf(_) => true
    case Branch(n, kids) => n.nodeType.Inner? && forall i :: 0 <= i < |kids| ==> FullInners(kids[i])
  }

  /** Apart from `root` itself, every hash listed in `ns` is a child of a listed node. */
  ghost predicate ParentsListed(ns: seq<Node>, root: Hash256) {
    forall y :: y in ns && y.hash != root ==> Referenced(ns, y.hash)
  }

  lemma ParentsAppend(a: seq<Node>, b: seq<Node>, h: Hash256)
    requires Referenced(a, h) || Referenced(b, h)
    ensures Referenced(a + b, h)
  {
    if Referenced(a, h) {
      var p :| p in a && RefersTo(p, h);
      assert p in a + b;
    } else {
      var p :| p in b && RefersTo(p, h);
      assert p in a + b;
    }
  }

  lemma {:induction false} AddedParents(m: NodeMap, h: Hash256, t: Tree)
    requires SlotUnfolds(m, h, t) && Complete(t) && FullInners(t)
    ensures Added(t).Success? && ParentsListed(Added(t).value, h)
    decreases t, 0
  {
    AddedAll(m, h, t);
    if t.Branch? {
      AddedKidsParents(m, t.node, t.kids, |t.kids|);
      var below := AddedKids(t.kids, |t.kids|).value;
      ChildrenListed(t.node, below);
    }
  }

  /** A listed hash is a child of `parent`, or of a listed node. */
  ghost predicate BelowListed(ns: seq<Node>, parent: Node) {
    forall y :: y in ns ==> RefersTo(parent, y.hash) || Referenced(ns, y.hash)
  }

  lemma ChildrenListed(parent: Node, below: seq<Node>)
    requires BelowListed(below, parent)
    ensures ParentsListed(below + [parent], parent.hash)
  {
    forall y | y in below + [parent] && y.hash != parent.hash ensures Referenced(below + [parent], y.hash) {
      assert y in below;
      if RefersTo(parent, y.hash) {
        assert Referenced([parent], y.hash);
      }
      ParentsAppend(below, [parent], y.hash);
    }
  }

  lemma BelowAppend(a: seq<Node>, b: seq<Node>, parent: Node, child: Hash256)
    requires BelowListed(a, parent) && ParentsListed(b, child)
    requires RefersTo(parent, child) || b == []
    ensures BelowListed(a + b, parent)
  {
    forall y | y in a + b ensures RefersTo(parent, y.hash) || Referenced(a + b, y.hash) {
      if Referenced(a, y.hash) || Referenced(b, y.hash) {
        ParentsAppend(a, b, y.hash);
      }
    }
  }

  /** `parent` is a full inner node whose children `kids` unfold. */
  ghost predicate Family(m: NodeMap, parent: Node, kids: seq<Tree>) {
    && |kids| == 16 && parent.nodeType.Inner? && Children(parent).Success?
    && forall i :: 0 <= i < 16 ==>
         SlotUnfolds(m, Children(parent).value[i], kids[i]) && Complete(kids[i]) && FullInners(kids[i])
  }

  lemma {:induction false} AddedKidsParents(m: NodeMap, parent: Node, kids: seq<Tree>, k: nat)
    requires Family(m, parent, kids) && k <= 16
    ensures AddedKids(kids, k).Success? && BelowListed(AddedKids(kids, k).value, parent)
    decreases kids, k
  {
    if k > 0 {
      var c := Children(parent).value[k - 1];
      AddedKidsParents(m, parent, kids, k - 1);
      AddedParents(m, c, kids[k - 1]);
      BelowAppend(AddedKids(kids, k - 1).value, Added(kids[k - 1]).value, parent, c);
    }
  }

  lemma BranchParents(o: Tree, n: Tree)
    requires o.Branch? && n.Branch? && |o.kids| == |n.kids| && RootHash(o) != RootHash(n)
    requires DiffKids(o.kids, n.kids, |o.kids|).Success?
    requires BelowListed(DiffKids(o.kids, n.kids, |o.kids|).value.added, n.node)
    ensures DiffTrees(o, n).Success? && ParentsListed(DiffTrees(o, n).value.added, n.node.hash)
  {
    DiffOfBranches(o, n);
    ChildrenListed(n.node, DiffKids(o.kids, n.kids, |o.kids|).value.added);
  }

  lemma {:induction false} DiffParents(m: NodeMap, oldHash: Hash256, newHash: Hash256, o: Tree, n: Tree)
    requires TwoTrees(m, oldHash, newHash, o, n) && FullInners(n)
    ensures DiffTrees(o, n).Success? && ParentsListed(DiffTrees(o, n).value.added, newHash)
    ensures n.Nil? ==> DiffTrees(o, n).value.added == []
    decreases o, n, 0
  {
    DiffPartition(m, oldHash, newHash, o, n);
    if RootHash(o) == RootHash(n) || n.Nil? {
    } else if o.Branch? && n.Branch? {
      BranchParts(m, oldHash, o);
      BranchParts(m, newHash, n);
      DiffKidsParents(m, o, n, |n.kids|);
      BranchParents(o, n);
    } else {
      AddedParents(m, newHash, n);
    }
  }

  lemma {:induction false} DiffKidsParents(m: NodeMap, o: Tree, n: Tree, k: nat)
    requires o.Branch? && n.Branch? && Family(m, n.node, n.kids) && k <= |o.kids| == 16
    requires Children(o.node).Success?
    requires forall i :: 0 <= i < 16 ==> SlotUnfolds(m, Children(o.node).value[i], o.kids[i]) && Complete(o.kids[i])
    ensures DiffKids(o.kids, n.kids, k).Success? && BelowListed(DiffKids(o.kids, n.kids, k).value.added, n.node)
    decreases o.kids, n.kids, k
  {
    if k > 0 {
      var c := Children(n.node).value[k - 1];
      DiffKidsParents(m, o, n, k - 1);
      DiffParents(m, Children(o.node).value[k - 1], c, o.kids[k - 1], n.kids[k - 1]);
      BelowAppend(DiffKids(o.kids, n.kids, k - 1).value.added, DiffTrees(o.kids[k - 1], n.kids[k - 1]).value.added,
          n.node, c);
    }
  }

  /** Nothing inside a tree refers to its root. */
  lemma RootUnreferenced(m: NodeMap, root: Hash256, t: Tree, p: Node)
    requires Unfolds(m, root, t) && p.hash in Occ(t) && Holds(m, p.hash, p)
    ensures !RefersTo(p, root)
  {
    hide FullChildren, CompressedChildren, Complete;
    if RefersTo(p, root) {
      var u := SubtreeAt(m, root, t, p.hash);
      var i :| 0 <= i < 16 && FullChildren(p.content).value[i] == root;
      UnfoldUnique(m, root, u.kids[i], t);
      WithinSmaller(u, t);
    }
  }

  lemma {:induction false} UnreferencedMembers(added: seq<Node>, ns: seq<Node>)
    ensures forall h :: h in Unreferenced(added, ns) <==>
              exists n :: n in ns && n.nodeType.Inner? && n.hash == h && !Referenced(added, h)
    ensures multiset(Unreferenced(added, ns)) <= multiset(HashesOf(ns))
  {
    if ns != [] {
      var front, last := ns[..|ns| - 1], ns[|ns| - 1];
      UnreferencedMembers(added, front);
      assert ns == front + [last];
      HashesAppend(front, [last]);
      assert HashesOf([last]) == [last.hash];
    }
  }

  lemma OnlyOne<T>(s: seq<T>, x: T)
    requires x in s && forall y :: y in s ==> y == x
    ensures s == [x] || multiset(s)[x] > 1
  {
    assert s[0] in s;
    if |s| > 1 {
      assert s[1] in s;
      assert s == [s[0], s[1]] + s[2..];
      assert multiset(s)[x] >= multiset{s[0], s[1]}[x];
    }
  }

  lemma RootOccursOnce(m: NodeMap, root: Hash256, t: Tree)
    requires Unfolds(m, root, t)
    ensures Occ(t)[root] == 1
  {
    if t.Branch? {
      if root in OccKids(t.kids, |t.kids|) {
        var i := OccKidsFind(t.kids, |t.kids|, root);
        RootOnce(m, root, t, i);
      }
    }
  }

  lemma SortedAddedBag(o: Tree, n: Tree)
    requires DiffTrees(o, n).Success?
    ensures multiset(HashesOf(SortedDiff(o, n).value.added)) == multiset(HashesOf(DiffTrees(o, n).value.added))
    ensures forall x :: x in SortedDiff(o, n).value.added <==> x in DiffTrees(o, n).value.added
  {
    hide DiffTrees;
    SortedHashes(DiffTrees(o, n).value.added);
  }

  lemma SortedHashes(a: seq<Node>)
    ensures multiset(HashesOf(SortBy(NodeKey, a))) == multiset(HashesOf(a))
    ensures forall x :: x in SortBy(NodeKey, a) <==> x in a
  {
    hide SortBy, NodeKey;
    var b := SortBy(NodeKey, a);
    SortSorts(NodeKey, a);
    SortMembers(NodeKey, a);
    MapPermuted(NodeHash, a, b);
    assert HashesOf(a) == MapSeq(NodeHash, a) && HashesOf(b) == MapSeq(NodeHash, b);
  }

  /**
   * The main result: for any two different complete trees with full inner roots, exactly one added
   * inner node is referred to by no added node, and it is the new root.
   */
  lemma NewRootOfDiff(m: NodeMap, oldHash: Hash256, newHash: Hash256, o: Tree, n: Tree, prevRoot: Hash256)
    requires TwoTrees(m, oldHash, newHash, o, n) && FullInners(n)
    requires o.Branch? && n.Branch? && oldHash != newHash
    ensures SortedDiff(o, n).Success?
    ensures NewRoot(SortedDiff(o, n).value.added, prevRoot) == Success(newHash)
  {
    DiffPartition(m, oldHash, newHash, o, n);
    DiffParents(m, oldHash, newHash, o, n);
    DiffCover(m, oldHash, newHash, o, n);
    SortedAddedBag(o, n);
    var added := SortedDiff(o, n).value.added;
    var roots := Unreferenced(added, added);
    UnreferencedMembers(added, added);
    BranchParts(m, oldHash, o);
    BranchParts(m, newHash, n);
    DiffOfBranches(o, n);
    assert n.node in DiffTrees(o, n).value.added;
    assert !Referenced(added, newHash) by {
      if p :| p in added && RefersTo(p, newHash) {
        InHashes(added, p);
        RootUnreferenced(m, newHash, n, p);
      }
    }
    forall h | h in roots ensures h == newHash {
      var y :| y in added && y.nodeType.Inner? && y.hash == h && !Referenced(added, h);
      assert y in DiffTrees(o, n).value.added;
    }
    RootOccursOnce(m, newHash, n);
    OnlyOne(roots, newHash);
  }

  lemma InHashes(ns: seq<Node>, n: Node)
    requires n in ns
    ensures n.hash in HashesOf(ns)
  {
    var i :| 0 <= i < |ns| && ns[i] == n;
    assert HashesOf(ns)[i] == n.hash;
  }

  /** When nothing changed the diff is empty and the previous root is kept. */
  lemma NewRootUnchanged(o: Tree, prevRoot: Hash256)
    ensures SortedDiff(o, o) == Success(Diff([], []))
    ensures NewRoot([], prevRoot) == Success(prevRoot)
  {
  }

  /**
   * For any two complete state trees of full inner nodes the importer's search, on the added list of
   * their diff, finds the second root: among the added nodes if it is new, and by default if it is not.
   */
  lemma RootFollows(m: NodeMap, oldHash: Hash256, newHash: Hash256, o: Tree, n: Tree)
    requires TwoTrees(m, oldHash, newHash, o, n) && FullInners(n) && o.Branch? && n.Branch?
    ensures SortedDiff(o, n).Success?
    ensures NewRoot(SortedDiff(o, n).value.added, oldHash) == Success(newHash)
    ensures SortedDiff(o, n).value.added == [] <==> oldHash == newHash
  {
    hide NewRoot, SortedDiff, Complete, FullInners;
    if oldHash == newHash {
      SlotUnfoldUnique(m, oldHash, o, n);
      NewRootUnchanged(o, oldHash);
    } else {
      NewRootOfDiff(m, oldHash, newHash, o, n, oldHash);
      NoRootInNone(oldHash);
    }
  }

  lemma NoRootInNone(prevRoot: Hash256)
    ensures NewRoot([], prevRoot) == Success(prevRoot)
  {
  }
}
