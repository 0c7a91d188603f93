/**
 * The diff of two SHAMaps and what applying it to a hash-to-node map does.
 *
 * The walk compares tree positions; the map it is applied to is keyed by hash. A hash may be
 * deleted at one position and added, or kept, at another.
 */
module TreeDiff {
  import opened Prelude
  import opened SHAMap
  import opened Sorting

  datatype Diff = Diff(added: seq<Node>, deleted: seq<Hash256>)

  // ---------------------------------------------------------------------------------------------
  // What the walk emits

  ghost function Added(t: Tree): Result<seq<Node>>
    decreases t, 0
  {
    match t
    case Nil => Success([])
    case Absent(_) => Failure
    case Corrupt(_) => Failure
    case Leaf(n) => Success([n])
    case Branch(n, kids) =>
      var below :- AddedKids(kids, |kids|);
      Success(below + [n])
  }

  ghost function AddedKids(kids: seq<Tree>, k: nat): Result<seq<Node>>
    requires k <= |kids|
    decreases kids, k
  {
    if k == 0 then Success([])
    else
      var before :- AddedKids(kids, k - 1);
      var last :- Added(kids[k - 1]);
      Success(before + last)
  }

  /** A missing node is listed without its descendants; an unparsable one is an error. */
  ghost function Deleted(t: Tree): Result<seq<Hash256>>
    decreases t, 0
  {
    match t
    case Nil => Success([])
    case Absent(h) => Success([h])
    case Corrupt(_) => Failure
    case Leaf(n) => Success([n.hash])
    case Branch(n, kids) =>
      var below :- DeletedKids(kids, |kids|);
      Success(below + [n.hash])
  }

  ghost function DeletedKids(kids: seq<Tree>, k: nat): Result<seq<Hash256>>
    requires k <= |kids|
    decreases kids, k
  {
    if k == 0 then Success([])
    else
      var before :- DeletedKids(kids, k - 1);
      var last :- Deleted(kids[k - 1]);
      Success(before + last)
  }

  ghost predicate InnerTree(t: Tree) {
    t.Branch? || t.Corrupt?
  }

  ghost function DiffTrees(o: Tree, n: Tree): Result<Diff>
    decreases o, n, 0
  {
    if RootHash(o) == RootHash(n) then Success(Diff([], []))
    else if n.Nil? then
      var deleted :- Deleted(o);
      Success(Diff([], deleted))
    else if o.Nil? then
      var added :- Added(n);
      Success(Diff(added, []))
    else if n.Absent? || o.Absent? || (InnerTree(n) && InnerTree(o) && (n.Corrupt? || o.Corrupt?)) then Failure
    else if n.Branch? && o.Branch? then
      var below :- DiffKids(o.kids, n.kids, Min(|o.kids|, |n.kids|));
      Success(Diff(below.added + [n.node], below.deleted + [o.node.hash]))
    else
      var added :- Added(n);
      var deleted :- Deleted(o);
      Success(Diff(added, deleted))
  }

  ghost function DiffKids(os: seq<Tree>, ns: seq<Tree>, k: nat): Result<Diff>
    requires k <= |os| && k <= |ns|
    decreases os, ns, k
  {
    if k == 0 then Success(Diff([], []))
    else
      var before :- DiffKids(os, ns, k - 1);
      var last :- DiffTrees(os[k - 1], ns[k - 1]);
      Success(Diff(before.added + last.added, before.deleted + last.deleted))
  }

  /** The diff as returned: both lists sorted by hash. */
  ghost function SortedDiff(o: Tree, n: Tree): Result<Diff> {
    var d :- DiffTrees(o, n);
    Success(Diff(SortBy(NodeKey, d.added), SortBy(HashKey, d.deleted)))
  }

  // ---------------------------------------------------------------------------------------------
  // The reader's methods

  class DiffLists {
    var added: seq<Node>
    var deleted: seq<Hash256>

    constructor ()
      ensures added == [] && deleted == []
    {
      added, deleted := [], [];
    }
  }

  /** Both lists have grown by exactly `d`. */
  twostate predicate Grown(diff: DiffLists, d: Diff)
    reads diff
  {
    diff.added == old(diff.added) + d.added && diff.deleted == old(diff.deleted) + d.deleted
  }

  method CollectAdded(m: NodeMap, hash: Hash256, diff: DiffLists, ghost t: Tree) returns (ok: bool)
    requires SlotUnfolds(m, hash, t)
    modifies diff
    ensures ok <==> Added(t).Success?
    ensures ok ==> Grown(diff, Diff(Added(t).value, []))
    decreases t
  {
    hide Children;
    if hash == ZERO_HASH {
      return true;
    }
    if hash !in m {
      return false;
    }
    var node := m[hash];
    if IsInner(node.nodeType) {
      var inner := Children(node);
      if inner.Failure? {
        return false;
      }
      var i := 0;
      while i < 16
        invariant 0 <= i <= 16
        invariant AddedKids(t.kids, i).Success?
        invariant Grown(diff, Diff(AddedKids(t.kids, i).value, []))
      {
        ok := CollectAdded(m, inner.value[i], diff, t.kids[i]);
        if !ok {
          AddedKidsFail(t.kids, i, 16);
          return false;
        }
        i := i + 1;
      }
    }
    diff.added := diff.added + [node];
    return true;
  }

  lemma {:induction false} AddedKidsFail(kids: seq<Tree>, i: nat, k: nat)
    requires i < k <= |kids| && Added(kids[i]).Failure?
    ensures AddedKids(kids, k).Failure?
  {
    if i + 1 < k {
      AddedKidsFail(kids, i, k - 1);
    }
  }

  method CollectDeleted(m: NodeMap, hash: Hash256, diff: DiffLists, ghost t: Tree) returns (ok: bool)
    requires SlotUnfolds(m, hash, t)
    modifies diff
    ensures ok <==> Deleted(t).Success?
    ensures ok ==> Grown(diff, Diff([], Deleted(t).value))
    decreases t
  {
    hide Children;
    if hash == ZERO_HASH {
      return true;
    }
    if hash !in m {
      diff.deleted := diff.deleted + [hash];
      return true;
    }
    var node := m[hash];
    if IsInner(node.nodeType) {
      var inner := Children(node);
      if inner.Failure? {
        return false;
      }
      var i := 0;
      while i < 16
        invariant 0 <= i <= 16
        invariant DeletedKids(t.kids, i).Success?
        invariant Grown(diff, Diff([], DeletedKids(t.kids, i).value))
      {
        ok := CollectDeleted(m, inner.value[i], diff, t.kids[i]);
        if !ok {
          DeletedKidsFail(t.kids, i, 16);
          return false;
        }
        i := i + 1;
      }
    }
    diff.deleted := diff.deleted + [hash];
    return true;
  }

  lemma {:induction false} DeletedKidsFail(kids: seq<Tree>, i: nat, k: nat)
    requires i < k <= |kids| && Deleted(kids[i]).Failure?
    ensures DeletedKids(kids, k).Failure?
  {
    if i + 1 < k {
      DeletedKidsFail(kids, i, k - 1);
    }
  }

  method DiffNodes(m: NodeMap, oldHash: Hash256, newHash: Hash256, diff: DiffLists, ghost o: Tree, ghost n: Tree)
    returns (ok: bool)
    requires SlotUnfolds(m, oldHash, o) && SlotUnfolds(m, newHash, n)
    modifies diff
    ensures ok <==> DiffTrees(o, n).Success?
    ensures ok ==> Grown(diff, DiffTrees(o, n).value)
    decreases o, n, 1
  {
    hide Children;
    if oldHash == newHash {
      return true;
    }
    if newHash == ZERO_HASH {
      ok := CollectDeleted(m, oldHash, diff, o);
      return ok;
    }
    if oldHash == ZERO_HASH {
      ok := CollectAdded(m, newHash, diff, n);
      return ok;
    }
    if newHash !in m || oldHash !in m {
      return false;
    }
    var newNode, oldNode := m[newHash], m[oldHash];
    if IsInner(newNode.nodeType) && IsInner(oldNode.nodeType) {
      var newInner, oldInner := Children(newNode), Children(oldNode);
      if newInner.Failure? || oldInner.Failure? {
        return false;
      }
      ok := DiffSlots(m, oldInner.value, newInner.value, diff, o, n);
      if !ok {
        return false;
      }
      diff.added := diff.added + [newNode];
      diff.deleted := diff.deleted + [oldHash];
    } else {
      ok := CollectAdded(m, newHash, diff, n);
      if !ok {
        return false;
      }
      ok := CollectDeleted(m, oldHash, diff, o);
      return ok;
    }
    return true;
  }

  /** Recurses into each child slot of two inner nodes. */
  method DiffSlots(m: NodeMap, oldInner: Slots, newInner: Slots, diff: DiffLists, ghost o: Tree, ghost n: Tree)
    returns (ok: bool)
    requires o.Branch? && n.Branch? && |o.kids| == |n.kids| == 16
    requires forall i :: 0 <= i < 16 ==> SlotUnfolds(m, oldInner[i], o.kids[i])
    requires forall i :: 0 <= i < 16 ==> SlotUnfolds(m, newInner[i], n.kids[i])
    modifies diff
    ensures ok <==> DiffKids(o.kids, n.kids, 16).Success?
    ensures ok ==> Grown(diff, DiffKids(o.kids, n.kids, 16).value)
    decreases o, n, 0
  {
    hide Unfolds, DiffTrees, DiffKids;
    DiffKidsStart(o.kids, n.kids);
    var i := 0;
    while i < 16
      invariant 0 <= i <= 16
      invariant DiffKids(o.kids, n.kids, i).Success?
      invariant Grown(diff, DiffKids(o.kids, n.kids, i).value)
    {
      var oldChild, newChild := oldInner[i], newInner[i];
      ghost var oldKid, newKid := o.kids[i], n.kids[i];
      SlotRoot(m, oldChild, oldKid);
      SlotRoot(m, newChild, newKid);
      if oldChild != newChild {
        ok := DiffNodes(m, oldChild, newChild, diff, oldKid, newKid);
        if !ok {
          DiffKidsFail(o.kids, n.kids, i, 16);
          return false;
        }
      } else {
        SameRootDiff(oldKid, newKid);
      }
      DiffKidsStep(o.kids, n.kids, i);
      i := i + 1;
    }
    return true;
  }

  lemma DiffKidsStart(os: seq<Tree>, ns: seq<Tree>)
    ensures DiffKids(os, ns, 0) == Success(Diff([], []))
  {
  }

  lemma SameRootDiff(o: Tree, n: Tree)
    requires RootHash(o) == RootHash(n)
    ensures DiffTrees(o, n) == Success(Diff([], []))
  {
  }

  lemma DiffKidsStep(os: seq<Tree>, ns: seq<Tree>, k: nat)
    requires k < |os| && k < |ns| && DiffKids(os, ns, k).Success? && DiffTrees(os[k], ns[k]).Success?
    ensures
      var before, last := DiffKids(os, ns, k).value, DiffTrees(os[k], ns[k]).value;
      DiffKids(os, ns, k + 1) == Success(Diff(before.added + last.added, before.deleted + last.deleted))
  {
  }

  lemma {:induction false} DiffKidsFail(os: seq<Tree>, ns: seq<Tree>, i: nat, k: nat)
    requires i < k <= |os| && k <= |ns| && DiffTrees(os[i], ns[i]).Failure?
    ensures DiffKids(os, ns, k).Failure?
  {
    if i + 1 < k {
      DiffKidsFail(os, ns, i, k - 1);
    }
  }

  /** The diff of the state trees below two roots, sorted; fails exactly when the walk does. */
  method DiffRoots(m: NodeMap, oldRoot: Hash256, newRoot: Hash256, ghost o: Tree, ghost n: Tree)
    returns (r: Result<Diff>)
    requires SlotUnfolds(m, oldRoot, o) && SlotUnfolds(m, newRoot, n)
    ensures r == SortedDiff(o, n)
  {
    var diff := new DiffLists();
    var ok := DiffNodes(m, oldRoot, newRoot, diff, o, n);
    if !ok {
      return Failure;
    }
    var added, deleted := diff.added, diff.deleted;
    assert Diff(added, deleted) == DiffTrees(o, n).value;
    return Success(Diff(SortBy(NodeKey, added), SortBy(HashKey, deleted)));
  }
}
