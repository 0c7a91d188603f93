/** Concrete trees on which the diff goes wrong: applied in the wrong order, or with a repeated hash. */
module DiffWitness {
  import opened Prelude
  import opened SHAMap
  import opened TreeDiff
  import opened ApplyDiff

  function Tag(b: byte): (h: Hash256)
    ensures h != ZERO_HASH <==> b != 0
    ensures h[31] == b
  {
    var h := Zeros(31) + [b];
    assert h[31] == b && ZERO_HASH[31] == 0;
    assert b == 0 ==> h == ZERO_HASH;
    h
  }

  function LeafNode(b: byte): Node {
    Node(Tag(b), AccountState, [b])
  }

  function InnerNode(b: byte, first: Hash256, second: Hash256): Node {
    Node(Tag(b), Inner, Concat(EmptySlots()[0 := first][1 := second]))
  }

  ghost function TwoKids(first: Tree, second: Tree): (kids: seq<Tree>)
    ensures |kids| == 16 && kids[0] == first && kids[1] == second
    ensures forall i :: 2 <= i < 16 ==> kids[i] == Nil
  {
    seq(16, i requires 0 <= i < 16 => if i == 0 then first else if i == 1 then second else Nil)
  }

  lemma {:induction false} OccTwoKids(first: Tree, second: Tree, k: nat)
    requires 2 <= k <= 16
    ensures OccKids(TwoKids(first, second), k) == Occ(first) + Occ(second)
  {
    var kids := TwoKids(first, second);
    if k == 2 {
      assert OccKids(kids, 1) == OccKids(kids, 0) + Occ(first);
    } else {
      OccTwoKids(first, second, k - 1);
    }
  }

  lemma {:induction false} KeptTwoKids(os: seq<Tree>, ns: seq<Tree>, k: nat)
    requires |os| == |ns| == 16 && 2 <= k <= 16
    requires forall i :: 2 <= i < 16 ==> os[i] == ns[i] == Nil
    ensures KeptKids(os, ns, k) == Kept(os[0], ns[0]) + Kept(os[1], ns[1])
  {
    if k == 2 {
      assert KeptKids(os, ns, 1) == KeptKids(os, ns, 0) + Kept(os[0], ns[0]);
    } else {
      KeptTwoKids(os, ns, k - 1);
    }
  }

  /** `m` holds a leaf under each of the first tags and inner nodes under the others. */
  ghost predicate HasLeaf(m: NodeMap, b: byte) {
    Tag(b) in m && m[Tag(b)] == LeafNode(b)
  }

  ghost predicate HasInner(m: NodeMap, b: byte, first: byte, second: byte) {
    Tag(b) in m && m[Tag(b)] == InnerNode(b, Tag(first), Tag(second))
  }

  lemma LeafIn(m: NodeMap, b: byte) returns (t: Tree)
    requires b != 0 && HasLeaf(m, b)
    ensures t.Leaf? && RootHash(t) == Tag(b) && SlotUnfolds(m, Tag(b), t) && Complete(t)
    ensures Occ(t) == multiset{Tag(b)}
  {
    t := Leaf(LeafNode(b));
  }

  /** The branch under tag `b`, whose children are `first` and `second`. */
  lemma BranchIn(m: NodeMap, b: byte, x: byte, y: byte, first: Tree, second: Tree) returns (t: Tree)
    requires b != 0 && HasInner(m, b, x, y) && RootHash(first) == Tag(x) && RootHash(second) == Tag(y)
    requires SlotUnfolds(m, Tag(x), first) && SlotUnfolds(m, Tag(y), second)
    requires Complete(first) && Complete(second)
    ensures t.Branch? && t.kids == TwoKids(first, second)
    ensures RootHash(t) == Tag(b) && SlotUnfolds(m, Tag(b), t) && Complete(t)
    ensures Occ(t) == Occ(first) + Occ(second) + multiset{Tag(b)}
  {
    var s: Slots := EmptySlots()[0 := RootHash(first)][1 := RootHash(second)];
    FullChildrenOfConcat(s);
    var kids := TwoKids(first, second);
    t := Branch(m[Tag(b)], kids);
    forall i | 0 <= i < 16 ensures SlotUnfolds(m, s[i], kids[i]) && Complete(kids[i]) {
      if i >= 2 {
        assert s[i] == ZERO_HASH;
      }
    }
    OccTwoKids(first, second, 16);
  }

  // ---------------------------------------------------------------------------------------------
  // A leaf that moves up a level

  ghost predicate MoveStore(m: NodeMap) {
    HasLeaf(m, 1) && HasLeaf(m, 2) && HasInner(m, 3, 1, 2) && HasInner(m, 4, 3, 0) && HasInner(m, 5, 1, 0)
  }

  lemma MakeMoveStore() returns (m: NodeMap)
    ensures MoveStore(m)
  {
    m := map[Tag(1) := LeafNode(1), Tag(2) := LeafNode(2), Tag(3) := InnerNode(3, Tag(1), Tag(2)),
             Tag(4) := InnerNode(4, Tag(3), Tag(0)), Tag(5) := InnerNode(5, Tag(1), Tag(0))];
  }

  lemma LeafMovesUp(m: NodeMap) returns (o: Tree, n: Tree)
    requires MoveStore(m)
    ensures TwoTrees(m, RootHash(o), RootHash(n), o, n) && Kept(o, n) == multiset{}
    ensures Occ(o) == multiset{Tag(1), Tag(2), Tag(3), Tag(4)} && Occ(n) == multiset{Tag(1), Tag(5)}
  {
    var a := LeafIn(m, 1);
    var b := LeafIn(m, 2);
    var pair := BranchIn(m, 3, 1, 2, a, b);
    o := BranchIn(m, 4, 3, 0, pair, Nil);
    n := BranchIn(m, 5, 1, 0, a, Nil);
    KeptTwoKids(o.kids, n.kids, 16);
    assert Kept(pair, a) == multiset{};
  }

  /**
   * A leaf whose sibling is deleted moves up a level, so it is listed as deleted and as added.
   * Adding before removing then loses it.
   */
  lemma AddingFirstFails() returns (m: NodeMap, o: Tree, n: Tree)
    ensures TwoTrees(m, RootHash(o), RootHash(n), o, n) && NoDup(o)
    ensures SortedDiff(o, n).Success?
    ensures AppliedAddFirst(NodesOf(m, o), SortedDiff(o, n).value) != NodesOf(m, n)
  {
    m := MakeMoveStore();
    o, n := LeafMovesUp(m);
    assert NoDup(o) by {
      assert Tag(1)[31] == 1 && Tag(2)[31] == 2 && Tag(3)[31] == 3 && Tag(4)[31] == 4;
    }
    DiffCover(m, RootHash(o), RootHash(n), o, n);
    AddFirstExactIff(m, RootHash(o), RootHash(n), o, n);
    assert Tag(1) in Occ(o) && Tag(1) in Occ(n) && Tag(1) !in Kept(o, n);
  }

  // ---------------------------------------------------------------------------------------------
  // A hash at two positions

  ghost predicate TwiceStore(m: NodeMap) {
    HasLeaf(m, 1) && HasInner(m, 4, 1, 1) && HasInner(m, 5, 1, 0)
  }

  lemma MakeTwiceStore() returns (m: NodeMap)
    ensures TwiceStore(m)
  {
    m := map[Tag(1) := LeafNode(1), Tag(4) := InnerNode(4, Tag(1), Tag(1)), Tag(5) := InnerNode(5, Tag(1), Tag(0))];
  }

  lemma LeafTwice(m: NodeMap) returns (o: Tree, n: Tree)
    requires TwiceStore(m)
    ensures TwoTrees(m, RootHash(o), RootHash(n), o, n) && Kept(o, n) == multiset{Tag(1)}
    ensures Occ(o) == multiset{Tag(1), Tag(1), Tag(4)} && Occ(n) == multiset{Tag(1), Tag(5)}
  {
    var a := LeafIn(m, 1);
    o := BranchIn(m, 4, 1, 1, a, a);
    n := BranchIn(m, 5, 1, 0, a, Nil);
    KeptTwoKids(o.kids, n.kids, 16);
  }

  /** Dropping one of two positions of a repeated hash drops the node the other still needs. */
  lemma RepeatedHashFails() returns (m: NodeMap, o: Tree, n: Tree)
    ensures TwoTrees(m, RootHash(o), RootHash(n), o, n) && !NoDup(o)
    ensures SortedDiff(o, n).Success?
    ensures Applied(NodesOf(m, o), SortedDiff(o, n).value) != NodesOf(m, n)
  {
    m := MakeTwiceStore();
    o, n := LeafTwice(m);
    DiffCover(m, RootHash(o), RootHash(n), o, n);
    ApplyExactIff(m, RootHash(o), RootHash(n), o, n);
    DiffPartition(m, RootHash(o), RootHash(n), o, n);
    SortedDiffMembers(m, o, n);
    var d := DiffTrees(o, n).value;
    TagCounts(o, n, d, Kept(o, n));
  }

  /** The tag of the repeated leaf is deleted once and not added. */
  lemma TagCounts(o: Tree, n: Tree, d: Diff, kept: multiset<Hash256>)
    requires Occ(o) == multiset{Tag(1), Tag(1), Tag(4)} && Occ(n) == multiset{Tag(1), Tag(5)}
    requires kept == multiset{Tag(1)}
    requires Occ(o) == multiset(d.deleted) + kept && Occ(n) == multiset(HashesOf(d.added)) + kept
    ensures Tag(1) in d.deleted && Tag(1) !in HashesOf(d.added) && !NoDup(o)
  {
    assert Tag(1)[31] == 1 && Tag(4)[31] == 4 && Tag(5)[31] == 5;
    assert Occ(o)[Tag(1)] == 2 && Occ(n)[Tag(1)] == 1;
    assert multiset(d.deleted)[Tag(1)] == 1 && multiset(HashesOf(d.added))[Tag(1)] == 0;
  }
}
