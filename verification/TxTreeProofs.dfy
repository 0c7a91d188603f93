/** What the transaction tree of a list of records is, whatever the order of the list. */
module TxTreeProofs {
  import opened Prelude
  import opened SHAMap
  import opened Sorting
  import opened TxTree

  ghost predicate DistinctKeys(items: seq<Item>) {
    forall i, j :: 0 <= i < j < |items| ==> items[i].key != items[j].key
  }

  // ---------------------------------------------------------------------------------------------
  // The build succeeds exactly when no key is repeated

  /** `a` and `b` agree on their first `depth` nibbles. */
  ghost predicate SharePrefix(a: Hash256, b: Hash256, depth: nat)
    requires depth <= 64
  {
    forall d :: 0 <= d < depth ==> Nibble(a, d) == Nibble(b, d)
  }

  ghost predicate AllShare(items: seq<Item>, depth: nat)
    requires depth <= 64
  {
    forall x, y :: x in items && y in items ==> SharePrefix(x.key, y.key, depth)
  }

  lemma SameNibblesSameKey(a: Hash256, b: Hash256)
    requires SharePrefix(a, b, 64)
    ensures a == b
  {
    forall i | 0 <= i < 32 ensures a[i] == b[i] {
      assert Nibble(a, 2 * i) == Nibble(b, 2 * i);
      assert Nibble(a, 2 * i + 1) == Nibble(b, 2 * i + 1);
      assert (2 * i) / 2 == i && (2 * i + 1) / 2 == i;
    }
  }

  lemma {:induction false} BucketDistinct(items: seq<Item>, depth: nat, slot: nat)
    requires depth < 64 && DistinctKeys(items)
    ensures DistinctKeys(Bucket(items, depth, slot))
  {
    if items != [] {
      var front, last := items[..|items| - 1], items[|items| - 1];
      BucketDistinct(front, depth, slot);
      forall x | x in Bucket(front, depth, slot) ensures x.key != last.key {
        var i :| 0 <= i < |front| && front[i] == x;
        assert items[i].key != items[|items| - 1].key;
      }
    }
  }

  lemma BucketShares(items: seq<Item>, depth: nat, slot: nat)
    requires depth < 64 && AllShare(items, depth)
    ensures AllShare(Bucket(items, depth, slot), depth + 1)
  {
    var b := Bucket(items, depth, slot);
    forall x, y | x in b && y in b ensures SharePrefix(x.key, y.key, depth + 1) {
      assert SharePrefix(x.key, y.key, depth);
    }
  }

  lemma {:induction false} LevelSucceeds(sha: Sha, items: seq<Item>, depth: nat)
    requires depth < 64 && DistinctKeys(items) && AllShare(items, depth)
    ensures Level(sha, items, depth).Success?
    decreases 64 - depth, 17
  {
    LevelKidsSucceed(sha, items, depth, 16);
  }

  lemma {:induction false} LevelKidsSucceed(sha: Sha, items: seq<Item>, depth: nat, k: nat)
    requires depth < 64 && k <= 16 && DistinctKeys(items) && AllShare(items, depth)
    ensures LevelKids(sha, items, depth, k).Success?
    decreases 64 - depth, k
  {
    if k > 0 {
      LevelKidsSucceed(sha, items, depth, k - 1);
      BucketDistinct(items, depth, k - 1);
      BucketShares(items, depth, k - 1);
      LevelSlotSucceeds(sha, Bucket(items, depth, k - 1), depth);
    }
  }

  lemma {:induction false} LevelSlotSucceeds(sha: Sha, b: seq<Item>, depth: nat)
    requires depth < 64 && DistinctKeys(b) && AllShare(b, depth + 1)
    ensures LevelSlot(sha, b, depth).Success?
    decreases 64 - depth, 0
  {
    if |b| > 1 {
      assert b[0] in b && b[1] in b;
      if depth + 1 == 64 {
        SameNibblesSameKey(b[0].key, b[1].key);
      }
      LevelSucceeds(sha, b, depth + 1);
    }
  }

  ghost function Positions(items: seq<Item>, key: Hash256): nat {
    if items == [] then 0
    else Positions(items[..|items| - 1], key) + if items[|items| - 1].key == key then 1 else 0
  }

  lemma {:induction false} PositionsPositive(items: seq<Item>, i: nat)
    requires i < |items|
    ensures Positions(items, items[i].key) > 0
  {
    if i < |items| - 1 {
      PositionsPositive(items[..|items| - 1], i);
    }
  }

  lemma {:induction false} RepeatedKey(items: seq<Item>) returns (key: Hash256)
    requires !DistinctKeys(items)
    ensures Positions(items, key) > 1
  {
    var front, last := items[..|items| - 1], items[|items| - 1];
    if DistinctKeys(front) {
      var i :| 0 <= i < |front| && items[i].key == last.key;
      PositionsPositive(front, i);
      key := last.key;
    } else {
      key := RepeatedKey(front);
    }
  }

  lemma {:induction false} BucketPositions(items: seq<Item>, depth: nat, key: Hash256)
    requires depth < 64
    ensures Positions(Bucket(items, depth, Nibble(key, depth)), key) == Positions(items, key)
    ensures |Bucket(items, depth, Nibble(key, depth))| >= Positions(items, key)
  {
    if items != [] {
      var front, last := items[..|items| - 1], items[|items| - 1];
      BucketPositions(front, depth, key);
      var b := Bucket(front, depth, Nibble(key, depth));
      assert (b + [last])[..|b|] == b;
    }
  }

  lemma {:induction false} LevelAborts(sha: Sha, items: seq<Item>, depth: nat, key: Hash256)
    requires depth <= 64 && Positions(items, key) > 1
    ensures Level(sha, items, depth).Failure?
    decreases 64 - depth
  {
    if depth < 64 {
      var slot := Nibble(key, depth);
      BucketPositions(items, depth, key);
      LevelAborts(sha, Bucket(items, depth, slot), depth + 1, key);
      LevelKidsFail(sha, items, depth, slot, 16);
    }
  }

  ghost predicate DistinctTxns(txns: seq<TxRecord>) {
    forall i, j :: 0 <= i < j < |txns| ==> txns[i].txHash != txns[j].txHash
  }

  /**
   * The build reads no nibble past the last one exactly when all transaction hashes differ; a
   * repeated hash aborts it.
   */
  lemma BuildSucceedsIff(sha: Sha, txns: seq<TxRecord>)
    ensures TxTreeOf(sha, txns).Success? <==> DistinctTxns(txns)
  {
    var items := MakeItems(sha, txns);
    if DistinctKeys(items) {
      if txns != [] {
        LevelSucceeds(sha, items, 0);
      }
      assert forall i :: 0 <= i < |txns| ==> items[i].key == txns[i].txHash;
    } else {
      var key := RepeatedKey(items);
      LevelAborts(sha, items, 0, key);
    }
  }

  // ---------------------------------------------------------------------------------------------
  // The tree does not depend on the order of the list

  lemma {:induction false} BucketBag(items: seq<Item>, depth: nat, slot: nat, x: Item)
    requires depth < 64
    ensures multiset(Bucket(items, depth, slot))[x] == if Nibble(x.key, depth) == slot then multiset(items)[x] else 0
  {
    if items != [] {
      var front, last := items[..|items| - 1], items[|items| - 1];
      BucketBag(front, depth, slot, x);
      assert items == front + [last];
    }
  }

  lemma BucketPermuted(a: seq<Item>, b: seq<Item>, depth: nat, slot: nat)
    requires depth < 64 && multiset(a) == multiset(b)
    ensures multiset(Bucket(a, depth, slot)) == multiset(Bucket(b, depth, slot))
    ensures |Bucket(a, depth, slot)| == |Bucket(b, depth, slot)|
  {
    var x, y := Bucket(a, depth, slot), Bucket(b, depth, slot);
    forall i ensures multiset(x)[i] == multiset(y)[i] {
      BucketBag(a, depth, slot, i);
      BucketBag(b, depth, slot, i);
    }
    assert |x| == |multiset(x)| == |multiset(y)| == |y|;
  }

  lemma {:induction false} LevelPermuted(sha: Sha, a: seq<Item>, b: seq<Item>, depth: nat)
    requires depth <= 64 && multiset(a) == multiset(b)
    ensures Level(sha, a, depth) == Level(sha, b, depth)
    decreases 64 - depth, 17
  {
    if depth < 64 {
      LevelKidsPermuted(sha, a, b, depth, 16);
    }
  }

  lemma {:induction false} LevelKidsPermuted(sha: Sha, a: seq<Item>, b: seq<Item>, depth: nat, k: nat)
    requires depth < 64 && k <= 16 && multiset(a) == multiset(b)
    ensures LevelKids(sha, a, depth, k) == LevelKids(sha, b, depth, k)
    decreases 64 - depth, k
  {
    hide LevelSlot, Bucket;
    if k > 0 {
      LevelKidsPermuted(sha, a, b, depth, k - 1);
      BucketPermuted(a, b, depth, k - 1);
      SlotPermuted(sha, Bucket(a, depth, k - 1), Bucket(b, depth, k - 1), depth);
    }
  }

  lemma {:induction false} SlotPermuted(sha: Sha, x: seq<Item>, y: seq<Item>, depth: nat)
    requires depth < 64 && multiset(x) == multiset(y) && |x| == |y|
    ensures LevelSlot(sha, x, depth) == LevelSlot(sha, y, depth)
    decreases 64 - depth, 0
  {
    if |x| == 1 {
      assert x == [x[0]] && y == [y[0]];
      assert x[0] in multiset(y);
    } else if |x| > 1 {
      LevelPermuted(sha, x, y, depth + 1);
    }
  }

  /** The root, and the whole tree, depend only on which records there are. */
  lemma TreePermuted(sha: Sha, a: seq<TxRecord>, b: seq<TxRecord>)
    requires multiset(a) == multiset(b)
    ensures TxTreeOf(sha, a) == TxTreeOf(sha, b)
  {
    assert |a| == |multiset(a)| == |multiset(b)| == |b|;
    if a != [] {
      MapPermuted(tx => MakeItem(sha, tx), a, b);
      LevelPermuted(sha, MakeItems(sha, a), MakeItems(sha, b), 0);
    }
  }

  // ---------------------------------------------------------------------------------------------
  // The tree in a node map that holds its nodes

  ghost predicate Stored(m: NodeMap, ns: seq<Node>) {
    forall n :: n in ns ==> Holds(m, n.hash, n) && n.hash != ZERO_HASH
  }

  ghost predicate ItemsStored(m: NodeMap, items: seq<Item>) {
    forall x :: x in items ==> Holds(m, x.node.hash, x.node) && x.node.hash != ZERO_HASH && !IsInner(x.node.nodeType)
  }

  lemma {:induction false} LevelUnfolds(sha: Sha, items: seq<Item>, depth: nat, m: NodeMap, t: Tree)
    requires depth < 64 && Level(sha, items, depth) == Success(t)
    requires ItemsStored(m, items) && Stored(m, Inners(t))
    ensures SlotUnfolds(m, RootHash(t), t) && Complete(t)
    decreases 64 - depth, 17
  {
    LevelParts(sha, items, depth, t);
    assert t.node in Inners(t);
    assert forall n :: n in InnersOf(t.kids, 16) ==> n in Inners(t);
    LevelKidsUnfold(sha, items, depth, m, t.kids, 16);
    ChildrenOfInner(sha, t);
  }

  lemma LevelParts(sha: Sha, items: seq<Item>, depth: nat, t: Tree)
    requires depth < 64 && Level(sha, items, depth) == Success(t)
    ensures t.Branch? && |t.kids| == 16 && t.node == InnerOf(sha, RootHashes(t.kids))
    ensures LevelKids(sha, items, depth, 16) == Success(t.kids) && t.kids[..16] == t.kids
    ensures Inners(t) == InnersOf(t.kids, 16) + [t.node]
  {
  }

  lemma ChildrenOfInner(sha: Sha, t: Tree)
    requires t.Branch? && |t.kids| == 16 && t.node == InnerOf(sha, RootHashes(t.kids))
    ensures Children(t.node) == Success(RootHashes(t.kids))
  {
    FullChildrenOfConcat(RootHashes(t.kids));
  }

  lemma {:induction false} LevelKidsUnfold(sha: Sha, items: seq<Item>, depth: nat, m: NodeMap, kids: seq<Tree>, k: nat)
    requires depth < 64 && k <= |kids| && k <= 16 && LevelKids(sha, items, depth, k) == Success(kids[..k])
    requires ItemsStored(m, items) && Stored(m, InnersOf(kids, k))
    ensures forall i :: 0 <= i < k ==> SlotUnfolds(m, RootHash(kids[i]), kids[i]) && Complete(kids[i])
    decreases 64 - depth, k
  {
    hide LevelSlot, Bucket;
    if k > 0 {
      assert kids[..k][..k - 1] == kids[..k - 1];
      LevelKidsUnfold(sha, items, depth, m, kids, k - 1);
      LevelSlotUnfolds(sha, Bucket(items, depth, k - 1), depth, m, kids[k - 1]);
    }
  }

  lemma {:induction false} LevelSlotUnfolds(sha: Sha, b: seq<Item>, depth: nat, m: NodeMap, t: Tree)
    requires depth < 64 && LevelSlot(sha, b, depth) == Success(t)
    requires ItemsStored(m, b) && Stored(m, Inners(t))
    ensures SlotUnfolds(m, RootHash(t), t) && Complete(t)
    decreases 64 - depth, 0
  {
    if |b| > 1 {
      assert depth + 1 < 64;
      LevelUnfolds(sha, b, depth + 1, m, t);
    } else if |b| == 1 {
      assert b[0] in b;
    }
  }

  /** The leaves of the tree are the items' nodes. */
  lemma {:induction false} LevelLeaves(sha: Sha, items: seq<Item>, depth: nat, t: Tree, n: Node)
    requires depth < 64 && Level(sha, items, depth) == Success(t)
    ensures Within(Leaf(n), t) <==> exists x :: x in items && x.node == n
    decreases 64 - depth, 17
  {
    LevelParts(sha, items, depth, t);
    LevelKidsLeaves(sha, items, depth, t.kids, 16, n);
    if x :| x in items && x.node == n {
      assert Within(Leaf(n), t.kids[Nibble(x.key, depth)]);
    }
  }

  lemma {:induction false} LevelKidsLeaves(sha: Sha, items: seq<Item>, depth: nat, kids: seq<Tree>, k: nat, n: Node)
    requires depth < 64 && k <= |kids| && k <= 16 && LevelKids(sha, items, depth, k) == Success(kids[..k])
    ensures forall i :: 0 <= i < k ==>
              (Within(Leaf(n), kids[i]) <==> exists x :: x in items && Nibble(x.key, depth) == i && x.node == n)
    decreases 64 - depth, k
  {
    if k > 0 {
      assert kids[..k][..k - 1] == kids[..k - 1];
      LevelKidsLeaves(sha, items, depth, kids, k - 1, n);
      LevelSlotLeaves(sha, Bucket(items, depth, k - 1), depth, kids[k - 1], n);
    }
  }

  lemma {:induction false} LevelSlotLeaves(sha: Sha, b: seq<Item>, depth: nat, t: Tree, n: Node)
    requires depth < 64 && LevelSlot(sha, b, depth) == Success(t)
    ensures Within(Leaf(n), t) <==> exists x :: x in b && x.node == n
    decreases 64 - depth, 0
  {
    if |b| > 1 {
      assert depth + 1 < 64;
      LevelLeaves(sha, b, depth + 1, t, n);
    } else if |b| == 1 {
      assert b[0] in b;
    }
  }
}
