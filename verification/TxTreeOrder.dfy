/**
 * Where a transaction stands in its tree: the leaves from left to right are the transactions in order of
 * hash, and the slots on the way to a leaf are the hash's own nibbles, high half of a byte first.
 */
module TxTreeOrder {
  import opened Prelude
  import opened Bytes
  import opened SHAMap
  import opened Sorting
  import opened TxTree
  import opened TxTreeProofs
  import opened FormatLayout

  /** The leaves from the first slot to the last. */
  ghost function LeavesInOrder(t: Tree): seq<Node>
    decreases t, 1
  {
    match t
    case Leaf(n) => [n]
    case Branch(_, kids) => LeavesOfKids(kids, |kids|)
    case _ => []
  }

  ghost function LeavesOfKids(kids: seq<Tree>, k: nat): seq<Node>
    requires k <= |kids|
    decreases kids, k
  {
    if k == 0 then [] else LeavesOfKids(kids, k - 1) + LeavesInOrder(kids[k - 1])
  }

  function ItemKey(x: Item): nat {
    FromBE(x.key)
  }

  // ---------------------------------------------------------------------------------------------
  // Nibbles and bytes

  /** A pair of nibbles is a byte of the hash. */
  lemma NibblesAreBytes(key: Hash256, i: nat)
    requires i < 32
    ensures 16 * Nibble(key, 2 * i) + Nibble(key, 2 * i + 1) == key[i] && Nibble(key, 2 * i) == key[i] / 16
  {
    assert (2 * i) / 2 == i && (2 * i + 1) / 2 == i;
  }

  /** The first nibble that differs decides the order of two hashes. */
  lemma NibbleOrder(a: Hash256, b: Hash256, depth: nat)
    requires depth < 64 && SharePrefix(a, b, depth) && Nibble(a, depth) < Nibble(b, depth)
    ensures LexLess(a, b)
  {
    var k := depth / 2;
    forall i | 0 <= i < k ensures a[i] == b[i] {
      NibblesAreBytes(a, i);
      NibblesAreBytes(b, i);
      assert Nibble(a, 2 * i) == Nibble(b, 2 * i) && Nibble(a, 2 * i + 1) == Nibble(b, 2 * i + 1);
    }
    NibblesAreBytes(a, k);
    NibblesAreBytes(b, k);
    if depth % 2 == 1 {
      assert Nibble(a, 2 * k) == Nibble(b, 2 * k);
    }
    assert a[k] < b[k];
    assert a[..k] == b[..k];
    LexIsFirstDifference(a, b, k);
  }

  // ---------------------------------------------------------------------------------------------
  // The leaves are sorted

  /** `arr` arranges the items whose nibble at `depth` is below `k`. */
  ghost predicate ArrangesBelow(arr: seq<Item>, items: seq<Item>, depth: nat, k: nat)
    requires depth < 64
  {
    forall x :: multiset(arr)[x] == if Nibble(x.key, depth) < k then multiset(items)[x] else 0
  }

  lemma Arranged(arr: seq<Item>, items: seq<Item>, depth: nat, k: nat, x: Item)
    requires depth < 64 && ArrangesBelow(arr, items, depth, k)
    ensures x in arr ==> x in items && Nibble(x.key, depth) < k
  {
    assert x in arr <==> x in multiset(arr);
    assert x in items <==> x in multiset(items);
  }

  lemma {:induction false} LevelArranged(sha: Sha, items: seq<Item>, depth: nat, t: Tree) returns (arr: seq<Item>)
    requires depth <= 64 && Level(sha, items, depth) == Success(t) && AllShare(items, depth)
    ensures multiset(arr) == multiset(items) && Sorted(ItemKey, arr) && LeavesInOrder(t) == MapSeq(ItemNode, arr)
    decreases 64 - depth, 17
  {
    hide Bucket, AllShare, Nibble, Sorted;
    assert t.kids[..16] == t.kids;
    arr := KidsArranged(sha, items, depth, t.kids, 16);
    assert forall x :: multiset(arr)[x] == multiset(items)[x];
  }

  lemma {:induction false} KidsArranged(sha: Sha, items: seq<Item>, depth: nat, kids: seq<Tree>, k: nat)
    returns (arr: seq<Item>)
    requires depth < 64 && k <= |kids| && k <= 16 && LevelKids(sha, items, depth, k) == Success(kids[..k])
    requires AllShare(items, depth)
    ensures ArrangesBelow(arr, items, depth, k) && Sorted(ItemKey, arr)
    ensures LeavesOfKids(kids, k) == MapSeq(ItemNode, arr)
    decreases 64 - depth, k
  {
    hide Bucket, AllShare, Nibble, Sorted, LevelSlot, LeavesInOrder, ArrangesBelow;
    if k == 0 {
      arr := [];
      NothingSorted(items, depth);
    } else {
      var b := Bucket(items, depth, k - 1);
      var before := LevelKids(sha, items, depth, k - 1).value;
      assert kids[..k][..k - 1] == before && kids[..k][k - 1] == LevelSlot(sha, b, depth).value;
      assert kids[..k - 1] == before;
      var low := KidsArranged(sha, items, depth, kids, k - 1);
      BucketShares(items, depth, k - 1);
      var high := SlotArranged(sha, b, depth, kids[k - 1]);
      arr := low + high;
      MapAppend(ItemNode, low, high);
      JoinArranged(items, depth, k, low, high);
    }
  }

  /** The items below `k - 1` and then those at `k - 1`, each lot sorted, are the items below `k` sorted. */
  lemma JoinArranged(items: seq<Item>, depth: nat, k: nat, low: seq<Item>, high: seq<Item>)
    requires depth < 64 && 0 < k && AllShare(items, depth)
    requires ArrangesBelow(low, items, depth, k - 1) && multiset(high) == multiset(Bucket(items, depth, k - 1))
    requires Sorted(ItemKey, low) && Sorted(ItemKey, high)
    ensures ArrangesBelow(low + high, items, depth, k) && Sorted(ItemKey, low + high)
  {
    hide Bucket, AllShare, Nibble, Sorted;
    forall x ensures multiset(low + high)[x] == if Nibble(x.key, depth) < k then multiset(items)[x] else 0 {
      BucketBag(items, depth, k - 1, x);
    }
    forall x, y | x in low && y in high ensures ItemKey(x) <= ItemKey(y) {
      Arranged(low, items, depth, k - 1, x);
      assert y in multiset(high) && y in Bucket(items, depth, k - 1);
      BucketHas(items, depth, k - 1, y);
      Ordered(items, depth, x, y);
    }
    SortedAppend(ItemKey, low, high);
  }

  lemma NothingSorted(items: seq<Item>, depth: nat)
    requires depth < 64
    ensures Sorted(ItemKey, []) && ArrangesBelow([], items, depth, 0)
  {
  }

  lemma BucketHas(items: seq<Item>, depth: nat, slot: nat, y: Item)
    requires depth < 64 && y in Bucket(items, depth, slot)
    ensures y in items && Nibble(y.key, depth) == slot
  {
  }

  lemma Ordered(items: seq<Item>, depth: nat, x: Item, y: Item)
    requires depth < 64 && AllShare(items, depth) && x in items && y in items
    requires Nibble(x.key, depth) < Nibble(y.key, depth)
    ensures ItemKey(x) <= ItemKey(y)
  {
    NibbleOrder(x.key, y.key, depth);
    LexIsNumeric(x.key, y.key);
  }

  lemma SortedAppend<T>(key: T -> nat, a: seq<T>, b: seq<T>)
    requires Sorted(key, a) && Sorted(key, b) && forall x, y :: x in a && y in b ==> key(x) <= key(y)
    ensures Sorted(key, a + b)
  {
  }

  lemma {:induction false} SlotArranged(sha: Sha, b: seq<Item>, depth: nat, t: Tree) returns (arr: seq<Item>)
    requires depth < 64 && LevelSlot(sha, b, depth) == Success(t) && AllShare(b, depth + 1)
    ensures multiset(arr) == multiset(b) && Sorted(ItemKey, arr) && LeavesInOrder(t) == MapSeq(ItemNode, arr)
    decreases 64 - depth, 0
  {
    hide AllShare, Nibble;
    if |b| <= 1 {
      arr := b;
    } else {
      arr := LevelArranged(sha, b, depth + 1, t);
    }
  }

  function LeafOf(sha: Sha): (f: TxRecord -> Node) {
    (tx: TxRecord) => TxLeaf(sha, tx)
  }

  /** The leaves of a ledger's transaction tree, from left to right, are its transactions in order of hash. */
  lemma LeavesAreSorted(sha: Sha, txns: seq<TxRecord>)
    requires TxTreeOf(sha, txns).Success?
    ensures LeavesInOrder(TxTreeOf(sha, txns).value) == MapSeq(LeafOf(sha), SortBy(TxKey, txns))
  {
    hide Level, Sorted, SortBy;
    var sorted := SortBy(TxKey, txns);
    SortSorts(TxKey, txns);
    assert |sorted| == |multiset(sorted)| == |multiset(txns)| == |txns|;
    if txns != [] {
      var items := MakeItems(sha, txns);
      EverythingShares(items);
      var arr := LevelArranged(sha, items, 0, TxTreeOf(sha, txns).value);
      BuildSucceedsIff(sha, txns);
      var target := MakeItems(sha, sorted);
      MapPermuted(tx => MakeItem(sha, tx), txns, sorted);
      ItemsSorted(sha, sorted);
      ItemsInjective(sha, txns, arr);
      SortedUnique(ItemKey, arr, target);
      assert MapSeq(ItemNode, target) == MapSeq(LeafOf(sha), sorted);
    }
  }

  lemma EverythingShares(items: seq<Item>)
    ensures AllShare(items, 0)
  {
  }

  lemma ItemsSorted(sha: Sha, txns: seq<TxRecord>)
    requires Sorted(TxKey, txns)
    ensures Sorted(ItemKey, MakeItems(sha, txns))
  {
  }

  lemma ItemsInjective(sha: Sha, txns: seq<TxRecord>, arr: seq<Item>)
    requires DistinctTxns(txns) && multiset(arr) == multiset(MakeItems(sha, txns))
    ensures KeyInjective(ItemKey, arr)
  {
    hide FromBE, MakeItems, DistinctTxns;
    forall x, y | x in arr && y in arr && ItemKey(x) == ItemKey(y) ensures x == y {
      LexIsNumeric(x.key, y.key);
      assert x in multiset(MakeItems(sha, txns)) && y in multiset(MakeItems(sha, txns));
      SameItem(sha, txns, x, y);
    }
  }

  lemma SameItem(sha: Sha, txns: seq<TxRecord>, x: Item, y: Item)
    requires DistinctTxns(txns) && x in MakeItems(sha, txns) && y in MakeItems(sha, txns) && x.key == y.key
    ensures x == y
  {
    hide TxLeaf;
    var items := MakeItems(sha, txns);
    var i :| 0 <= i < |items| && items[i] == x;
    var j :| 0 <= j < |items| && items[j] == y;
    assert items[i].key == txns[i].txHash && items[j].key == txns[j].txHash;
  }

  // ---------------------------------------------------------------------------------------------
  // Paths

  /** Following the slots of `path` from `t` leads to `u`. */
  ghost predicate LeadsTo(t: Tree, path: seq<nat>, u: Tree)
    decreases |path|
  {
    if path == [] then t == u else t.Branch? && path[0] < |t.kids| && LeadsTo(t.kids[path[0]], path[1..], u)
  }

  /** The slots are the nibbles of the key from `depth` on. */
  ghost predicate Spells(path: seq<nat>, key: Hash256, depth: nat) {
    depth + |path| <= 64 && forall i :: 0 <= i < |path| ==> path[i] == Nibble(key, depth + i)
  }

  lemma {:induction false} LevelPath(sha: Sha, items: seq<Item>, depth: nat, t: Tree, path: seq<nat>, n: Node)
    returns (x: Item)
    requires depth <= 64 && Level(sha, items, depth) == Success(t) && LeadsTo(t, path, Leaf(n))
    ensures x in items && x.node == n && Spells(path, x.key, depth)
    decreases 64 - depth, 1
  {
    hide Bucket, Nibble, LevelSlot;
    var slot := path[0];
    assert t.kids[..16] == t.kids;
    KidIsSlot(sha, items, depth, t.kids, 16, slot);
    var b := Bucket(items, depth, slot);
    x := SlotPath(sha, b, depth, t.kids[slot], path[1..], n);
    BucketHas(items, depth, slot, x);
    assert forall i :: 0 < i < |path| ==> path[i] == path[1..][i - 1];
  }

  lemma {:induction false} KidIsSlot(sha: Sha, items: seq<Item>, depth: nat, kids: seq<Tree>, k: nat, slot: nat)
    requires depth < 64 && slot < k <= 16 && k <= |kids| && LevelKids(sha, items, depth, k) == Success(kids[..k])
    ensures LevelSlot(sha, Bucket(items, depth, slot), depth) == Success(kids[slot])
  {
    hide Bucket, LevelSlot;
    var before := LevelKids(sha, items, depth, k - 1).value;
    assert kids[..k][..k - 1] == before && kids[..k - 1] == before;
    if slot < k - 1 {
      KidIsSlot(sha, items, depth, kids, k - 1, slot);
    } else {
      assert kids[..k][k - 1] == kids[slot];
    }
  }

  lemma {:induction false} SlotPath(sha: Sha, b: seq<Item>, depth: nat, t: Tree, path: seq<nat>, n: Node)
    returns (x: Item)
    requires depth < 64 && LevelSlot(sha, b, depth) == Success(t) && LeadsTo(t, path, Leaf(n))
    ensures x in b && x.node == n && Spells(path, x.key, depth + 1)
    decreases 64 - depth, 0
  {
    if |b| == 1 {
      x := b[0];
    } else {
      x := LevelPath(sha, b, depth + 1, t, path, n);
    }
  }

  /** Two slots of a path, read as a byte. */
  ghost predicate PairsSpell(path: seq<nat>, key: Hash256) {
    && |path| <= 64 && (forall i :: 0 <= i < |path| / 2 ==> PairIs(path, i, key[i]))
    && (|path| % 2 == 1 ==> path[|path| - 1] == key[|path| / 2] / 16)
  }

  predicate PairIs(path: seq<nat>, i: nat, b: byte)
    requires i < |path| / 2
  {
    16 * path[2 * i] + path[2 * i + 1] == b
  }

  lemma SpelledBytes(path: seq<nat>, key: Hash256)
    requires Spells(path, key, 0)
    ensures PairsSpell(path, key)
  {
    hide Nibble;
    forall i | 0 <= i < |path| / 2 ensures PairIs(path, i, key[i]) {
      NibblesAreBytes(key, i);
      assert path[2 * i] == Nibble(key, 0 + 2 * i) && path[2 * i + 1] == Nibble(key, 0 + (2 * i + 1));
    }
    if |path| % 2 == 1 {
      NibblesAreBytes(key, |path| / 2);
      assert path[|path| - 1] == Nibble(key, 0 + (|path| - 1));
    }
  }

  /**
   * On the way to a leaf the slots, two by two, are the bytes at the front of its transaction's hash, high
   * half first; a last slot without a partner is the high half of the next byte.
   */
  lemma PathIsPrefix(sha: Sha, txns: seq<TxRecord>, path: seq<nat>, n: Node) returns (tx: TxRecord)
    requires TxTreeOf(sha, txns).Success? && LeadsTo(TxTreeOf(sha, txns).value, path, Leaf(n))
    ensures tx in txns && n == TxLeaf(sha, tx) && PairsSpell(path, tx.txHash)
  {
    hide Level, Nibble, Spells, PairsSpell, TxLeaf;
    var items := MakeItems(sha, txns);
    var x := LevelPath(sha, items, 0, TxTreeOf(sha, txns).value, path, n);
    var j :| 0 <= j < |items| && items[j] == x;
    tx := txns[j];
    SpelledBytes(path, x.key);
  }
}
