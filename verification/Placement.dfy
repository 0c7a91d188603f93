/**
 * Why a SHAMap holds no node twice. A leaf sits where the nibbles of its key put it, and no inner
 * node is empty. A hash at two positions would put the same leaf below both, under two different
 * paths that are both prefixes of the leaf's one key.
 */
module Placement {
  import opened Prelude
  import opened SHAMap

  /** `t` hangs at `path` and each of its leaves extends that path along its own key. */
  ghost predicate Placed(t: Tree, path: seq<int>, key: Node -> seq<int>) {
    match t
    case Nil => true
    case Absent(_) => false
    case Corrupt(_) => false
    case Leaf(n) => path <= key(n)
    case Branch(_, kids) =>
      && (exists i :: 0 <= i < |kids| && !kids[i].Nil?)
      && forall i :: 0 <= i < |kids| ==> Placed(kids[i], path + [i], key)
  }

  /** The subtree at a position holding `x`, and the path to it. */
  lemma {:induction false} Locate(m: NodeMap, h: Hash256, t: Tree, path: seq<int>, key: Node -> seq<int>, x: Hash256)
    returns (u: Tree, q: seq<int>)
    requires SlotUnfolds(m, h, t) && Placed(t, path, key) && x in Occ(t)
    ensures Within(u, t) && path <= q && Placed(u, q, key)
    ensures Unfolds(m, x, u)
    decreases t
  {
    if t.Leaf? || x == t.node.hash {
      u, q := t, path;
    } else {
      OccBranch(t, x);
      var i :| 0 <= i < |t.kids| && x in Occ(t.kids[i]);
      u, q := Locate(m, Children(t.node).value[i], t.kids[i], path + [i], key, x);
      assert path <= path + [i] <= q;
    }
  }

  /** Some leaf of a non-empty tree has a key extending every path the tree can hang at. */
  lemma {:induction false} CommonKey(t: Tree, p: seq<int>, q: seq<int>, key: Node -> seq<int>) returns (k: seq<int>)
    requires !t.Nil? && Placed(t, p, key) && Placed(t, q, key)
    ensures p <= k && q <= k
    decreases t
  {
    if t.Leaf? {
      k := key(t.node);
    } else {
      var i :| 0 <= i < |t.kids| && !t.kids[i].Nil?;
      k := CommonKey(t.kids[i], p + [i], q + [i], key);
      assert p <= p + [i] <= k && q <= q + [i] <= k;
    }
  }

  lemma NextNibble(path: seq<int>, i: int, p: seq<int>, k: seq<int>)
    requires path + [i] <= p <= k
    ensures |path| < |k| && k[|path|] == i
  {
    assert k[|path|] == p[|path|] == (path + [i])[|path|];
  }

  /** Subtrees in different slots of one branch share no hash. */
  lemma SlotsDisjoint(m: NodeMap, g: Hash256, a: Tree, h: Hash256, b: Tree, path: seq<int>, i: int, j: int,
                      key: Node -> seq<int>, x: Hash256)
    requires SlotUnfolds(m, g, a) && SlotUnfolds(m, h, b) && i != j
    requires Placed(a, path + [i], key) && Placed(b, path + [j], key)
    requires x in Occ(a)
    ensures x !in Occ(b)
  {
    if x in Occ(b) {
      var u, p := Locate(m, g, a, path + [i], key, x);
      var v, q := Locate(m, h, b, path + [j], key, x);
      UnfoldUnique(m, x, u, v);
      var k := CommonKey(u, p, q, key);
      NextNibble(path, i, p, k);
      NextNibble(path, j, q, k);
    }
  }

  lemma {:induction false} KidsOnce(kids: seq<Tree>, k: nat, x: Hash256)
    requires k <= |kids| && forall i :: 0 <= i < |kids| ==> Occ(kids[i])[x] <= 1
    requires forall i, j :: 0 <= i < j < |kids| && x in Occ(kids[i]) ==> x !in Occ(kids[j])
    ensures OccKids(kids, k)[x] <= 1
  {
    if k > 0 {
      KidsOnce(kids, k - 1, x);
      if x in OccKids(kids, k - 1) {
        var i := OccKidsFind(kids, k - 1, x);
      }
    }
  }

  /** The main result: placement by key leaves no hash at two positions. */
  lemma {:induction false} PlacedNoDup(m: NodeMap, h: Hash256, t: Tree, path: seq<int>, key: Node -> seq<int>)
    requires SlotUnfolds(m, h, t) && Placed(t, path, key)
    ensures NoDup(t) && Complete(t)
    decreases t
  {
    if t.Branch? {
      forall i | 0 <= i < |t.kids| ensures NoDup(t.kids[i]) && Complete(t.kids[i]) {
        PlacedNoDup(m, Children(t.node).value[i], t.kids[i], path + [i], key);
      }
      forall x ensures Occ(t)[x] <= 1 {
        forall i, j | 0 <= i < j < |t.kids| && x in Occ(t.kids[i]) ensures x !in Occ(t.kids[j]) {
          var s := Children(t.node).value;
          SlotsDisjoint(m, s[i], t.kids[i], s[j], t.kids[j], path, i, j, key, x);
        }
        KidsOnce(t.kids, |t.kids|, x);
        if x == t.node.hash && x in OccKids(t.kids, |t.kids|) {
          OccKidsMember(t.kids, |t.kids|, x);
          var i :| 0 <= i < |t.kids| && x in Occ(t.kids[i]);
          RootOnce(m, h, t, i);
        }
      }
    }
  }
}
