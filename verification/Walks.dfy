/** The two collecting walks over a node map, depth first and level by level, and what a tree counts. */
module Walks {
  import opened Prelude
  import opened SHAMap
  import opened Sorting
  import opened ApplyDiff

  // ---------------------------------------------------------------------------------------------
  // Reachability in any node map, shared or cyclic

  ghost predicate Linked(m: NodeMap, h: Hash256, c: Hash256) {
    && h in m && IsInner(m[h].nodeType)
    && Children(m[h]).Success? && c != ZERO_HASH && c in Children(m[h]).value
  }

  /** The node exists and, if it is an inner node, parses. */
  ghost predicate Usable(m: NodeMap, h: Hash256) {
    h in m && (IsInner(m[h].nodeType) ==> Children(m[h]).Success?)
  }

  ghost predicate IsPath(m: NodeMap, root: Hash256, p: seq<Hash256>, h: Hash256) {
    && p != [] && p[0] == root && p[|p| - 1] == h
    && forall i :: 0 < i < |p| ==> Linked(m, p[i - 1], p[i])
  }

  ghost predicate Reach(m: NodeMap, root: Hash256, h: Hash256) {
    exists p :: IsPath(m, root, p, h)
  }

  lemma ReachRoot(m: NodeMap, root: Hash256)
    ensures Reach(m, root, root)
  {
    assert IsPath(m, root, [root], root);
  }

  lemma ReachStep(m: NodeMap, root: Hash256, h: Hash256, c: Hash256)
    requires Reach(m, root, h) && Linked(m, h, c)
    ensures Reach(m, root, c)
  {
    var p :| IsPath(m, root, p, h);
    assert IsPath(m, root, p + [c], c);
  }

  /** A set holding the root and closed under links holds everything reachable. */
  lemma {:induction false} ClosedHoldsPath(m: NodeMap, root: Hash256, s: set<Hash256>, p: seq<Hash256>, h: Hash256)
    requires root in s && forall v, c :: v in s && Linked(m, v, c) ==> c in s
    requires IsPath(m, root, p, h)
    ensures h in s
  {
    if |p| > 1 {
      var q := p[..|p| - 1];
      assert IsPath(m, root, q, q[|q| - 1]);
      ClosedHoldsPath(m, root, s, q, q[|q| - 1]);
      assert Linked(m, p[|p| - 2], p[|p| - 1]);
    }
  }

  lemma ClosedHoldsReach(m: NodeMap, root: Hash256, s: set<Hash256>)
    requires root in s && forall v, c :: v in s && Linked(m, v, c) ==> c in s
    ensures forall h :: Reach(m, root, h) ==> h in s
  {
    forall h | Reach(m, root, h) ensures h in s {
      var p :| IsPath(m, root, p, h);
      ClosedHoldsPath(m, root, s, p, h);
    }
  }

  /** What both collecting walks promise. */
  ghost predicate CollectsReach(m: NodeMap, root: Hash256, r: Result<seq<Node>>) {
    && (r.Success? <==> forall h :: Reach(m, root, h) ==> Usable(m, h))
    && (r.Success? ==>
          && From(r.value, m) && Distinct(HashesOf(r.value))
          && forall h :: h in HashesOf(r.value) <==> Reach(m, root, h))
  }

  /** The nodes fetched so far, each once. */
  ghost predicate Fetched(m: NodeMap, root: Hash256, result: seq<Node>, done: set<Hash256>) {
    && From(result, m) && Distinct(HashesOf(result))
    && (forall h :: h in HashesOf(result) <==> h in done)
    && forall h :: h in done ==> Usable(m, h) && Reach(m, root, h)
  }

  lemma FetchOne(m: NodeMap, root: Hash256, result: seq<Node>, done: set<Hash256>, h: Hash256)
    requires Fetched(m, root, result, done) && h !in done
    requires Keyed(m) && Usable(m, h) && Reach(m, root, h)
    ensures Fetched(m, root, result + [m[h]], done + {h})
  {
    var grown := result + [m[h]];
    HashesAppend(result, [m[h]]);
    assert HashesOf([m[h]]) == [h];
    assert HashesOf(grown) == HashesOf(result) + [h];
  }

  lemma FetchedAll(m: NodeMap, root: Hash256, result: seq<Node>, done: set<Hash256>)
    requires Fetched(m, root, result, done)
    requires root in done && forall v, c :: v in done && Linked(m, v, c) ==> c in done
    ensures CollectsReach(m, root, Success(result))
  {
    ClosedHoldsReach(m, root, done);
  }

  lemma FetchFails(m: NodeMap, root: Hash256, h: Hash256)
    requires Reach(m, root, h) && !Usable(m, h)
    ensures CollectsReach(m, root, Failure)
  {
  }

  /** What a depth-first walk keeps: everything linked from a visited node is visited or stacked. */
  ghost predicate Exploring(m: NodeMap, root: Hash256, visited: set<Hash256>, stack: seq<Hash256>) {
    && (forall h :: h in stack ==> Reach(m, root, h))
    && (root in visited || root in stack)
    && forall v, c :: v in visited && Linked(m, v, c) ==> c in visited || c in stack
  }

  lemma ExploreStart(m: NodeMap, root: Hash256)
    ensures Exploring(m, root, {}, [root])
  {
    ReachRoot(m, root);
  }

  /** Popping a hash that was visited before, or visiting a leaf, needs no push. */
  lemma ExplorePop(m: NodeMap, root: Hash256, visited: set<Hash256>, stack: seq<Hash256>, h: Hash256)
    requires Exploring(m, root, visited, stack + [h])
    ensures Reach(m, root, h)
    ensures h in visited || (h in m && !IsInner(m[h].nodeType)) ==> Exploring(m, root, visited + {h}, stack)
  {
    assert h in stack + [h];
  }

  /** Depth first; a hash may be on the stack several times and is marked when it is popped. */
  method CollectReachable(m: NodeMap, root: Hash256) returns (r: Result<seq<Node>>)
    requires Keyed(m)
    ensures CollectsReach(m, root, r)
  {
    var result: seq<Node> := [];
    var visited: set<Hash256> := {};
    var stack := [root];
    ExploreStart(m, root);
    while stack != []
      invariant Fetched(m, root, result, visited)
      invariant Exploring(m, root, visited, stack)
      decreases m.Keys - visited, |stack|
    {
      var hash, rest := stack[|stack| - 1], stack[..|stack| - 1];
      assert stack == rest + [hash];
      stack := rest;
      ExplorePop(m, root, visited, stack, hash);
      if hash in visited {
        assert visited + {hash} == visited;
        continue;
      }
      if hash !in m || (IsInner(m[hash].nodeType) && Children(m[hash]).Failure?) {
        FetchFails(m, root, hash);
        return Failure;
      }
      var node := m[hash];
      FetchOne(m, root, result, visited, hash);
      if IsInner(node.nodeType) {
        stack := PushUnvisited(m, root, hash, visited, stack);
      }
      visited := visited + {hash};
      result := result + [node];
    }
    FetchedAll(m, root, result, visited);
    return Success(result);
  }

  /** The children in the first `k` slots that are not visited, in slot order. */
  ghost function Unvisited(s: Slots, visited: set<Hash256>, k: nat): seq<Hash256>
    requires k <= 16
  {
    if k == 0 then []
    else if s[k - 1] != ZERO_HASH && s[k - 1] !in visited then Unvisited(s, visited, k - 1) + [s[k - 1]]
    else Unvisited(s, visited, k - 1)
  }

  /** Pushes the children of `hash`, which counts as visited from here on. */
  method PushUnvisited(m: NodeMap, ghost root: Hash256, hash: Hash256, visited: set<Hash256>, stack: seq<Hash256>)
    returns (next: seq<Hash256>)
    requires Usable(m, hash) && IsInner(m[hash].nodeType)
    requires Exploring(m, root, visited, stack + [hash])
    ensures Exploring(m, root, visited + {hash}, next)
    ensures next == stack + Unvisited(Children(m[hash]).value, visited + {hash}, 16)
  {
    var children := Children(m[hash]).value;
    next := stack;
    ExplorePop(m, root, visited, stack, hash);
    for i := 0 to 16
      invariant next == stack + Unvisited(children, visited + {hash}, i)
      invariant forall h :: h in next ==> Reach(m, root, h)
      invariant forall k :: 0 <= k < i && children[k] != ZERO_HASH ==>
                  children[k] in visited + {hash} || children[k] in next
    {
      if children[i] != ZERO_HASH && children[i] !in visited + {hash} {
        ReachStep(m, root, hash, children[i]);
        next := next + [children[i]];
      }
    }
    assert forall h :: h in stack ==> h in next;
  }

  /**
   * What the level-by-level walk keeps: `pending`, the rest of this frontier and the next one, lists
   * each hash that was marked but not fetched once, and everything linked from a fetched node is
   * marked.
   */
  ghost predicate Marking(m: NodeMap, root: Hash256, done: set<Hash256>, visited: set<Hash256>, pending: seq<Hash256>) {
    && Distinct(pending) && root in visited
    && (forall h :: h in pending ==> h !in done && Reach(m, root, h))
    && (forall h :: h in visited <==> h in done || h in pending)
    && forall v, c :: v in done && Linked(m, v, c) ==> c in visited
  }

  /** Level by level; a hash is marked when it enters a frontier, so no frontier repeats one. */
  method CollectReachableConcurrent(m: NodeMap, root: Hash256, concurrency: nat) returns (r: Result<seq<Node>>)
    requires Keyed(m)
    ensures CollectsReach(m, root, r)
  {
    if concurrency <= 1 {
      r := CollectReachable(m, root);
      return r;
    }
    var result: seq<Node> := [];
    var visited := {root};
    var frontier := [root];
    ghost var done: set<Hash256> := {};
    ReachRoot(m, root);
    while frontier != []
      invariant Fetched(m, root, result, done)
      invariant Marking(m, root, done, visited, frontier)
      decreases m.Keys - done
    {
      var ok;
      ok, result, visited, frontier, done := FetchLevel(m, root, frontier, result, visited, done);
      if !ok {
        return Failure;
      }
    }
    FetchedAll(m, root, result, done);
    return Success(result);
  }

  /** Fetches one frontier and lists the next. */
  method FetchLevel(m: NodeMap, ghost root: Hash256, frontier: seq<Hash256>, result: seq<Node>, visited: set<Hash256>,
                    ghost done: set<Hash256>)
    returns (ok: bool, fetched: seq<Node>, marked: set<Hash256>, next: seq<Hash256>, ghost reached: set<Hash256>)
    requires Keyed(m) && frontier != []
    requires Fetched(m, root, result, done) && Marking(m, root, done, visited, frontier)
    ensures !ok ==> CollectsReach(m, root, Failure)
    ensures ok ==> Fetched(m, root, fetched, reached) && Marking(m, root, reached, marked, next)
    ensures ok ==> done <= reached && frontier[0] in reached - done && frontier[0] in m
  {
    hide CollectsReach, FullChildren, CompressedChildren;
    fetched, marked, next, reached := result, visited, [], done;
    assert frontier[0..] + next == frontier;
    assert frontier[0] in frontier;
    for i := 0 to |frontier|
      invariant Fetched(m, root, fetched, reached)
      invariant Marking(m, root, reached, marked, frontier[i..] + next)
      invariant done <= reached && (i > 0 ==> frontier[0] in reached && frontier[0] in m)
    {
      var hash := frontier[i];
      assert frontier[i..] + next == [hash] + (frontier[i + 1..] + next);
      assert hash in frontier[i..] + next;
      if hash !in m || (IsInner(m[hash].nodeType) && Children(m[hash]).Failure?) {
        FetchFails(m, root, hash);
        return false, fetched, marked, next, reached;
      }
      FetchOne(m, root, fetched, reached, hash);
      marked, next := MarkChildren(m, root, hash, reached, marked, frontier[i + 1..], next);
      reached := reached + {hash};
      fetched := fetched + [m[hash]];
    }
    assert frontier[|frontier|..] + next == next;
    ok := true;
  }

  /** Marks the unmarked children of a fetched node and lists them for the next frontier. */
  method MarkChildren(m: NodeMap, ghost root: Hash256, hash: Hash256, ghost done: set<Hash256>, visited: set<Hash256>,
                      ghost later: seq<Hash256>, frontier: seq<Hash256>)
    returns (marked: set<Hash256>, next: seq<Hash256>)
    requires Usable(m, hash) && Marking(m, root, done, visited, [hash] + (later + frontier))
    ensures Marking(m, root, done + {hash}, marked, later + next)
  {
    marked, next := visited, frontier;
    assert hash in [hash] + (later + frontier);
    MarkHead(m, root, hash, done, visited, later + frontier);
    if !IsInner(m[hash].nodeType) {
      return;
    }
    var children := Children(m[hash]).value;
    for i := 0 to 16
      invariant MarkingBut(m, root, hash, done + {hash}, marked, later + next)
      invariant forall k :: 0 <= k < i && children[k] != ZERO_HASH ==> children[k] in marked
    {
      if children[i] != ZERO_HASH && children[i] !in marked {
        ReachStep(m, root, hash, children[i]);
        MarkOne(m, root, hash, done + {hash}, marked, later + next, children[i]);
        assert later + (next + [children[i]]) == later + next + [children[i]];
        marked := marked + {children[i]};
        next := next + [children[i]];
      }
    }
  }

  /** As `Marking`, while the children of `hash` are still being marked. */
  ghost predicate MarkingBut(m: NodeMap, root: Hash256, hash: Hash256, done: set<Hash256>, visited: set<Hash256>,
                             pending: seq<Hash256>) {
    && Distinct(pending) && root in visited && Reach(m, root, hash)
    && (forall h :: h in pending ==> h !in done && Reach(m, root, h))
    && (forall h :: h in visited <==> h in done || h in pending)
    && forall v, c :: v in done && v != hash && Linked(m, v, c) ==> c in visited
  }

  lemma MarkHead(m: NodeMap, root: Hash256, hash: Hash256, done: set<Hash256>, visited: set<Hash256>,
                 rest: seq<Hash256>)
    requires Marking(m, root, done, visited, [hash] + rest)
    ensures MarkingBut(m, root, hash, done + {hash}, visited, rest)
    ensures hash in m && !IsInner(m[hash].nodeType) ==> Marking(m, root, done + {hash}, visited, rest)
  {
    var all := [hash] + rest;
    assert hash in all;
    forall i, j | 0 <= i < j < |rest| ensures rest[i] != rest[j] {
      assert all[i + 1] != all[j + 1];
    }
    forall h | h in rest ensures h != hash && h in all {
      var i :| 0 <= i < |rest| && rest[i] == h;
      assert all[0] != all[i + 1];
    }
  }

  lemma MarkOne(m: NodeMap, root: Hash256, hash: Hash256, done: set<Hash256>, visited: set<Hash256>,
                pending: seq<Hash256>, c: Hash256)
    requires MarkingBut(m, root, hash, done, visited, pending) && c !in visited && Reach(m, root, c)
    ensures MarkingBut(m, root, hash, done, visited + {c}, pending + [c])
  {
  }

  // ---------------------------------------------------------------------------------------------
  // The two collecting walks agree, and on a tree they collect the tree

  lemma SameBag(m: NodeMap, a: seq<Node>, b: seq<Node>)
    requires From(a, m) && From(b, m)
    requires Distinct(HashesOf(a)) && Distinct(HashesOf(b))
    requires forall h :: h in HashesOf(a) <==> h in HashesOf(b)
    ensures multiset(a) == multiset(b)
  {
    HashDistinct(a);
    HashDistinct(b);
    forall n ensures multiset(a)[n] == multiset(b)[n] {
      DistinctCount(a, n);
      DistinctCount(b, n);
      SameNodes(m, a, b, n);
      SameNodes(m, b, a, n);
    }
  }

  lemma HashDistinct(a: seq<Node>)
    requires Distinct(HashesOf(a))
    ensures Distinct(a)
  {
    forall i, j | 0 <= i < j < |a| ensures a[i] != a[j] {
      assert HashesOf(a)[i] != HashesOf(a)[j];
    }
  }

  lemma SameNodes(m: NodeMap, a: seq<Node>, b: seq<Node>, n: Node)
    requires From(a, m) && From(b, m)
    requires forall h :: h in HashesOf(a) ==> h in HashesOf(b)
    ensures n in a ==> n in b
  {
    if n in a {
      var i :| 0 <= i < |a| && a[i] == n;
      assert HashesOf(a)[i] == n.hash;
      assert n.hash in HashesOf(b);
      var j :| 0 <= j < |b| && b[j].hash == n.hash;
      assert b[j] in b && Holds(m, n.hash, n) && Holds(m, b[j].hash, b[j]);
    }
  }

  /** Whatever the strategy, the walks succeed together and collect the same nodes. */
  lemma WalksAgree(m: NodeMap, root: Hash256, a: Result<seq<Node>>, b: Result<seq<Node>>)
    requires CollectsReach(m, root, a) && CollectsReach(m, root, b)
    ensures a.Success? <==> b.Success?
    ensures a.Success? ==> multiset(a.value) == multiset(b.value)
  {
    if a.Success? {
      SameBag(m, a.value, b.value);
    }
  }

  lemma {:induction false} OccReached(m: NodeMap, root: Hash256, h: Hash256, t: Tree)
    requires Unfolds(m, h, t) && Reach(m, root, h)
    ensures forall x :: x in Occ(t) ==> Reach(m, root, x)
    ensures (forall x :: x in Occ(t) ==> Usable(m, x)) ==> Complete(t)
    decreases t
  {
    if t.Branch? {
      var s := Children(t.node).value;
      forall i | 0 <= i < 16
        ensures forall x :: x in Occ(t.kids[i]) ==> Reach(m, root, x)
        ensures (forall x :: x in Occ(t.kids[i]) ==> Usable(m, x)) ==> Complete(t.kids[i])
      {
        if s[i] != ZERO_HASH {
          assert Linked(m, h, s[i]);
          ReachStep(m, root, h, s[i]);
          OccReached(m, root, s[i], t.kids[i]);
        }
      }
      forall x ensures x in Occ(t) <==> x == h || exists i :: 0 <= i < 16 && x in Occ(t.kids[i]) {
        OccBranch(t, x);
      }
    }
  }

  lemma RootOcc(m: NodeMap, h: Hash256, t: Tree)
    requires Unfolds(m, h, t)
    ensures h in Occ(t)
  {
  }

  lemma OccClosed(m: NodeMap, root: Hash256, t: Tree, v: Hash256, c: Hash256)
    requires Unfolds(m, root, t) && v in Occ(t) && Linked(m, v, c)
    ensures c in Occ(t)
  {
    var u := SubtreeAt(m, root, t, v);
    assert u.Branch?;
    var i :| 0 <= i < 16 && Children(m[v]).value[i] == c;
    RootOcc(m, c, u.kids[i]);
    OccBranch(u, c);
    WithinOcc(u, t);
  }

  /** On a finite unfolding, what is reachable is exactly what the tree holds. */
  lemma ReachIsOcc(m: NodeMap, root: Hash256, t: Tree)
    requires Unfolds(m, root, t)
    ensures forall h :: Reach(m, root, h) <==> h in Occ(t)
    ensures (forall h :: Reach(m, root, h) ==> Usable(m, h)) <==> Complete(t)
  {
    ReachRoot(m, root);
    OccReached(m, root, root, t);
    var s := set h | h in Occ(t);
    assert root in Occ(t);
    forall v, c | v in s && Linked(m, v, c) ensures c in s {
      OccClosed(m, root, t, v, c);
    }
    ClosedHoldsReach(m, root, s);
    if Complete(t) {
      forall h | h in Occ(t) ensures Usable(m, h) {
        var u := SubtreeAt(m, root, t, h);
        WithinOcc(u, t);
      }
    }
  }

  // ---------------------------------------------------------------------------------------------
  // Counting positions

  /** How many positions a tree, and a list of trees, has. */
  ghost function Size(t: Tree): nat
    decreases t, 0
  {
    match t
    case Nil => 0
    case Absent(_) => 1
    case Corrupt(_) => 1
    case Leaf(_) => 1
    case Branch(_, kids) => Total(kids) + 1
  }

  ghost function Total(trees: seq<Tree>): nat
    decreases trees, 1
  {
    if trees == [] then 0 else Total(trees[..|trees| - 1]) + Size(trees[|trees| - 1])
  }

  lemma TotalSnoc(trees: seq<Tree>, t: Tree)
    ensures Total(trees + [t]) == Total(trees) + Size(t)
  {
    assert (trees + [t])[..|trees|] == trees;
  }

  lemma CardSum<T>(a: multiset<T>, b: multiset<T>)
    ensures |a + b| == |a| + |b|
  {
  }

  lemma {:induction false} SizeIsOcc(t: Tree)
    ensures Size(t) == |Occ(t)|
    decreases t, 1
  {
    if t.Branch? {
      TotalIsOcc(t.kids, |t.kids|);
      assert t.kids[..|t.kids|] == t.kids;
      CardSum(OccKids(t.kids, |t.kids|), multiset{t.node.hash});
    }
  }

  lemma {:induction false} TotalIsOcc(kids: seq<Tree>, k: nat)
    requires k <= |kids|
    ensures Total(kids[..k]) == |OccKids(kids, k)|
    decreases kids, k
  {
    if k > 0 {
      TotalIsOcc(kids, k - 1);
      SizeIsOcc(kids[k - 1]);
      assert kids[..k] == kids[..k - 1] + [kids[k - 1]];
      TotalSnoc(kids[..k - 1], kids[k - 1]);
      CardSum(OccKids(kids, k - 1), Occ(kids[k - 1]));
    }
  }

  ghost predicate TreeComplete(state: NodeMap, t: Tree) {
    Complete(t) && Size(t) == |state|
  }

  ghost function Support(b: multiset<Hash256>): set<Hash256> {
    set h | h in b
  }

  lemma {:induction false} SupportSize(b: multiset<Hash256>)
    ensures |Support(b)| <= |b|
    ensures |Support(b)| == |b| <==> forall h :: b[h] <= 1
    decreases |b|
  {
    if b != multiset{} {
      var x :| x in b;
      var c := b - multiset{x};
      SupportSize(c);
      if b[x] == 1 {
        assert Support(b) == Support(c) + {x};
        assert forall h :: h != x ==> b[h] == c[h];
      } else {
        assert Support(b) == Support(c);
      }
    } else {
      assert Support(b) == {};
    }
  }

  /**
   * What passing the check means: every node of the tree is held, and nothing else is held exactly
   * when the walk reached no node twice.
   */
  lemma NothingExtraIff(state: NodeMap, root: Hash256, t: Tree)
    requires Unfolds(state, root, t) && TreeComplete(state, t)
    ensures forall h :: h in Occ(t) ==> h in state
    ensures (forall h :: h in state ==> h in Occ(t)) <==> NoDup(t)
  {
    forall h | h in Occ(t) ensures h in state {
      var u := SubtreeAt(state, root, t, h);
      WithinOcc(u, t);
    }
    var s := Support(Occ(t));
    SupportSize(Occ(t));
    SizeIsOcc(t);
    assert s <= state.Keys && |state.Keys| == |state|;
    if NoDup(t) {
      SubsetEqual(s, state.Keys);
    } else {
      assert |s| < |state|;
      assert s != state.Keys;
    }
  }

  lemma {:induction false} SubsetEqual<T>(a: set<T>, b: set<T>)
    requires a <= b && |a| == |b|
    ensures a == b
  {
    if b != a {
      var x :| x in b && x !in a;
      SubsetCard(a, b - {x});
    }
  }

  lemma {:induction false} SubsetCard<T>(a: set<T>, b: set<T>)
    requires a <= b
    ensures |a| <= |b|
  {
    if a != {} {
      var x :| x in a;
      SubsetCard(a - {x}, b - {x});
    }
  }
}
