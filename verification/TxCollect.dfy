/** Reading a ledger's transactions back out of a store, starting from the transaction root. */
module TxCollect {
  import opened Prelude
  import Bytes
  import opened SHAMap
  import opened Sorting
  import opened ApplyDiff
  import opened Walks
  import opened TxTree
  import opened TxTreeProofs

  function LeavesOf(ns: seq<Node>): (ls: seq<Node>)
    ensures forall n :: n in ls <==> n in ns && !IsInner(n.nodeType)
  {
    if ns == [] then []
    else
      var before, last := LeavesOf(ns[..|ns| - 1]), ns[|ns| - 1];
      if IsInner(last.nodeType) then before else before + [last]
  }

  function ParseAll(ls: seq<Node>): (r: Result<seq<TxRecord>>)
    ensures r.Success? ==> |r.value| == |ls|
    ensures r.Success? ==> forall i :: 0 <= i < |ls| ==> ParseTxLeaf(ls[i].content) == Success(r.value[i])
  {
    if ls == [] then Success([])
    else
      var before :- ParseAll(ls[..|ls| - 1]);
      var last :- ParseTxLeaf(ls[|ls| - 1].content);
      Success(before + [last])
  }

  /** A usable node which, if it is a leaf, is a transaction leaf. */
  ghost predicate TxUsable(m: NodeMap, h: Hash256) {
    Usable(m, h) && (!IsInner(m[h].nodeType) ==> ParseTxLeaf(m[h].content).Success?)
  }

  /** Succeeds on a tree of usable nodes, with the parsed leaves, each once, sorted by hash. */
  ghost predicate CollectsTx(m: NodeMap, root: Hash256, r: Result<seq<TxRecord>>) {
    && (r.Success? <==> forall h :: Reach(m, root, h) ==> TxUsable(m, h))
    && (r.Success? ==> exists fetched :: SortedLeaves(m, root, fetched, r.value))
  }

  ghost predicate SortedLeaves(m: NodeMap, root: Hash256, fetched: seq<Node>, txns: seq<TxRecord>) {
    && CollectsReach(m, root, Success(fetched))
    && ParseAll(LeavesOf(fetched)).Success?
    && txns == SortBy(TxKey, ParseAll(LeavesOf(fetched)).value)
  }

  /** The walk as it goes: the last hash on the stack first, children in slot order behind it. */
  ghost function TxWalk(m: NodeMap, visited: set<Hash256>, stack: seq<Hash256>,
                        out: seq<TxRecord>): Result<seq<TxRecord>>
    decreases m.Keys - visited, |stack|
  {
    if stack == [] then Success(SortBy(TxKey, out))
    else
      var hash, rest := stack[|stack| - 1], stack[..|stack| - 1];
      if hash in visited then TxWalk(m, visited, rest, out)
      else if !Usable(m, hash) then Failure
      else if IsInner(m[hash].nodeType) then
        TxWalk(m, visited + {hash}, rest + Unvisited(Children(m[hash]).value, visited + {hash}, 16), out)
      else
        var tx :- ParseTxLeaf(m[hash].content);
        TxWalk(m, visited + {hash}, rest, out + [tx])
  }

  /** The records in the order the walk leaves them in, sorted stably by hash. */
  ghost function CollectedTxs(m: NodeMap, txRoot: Hash256): Result<seq<TxRecord>> {
    if txRoot == ZERO_HASH then Success([]) else TxWalk(m, {}, [txRoot], [])
  }

  method CollectTransactions(m: NodeMap, txRoot: Hash256) returns (r: Result<seq<TxRecord>>)
    requires Keyed(m)
    ensures txRoot == ZERO_HASH ==> r == Success([])
    ensures txRoot != ZERO_HASH ==> CollectsTx(m, txRoot, r)
    ensures r == CollectedTxs(m, txRoot)
  {
    hide TxFetched, SortedLeaves, CollectsReach, ParseTxLeaf, FullChildren, CompressedChildren;
    var out: seq<TxRecord> := [];
    if txRoot == ZERO_HASH {
      return Success(out);
    }
    var visited: set<Hash256> := {};
    var stack := [txRoot];
    ghost var fetched: seq<Node> := [];
    ExploreStart(m, txRoot);
    TxFetchedNone(m, txRoot);
    while stack != []
      invariant TxFetched(m, txRoot, fetched, visited, out)
      invariant Exploring(m, txRoot, visited, stack)
      invariant TxWalk(m, visited, stack, out) == TxWalk(m, {}, [txRoot], [])
      decreases m.Keys - visited, |stack|
    {
      var hash, rest := stack[|stack| - 1], stack[..|stack| - 1];
      assert stack == rest + [hash];
      stack := rest;
      ExplorePop(m, txRoot, visited, stack, hash);
      if hash in visited {
        assert visited + {hash} == visited;
        continue;
      }
      if hash !in m || (IsInner(m[hash].nodeType) && Children(m[hash]).Failure?) {
        CollectFails(m, txRoot, hash);
        return Failure;
      }
      var node := m[hash];
      TxFetchOne(m, txRoot, fetched, visited, out, hash);
      fetched := fetched + [node];
      if IsInner(node.nodeType) {
        stack := PushUnvisited(m, txRoot, hash, visited, stack);
      } else {
        var tx := ParseTxLeaf(node.content);
        if tx.Failure? {
          CollectFails(m, txRoot, hash);
          return Failure;
        }
        out := out + [tx.value];
      }
      visited := visited + {hash};
    }
    Collected(m, txRoot, fetched, visited, out);
    return Success(SortBy(TxKey, out));
  }

  lemma TxFetchedNone(m: NodeMap, root: Hash256)
    ensures TxFetched(m, root, [], {}, [])
  {
  }

  /** The nodes fetched so far, each once, and the records their leaves parse to. */
  ghost predicate TxFetched(m: NodeMap, root: Hash256, fetched: seq<Node>, visited: set<Hash256>, out: seq<TxRecord>) {
    && Fetched(m, root, fetched, visited)
    && ParseAll(LeavesOf(fetched)) == Success(out)
    && forall h :: h in visited ==> TxUsable(m, h)
  }

  lemma TxFetchOne(m: NodeMap, root: Hash256, fetched: seq<Node>, visited: set<Hash256>, out: seq<TxRecord>, h: Hash256)
    requires TxFetched(m, root, fetched, visited, out) && h !in visited
    requires Keyed(m) && Usable(m, h) && Reach(m, root, h)
    ensures IsInner(m[h].nodeType) ==> TxFetched(m, root, fetched + [m[h]], visited + {h}, out)
    ensures !IsInner(m[h].nodeType) && ParseTxLeaf(m[h].content).Success? ==>
              TxFetched(m, root, fetched + [m[h]], visited + {h}, out + [ParseTxLeaf(m[h].content).value])
  {
    FetchOne(m, root, fetched, visited, h);
    ParseSnoc(fetched, m[h]);
  }

  lemma CollectFails(m: NodeMap, root: Hash256, h: Hash256)
    requires Reach(m, root, h) && !TxUsable(m, h)
    ensures CollectsTx(m, root, Failure)
  {
  }

  lemma Collected(m: NodeMap, root: Hash256, fetched: seq<Node>, visited: set<Hash256>, out: seq<TxRecord>)
    requires TxFetched(m, root, fetched, visited, out) && Exploring(m, root, visited, [])
    ensures CollectsTx(m, root, Success(SortBy(TxKey, out)))
  {
    FetchedAll(m, root, fetched, visited);
    assert SortedLeaves(m, root, fetched, SortBy(TxKey, out));
  }

  lemma ParseSnoc(ns: seq<Node>, n: Node)
    requires ParseAll(LeavesOf(ns)).Success?
    ensures IsInner(n.nodeType) ==> LeavesOf(ns + [n]) == LeavesOf(ns)
    ensures !IsInner(n.nodeType) && ParseTxLeaf(n.content).Success? ==>
              ParseAll(LeavesOf(ns + [n])) == Success(ParseAll(LeavesOf(ns)).value + [ParseTxLeaf(n.content).value])
  {
    assert (ns + [n])[..|ns|] == ns;
    if !IsInner(n.nodeType) {
      assert (LeavesOf(ns) + [n])[..|LeavesOf(ns)|] == LeavesOf(ns);
    }
  }

  // ---------------------------------------------------------------------------------------------
  // Reading back a tree that was built

  /** A node map that holds the whole tree of `txns`, whose hashes differ and whose blobs are readable. */
  ghost predicate HoldsTxTree(sha: Sha, txns: seq<TxRecord>, m: NodeMap) {
    && DistinctTxns(txns) && (forall tx :: tx in txns ==> Readable(tx))
    && TxTreeOf(sha, txns).Success? && Stored(m, TxNodes(sha, txns))
  }

  lemma TreeUnfolds(sha: Sha, txns: seq<TxRecord>, m: NodeMap)
    requires HoldsTxTree(sha, txns, m) && txns != []
    ensures
      var t := TxTreeOf(sha, txns).value;
      t.Branch? && Unfolds(m, RootHash(t), t) && Complete(t) && RootHash(t) != ZERO_HASH
  {
    var items, t := MakeItems(sha, txns), TxTreeOf(sha, txns).value;
    assert TxNodes(sha, txns) == LeafNodes(items) + Inners(t);
    assert ItemsStored(m, items) by {
      forall x | x in items ensures Holds(m, x.node.hash, x.node) && x.node.hash != ZERO_HASH
          && !IsInner(x.node.nodeType) {
        var i :| 0 <= i < |items| && items[i] == x;
        assert LeafNodes(items)[i] in TxNodes(sha, txns);
      }
    }
    LevelUnfolds(sha, items, 0, m, t);
    assert t.node in Inners(t);
  }

  ghost predicate RecordLeaf(sha: Sha, txns: seq<TxRecord>, n: Node) {
    exists tx :: tx in txns && n == TxLeaf(sha, tx)
  }

  /** A leaf of the built tree is the leaf of one of the records. */
  lemma BuiltLeaf(sha: Sha, txns: seq<TxRecord>, n: Node)
    requires txns != [] && TxTreeOf(sha, txns).Success?
    ensures Within(Leaf(n), TxTreeOf(sha, txns).value) <==> RecordLeaf(sha, txns, n)
  {
    hide Level, TxLeaf;
    var items := MakeItems(sha, txns);
    LevelLeaves(sha, items, 0, TxTreeOf(sha, txns).value, n);
    if x :| x in items && x.node == n {
      var i :| 0 <= i < |items| && items[i] == x;
      assert n == TxLeaf(sha, txns[i]);
    }
    if tx :| tx in txns && n == TxLeaf(sha, tx) {
      var i :| 0 <= i < |txns| && txns[i] == tx;
      assert items[i].node == n;
    }
  }

  lemma LeafHash(sha: Sha, txns: seq<TxRecord>, m: NodeMap, h: Hash256)
    requires HoldsTxTree(sha, txns, m) && txns != []
    requires h in Occ(TxTreeOf(sha, txns).value) && h in m && !IsInner(m[h].nodeType)
    ensures RecordLeaf(sha, txns, m[h])
  {
    var t := TxTreeOf(sha, txns).value;
    TreeUnfolds(sha, txns, m);
    var u := SubtreeAt(m, RootHash(t), t, h);
    assert u == Leaf(m[h]);
    BuiltLeaf(sha, txns, m[h]);
  }

  lemma RecordReached(sha: Sha, txns: seq<TxRecord>, m: NodeMap, tx: TxRecord)
    requires HoldsTxTree(sha, txns, m) && tx in txns
    ensures
      var n := TxLeaf(sha, tx);
      Holds(m, n.hash, n) && n.hash in Occ(TxTreeOf(sha, txns).value)
  {
    var n, t := TxLeaf(sha, tx), TxTreeOf(sha, txns).value;
    BuiltLeaf(sha, txns, n);
    WithinOcc(Leaf(n), t);
    assert n.hash in Occ(Leaf(n));
    TreeUnfolds(sha, txns, m);
    var items := MakeItems(sha, txns);
    var i :| 0 <= i < |txns| && txns[i] == tx;
    assert LeafNodes(items)[i] == n;
    assert n in TxNodes(sha, txns);
  }

  lemma {:induction false} ParseAllSucceeds(ls: seq<Node>)
    requires forall i :: 0 <= i < |ls| ==> ParseTxLeaf(ls[i].content).Success?
    ensures ParseAll(ls).Success?
  {
    if ls != [] {
      ParseAllSucceeds(ls[..|ls| - 1]);
    }
  }

  /** Each parsed leaf is the record it was made from. */
  lemma ParsedLeaves(sha: Sha, txns: seq<TxRecord>, ls: seq<Node>)
    requires forall tx :: tx in txns ==> Readable(tx)
    requires forall i :: 0 <= i < |ls| ==> RecordLeaf(sha, txns, ls[i])
    ensures ParseAll(ls).Success?
    ensures forall i :: 0 <= i < |ls| ==> ParseAll(ls).value[i] in txns && ls[i] == TxLeaf(sha, ParseAll(ls).value[i])
  {
    forall i | 0 <= i < |ls|
      ensures exists tx :: tx in txns && ls[i] == TxLeaf(sha, tx) && ParseTxLeaf(ls[i].content) == Success(tx)
    {
      assert RecordLeaf(sha, txns, ls[i]);
      var tx :| tx in txns && ls[i] == TxLeaf(sha, tx);
      LeafRoundTrip(tx);
    }
    ParseAllSucceeds(ls);
  }

  lemma SameDistinct<T>(a: seq<T>, b: seq<T>)
    requires Distinct(a) && Distinct(b) && forall x :: x in a <==> x in b
    ensures multiset(a) == multiset(b)
  {
    forall x ensures multiset(a)[x] == multiset(b)[x] {
      DistinctCount(a, x);
      DistinctCount(b, x);
    }
  }

  lemma LeavesDistinct(ns: seq<Node>)
    requires Distinct(ns)
    ensures Distinct(LeavesOf(ns))
  {
    if ns != [] {
      LeavesDistinct(ns[..|ns| - 1]);
    }
  }

  /** Every record's leaf is fetched, so every record is parsed. */
  lemma RecordParsed(sha: Sha, txns: seq<TxRecord>, m: NodeMap, fetched: seq<Node>, tx: TxRecord)
    requires HoldsTxTree(sha, txns, m) && tx in txns
    requires CollectsReach(m, RootHash(TxTreeOf(sha, txns).value), Success(fetched))
    requires ParseAll(LeavesOf(fetched)).Success?
    ensures tx in ParseAll(LeavesOf(fetched)).value
  {
    hide LeafContent, ParseTxLeaf;
    var t, n := TxTreeOf(sha, txns).value, TxLeaf(sha, tx);
    TreeUnfolds(sha, txns, m);
    ReachIsOcc(m, RootHash(t), t);
    RecordReached(sha, txns, m, tx);
    FetchedNode(m, fetched, n);
    LeafRoundTrip(tx);
    ParsedMember(LeavesOf(fetched), n, tx);
  }

  lemma FetchedNode(m: NodeMap, fetched: seq<Node>, n: Node)
    requires From(fetched, m) && Holds(m, n.hash, n) && n.hash in HashesOf(fetched)
    ensures n in fetched
  {
    var i :| 0 <= i < |fetched| && fetched[i].hash == n.hash;
    assert fetched[i] in fetched;
  }

  lemma ParsedMember(ls: seq<Node>, n: Node, tx: TxRecord)
    requires ParseAll(ls).Success? && n in ls && ParseTxLeaf(n.content) == Success(tx)
    ensures tx in ParseAll(ls).value
  {
    var k :| 0 <= k < |ls| && ls[k] == n;
    assert ParseAll(ls).value[k] == tx;
  }

  /** The leaves fetched from a built tree parse to exactly the records, in some order. */
  lemma ParsedIsPermutation(sha: Sha, txns: seq<TxRecord>, m: NodeMap, fetched: seq<Node>)
    requires HoldsTxTree(sha, txns, m) && txns != []
    requires CollectsReach(m, RootHash(TxTreeOf(sha, txns).value), Success(fetched))
    ensures ParseAll(LeavesOf(fetched)).Success? && multiset(ParseAll(LeavesOf(fetched)).value) == multiset(txns)
  {
    var t := TxTreeOf(sha, txns).value;
    TreeUnfolds(sha, txns, m);
    ReachIsOcc(m, RootHash(t), t);
    var ls := LeavesOf(fetched);
    forall k | 0 <= k < |ls| ensures RecordLeaf(sha, txns, ls[k]) {
      assert ls[k] in fetched;
      var i :| 0 <= i < |fetched| && fetched[i] == ls[k];
      assert HashesOf(fetched)[i] == ls[k].hash;
      LeafHash(sha, txns, m, ls[k].hash);
    }
    ParsedLeaves(sha, txns, ls);
    var parsed := ParseAll(ls).value;
    HashDistinct(fetched);
    LeavesDistinct(fetched);
    forall i, j | 0 <= i < j < |parsed| ensures parsed[i] != parsed[j] {
      assert ls[i] != ls[j];
    }
    forall tx | tx in txns ensures tx in parsed {
      RecordParsed(sha, txns, m, fetched, tx);
    }
    assert Distinct(txns);
    SameDistinct(parsed, txns);
  }

  /**
   * The main result: walking a store that holds the tree built from a list of records gives back
   * exactly those records, sorted by hash.
   */
  lemma CollectBuilt(sha: Sha, txns: seq<TxRecord>, m: NodeMap, r: Result<seq<TxRecord>>)
    requires HoldsTxTree(sha, txns, m) && txns != []
    requires CollectsTx(m, RootHash(TxTreeOf(sha, txns).value), r)
    ensures r == Success(SortBy(TxKey, txns))
  {
    var t := TxTreeOf(sha, txns).value;
    TreeUnfolds(sha, txns, m);
    ReachIsOcc(m, RootHash(t), t);
    forall h | Reach(m, RootHash(t), h) ensures TxUsable(m, h) {
      assert Usable(m, h);
      if !IsInner(m[h].nodeType) {
        LeafHash(sha, txns, m, h);
        var tx :| tx in txns && m[h] == TxLeaf(sha, tx);
        LeafRoundTrip(tx);
      }
    }
    var fetched :| SortedLeaves(m, RootHash(t), fetched, r.value);
    ParsedIsPermutation(sha, txns, m, fetched);
    TxKeyInjective(txns);
    assert KeyInjective(TxKey, ParseAll(LeavesOf(fetched)).value) by {
      assert forall tx :: tx in multiset(txns) <==> tx in txns;
      assert forall tx :: tx in ParseAll(LeavesOf(fetched)).value ==> tx in multiset(txns);
    }
    SortCanonical(TxKey, ParseAll(LeavesOf(fetched)).value, txns);
  }

  lemma TxKeyInjective(txns: seq<TxRecord>)
    requires DistinctTxns(txns)
    ensures KeyInjective(TxKey, txns)
  {
    forall a, b | a in txns && b in txns && TxKey(a) == TxKey(b) ensures a == b {
      Bytes.LexIsNumeric(a.txHash, b.txHash);
    }
  }
}
