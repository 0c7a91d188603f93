/** Building the account index: one row per transaction and affected account, ledger by ledger. */
module IndexBuild {
  import opened Prelude
  import opened Sorting
  import opened TxTree
  import opened ChunkFormat
  import opened MetaFormat
  import opened IndexQuery

  type Locator = map<Hash256, (u32, u32)>

  // ---------------------------------------------------------------------------------------------
  // What is indexed

  /** The transaction hashes to its id, and its metadata decodes and carries a `TransactionIndex`. */
  ghost predicate Indexable(sha: Sha, tx: TxRecord) {
    TxId(sha, tx.txBlob) == tx.txHash && Summary(tx.metaBlob).Success? && Summary(tx.metaBlob).value.index.Some?
  }

  ghost function TxnSeq(tx: TxRecord): u32 {
    if Summary(tx.metaBlob).Success?
        && Summary(tx.metaBlob).value.index.Some? then Summary(tx.metaBlob).value.index.value else 0
  }

  ghost function Accounts(tx: TxRecord): set<AccountId> {
    if Summary(tx.metaBlob).Success? then Summary(tx.metaBlob).value.accounts else {}
  }

  function Same(n: u32): nat {
    n
  }

  /** The numbers are exactly `0..n`, in some order. */
  predicate Exact(indices: seq<u32>) {
    forall i :: 0 <= i < |indices| ==> SortBy(Same, indices)[i] == i
  }

  ghost function IndicesOf(txns: seq<TxRecord>): (ns: seq<u32>)
    ensures |ns| == |txns| && forall i :: 0 <= i < |txns| ==> ns[i] == TxnSeq(txns[i])
  {
    seq(|txns|, i requires 0 <= i < |txns| => TxnSeq(txns[i]))
  }

  /** A ledger the index accepts: in order, every transaction readable, numbered exactly `0..n`. */
  ghost predicate GoodLedger(sha: Sha, t: TxMap, seqNo: nat) {
    t.ledgerSeq == seqNo && (forall tx :: tx in t.txns ==> Indexable(sha, tx)) && Exact(IndicesOf(t.txns))
  }

  /** The transaction of some ledger that a row stands for. */
  ghost predicate Stands(hist: seq<TxMap>, t: TxMap, tx: TxRecord, s: u32, n: u32, h: Hash256) {
    t in hist && t.ledgerSeq == s && tx in t.txns && TxnSeq(tx) == n && tx.txHash == h
  }

  ghost predicate Entered(hist: seq<TxMap>, tx: TxRecord, s: u32, n: u32, h: Hash256) {
    exists t :: Stands(hist, t, tx, s, n, h)
  }

  ghost predicate RowFor(hist: seq<TxMap>, a: AccountId, s: u32, n: u32, h: Hash256) {
    exists tx :: Entered(hist, tx, s, n, h) && a in Accounts(tx)
  }

  ghost predicate Located(hist: seq<TxMap>, s: u32, n: u32, h: Hash256) {
    exists tx :: Entered(hist, tx, s, n, h)
  }

  /** The rows are exactly those of the ledgers' transactions. */
  ghost predicate Tabled(acct: AccountTable, hist: seq<TxMap>) {
    forall a: AccountId, s: u32, n: u32, h: Hash256 :: (a, s, n) in acct && acct[(a, s, n)] == h <==>
        RowFor(hist, a, s, n, h)
  }

  ghost predicate AllLocated(loc: Locator, hist: seq<TxMap>) {
    forall s: u32, n: u32, h: Hash256 :: h in loc && loc[h] == (s, n) <==> Located(hist, s, n, h)
  }

  /** Ledgers one after the other from `start`, each good. */
  ghost predicate InOrder(sha: Sha, start: u32, hist: seq<TxMap>) {
    forall i :: 0 <= i < |hist| ==> GoodLedger(sha, hist[i], start + i)
  }

  // ---------------------------------------------------------------------------------------------
  // One more transaction

  /** The ledgers done and the first `k` transactions of the next. */
  ghost function Partial(hist: seq<TxMap>, t: TxMap, k: nat): seq<TxMap>
    requires k <= |t.txns|
  {
    hist + [t.(txns := t.txns[..k])]
  }

  lemma StandsNext(hist: seq<TxMap>, t: TxMap, k: nat, u: TxMap, tx: TxRecord, s: u32, n: u32, h: Hash256)
    requires k < |t.txns| && Stands(Partial(hist, t, k), u, tx, s, n, h)
    ensures Entered(Partial(hist, t, k + 1), tx, s, n, h)
  {
    hide TxnSeq;
    var last := t.(txns := t.txns[..k + 1]);
    if u in hist {
      assert Stands(Partial(hist, t, k + 1), u, tx, s, n, h);
    } else {
      assert t.txns[..k + 1] == t.txns[..k] + [t.txns[k]];
      assert Stands(Partial(hist, t, k + 1), last, tx, s, n, h);
    }
  }

  lemma StandsLast(hist: seq<TxMap>, t: TxMap, k: nat)
    requires k < |t.txns|
    ensures Entered(Partial(hist, t, k + 1), t.txns[k], t.ledgerSeq, TxnSeq(t.txns[k]), t.txns[k].txHash)
  {
    hide TxnSeq;
    var last := t.(txns := t.txns[..k + 1]);
    assert t.txns[..k + 1] == t.txns[..k] + [t.txns[k]];
    assert Stands(Partial(hist, t, k + 1), last, t.txns[k], t.ledgerSeq, TxnSeq(t.txns[k]), t.txns[k].txHash);
  }

  lemma StandsBack(hist: seq<TxMap>, t: TxMap, k: nat, u: TxMap, tx: TxRecord, s: u32, n: u32, h: Hash256)
    requires k < |t.txns| && Stands(Partial(hist, t, k + 1), u, tx, s, n, h)
    ensures (tx == t.txns[k] && s == t.ledgerSeq) || Entered(Partial(hist, t, k), tx, s, n, h)
  {
    hide TxnSeq;
    var last := t.(txns := t.txns[..k]);
    assert t.txns[..k + 1] == t.txns[..k] + [t.txns[k]];
    if u in hist {
      assert Stands(Partial(hist, t, k), u, tx, s, n, h);
    } else if tx in t.txns[..k] {
      assert Stands(Partial(hist, t, k), last, tx, s, n, h);
    }
  }

  /** The rows of one transaction. */
  ghost predicate Grown(before: AccountTable, after: AccountTable, accounts: set<AccountId>, s: u32, n: u32,
                        h: Hash256) {
    && (forall k :: k in before ==> k in after && after[k] == before[k])
    && (forall a :: a in accounts ==> (a, s, n) !in before && (a, s, n) in after && after[(a, s, n)] == h)
    && forall k :: k in after && k !in before ==> k.0 in accounts && k.1 == s && k.2 == n
  }

  lemma TabledNext(acct: AccountTable, after: AccountTable, hist: seq<TxMap>, t: TxMap, k: nat)
    requires k < |t.txns| && Tabled(acct, Partial(hist, t, k))
    requires Grown(acct, after, Accounts(t.txns[k]), t.ledgerSeq, TxnSeq(t.txns[k]), t.txns[k].txHash)
    ensures Tabled(after, Partial(hist, t, k + 1))
  {
    hide Accounts, TxnSeq, Stands, Partial;
    var x := t.txns[k];
    var old', new' := Partial(hist, t, k), Partial(hist, t, k + 1);
    forall a: AccountId, s: u32, n: u32, h: Hash256 ensures (a, s, n) in after && after[(a, s, n)] == h <==>
        RowFor(new', a, s, n, h) {
      if (a, s, n) in after && after[(a, s, n)] == h {
        if (a, s, n) in acct {
          assert RowFor(old', a, s, n, h);
          var tx :| Entered(old', tx, s, n, h) && a in Accounts(tx);
          var u :| Stands(old', u, tx, s, n, h);
          StandsNext(hist, t, k, u, tx, s, n, h);
        } else {
          StandsLast(hist, t, k);
        }
      }
      if RowFor(new', a, s, n, h) {
        var tx :| Entered(new', tx, s, n, h) && a in Accounts(tx);
        var u :| Stands(new', u, tx, s, n, h);
        StandsBack(hist, t, k, u, tx, s, n, h);
        StandsParts(new', u, tx, s, n, h);
        assert Entered(old', tx, s, n, h) ==> RowFor(old', a, s, n, h);
      }
    }
  }

  lemma StandsParts(hist: seq<TxMap>, t: TxMap, tx: TxRecord, s: u32, n: u32, h: Hash256)
    requires Stands(hist, t, tx, s, n, h)
    ensures t in hist && t.ledgerSeq == s && tx in t.txns && TxnSeq(tx) == n && tx.txHash == h
  {
  }

  lemma LocatedNext(loc: Locator, hist: seq<TxMap>, t: TxMap, k: nat)
    requires k < |t.txns| && AllLocated(loc, Partial(hist, t, k)) && t.txns[k].txHash !in loc
    ensures AllLocated(loc[t.txns[k].txHash := (t.ledgerSeq, TxnSeq(t.txns[k]))], Partial(hist, t, k + 1))
  {
    hide TxnSeq, Stands, Partial;
    var x := t.txns[k];
    var old', new' := Partial(hist, t, k), Partial(hist, t, k + 1);
    var after := loc[x.txHash := (t.ledgerSeq, TxnSeq(x))];
    forall s: u32, n: u32, h: Hash256 ensures h in after && after[h] == (s, n) <==> Located(new', s, n, h) {
      if h in after && after[h] == (s, n) {
        if h == x.txHash {
          StandsLast(hist, t, k);
        } else {
          assert Located(old', s, n, h);
          var tx :| Entered(old', tx, s, n, h);
          var u :| Stands(old', u, tx, s, n, h);
          StandsNext(hist, t, k, u, tx, s, n, h);
        }
      }
      if Located(new', s, n, h) {
        var tx :| Entered(new', tx, s, n, h);
        var u :| Stands(new', u, tx, s, n, h);
        StandsBack(hist, t, k, u, tx, s, n, h);
        StandsParts(new', u, tx, s, n, h);
        assert Entered(old', tx, s, n, h) ==> Located(old', s, n, h);
      }
    }
  }

  // ---------------------------------------------------------------------------------------------
  // Exactly 0..n

  lemma ExactDistinct(ns: seq<u32>)
    requires Exact(ns)
    ensures Distinct(ns) && forall i :: 0 <= i < |ns| ==> ns[i] < |ns|
  {
    var sorted := SortBy(Same, ns);
    SortSorts(Same, ns);
    SortMembers(Same, ns);
    DistinctBag(sorted, ns);
    forall i | 0 <= i < |ns| ensures ns[i] < |ns| {
      assert ns[i] in sorted;
    }
  }

  /** Different numbers below their count are exactly `0..n`. */
  lemma ExactIff(ns: seq<u32>)
    ensures Exact(ns) <==> Distinct(ns) && forall i :: 0 <= i < |ns| ==> ns[i] < |ns|
  {
    if Exact(ns) {
      ExactDistinct(ns);
    }
    if Distinct(ns) && forall i :: 0 <= i < |ns| ==> ns[i] < |ns| {
      var sorted := SortBy(Same, ns);
      SortSorts(Same, ns);
      SortMembers(Same, ns);
      DistinctBag(ns, sorted);
      forall i | 0 <= i < |sorted| ensures sorted[i] < |sorted| {
        assert sorted[i] in ns;
      }
      Ascends(sorted);
      forall i | 0 <= i < |ns| ensures sorted[i] == i {
        AtLeast(sorted, i);
        AtMost(sorted, i);
      }
    }
  }

  lemma Ascends(s: seq<u32>)
    requires Sorted(Same, s) && Distinct(s)
    ensures forall i, j :: 0 <= i < j < |s| ==> s[i] < s[j]
  {
    forall i, j | 0 <= i < j < |s| ensures s[i] < s[j] {
      assert Same(s[i]) <= Same(s[j]);
    }
  }

  lemma {:induction false} AtLeast(s: seq<u32>, i: nat)
    requires i < |s| && forall i, j :: 0 <= i < j < |s| ==> s[i] < s[j]
    ensures s[i] >= i
  {
    if i > 0 {
      AtLeast(s, i - 1);
    }
  }

  lemma {:induction false} AtMost(s: seq<u32>, i: nat)
    requires i < |s| && (forall i, j :: 0 <= i < j < |s| ==> s[i] < s[j]) && forall i :: 0 <= i < |s| ==> s[i] < |s|
    ensures s[i] <= i
    decreases |s| - i
  {
    if i + 1 < |s| {
      AtMost(s, i + 1);
    }
  }

  lemma EarlierBelow(sha: Sha, start: u32, hist: seq<TxMap>, u: TxMap)
    requires InOrder(sha, start, hist)
    ensures u in hist ==> u.ledgerSeq < start + |hist|
  {
    hide Indexable, Exact;
    if u in hist {
      var i :| 0 <= i < |hist| && hist[i] == u;
      assert GoodLedger(sha, hist[i], start + i);
    }
  }

  /** A repeated row key means a repeated `TransactionIndex`, which the count check would refuse. */
  lemma RepeatedRow(sha: Sha, start: u32, hist: seq<TxMap>, t: TxMap, k: nat, a: AccountId, acct: AccountTable)
    requires InOrder(sha, start, hist) && t.ledgerSeq == start + |hist| && k < |t.txns|
    requires Tabled(acct, Partial(hist, t, k)) && (a, t.ledgerSeq, TxnSeq(t.txns[k])) in acct
    ensures !Exact(IndicesOf(t.txns))
  {
    hide TxnSeq, Accounts, Exact;
    var s, n := t.ledgerSeq, TxnSeq(t.txns[k]);
    assert RowFor(Partial(hist, t, k), a, s, n, acct[(a, s, n)]);
    var tx :| Entered(Partial(hist, t, k), tx, s, n, acct[(a, s, n)]) && a in Accounts(tx);
    var u :| Stands(Partial(hist, t, k), u, tx, s, n, acct[(a, s, n)]);
    EarlierBelow(sha, start, hist, u);
    assert u == t.(txns := t.txns[..k]);
    var j :| 0 <= j < k && t.txns[j] == tx;
    assert IndicesOf(t.txns)[j] == IndicesOf(t.txns)[k];
    if Exact(IndicesOf(t.txns)) {
      ExactDistinct(IndicesOf(t.txns));
    }
  }
}
