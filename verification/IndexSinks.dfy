/** The index builder: its tables and counters, changed ledger by ledger. */
module IndexSinks {
  import opened Prelude
  import opened Bytes
  import opened Sorting
  import opened TxTree
  import opened ChunkFormat
  import opened MetaFormat
  import MetaDecode
  import opened IndexQuery
  import opened IndexBuild

  /** No transaction hash is in the locator already, and none occurs twice. */
  ghost predicate NewHashes(loc: Locator, txns: seq<TxRecord>) {
    && (forall tx :: tx in txns ==> tx.txHash !in loc)
    && forall i, j :: 0 <= i < j < |txns| ==> txns[i].txHash != txns[j].txHash
  }

  function HashSet(txns: seq<TxRecord>): set<Hash256> {
    set tx | tx in txns :: tx.txHash
  }

  function AsAccounts(accounts: seq<AccountId>): set<AccountId> {
    set a | a in accounts
  }

  /** What the index accepts next. */
  ghost predicate Acceptable(sha: Sha, loc: Locator, t: TxMap, seqNo: nat) {
    GoodLedger(sha, t, seqNo) && NewHashes(loc, t.txns)
  }

  class IndexSink {
    const sha: Sha
    const start: u32
    var ledgers: nat
    var acct: AccountTable
    var loc: Locator
    var indices: seq<u32>
    ghost var hist: seq<TxMap>

    ghost predicate Valid()
      reads this
    {
      InOrder(sha, start, hist) && ledgers == |hist| && Tabled(acct, hist) && AllLocated(loc, hist)
    }

    constructor (sha: Sha, start: u32)
      ensures Valid() && this.sha == sha && this.start == start && hist == []
    {
      this.sha, this.start := sha, start;
      ledgers, acct, loc, indices, hist := 0, map[], map[], [], [];
    }

    /** One row per account; a row whose key is taken is refused. */
    method InsertRows(accounts: seq<AccountId>, s: u32, n: u32, h: Hash256) returns (ok: bool)
      requires Distinct(accounts)
      modifies `acct
      ensures ok ==> Grown(old(acct), acct, AsAccounts(accounts), s, n, h)
      ensures !ok ==> exists a :: a in accounts && (a, s, n) in old(acct)
    {
      for i := 0 to |accounts|
        invariant Grown(old(acct), acct, AsAccounts(accounts[..i]), s, n, h)
      {
        var key := (accounts[i], s, n);
        assert accounts[i] in accounts && accounts[i] !in accounts[..i];
        if key in acct {
          return false;
        }
        assert accounts[..i + 1] == accounts[..i] + [accounts[i]];
        acct := acct[key := h];
      }
      assert accounts[..|accounts|] == accounts;
      return true;
    }

    /** The ledgers done, and the first `k` transactions of `t`. */
    ghost predicate Halfway(t: TxMap, k: nat)
      reads this
    {
      && k <= |t.txns| && InOrder(sha, start, hist) && ledgers == |hist|
      && Tabled(acct, Partial(hist, t, k)) && AllLocated(loc, Partial(hist, t, k))
      && (forall i :: 0 <= i < k ==> Indexable(sha, t.txns[i])) && indices == IndicesOf(t.txns[..k])
    }

    /** Adds transaction `k` of ledger `t`. */
    method IndexTx(t: TxMap, k: nat) returns (ok: bool)
      requires k < |t.txns| && Halfway(t, k) && t.ledgerSeq == start + |hist|
      modifies this
      ensures hist == old(hist)
      ensures ok ==> Halfway(t, k + 1) && t.txns[k].txHash !in old(loc)
      ensures ok ==> loc.Keys == old(loc).Keys + {t.txns[k].txHash}
      ensures !ok ==> !GoodLedger(sha, t, start + |hist|) || t.txns[k].txHash in old(loc)
    {
      hide Tabled, AllLocated, Partial, Exact, Grown, InOrder, Summary;
      var tx := t.txns[k];
      assert tx in t.txns;
      if TxId(sha, tx.txBlob) != tx.txHash {
        return false;
      }
      var summary := MetaDecode.SummarizeMeta(tx.metaBlob);
      if summary.Failure? || summary.value.index.None? {
        return false;
      }
      var n := summary.value.index.value;
      AccountsDistinct(summary.value.accounts, Accounts(tx));
      indices := indices + [n];
      ghost var before := acct;
      ok := InsertRows(summary.value.accounts, t.ledgerSeq, n, tx.txHash);
      if !ok {
        ghost var a :| a in summary.value.accounts && (a, t.ledgerSeq, n) in before;
        RepeatedRow(sha, start, hist, t, k, a, before);
        return false;
      }
      TabledNext(before, acct, hist, t, k);
      if tx.txHash in loc {
        return false;
      }
      LocatedNext(loc, hist, t, k);
      loc := loc[tx.txHash := (t.ledgerSeq, n)];
      assert t.txns[..k + 1] == t.txns[..k] + [tx];
    }

    /**
     * Indexes one ledger. It is refused exactly when it is out of order, has an unreadable
     * transaction, is not numbered exactly `0..n`, or repeats a transaction.
     */
    method IndexLedger(t: TxMap) returns (ok: bool)
      requires Valid()
      modifies this
      ensures ok <==> Acceptable(sha, old(loc), t, start + |old(hist)|)
      ensures ok ==> Valid() && hist == old(hist) + [t]
    {
      hide Tabled, AllLocated, Partial, Exact, InOrder, Indexable;
      ghost var seen := loc.Keys;
      if t.ledgerSeq != start + ledgers {
        return false;
      }
      indices := [];
      StartPartial(acct, loc, hist, t);
      assert HashSet(t.txns[..0]) == {};
      for k := 0 to |t.txns|
        invariant hist == old(hist) && Halfway(t, k) && NewHashes(old(loc), t.txns[..k])
        invariant loc.Keys == seen + HashSet(t.txns[..k])
      {
        ok := IndexTx(t, k);
        if !ok {
          NotNew(old(loc), t.txns, k);
          return false;
        }
        NewSnoc(old(loc), t.txns, k);
      }
      assert t.txns[..|t.txns|] == t.txns;
      ok := CheckExact(indices);
      if !ok {
        return false;
      }
      EndPartial(acct, loc, hist, t);
      InOrderSnoc(sha, start, hist, t);
      ledgers := ledgers + 1;
      hist := hist + [t];
    }
  }

  /** Sorts the numbers and compares each with its place. */
  method CheckExact(indices: seq<u32>) returns (ok: bool)
    ensures ok <==> Exact(indices)
    ensures ok <==> Distinct(indices) && forall i :: 0 <= i < |indices| ==> indices[i] < |indices|
  {
    ExactIff(indices);
    var sorted := SortBy(Same, indices);
    for i := 0 to |sorted|
      invariant forall k :: 0 <= k < i ==> sorted[k] == k
    {
      if sorted[i] != i {
        return false;
      }
    }
    return true;
  }

  lemma StartPartial(acct: AccountTable, loc: Locator, hist: seq<TxMap>, t: TxMap)
    requires Tabled(acct, hist) && AllLocated(loc, hist)
    ensures Tabled(acct, Partial(hist, t, 0)) && AllLocated(loc, Partial(hist, t, 0))
  {
    hide Entered, Accounts;
    var more := Partial(hist, t, 0);
    SameRows(hist, more);
    forall a: AccountId, s: u32, n: u32, h: Hash256 ensures RowFor(hist, a, s, n, h) <==> RowFor(more, a, s, n, h) {
      if tx :| Entered(hist, tx, s, n, h) && a in Accounts(tx) {
        assert Entered(more, tx, s, n, h);
      }
    }
    forall s: u32, n: u32, h: Hash256 ensures Located(hist, s, n, h) <==> Located(more, s, n, h) {
      if tx :| Entered(hist, tx, s, n, h) {
        assert Entered(more, tx, s, n, h);
      }
    }
  }

  lemma EndPartial(acct: AccountTable, loc: Locator, hist: seq<TxMap>, t: TxMap)
    requires Tabled(acct, Partial(hist, t, |t.txns|)) && AllLocated(loc, Partial(hist, t, |t.txns|))
    ensures Tabled(acct, hist + [t]) && AllLocated(loc, hist + [t])
  {
    assert t.txns[..|t.txns|] == t.txns;
    assert t.(txns := t.txns[..|t.txns|]) == t;
  }

  /** An empty ledger adds no rows. */
  lemma SameRows(hist: seq<TxMap>, more: seq<TxMap>)
    requires |more| == |hist| + 1 && more[..|hist|] == hist && more[|hist|].txns == []
    ensures forall tx, s: u32, n: u32, h: Hash256 :: Entered(hist, tx, s, n, h) <==> Entered(more, tx, s, n, h)
  {
    hide TxnSeq;
    forall tx, s: u32, n: u32, h: Hash256 ensures Entered(hist, tx, s, n, h) <==> Entered(more, tx, s, n, h) {
      if u :| Stands(hist, u, tx, s, n, h) {
        assert Stands(more, u, tx, s, n, h);
      }
      if u :| Stands(more, u, tx, s, n, h) {
        assert Stands(hist, u, tx, s, n, h);
      }
    }
  }

  lemma InOrderSnoc(sha: Sha, start: u32, hist: seq<TxMap>, t: TxMap)
    requires InOrder(sha, start, hist) && GoodLedger(sha, t, start + |hist|)
    ensures InOrder(sha, start, hist + [t])
  {
    hide GoodLedger;
  }

  lemma NotNew(loc: Locator, txns: seq<TxRecord>, k: nat)
    requires k < |txns|
    ensures txns[k].txHash in loc || txns[k].txHash in HashSet(txns[..k]) ==> !NewHashes(loc, txns)
  {
    assert txns[k] in txns;
    if txns[k].txHash in HashSet(txns[..k]) {
      var tx :| tx in txns[..k] && tx.txHash == txns[k].txHash;
      var j :| 0 <= j < k && txns[j] == tx;
    }
  }

  lemma NewSnoc(loc: Locator, txns: seq<TxRecord>, k: nat)
    requires k < |txns| && NewHashes(loc, txns[..k])
    requires txns[k].txHash !in loc && txns[k].txHash !in HashSet(txns[..k])
    ensures NewHashes(loc, txns[..k + 1]) && HashSet(txns[..k + 1]) == HashSet(txns[..k]) + {txns[k].txHash}
  {
    assert txns[..k + 1] == txns[..k] + [txns[k]];
    forall i | 0 <= i < k ensures txns[i].txHash != txns[k].txHash {
      assert txns[..k][i] in txns[..k];
    }
  }

  lemma AccountsDistinct(accounts: seq<AccountId>, s: set<AccountId>)
    requires MetaDecode.Lists(accounts, s)
    ensures Distinct(accounts) && AsAccounts(accounts) == s
  {
    forall i, j | 0 <= i < j < |accounts| ensures accounts[i] != accounts[j] {
      LexIsNumeric(accounts[i], accounts[j]);
    }
  }
}
