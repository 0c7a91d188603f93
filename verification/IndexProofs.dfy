/** Reading a built index page by page gives an account's whole history, each transaction once. */
module IndexProofs {
  import opened Prelude
  import opened TxTree
  import opened ChunkFormat
  import opened IndexQuery
  import opened IndexBuild

  /** Within the ledgers of an index, ledger number and `TransactionIndex` name one transaction. */
  lemma OneTransaction(sha: Sha, start: u32, hist: seq<TxMap>, t: TxMap, tx: TxRecord, u: TxMap, ux: TxRecord,
                       s: u32, n: u32, g: Hash256, h: Hash256)
    requires InOrder(sha, start, hist) && Stands(hist, t, tx, s, n, g) && Stands(hist, u, ux, s, n, h)
    ensures t == u && tx == ux && g == h
  {
    hide Indexable, TxnSeq, Exact;
    var i :| 0 <= i < |hist| && hist[i] == t;
    var j :| 0 <= j < |hist| && hist[j] == u;
    assert GoodLedger(sha, hist[i], start + i) && GoodLedger(sha, hist[j], start + j);
    ExactDistinct(IndicesOf(t.txns));
    var k :| 0 <= k < |t.txns| && t.txns[k] == tx;
    var l :| 0 <= l < |t.txns| && t.txns[l] == ux;
    assert IndicesOf(t.txns)[k] == IndicesOf(t.txns)[l] == n;
  }

  /** A transaction of the range that affects the account. */
  ghost predicate InHistory(hist: seq<TxMap>, q: Query, r: Row) {
    q.min <= r.ledgerSeq <= q.max && RowFor(hist, q.account, r.ledgerSeq, r.txnSeq, r.txHash)
  }

  /** `rows` are the account's transactions in the range, in ledger order and then apply order. */
  ghost predicate IsHistory(hist: seq<TxMap>, q: Query, rows: seq<Row>) {
    && (forall r :: r in rows <==> InHistory(hist, q, r))
    && forall i, j :: 0 <= i < j < |rows| ==> Precedes(q, MarkerOf(rows[i]), MarkerOf(rows[j]))
  }

  /**
   * For every built index, account, range, direction and page size, the pages put together are
   * exactly the account's transactions in order.
   */
  lemma PagesAreHistory(hist: seq<TxMap>, acct: AccountTable, q: Query, limit: nat)
    requires Tabled(acct, hist) && limit >= 1
    ensures IsHistory(hist, q, Pages(acct, q, limit, None))
  {
    hide RowFor, Position;
    PagesAreWhole(acct, q, limit, None);
    var rows := Answer(acct, q, None);
    AnswerIs(acct, q, None);
    forall r ensures r in rows <==> InHistory(hist, q, r) {
      assert r in rows <==> Selected(acct, q, None, r);
    }
  }

  /** A page never skips a row: the marker of its last row leads to exactly the rows after it. */
  lemma NextPage(acct: AccountTable, q: Query, limit: nat, marker: Option<Marker>)
    requires limit >= 1 && AccountTx(acct, q, limit, marker) != []
    ensures
      var page := AccountTx(acct, q, limit, marker);
      page + Answer(acct, q, Some(MarkerOf(page[|page| - 1]))) == Answer(acct, q, marker)
  {
    AnswerBehind(acct, q, marker, |AccountTx(acct, q, limit, marker)|);
  }
}
