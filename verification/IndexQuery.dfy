/** The account history query over an index's keyed table, and reading it page by page. */
module IndexQuery {
  import opened Prelude
  import opened Sorting
  import opened MetaFormat

  /** One row per transaction and affected account; the key is the primary key. */
  type AccountTable = map<(AccountId, u32, u32), Hash256>

  datatype Row = Row(ledgerSeq: u32, txnSeq: u32, txHash: Hash256)

  /** Where the previous page stopped. */
  datatype Marker = Marker(ledgerSeq: u32, txnSeq: u32)

  datatype Query = Query(account: AccountId, min: u32, max: u32, forward: bool)

  /** The position of a ledger and transaction number in the query's order. */
  function Position(q: Query, ledgerSeq: u32, txnSeq: u32): (p: nat) {
    var k := ledgerSeq * 0x1_0000_0000 + txnSeq;
    if q.forward then k else 0xFFFF_FFFF_FFFF_FFFF - k
  }

  /** `a` comes before `b`: ledger by ledger, then by transaction number, upward or downward. */
  predicate Precedes(q: Query, a: Marker, b: Marker) {
    if q.forward then a.ledgerSeq < b.ledgerSeq || (a.ledgerSeq == b.ledgerSeq && a.txnSeq < b.txnSeq)
    else a.ledgerSeq > b.ledgerSeq || (a.ledgerSeq == b.ledgerSeq && a.txnSeq > b.txnSeq)
  }

  lemma PositionOrder(q: Query, a: Marker, b: Marker)
    ensures Position(q, a.ledgerSeq, a.txnSeq) < Position(q, b.ledgerSeq, b.txnSeq) <==> Precedes(q, a, b)
  {
  }

  /** Where a row stands: the marker of the page it ends. */
  function MarkerOf(r: Row): Marker {
    Marker(r.ledgerSeq, r.txnSeq)
  }

  function RowPosition(q: Query): (f: Row -> nat) {
    (r: Row) => Position(q, r.ledgerSeq, r.txnSeq)
  }

  lemma PositionInjective(q: Query, a: u32, b: u32, c: u32, d: u32)
    requires Position(q, a, b) == Position(q, c, d)
    ensures a == c && b == d
  {
  }

  /** The rows the query selects behind the marker. */
  predicate Selected(table: AccountTable, q: Query, marker: Option<Marker>, r: Row) {
    && (q.account, r.ledgerSeq, r.txnSeq) in table && table[(q.account, r.ledgerSeq, r.txnSeq)] == r.txHash
    && q.min <= r.ledgerSeq <= q.max
    && (marker.Some? ==>
          Position(q, r.ledgerSeq, r.txnSeq) > Position(q, marker.value.ledgerSeq, marker.value.txnSeq))
  }

  /** `rows` are the selected rows in the query's order, without a limit. */
  ghost predicate IsAnswer(table: AccountTable, q: Query, marker: Option<Marker>, rows: seq<Row>) {
    && (forall r :: r in rows <==> Selected(table, q, marker, r))
    && forall i, j :: 0 <= i < j < |rows| ==> RowPosition(q)(rows[i]) < RowPosition(q)(rows[j])
  }

  lemma {:induction false} ListRows(rows: set<Row>) returns (list: seq<Row>)
    ensures Distinct(list) && forall r :: r in list <==> r in rows
  {
    if rows == {} {
      list := [];
    } else {
      var r :| r in rows;
      var others := ListRows(rows - {r});
      list := others + [r];
    }
  }

  lemma AnswerExists(table: AccountTable, q: Query, marker: Option<Marker>)
    ensures exists rows :: IsAnswer(table, q, marker, rows)
  {
    var all := set k | k in table.Keys && k.0 == q.account && Selected(table, q, marker, Row(k.1, k.2, table[k]))
               :: Row(k.1, k.2, table[k]);
    var list := ListRows(all);
    var rows := SortBy(RowPosition(q), list);
    SortSorts(RowPosition(q), list);
    SortMembers(RowPosition(q), list);
    DistinctBag(list, rows);
    forall r ensures r in rows <==> Selected(table, q, marker, r) {
      if Selected(table, q, marker, r) {
        var k := (q.account, r.ledgerSeq, r.txnSeq);
        assert Row(k.1, k.2, table[k]) in all;
      }
    }
    forall i, j | 0 <= i < j < |rows| ensures RowPosition(q)(rows[i]) < RowPosition(q)(rows[j]) {
      assert Selected(table, q, marker, rows[i]) && Selected(table, q, marker, rows[j]);
      if RowPosition(q)(rows[i]) == RowPosition(q)(rows[j]) {
        PositionInjective(q, rows[i].ledgerSeq, rows[i].txnSeq, rows[j].ledgerSeq, rows[j].txnSeq);
      }
    }
    assert IsAnswer(table, q, marker, rows);
  }

  /** There is one answer to a query. */
  lemma AnswerUnique(table: AccountTable, q: Query, marker: Option<Marker>, a: seq<Row>, b: seq<Row>)
    requires IsAnswer(table, q, marker, a) && IsAnswer(table, q, marker, b)
    ensures a == b
  {
    SameOrder(RowPosition(q), a, b);
  }

  /** Two strictly ordered listings of the same elements are equal. */
  lemma {:induction false} SameOrder(key: Row -> nat, a: seq<Row>, b: seq<Row>)
    requires forall i, j :: 0 <= i < j < |a| ==> key(a[i]) < key(a[j])
    requires forall i, j :: 0 <= i < j < |b| ==> key(b[i]) < key(b[j])
    requires forall r :: r in a <==> r in b
    ensures a == b
  {
    assert a != [] ==> a[0] in b;
    assert b != [] ==> b[0] in a;
    if a != [] {
      assert a[0] in b && b[0] in a;
      var i :| 0 <= i < |b| && b[i] == a[0];
      var j :| 0 <= j < |a| && a[j] == b[0];
      assert i == 0;
      forall r ensures r in a[1..] <==> r in b[1..] {
        assert r in a <==> r == a[0] || r in a[1..];
        assert r in b <==> r == b[0] || r in b[1..];
      }
      SameOrder(key, a[1..], b[1..]);
    }
  }

  ghost function Answer(table: AccountTable, q: Query, marker: Option<Marker>): (rows: seq<Row>)
    ensures IsAnswer(table, q, marker, rows)
  {
    AnswerExists(table, q, marker);
    var rows :| IsAnswer(table, q, marker, rows);
    rows
  }

  /** The first rows from the marker on: as many as there are, and no more than `limit`. */
  ghost function AccountTx(table: AccountTable, q: Query, limit: nat, marker: Option<Marker>): (rows: seq<Row>)
    ensures |rows| == Min(limit, |Answer(table, q, marker)|) && rows <= Answer(table, q, marker)
  {
    if limit == 0 then [] else Answer(table, q, marker)[..Min(limit, |Answer(table, q, marker)|)]
  }

  /** A page shorter than the limit is all there is; a full one leaves only later rows. */
  lemma PageFull(table: AccountTable, q: Query, limit: nat, marker: Option<Marker>)
    ensures
      var page, rows := AccountTx(table, q, limit, marker), Answer(table, q, marker);
      && (|page| < limit ==> page == rows) && (|page| < |rows| ==> |page| == limit)
      && forall i, j :: 0 <= i < |page| <= j < |rows| ==> Precedes(q, MarkerOf(page[i]), MarkerOf(rows[j]))
  {
    hide Position;
    var page, rows := AccountTx(table, q, limit, marker), Answer(table, q, marker);
    forall i, j | 0 <= i < |page| <= j < |rows| ensures Precedes(q, MarkerOf(page[i]), MarkerOf(rows[j])) {
      assert page[i] == rows[i];
      assert RowPosition(q)(rows[i]) < RowPosition(q)(rows[j]);
      PositionOrder(q, MarkerOf(rows[i]), MarkerOf(rows[j]));
    }
  }

  /**
   * What a query answers, said without positions: the account's rows of the table, in the range of
   * ledgers, strictly behind the marker, in ascending order of ledger and transaction number going
   * forward and in descending order otherwise.
   */
  lemma AnswerIs(table: AccountTable, q: Query, marker: Option<Marker>)
    ensures
      var rows := Answer(table, q, marker);
      && (forall r :: r in rows <==>
           && (q.account, r.ledgerSeq, r.txnSeq) in table && table[(q.account, r.ledgerSeq, r.txnSeq)] == r.txHash
           && q.min <= r.ledgerSeq && r.ledgerSeq <= q.max && (marker.Some? ==> Precedes(q, marker.value, MarkerOf(r))))
      && forall i, j :: 0 <= i < j < |rows| ==> Precedes(q, MarkerOf(rows[i]), MarkerOf(rows[j]))
  {
    hide Position;
    var rows := Answer(table, q, marker);
    forall r ensures r in rows <==>
           && (q.account, r.ledgerSeq, r.txnSeq) in table && table[(q.account, r.ledgerSeq, r.txnSeq)] == r.txHash
           && q.min <= r.ledgerSeq && r.ledgerSeq <= q.max
           && (marker.Some? ==> Precedes(q, marker.value, MarkerOf(r))) {
      assert r in rows <==> Selected(table, q, marker, r);
      if marker.Some? {
        PositionOrder(q, marker.value, MarkerOf(r));
      }
    }
    forall i, j | 0 <= i < j < |rows| ensures Precedes(q, MarkerOf(rows[i]), MarkerOf(rows[j])) {
      assert RowPosition(q)(rows[i]) < RowPosition(q)(rows[j]);
      PositionOrder(q, MarkerOf(rows[i]), MarkerOf(rows[j]));
    }
  }

  /** Asking again behind the `k`-th row gives the rows after it. */
  lemma AnswerBehind(table: AccountTable, q: Query, marker: Option<Marker>, k: nat)
    requires 0 < k <= |Answer(table, q, marker)|
    ensures
      var rows := Answer(table, q, marker);
      Answer(table, q, Some(MarkerOf(rows[k - 1]))) == rows[k..]
  {
    hide Position;
    var rows := Answer(table, q, marker);
    var last := rows[k - 1];
    var m := Some(MarkerOf(last));
    assert Selected(table, q, marker, last);
    forall r ensures r in rows[k..] <==> Selected(table, q, m, r) {
      LaterRows(RowPosition(q), rows, k, r);
      assert r in rows <==> Selected(table, q, marker, r);
    }
    assert IsAnswer(table, q, m, rows[k..]);
    AnswerUnique(table, q, m, Answer(table, q, m), rows[k..]);
  }

  lemma LaterRows(key: Row -> nat, rows: seq<Row>, k: nat, r: Row)
    requires 0 < k <= |rows| && forall i, j :: 0 <= i < j < |rows| ==> key(rows[i]) < key(rows[j])
    ensures r in rows[k..] <==> r in rows && key(r) > key(rows[k - 1])
  {
    if r in rows && key(r) > key(rows[k - 1]) {
      var i :| 0 <= i < |rows| && rows[i] == r;
      assert rows[k..][i - k] == r;
    }
  }

  /** Reading page after page, each with the last row of the one before as marker, until one is empty. */
  ghost function Pages(table: AccountTable, q: Query, limit: nat, marker: Option<Marker>): (rows: seq<Row>)
    requires limit >= 1
    decreases |Answer(table, q, marker)|
  {
    var page := AccountTx(table, q, limit, marker);
    if page == [] then []
    else
      AnswerBehind(table, q, marker, |page|);
      page + Pages(table, q, limit, Some(MarkerOf(page[|page| - 1])))
  }

  /** The pages put together are the unlimited answer, whatever the page size. */
  lemma {:induction false} PagesAreWhole(table: AccountTable, q: Query, limit: nat, marker: Option<Marker>)
    requires limit >= 1
    ensures Pages(table, q, limit, marker) == Answer(table, q, marker)
    decreases |Answer(table, q, marker)|
  {
    var page := AccountTx(table, q, limit, marker);
    if page != [] {
      AnswerBehind(table, q, marker, |page|);
      PagesAreWhole(table, q, limit, Some(MarkerOf(page[|page| - 1])));
    }
  }
}
