/** What a verified replay establishes about the chunk, whoever made it. */
module ReplayProofs {
  import opened Prelude
  import opened SHAMap
  import opened ApplyDiff
  import opened Walks
  import opened RootFinding
  import opened TxTree
  import opened ChunkFormat
  import opened Replay

  /** Every node is held under the hash of its own content. */
  ghost predicate SelfHashedMap(sha: Sha, m: NodeMap) {
    forall h :: h in m ==> m[h].hash == h && SelfHashed(sha, m[h])
  }

  /** `t`'s hash is the hash of its header, chained to `parentHash`, and its transactions are genuine. */
  ghost predicate Linked(sha: Sha, parentHash: Hash256, t: TxMap) {
    && Authentic(sha, t) && TxTreeOf(sha, t.txns).Success?
    && LedgerHash(sha, HeaderOf(t, parentHash, RootHash(TxTreeOf(sha, t.txns).value), t.accountHash)) == t.ledgerHash
  }

  /** Every transaction map after the first is chained to the one before it. */
  ghost predicate Chained(sha: Sha, parentHash: Hash256, ts: seq<TxMap>)
    decreases |ts|
  {
    ts == [] || (Linked(sha, parentHash, ts[0]) && Chained(sha, ts[0].ledgerHash, ts[1..]))
  }

  lemma {:induction false} InsertSelfHashed(sha: Sha, m: NodeMap, ns: seq<Node>)
    requires SelfHashedMap(sha, m) && AllSelfHashed(sha, ns)
    ensures SelfHashedMap(sha, InsertAll(m, ns))
  {
    if ns != [] {
      InsertSelfHashed(sha, m, ns[..|ns| - 1]);
      assert ns[|ns| - 1] in ns;
    }
  }

  /** The row of a ledger: its recomputed header, numbered and chained, and the hash of that header. */
  ghost predicate RowSound(sha: Sha, row: LedgerRow, parentHash: Hash256, t: TxMap) {
    && row.ledgerHash == t.ledgerHash == LedgerHash(sha, row.header)
    && row.header.seqNo == t.ledgerSeq && row.header.parentHash == parentHash && row.header.accountHash == t.accountHash
    && TxTreeOf(sha, t.txns).Success? && row.header.txHash == RootHash(TxTreeOf(sha, t.txns).value)
  }

  /** One row for each ledger behind `parentHash`, in order. */
  ghost predicate RowsSound(sha: Sha, rows: seq<LedgerRow>, parentHash: Hash256, ts: seq<TxMap>)
    decreases |rows|
  {
    |rows| == |ts| &&
    (rows == [] || (RowSound(sha, rows[0], parentHash, ts[0]) && RowsSound(sha, rows[1..], ts[0].ledgerHash, ts[1..])))
  }

  lemma StepSound(sha: Sha, s: Live, d: LedgerDelta, t: TxMap, r: Live)
    requires SelfHashedMap(sha, s.state) && Stepped(sha, true, s, d, t) == Success(r)
    ensures SelfHashedMap(sha, r.state) && Linked(sha, s.prevHash, t)
    ensures r.root == t.accountHash && r.prevHash == t.ledgerHash
    ensures |r.rows| == |s.rows| + 1 && r.rows[..|s.rows|] == s.rows && RowSound(sha, r.rows[|s.rows|], s.prevHash, t)
    ensures d.ledgerSeq == t.ledgerSeq
  {
    hide NewRoot, DeletedHeld, ChildrenHeld, TxTreeOf, InsertAll;
    InsertSelfHashed(sha, RemoveAll(s.state, d.diff.deleted), d.diff.added);
  }

  lemma {:induction false} StepsSound(sha: Sha, s: Live, ds: seq<LedgerDelta>, ts: seq<TxMap>, r: Live)
    requires SelfHashedMap(sha, s.state) && Steps(sha, true, s, ds, ts) == Success(r)
    ensures |ds| <= |ts|
    ensures SelfHashedMap(sha, r.state) && Chained(sha, s.prevHash, ts[..|ds|])
    ensures r.root == if ds == [] then s.root else ts[|ds| - 1].accountHash
    ensures s.rows <= r.rows && RowsSound(sha, r.rows[|s.rows|..], s.prevHash, ts[..|ds|])
    ensures forall i :: 0 <= i < |ds| ==> ds[i].ledgerSeq == ts[i].ledgerSeq
    decreases |ds|
  {
    hide Stepped, Linked, RowSound;
    if ds != [] {
      var next := Stepped(sha, true, s, ds[0], ts[0]).value;
      StepSound(sha, s, ds[0], ts[0], next);
      StepsSound(sha, next, ds[1..], ts[1..], r);
      assert ts[..|ds|][0] == ts[0] && ts[..|ds|][1..] == ts[1..][..|ds| - 1];
      var rows := r.rows[|s.rows|..];
      assert rows[0] == next.rows[|s.rows|] && rows[1..] == r.rows[|next.rows|..];
      forall i | 0 <= i < |ds| ensures ds[i].ledgerSeq == ts[i].ledgerSeq {
        assert i > 0 ==> ds[1..][i - 1] == ds[i] && ts[1..][i - 1] == ts[i];
      }
    } else {
      assert r.rows[|s.rows|..] == [] && ts[..0] == [];
    }
  }

  /** The account hash of the last ledger of the chunk. */
  function LastAccountHash(c: Chunk): Hash256
    requires |c.deltas| < |c.txMaps|
  {
    c.txMaps[|c.deltas|].accountHash
  }

  /** `t` is complete in `state`, which holds nothing else exactly when `t` reaches no node twice. */
  ghost predicate IsStateTree(state: NodeMap, root: Hash256, t: Tree) {
    && Unfolds(state, root, t) && Complete(t)
    && (forall h :: h in Occ(t) ==> h in state)
    && ((forall h :: h in state ==> h in Occ(t)) <==> NoDup(t))
  }

  /**
   * Whatever the chunk, if verified replay succeeds then every ledger hash after the first is the
   * hash of its header chained to its predecessor, every transaction hashes to its id, every live
   * node hashes to its own key, the rows are those ledgers' headers in order, the checkpoint is complete
   * with nothing extra counted, the tree below the last account hash is complete in the state, and the state
   * holds nothing else exactly when that tree
   * reaches no node twice.
   */
  lemma VerifiedReplay(sha: Sha, c: Chunk, r: Live)
    requires Replayed(sha, true, c) == Success(r)
    ensures |c.deltas| < |c.txMaps|
    ensures Authentic(sha, c.txMaps[0]) && Chained(sha, c.txMaps[0].ledgerHash, c.txMaps[1..|c.deltas| + 1])
    ensures SelfHashedMap(sha, r.state)
    ensures RowsSound(sha, r.rows, c.txMaps[0].ledgerHash, c.txMaps[1..|c.deltas| + 1])
    ensures forall i :: 0 <= i < |c.deltas| ==> c.deltas[i].ledgerSeq == c.txMaps[i + 1].ledgerSeq
    ensures CheckedAt(StateOf(c.checkpoint), c.txMaps[0].accountHash)
    ensures exists t :: IsStateTree(r.state, LastAccountHash(c), t)
  {
    hide Stepped, Chained, RowsSound;
    var start := Started(sha, true, c.checkpoint, c.txMaps[0]).value;
    InsertSelfHashed(sha, map[], c.checkpoint);
    var ts := c.txMaps[1..];
    StepsSound(sha, start, c.deltas, ts, r);
    assert ts[..|c.deltas|] == c.txMaps[1..|c.deltas| + 1];
    assert r.rows[|start.rows|..] == r.rows;
    assert r.root == LastAccountHash(c);
    assert CheckedAt(r.state, r.root);
    var t :| Unfolds(r.state, r.root, t) && TreeComplete(r.state, t);
    NothingExtraIff(r.state, r.root, t);
    assert IsStateTree(r.state, LastAccountHash(c), t);
  }
}
