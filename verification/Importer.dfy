/** The importer's replay loop over a chunk held in memory. */
module Importer {
  import opened Prelude
  import opened SHAMap
  import opened ApplyDiff
  import opened RootFinding
  import opened TxTree
  import opened ChunkFormat
  import opened CompletenessWalk
  import opened Replay

  /** The variables of a replay. `before` is what the sink held. */
  class Replayer {
    const sha: Sha
    const verify: bool
    const sink: NodeSink
    var state: NodeMap
    var root: Hash256
    var prevHash: Hash256
    var rows: seq<LedgerRow>
    ghost var sunk: seq<Node>
    ghost const before: seq<Write>

    ghost function View(): Live
      reads this
    {
      Live(state, root, prevHash, rows, sunk)
    }

    ghost predicate Valid()
      reads this, sink
    {
      Keyed(state) && sink.writes == Sunk(sink.discard, before, sunk)
    }

    constructor (sha: Sha, verify: bool, sink: NodeSink)
      ensures this.sha == sha && this.verify == verify && this.sink == sink
      ensures before == sink.writes && Valid()
      ensures View() == Live(map[], ZERO_HASH, ZERO_HASH, [], [])
    {
      this.sha, this.verify, this.sink := sha, verify, sink;
      before := sink.writes;
      state, root, prevHash, rows, sunk := map[], ZERO_HASH, ZERO_HASH, [], [];
    }

    /** Hands nodes to the sink. */
    method Sink(ns: seq<Node>)
      requires Valid()
      modifies sink, `sunk
      ensures Valid() && sunk == old(sunk) + ns
    {
      SinkNodes(sink, ns);
      SunkAppend(sink.discard, before, sunk, ns);
      sunk := sunk + ns;
    }

    /** The checkpoint and its ledger's transactions. */
    method Start(checkpoint: seq<Node>, cp: TxMap) returns (ok: bool)
      requires Valid() && View() == Live(map[], ZERO_HASH, ZERO_HASH, [], [])
      requires verify ==> StartStops(checkpoint, cp)
      modifies this, sink
      ensures ok <==> Started(sha, verify, checkpoint, cp).Success?
      ensures ok ==> Valid() && View() == Started(sha, verify, checkpoint, cp).value
    {
      hide Sunk, CheckpointVerified, TxTreeOf, TxNodes, InsertAll, WalkStops;
      InsertKeyed(map[], checkpoint);
      state := StateOf(checkpoint);
      Sink(checkpoint);
      assert sunk == checkpoint;
      if cp.accountHash !in state {
        return false;
      }
      if verify {
        ok := VerifyCheckpoint(sha, state, checkpoint, cp);
        if !ok {
          return false;
        }
      }
      var txRoot, nodes;
      ok, txRoot, nodes := BuildTxTree(sha, cp.txns);
      if !ok {
        return false;
      }
      Sink(nodes);
      root, prevHash := cp.accountHash, cp.ledgerHash;
    }

    /** One delta and its ledger's transactions. */
    method Step(d: LedgerDelta, t: TxMap) returns (ok: bool)
      requires Valid()
      modifies this, sink
      ensures ok <==> Stepped(sha, verify, old(View()), d, t).Success?
      ensures ok ==> Valid() && View() == Stepped(sha, verify, old(View()), d, t).value
    {
      hide Sunk, LedgerVerified, TxTreeOf, TxNodes, InsertAll;
      if verify {
        ok := AllDeletedHeld(state, d.diff.deleted);
        if !ok {
          return false;
        }
      }
      AppliedKeyed(state, d.diff);
      state := Apply(state, d.diff);
      Sink(d.diff.added);
      if verify {
        ok := CheckAddedChildren(state, d.diff.added);
        if !ok {
          return false;
        }
      }
      if t.ledgerSeq != d.ledgerSeq {
        return false;
      }
      var newRoot := FindNewRoot(d.diff.added, root);
      if newRoot.Failure? {
        return false;
      }
      var txRoot, nodes;
      ok, txRoot, nodes := BuildTxTree(sha, t.txns);
      if !ok {
        return false;
      }
      Sink(nodes);
      var header := HeaderOf(t, prevHash, txRoot, newRoot.value);
      if verify {
        ok := VerifyLedger(sha, d.diff.added, t, header);
        if !ok {
          return false;
        }
      }
      rows := rows + [LedgerRow(header, t.ledgerHash)];
      root, prevHash := newRoot.value, t.ledgerHash;
    }

    method Finish() returns (ok: bool)
      requires Valid() && (verify ==> WalkStops(state, root))
      ensures ok <==> Finished(verify, View()).Success?
    {
      ok := true;
      if verify {
        ok := CheckTreeComplete(root, state);
      }
    }
  }

  /** The walk over the checkpoint's tree comes to an end, if its root is there at all. */
  ghost predicate StartStops(checkpoint: seq<Node>, cp: TxMap) {
    cp.accountHash in StateOf(checkpoint) ==> WalkStops(StateOf(checkpoint), cp.accountHash)
  }

  /** Both walks of a verifying replay, each if replay gets to it, come to an end. */
  ghost predicate Terminates(sha: Sha, verify: bool, c: Chunk) {
    verify && c.txMaps != [] ==>
      && StartStops(c.checkpoint, c.txMaps[0])
      && var start := Started(sha, verify, c.checkpoint, c.txMaps[0]);
         start.Success? ==>
           var last := Steps(sha, verify, start.value, c.deltas, c.txMaps[1..]);
           last.Success? ==> WalkStops(last.value.state, last.value.root)
  }

  /** Every chunk that replay accepts is one on which it comes to an end. */
  lemma AcceptedTerminates(sha: Sha, verify: bool, c: Chunk)
    requires Replayed(sha, verify, c).Success?
    ensures Terminates(sha, verify, c)
  {
    hide Steps, CheckedAt, WalkStops, Keyed, InsertAll, AllSelfHashed, TxTreeOf, TxNodes;
    if verify {
      var start := Started(sha, verify, c.checkpoint, c.txMaps[0]).value;
      StartKeyed(c.checkpoint);
      CheckedStops(StateOf(c.checkpoint), c.txMaps[0].accountHash);
      var last := Steps(sha, verify, start, c.deltas, c.txMaps[1..]).value;
      StepsKeyed(sha, verify, start, c.deltas, c.txMaps[1..]);
      CheckedStops(last.state, last.root);
    }
  }

  lemma StartKeyed(checkpoint: seq<Node>)
    ensures Keyed(StateOf(checkpoint))
  {
    InsertKeyed(map[], checkpoint);
  }

  lemma {:induction false} StepsKeyed(sha: Sha, verify: bool, s: Live, ds: seq<LedgerDelta>, ts: seq<TxMap>)
    requires Keyed(s.state) && Steps(sha, verify, s, ds, ts).Success?
    ensures Keyed(Steps(sha, verify, s, ds, ts).value.state)
    decreases |ds|
  {
    hide Keyed, Applied, DeletedHeld, ChildrenHeld, LedgerVerified, TxTreeOf, TxNodes;
    if ds != [] {
      AppliedKeyed(s.state, ds[0].diff);
      StepsKeyed(sha, verify, Stepped(sha, verify, s, ds[0], ts[0]).value, ds[1..], ts[1..]);
    }
  }

  /** A state that passes the check is one on which the walk stops. */
  lemma CheckedStops(state: NodeMap, root: Hash256)
    requires Keyed(state)
    ensures CheckedAt(state, root) ==> WalkStops(state, root)
  {
    hide WalkStops, Keyed;
    CheckedIff(state, root);
    StopsIff(state, root);
  }

  /**
   * Replays a chunk. It succeeds exactly when `Replayed` does, ends in that state with those ledger
   * rows, and has handed exactly those nodes to the sink.
   */
  method ReplayChunk(sha: Sha, c: Chunk, verify: bool, sink: NodeSink)
    returns (ok: bool, state: NodeMap, rows: seq<LedgerRow>)
    requires Terminates(sha, verify, c)
    modifies sink
    ensures ok <==> Replayed(sha, verify, c).Success?
    ensures ok ==>
              var r := Replayed(sha, verify, c).value;
              state == r.state && rows == r.rows && sink.writes == Sunk(sink.discard, old(sink.writes), r.sunk)
  {
    hide Sunk, Keyed, Started, Stepped, CheckedAt, StartStops, WalkStops;
    state, rows := map[], [];
    if c.txMaps == [] {
      return false, state, rows;
    }
    var replay := new Replayer(sha, verify, sink);
    ok := replay.Start(c.checkpoint, c.txMaps[0]);
    if !ok {
      return false, state, rows;
    }
    ghost var start := replay.View();
    ghost var ts := c.txMaps[1..];
    var i := 0;
    while i < |c.deltas|
      invariant 0 <= i <= |c.deltas| && i <= |ts|
      invariant replay.Valid() && fresh(replay)
      invariant Steps(sha, verify, start, c.deltas, ts) == Steps(sha, verify, replay.View(), c.deltas[i..], ts[i..])
    {
      if i + 1 >= |c.txMaps| {
        return false, state, rows;
      }
      assert c.deltas[i..][0] == c.deltas[i] && c.deltas[i..][1..] == c.deltas[i + 1..];
      assert ts[i..][0] == c.txMaps[i + 1] && ts[i..][1..] == ts[i + 1..];
      ok := replay.Step(c.deltas[i], c.txMaps[i + 1]);
      if !ok {
        return false, state, rows;
      }
      i := i + 1;
    }
    ok := replay.Finish();
    state, rows := replay.state, replay.rows;
  }
}
