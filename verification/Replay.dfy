/**
 * Replaying a chunk: the checkpoint, then every ledger's delta, with every check the importer makes.
 *
 * `Replayed` is the specification: the state the replay ends in, or failure. The importer's loop
 * (`ReplayChunk`) is proved to compute it.
 */
module Replay {
  import opened Prelude
  import opened Bytes
  import opened SHAMap
  import opened InnerNodes
  import opened ApplyDiff
  import opened Walks
  import opened CompletenessWalk
  import opened RootFinding
  import opened TxTree
  import opened ChunkFormat
  import opened NodeCodec

  // ---------------------------------------------------------------------------------------------
  // Hashes recomputed by the importer

  datatype LedgerHeader = LedgerHeader(
    seqNo: u32, drops: u64, parentHash: Hash256, txHash: Hash256, accountHash: Hash256,
    parentCloseTime: u32, closeTime: u32, resolution: byte, flags: byte)

  const PREFIX_LEDGER: bytes := [0x4C, 0x57, 0x52, 0x00]

  function HeaderObject(h: LedgerHeader): bytes {
    PREFIX_LEDGER + ToBE(4, h.seqNo) + ToBE(8, h.drops) + h.parentHash + h.txHash + h.accountHash
    + ToBE(4, h.parentCloseTime) + ToBE(4, h.closeTime) + [h.resolution, h.flags]
  }

  function LedgerHash(sha: Sha, h: LedgerHeader): Hash256 {
    sha(HeaderObject(h))
  }

  /** The header a transaction map stands for, given the parent's hash and the transaction root. */
  function HeaderOf(t: TxMap, parentHash: Hash256, txRoot: Hash256, accountHash: Hash256): LedgerHeader {
    LedgerHeader(t.ledgerSeq, t.drops, parentHash, txRoot, accountHash, t.parentCloseTime, t.closeTime,
                 t.resolution, t.flags)
  }

  /** The bytes whose hash a node is stored under. */
  function Preimage(n: Node): bytes {
    if IsInner(n.nodeType) then PREFIX_INNER_NODE + n.content else n.content
  }

  predicate SelfHashed(sha: Sha, n: Node) {
    sha(Preimage(n)) == n.hash
  }

  ghost predicate AllSelfHashed(sha: Sha, ns: seq<Node>) {
    forall n :: n in ns ==> SelfHashed(sha, n)
  }

  ghost predicate Authentic(sha: Sha, t: TxMap) {
    forall tx :: tx in t.txns ==> TxId(sha, tx.txBlob) == tx.txHash
  }

  // ---------------------------------------------------------------------------------------------
  // The specification

  datatype LedgerRow = LedgerRow(header: LedgerHeader, ledgerHash: Hash256)

  /** The running state of a replay; `sunk` lists the nodes handed to the store, in order. */
  datatype Live = Live(state: NodeMap, root: Hash256, prevHash: Hash256, rows: seq<LedgerRow>, sunk: seq<Node>)

  function StateOf(ns: seq<Node>): NodeMap {
    InsertAll(map[], ns)
  }

  /** The tree below `root` is complete in `state` and the counts match. */
  ghost predicate CheckedAt(state: NodeMap, root: Hash256) {
    exists t :: Unfolds(state, root, t) && TreeComplete(state, t)
  }

  ghost predicate DeletedHeld(state: NodeMap, deleted: seq<Hash256>) {
    forall h :: h in deleted ==> h in state
  }

  /** Every inner node of `added` parses and its children are held. */
  ghost predicate ChildrenHeld(state: NodeMap, added: seq<Node>) {
    forall n :: n in added && IsInner(n.nodeType) ==>
      Children(n).Success? && forall c :: c in Children(n).value && c != ZERO_HASH ==> c in state
  }

  ghost predicate CheckpointVerified(sha: Sha, state: NodeMap, checkpoint: seq<Node>, cp: TxMap) {
    CheckedAt(state, cp.accountHash) && Authentic(sha, cp) && AllSelfHashed(sha, checkpoint)
  }

  /** `header` is the ledger's header as recomputed; its account hash is the root found in the delta. */
  ghost predicate LedgerVerified(sha: Sha, added: seq<Node>, t: TxMap, header: LedgerHeader) {
    && Authentic(sha, t) && AllSelfHashed(sha, added)
    && header.accountHash == t.accountHash && LedgerHash(sha, header) == t.ledgerHash
  }

  ghost function Started(sha: Sha, verify: bool, checkpoint: seq<Node>, cp: TxMap): Result<Live> {
    var state := StateOf(checkpoint);
    if cp.accountHash !in state then Failure
    else if verify && !CheckpointVerified(sha, state, checkpoint, cp) then Failure
    else if TxTreeOf(sha, cp.txns).Failure? then Failure
    else Success(Live(state, cp.accountHash, cp.ledgerHash, [], checkpoint + TxNodes(sha, cp.txns)))
  }

  ghost function Stepped(sha: Sha, verify: bool, s: Live, d: LedgerDelta, t: TxMap): Result<Live> {
    var next := Applied(s.state, d.diff);
    if verify && !(DeletedHeld(s.state, d.diff.deleted) && ChildrenHeld(next, d.diff.added)) then Failure
    else if t.ledgerSeq != d.ledgerSeq then Failure
    else
      var root :- NewRoot(d.diff.added, s.root);
      var txTree :- TxTreeOf(sha, t.txns);
      var header := HeaderOf(t, s.prevHash, RootHash(txTree), root);
      if verify && !LedgerVerified(sha, d.diff.added, t, header) then Failure
      else Success(Live(next, root, t.ledgerHash, s.rows + [LedgerRow(header, t.ledgerHash)],
                        s.sunk + d.diff.added + TxNodes(sha, t.txns)))
  }

  ghost function Steps(sha: Sha, verify: bool, s: Live, ds: seq<LedgerDelta>, ts: seq<TxMap>): Result<Live>
    decreases |ds|
  {
    if ds == [] then Success(s)
    else if ts == [] then Failure
    else
      var next :- Stepped(sha, verify, s, ds[0], ts[0]);
      Steps(sha, verify, next, ds[1..], ts[1..])
  }

  ghost function Finished(verify: bool, s: Live): Result<Live> {
    if verify && !CheckedAt(s.state, s.root) then Failure else Success(s)
  }

  ghost function Replayed(sha: Sha, verify: bool, c: Chunk): Result<Live> {
    if c.txMaps == [] then Failure
    else
      var start :- Started(sha, verify, c.checkpoint, c.txMaps[0]);
      var last :- Steps(sha, verify, start, c.deltas, c.txMaps[1..]);
      Finished(verify, last)
  }

  // ---------------------------------------------------------------------------------------------
  // Following references terminates when they always lead to a lower rank

  ghost predicate NodeRanked(n: Node, rank: Hash256 -> nat) {
    IsInner(n.nodeType) && Children(n).Success? ==>
      forall i :: 0 <= i < 16 && Children(n).value[i] != ZERO_HASH ==> rank(Children(n).value[i]) < rank(n.hash)
  }

  ghost predicate Ranked(m: NodeMap, rank: Hash256 -> nat) {
    forall h :: h in m ==> m[h].hash == h && NodeRanked(m[h], rank)
  }

  ghost function Unfold(m: NodeMap, rank: Hash256 -> nat, h: Hash256): (t: Tree)
    requires Ranked(m, rank)
    ensures Unfolds(m, h, t)
    decreases rank(h), 1
  {
    if h !in m then Absent(h)
    else if !IsInner(m[h].nodeType) then Leaf(m[h])
    else if Children(m[h]).Failure? then Corrupt(m[h])
    else Branch(m[h], UnfoldKids(m, rank, m[h]))
  }

  ghost function UnfoldKids(m: NodeMap, rank: Hash256 -> nat, n: Node): (kids: seq<Tree>)
    requires Ranked(m, rank) && NodeRanked(n, rank) && IsInner(n.nodeType) && Children(n).Success?
    ensures |kids| == 16 && forall i :: 0 <= i < 16 ==> SlotUnfolds(m, Children(n).value[i], kids[i])
    decreases rank(n.hash), 0
  {
    var s := Children(n).value;
    seq(16, i requires 0 <= i < 16 => if s[i] == ZERO_HASH then Nil else Unfold(m, rank, s[i]))
  }

  // ---------------------------------------------------------------------------------------------
  // The importer

  datatype Write = Write(hash: Hash256, value: bytes)

  function Hashes(ws: seq<Write>): set<Hash256> {
    set w | w in ws :: w.hash
  }

  /** Where replayed nodes go: `discard` is the sink of a verify-only run, which keeps nothing. */
  class NodeSink {
    const discard: bool
    var writes: seq<Write>

    constructor (discard: bool)
      ensures this.discard == discard && writes == []
    {
      this.discard := discard;
      writes := [];
    }

    predicate Contains(h: Hash256)
      reads this
    {
      discard || h in Hashes(writes)
    }
  }

  /** What a sink has written after being handed `ns`: only the first node of each hash. */
  ghost function Sunk(discard: bool, ws: seq<Write>, ns: seq<Node>): seq<Write> {
    if ns == [] then ws
    else
      var before, n := Sunk(discard, ws, ns[..|ns| - 1]), ns[|ns| - 1];
      if discard || n.hash in Hashes(before) then before else before + [Write(n.hash, EncodeNode(n))]
  }

  lemma {:induction false} SunkAppend(discard: bool, ws: seq<Write>, a: seq<Node>, b: seq<Node>)
    ensures Sunk(discard, ws, a + b) == Sunk(discard, Sunk(discard, ws, a), b)
  {
    if b == [] {
      assert a + b == a;
    } else {
      SunkAppend(discard, ws, a, b[..|b| - 1]);
      assert (a + b)[..|a + b| - 1] == a + b[..|b| - 1];
    }
  }

  method SinkNodes(sink: NodeSink, ns: seq<Node>)
    modifies sink
    ensures sink.writes == Sunk(sink.discard, old(sink.writes), ns)
  {
    for i := 0 to |ns|
      invariant sink.writes == Sunk(sink.discard, old(sink.writes), ns[..i])
    {
      assert ns[..i + 1][..i] == ns[..i];
      if !sink.Contains(ns[i].hash) {
        sink.writes := sink.writes + [Write(ns[i].hash, EncodeNode(ns[i]))];
      }
    }
    assert ns[..|ns|] == ns;
  }

  method AllDeletedHeld(state: NodeMap, deleted: seq<Hash256>) returns (ok: bool)
    ensures ok <==> DeletedHeld(state, deleted)
  {
    for i := 0 to |deleted|
      invariant forall k :: 0 <= k < i ==> deleted[k] in state
    {
      if deleted[i] !in state {
        return false;
      }
    }
    return true;
  }

  method CheckAddedChildren(state: NodeMap, added: seq<Node>) returns (ok: bool)
    ensures ok <==> ChildrenHeld(state, added)
  {
    for i := 0 to |added|
      invariant ChildrenHeld(state, added[..i])
    {
      var n := added[i];
      assert added[..i + 1] == added[..i] + [n];
      if IsInner(n.nodeType) {
        var inner := FromNode(n);
        if inner.Failure? {
          assert n in added;
          return false;
        }
        for j := 0 to 16
          invariant forall k :: 0 <= k < j && inner.value[k] != ZERO_HASH ==> inner.value[k] in state
        {
          if inner.value[j] != ZERO_HASH && inner.value[j] !in state {
            assert n in added && inner.value[j] in Children(n).value;
            return false;
          }
        }
      }
    }
    assert added[..|added|] == added;
    return true;
  }

  method VerifyStateNodes(sha: Sha, ns: seq<Node>) returns (ok: bool)
    ensures ok <==> AllSelfHashed(sha, ns)
  {
    for i := 0 to |ns|
      invariant forall k :: 0 <= k < i ==> SelfHashed(sha, ns[k])
    {
      if !SelfHashed(sha, ns[i]) {
        return false;
      }
    }
    return true;
  }

  method VerifyTxnsAuthentic(sha: Sha, t: TxMap) returns (ok: bool)
    ensures ok <==> Authentic(sha, t)
  {
    for i := 0 to |t.txns|
      invariant forall k :: 0 <= k < i ==> TxId(sha, t.txns[k].txBlob) == t.txns[k].txHash
    {
      if TxId(sha, t.txns[i].txBlob) != t.txns[i].txHash {
        return false;
      }
    }
    return true;
  }

  /** The check made at the checkpoint and at the end: the tree is complete and the counts match. */
  method CheckTreeComplete(root: Hash256, state: NodeMap) returns (ok: bool)
    requires Keyed(state) && WalkStops(state, root)
    ensures ok <==> CheckedAt(state, root)
  {
    hide WalkStops, Unfolds, Complete, Size;
    var reached := WalkComplete(root, state);
    CheckedIff(state, root);
    return reached == Success(|state|);
  }

  lemma CheckedIff(state: NodeMap, root: Hash256)
    ensures CheckedAt(state, root) <==> Full(state, root) && Size(FullTree(state, root)) == |state|
  {
    if t :| Unfolds(state, root, t) && TreeComplete(state, t) {
      FullTreeIs(state, root, t);
    }
  }

  method VerifyCheckpoint(sha: Sha, state: NodeMap, checkpoint: seq<Node>, cp: TxMap)
    returns (ok: bool)
    requires Keyed(state) && WalkStops(state, cp.accountHash)
    ensures ok <==> CheckpointVerified(sha, state, checkpoint, cp)
  {
    ok := CheckTreeComplete(cp.accountHash, state);
    if ok {
      ok := VerifyTxnsAuthentic(sha, cp);
    }
    if ok {
      ok := VerifyStateNodes(sha, checkpoint);
    }
  }

  method VerifyLedger(sha: Sha, added: seq<Node>, t: TxMap, header: LedgerHeader) returns (ok: bool)
    ensures ok <==> LedgerVerified(sha, added, t, header)
  {
    ok := VerifyTxnsAuthentic(sha, t);
    if ok {
      ok := VerifyStateNodes(sha, added);
    }
    ok := ok && header.accountHash == t.accountHash && LedgerHash(sha, header) == t.ledgerHash;
  }
}
