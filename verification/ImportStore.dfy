/** Importing a chunk into a node store, and what the store then answers. */
module ImportStore {
  import opened Prelude
  import opened SHAMap
  import opened ApplyDiff
  import opened TxTree
  import opened ChunkFormat
  import opened NodeCodec
  import opened Replay
  import opened Importer
  import opened NuDbFormat
  import opened NuDbReader
  import opened NuDbWriter
  import opened NuDbProofs

  // ---------------------------------------------------------------------------------------------
  // Every node of the state has been handed to the sink

  ghost predicate StateSunk(s: Live) {
    Listed(s.state, s.sunk)
  }

  /** Every node of the map is listed, and stands under its own hash. */
  ghost predicate Listed(m: NodeMap, ns: seq<Node>) {
    forall h :: h in m ==> m[h].hash == h && m[h] in ns
  }

  lemma {:induction false} InsertSunk(m: NodeMap, ns: seq<Node>, all: seq<Node>)
    requires Listed(m, all) && forall n :: n in ns ==> n in all
    ensures Listed(InsertAll(m, ns), all)
  {
    if ns != [] {
      InsertSunk(m, ns[..|ns| - 1], all);
      assert ns[|ns| - 1] in ns;
    }
  }

  lemma ListedMore(m: NodeMap, ns: seq<Node>, all: seq<Node>)
    requires Listed(m, ns) && forall n :: n in ns ==> n in all
    ensures Listed(m, all)
  {
  }

  lemma StepSunk(sha: Sha, verify: bool, s: Live, d: LedgerDelta, t: TxMap)
    requires StateSunk(s) && Stepped(sha, verify, s, d, t).Success?
    ensures StateSunk(Stepped(sha, verify, s, d, t).value)
  {
    hide InsertAll, TxTreeOf, TxNodes, DeletedHeld, ChildrenHeld, LedgerVerified;
    var r := Stepped(sha, verify, s, d, t).value;
    ListedMore(RemoveAll(s.state, d.diff.deleted), s.sunk, r.sunk);
    InsertSunk(RemoveAll(s.state, d.diff.deleted), d.diff.added, r.sunk);
  }

  lemma {:induction false} StepsSunk(sha: Sha, verify: bool, s: Live, ds: seq<LedgerDelta>, ts: seq<TxMap>)
    requires StateSunk(s) && Steps(sha, verify, s, ds, ts).Success?
    ensures StateSunk(Steps(sha, verify, s, ds, ts).value)
    decreases |ds|
  {
    hide Stepped, StateSunk;
    if ds != [] {
      StepSunk(sha, verify, s, ds[0], ts[0]);
      StepsSunk(sha, verify, Stepped(sha, verify, s, ds[0], ts[0]).value, ds[1..], ts[1..]);
    }
  }

  lemma ReplaySunk(sha: Sha, verify: bool, c: Chunk)
    requires Replayed(sha, verify, c).Success?
    ensures StateSunk(Replayed(sha, verify, c).value)
  {
    hide Steps, CheckedAt, CheckpointVerified, TxTreeOf, TxNodes, InsertAll;
    var start := Started(sha, verify, c.checkpoint, c.txMaps[0]).value;
    InsertSunk(map[], c.checkpoint, start.sunk);
    StepsSunk(sha, verify, start, c.deltas, c.txMaps[1..]);
  }

  // ---------------------------------------------------------------------------------------------
  // What the store answers

  /** No two different nodes share a hash. */
  ghost predicate OneNodePerHash(ns: seq<Node>) {
    forall a, b :: a in ns && b in ns && a.hash == b.hash ==> a == b
  }

  lemma {:induction false} SunkLookup(ns: seq<Node>, key: Hash256)
    requires OneNodePerHash(ns)
    ensures (exists n :: n in ns && n.hash == key) <==> key in Hashes(Sunk(false, [], ns))
    ensures forall n :: n in ns && n.hash == key ==> Lookup(Sunk(false, [], ns), key) == Some(EncodeNode(n))
  {
    hide EncodeNode;
    if ns != [] {
      var front, last := ns[..|ns| - 1], ns[|ns| - 1];
      var before := Sunk(false, [], front);
      assert ns == front + [last];
      SunkLookup(front, key);
      HashesSnoc(before, Write(last.hash, EncodeNode(last)));
      LookupSnoc(before, Write(last.hash, EncodeNode(last)), key);
      SunkHas(front, last.hash);
      if last.hash == key && key in Hashes(before) {
        var n :| n in front && n.hash == key;
        assert n == last;
      }
    }
  }

  lemma {:induction false} SunkHas(ns: seq<Node>, key: Hash256)
    ensures (exists n :: n in ns && n.hash == key) <==> key in Hashes(Sunk(false, [], ns))
  {
    if ns != [] {
      var front, last := ns[..|ns| - 1], ns[|ns| - 1];
      assert ns == front + [last];
      SunkHas(front, key);
      SunkHas(front, last.hash);
      HashesSnoc(Sunk(false, [], front), Write(last.hash, EncodeNode(last)));
    }
  }

  /** Fetching the node's hash succeeds, and what is fetched decodes to the node's content and type. */
  ghost predicate Retrieves(hash64: Hash64, s: Shard, n: Node)
    requires Sound(s)
  {
    var r := Fetched(hash64, s, n.hash);
    r.Success? && r.value.Some? && DecodeValue(r.value.value) == Some(Wire(n.content, n.nodeType))
  }

  lemma ListRetrieved(hash64: Hash64, shard: Shard, all: seq<Node>, n: Node)
    requires OneNodePerHash(all) && Serves(hash64, shard, Sunk(false, [], all)) && n in all
    ensures Fetched(hash64, shard, n.hash) == Success(Some(EncodeNode(n)))
    ensures Retrieves(hash64, shard, n) <==> Storable(n)
  {
    hide EncodeNode, DecodeValue, Sound, Fetched, Sunk;
    SunkLookup(all, n.hash);
    EncodeRoundTripIff(n);
  }

  /**
   * After importing a chunk, every node it ever held, superseded or live, and every node of its
   * transaction trees is there under its hash, and nothing else is. What is fetched decodes to the node
   * exactly when the node is storable.
   */
  lemma StoreHoldsChunk(sha: Sha, verify: bool, c: Chunk, hash64: Hash64, s: Shard)
    requires Replayed(sha, verify, c).Success? && OneNodePerHash(Replayed(sha, verify, c).value.sunk)
    requires Serves(hash64, s, Sunk(false, [], Replayed(sha, verify, c).value.sunk))
    ensures
      var r := Replayed(sha, verify, c).value;
      && (forall n :: n in r.sunk ==> Fetched(hash64, s, n.hash) == Success(Some(EncodeNode(n))))
      && (forall n :: n in r.sunk ==> (Retrieves(hash64, s, n) <==> Storable(n)))
      && (forall h :: h in r.state ==> r.state[h].hash == h && r.state[h] in r.sunk)
      && (forall h :: (forall n :: n in r.sunk ==> n.hash != h) ==> Fetched(hash64, s, h) == Success(None))
  {
    hide Replayed, EncodeNode, DecodeValue, Sound, Fetched, Sunk;
    var r := Replayed(sha, verify, c).value;
    ReplaySunk(sha, verify, c);
    forall n | n in r.sunk
      ensures Fetched(hash64, s, n.hash) == Success(Some(EncodeNode(n)))
      ensures Retrieves(hash64, s, n) <==> Storable(n)
    {
      ListRetrieved(hash64, s, r.sunk, n);
    }
    forall h | forall n :: n in r.sunk ==> n.hash != h ensures Fetched(hash64, s, h) == Success(None) {
      SunkHas(r.sunk, h);
      LookupMissing(Sunk(false, [], r.sunk), h);
    }
  }

  /** Replays one chunk and writes its nodes to a new store. */
  method ImportChunk(sha: Sha, c: Chunk, verify: bool, hash64: Hash64)
    returns (ok: bool, dat: bytes, key: bytes)
    requires Terminates(sha, verify, c)
    ensures ok <==> Replayed(sha, verify, c).Success?
    ensures ok && |dat| < U48 ==>
              Opened(dat, key).Success? && Serves(hash64, Opened(dat, key).value,
                  Sunk(false, [], Replayed(sha, verify, c).value.sunk))
  {
    hide Replayed, Serves, Opened, Sunk, Terminates;
    dat, key := [], [];
    var sink := new NodeSink(false);
    var state, rows;
    ok, state, rows := ReplayChunk(sha, c, verify, sink);
    if ok {
      dat, key := WriteStore(hash64, sink.writes);
    }
  }
}
