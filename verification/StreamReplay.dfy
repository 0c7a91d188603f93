/**
 * Replaying a version 3 chunk while it is being read, without ever holding the whole of it.
 *
 * `StreamReplayed` interleaves reading and replaying as the importer does. `StreamingAgrees` shows
 * that on files ending at their footer it is the same as parsing the whole file and then replaying.
 */
module StreamReplay {
  import opened Prelude
  import opened Reading
  import opened SHAMap
  import opened ApplyDiff
  import opened TxTree
  import opened ChunkFormat
  import opened CompletenessWalk
  import opened Replay
  import opened Importer
  import opened Streaming
  import opened ChunkProofs

  // ---------------------------------------------------------------------------------------------
  // Reading and replaying in turn

  ghost function StreamSteps(sha: Sha, verify: bool, s: Live, b: bytes, count: nat): Result<Parsed<Live>>
    decreases count
  {
    if count == 0 then Success(Parsed(s, b))
    else
      var pair :- ReadPair(b);
      var next :- Stepped(sha, verify, s, pair.value.0, pair.value.1);
      StreamSteps(sha, verify, next, pair.rest, count - 1)
  }

  ghost function StreamStarted(sha: Sha, verify: bool, b: bytes): Result<Parsed<Live>> {
    var checkpoint :- ReadNodeList(b);
    var cp :- ReadTxMap(checkpoint.rest);
    var start :- Started(sha, verify, checkpoint.value, cp.value);
    Success(Parsed(start, cp.rest))
  }

  /** The body of a streamed chunk. */
  ghost function StreamBody(sha: Sha, verify: bool, h: Header, body: bytes): Result<Live> {
    var start :- StreamStarted(sha, verify, body);
    var last :- StreamSteps(sha, verify, start.value, start.rest, DeltaCount(h.startLedger, h.endLedger));
    if Suffix(last.rest, body) && Closes(sha, h.chunkHash, body, last.rest) then Finished(verify, last.value)
        else Failure
  }

  ghost function StreamReplayed(sha: Sha, verify: bool, data: bytes): Result<Live> {
    var head :- ReadHeader(data);
    if head.value.version != FORMAT_VERSION_STREAMED then Failure else StreamBody(sha, verify, head.value, head.rest)
  }

  // ---------------------------------------------------------------------------------------------
  // The importer's loop

  /** Both walks of a verifying replay of the body, each if replay gets to it, come to an end. */
  ghost predicate BodyTerminates(sha: Sha, verify: bool, h: Header, body: bytes) {
    verify ==>
      && StreamStartStops(sha, body)
      && var start := StreamStarted(sha, verify, body);
         start.Success? ==>
           var last := StreamSteps(sha, verify, start.value.value, start.value.rest,
               DeltaCount(h.startLedger, h.endLedger));
           last.Success? && Suffix(last.value.rest, body) && Closes(sha, h.chunkHash, body, last.value.rest) ==>
             WalkStops(last.value.value.state, last.value.value.root)
  }

  /** The nodes' own hashes are checked before the walk. */
  ghost predicate StreamStartStops(sha: Sha, body: bytes) {
    ReadNodeList(body).Success? && ReadTxMap(ReadNodeList(body).value.rest).Success?
      && AllSelfHashed(sha, ReadNodeList(body).value.value) ==>
      StartStops(ReadNodeList(body).value.value, ReadTxMap(ReadNodeList(body).value.rest).value.value)
  }

  lemma {:induction false} ReadNodesSnoc(b: bytes, k: nat)
    ensures ReadNodes(b, k + 1) ==
            if ReadNodes(b, k).Success? && ReadNode(ReadNodes(b, k).value.rest).Success? then
              var front, last := ReadNodes(b, k).value, ReadNode(ReadNodes(b, k).value.rest).value;
              Success(Parsed(front.value + [last.value], last.rest))
            else Failure
    decreases k
  {
    hide ReadNode;
    if k == 0 {
      assert ReadNodes(b, 0) == Success(Parsed([], b));
      if ReadNode(b).Success? {
        var first := ReadNode(b).value;
        assert ReadNodes(first.rest, 0) == Success(Parsed([], first.rest));
        assert [first.value] + [] == [] + [first.value];
      }
    } else if ReadNode(b).Success? {
      var first := ReadNode(b).value;
      ReadNodesSnoc(first.rest, k - 1);
      var others := ReadNodes(first.rest, k - 1);
      if others.Success? && ReadNode(others.value.rest).Success? {
        var last := ReadNode(others.value.rest).value;
        assert [first.value] + (others.value.value + [last.value])
            == ([first.value] + others.value.value) + [last.value];
      }
    }
  }

  lemma {:induction false} ReadNodesPrefix(b: bytes, k: nat, n: nat)
    requires k <= n && ReadNodes(b, k).Failure?
    ensures ReadNodes(b, n).Failure?
    decreases n - k
  {
    if k < n {
      ReadNodesSnoc(b, k);
      ReadNodesPrefix(b, k + 1, n);
    }
  }

  /** Streams the checkpoint into the state and the sink, checking each node's own hash. */
  method StreamCheckpoint(reader: ChunkReader, replay: Replayer) returns (ok: bool, genuine: bool)
    requires reader.Valid() && replay.Valid() && replay.View() == Live(map[], ZERO_HASH, ZERO_HASH, [], [])
    modifies replay, replay.sink, reader
    ensures ok <==> ReadNodeList(old(reader.rest)).Success?
    ensures reader.deltasRemaining == old(reader.deltasRemaining)
    ensures ok ==>
              var p := ReadNodeList(old(reader.rest)).value;
              && reader.Valid() && replay.Valid() && reader.rest == p.rest
              && replay.View() == Live(StateOf(p.value), ZERO_HASH, ZERO_HASH, [], p.value)
              && (genuine <==> (replay.verify ==> AllSelfHashed(replay.sha, p.value)))
  {
    hide ReadNode, Sunk, InsertAll, AllSelfHashed, SelfHashed;
    genuine := true;
    NoneYet(replay.sha);
    var count := reader.ReadCount();
    if count.Failure? {
      return false, false;
    }
    ghost var b := reader.rest;
    ghost var nodes: seq<Node> := [];
    for i := 0 to count.value
      invariant reader.Valid() && replay.Valid()
      invariant reader.deltasRemaining == old(reader.deltasRemaining)
      invariant ReadNodes(b, i) == Success(Parsed(nodes, reader.rest))
      invariant replay.View() == Live(StateOf(nodes), ZERO_HASH, ZERO_HASH, [], nodes)
      invariant genuine <==> (replay.verify ==> AllSelfHashed(replay.sha, nodes))
    {
      ReadNodesSnoc(b, i);
      var next := reader.NextNode();
      if next.Failure? {
        ReadNodesPrefix(b, i + 1, count.value);
        return false, false;
      }
      var n := next.value;
      OneMoreNode(replay.state, nodes, n);
      if replay.verify && genuine {
        genuine := SelfHashed(replay.sha, n);
      }
      replay.Sink([n]);
      StartKeyed(nodes + [n]);
      replay.state := replay.state[n.hash := n];
      nodes := nodes + [n];
    }
    ok := true;
  }

  lemma NoneYet(sha: Sha)
    ensures AllSelfHashed(sha, []) && StateOf([]) == map[]
  {
  }

  lemma OneMoreNode(state: NodeMap, nodes: seq<Node>, n: Node)
    requires state == StateOf(nodes)
    ensures state[n.hash := n] == StateOf(nodes + [n])
    ensures forall sha :: AllSelfHashed(sha, nodes + [n]) <==> AllSelfHashed(sha, nodes) && SelfHashed(sha, n)
  {
    assert (nodes + [n])[..|nodes + [n]| - 1] == nodes;
    assert n in nodes + [n];
    forall sha ensures AllSelfHashed(sha, nodes + [n]) <==> AllSelfHashed(sha, nodes) && SelfHashed(sha, n) {
      assert forall x :: x in nodes + [n] <==> x in nodes || x == n;
    }
  }

  /** The checkpoint as it is read, then its ledger's transactions. */
  method StreamStart(reader: ChunkReader, replay: Replayer) returns (ok: bool)
    requires reader.Valid() && replay.Valid() && replay.View() == Live(map[], ZERO_HASH, ZERO_HASH, [], [])
    requires replay.verify ==> StreamStartStops(replay.sha, reader.rest)
    modifies replay, replay.sink, reader
    ensures reader.deltasRemaining == old(reader.deltasRemaining)
    ensures ok <==> StreamStarted(replay.sha, replay.verify, old(reader.rest)).Success?
    ensures ok ==>
              var p := StreamStarted(replay.sha, replay.verify, old(reader.rest)).value;
              reader.Valid() && replay.Valid() && reader.rest == p.rest && replay.View() == p.value
  {
    hide Sunk, CheckedAt, Authentic, AllSelfHashed, TxTreeOf, TxNodes, InsertAll, ReadNodeList, ReadTxMap, WalkStops;
    var genuine;
    ok, genuine := StreamCheckpoint(reader, replay);
    if !ok || !genuine {
      return false;
    }
    var read := reader.NextTxMap();
    if read.Failure? {
      return false;
    }
    var cp := read.value;
    if cp.accountHash !in replay.state {
      return false;
    }
    if replay.verify {
      ok := CheckTreeComplete(cp.accountHash, replay.state);
      if ok {
        ok := VerifyTxnsAuthentic(replay.sha, cp);
      }
      if !ok {
        return false;
      }
    }
    var txRoot, nodes;
    ok, txRoot, nodes := BuildTxTree(replay.sha, cp.txns);
    if !ok {
      return false;
    }
    replay.Sink(nodes);
    replay.root, replay.prevHash := cp.accountHash, cp.ledgerHash;
  }

  /** Replays the ledgers as they are read. */
  method StreamLedgers(reader: ChunkReader, replay: Replayer) returns (ok: bool)
    requires reader.Valid() && replay.Valid()
    modifies replay, replay.sink, reader
    ensures
      var r := StreamSteps(replay.sha, replay.verify, old(replay.View()), old(reader.rest),
          old(reader.deltasRemaining));
      (ok <==> r.Success?)
      && (ok ==> reader.Valid() && replay.Valid() && reader.rest == r.value.rest && replay.View() == r.value.value)
  {
    hide Sunk, Stepped, ReadPair;
    while true
      invariant reader.Valid() && replay.Valid()
      invariant StreamSteps(replay.sha, replay.verify, replay.View(), reader.rest, reader.deltasRemaining)
             == StreamSteps(replay.sha, replay.verify, old(replay.View()), old(reader.rest),
                 old(reader.deltasRemaining))
      decreases reader.deltasRemaining
    {
      var next := reader.NextDeltaTxMap();
      if next.Failure? {
        return false;
      }
      if next.value.None? {
        return true;
      }
      ok := replay.Step(next.value.value.0, next.value.value.1);
      if !ok {
        return false;
      }
    }
  }

  /**
   * Replays a chunk file while reading it. It computes `StreamReplayed`: the state, the ledger rows
   * and the nodes handed to the sink.
   */
  method ReplayChunkStreaming(sha: Sha, data: bytes, verify: bool, sink: NodeSink)
    returns (ok: bool, state: NodeMap, rows: seq<LedgerRow>)
    requires ReadHeader(data).Success? ==>
               BodyTerminates(sha, verify, ReadHeader(data).value.value, ReadHeader(data).value.rest)
    modifies sink
    ensures ok <==> StreamReplayed(sha, verify, data).Success?
    ensures ok ==>
              var r := StreamReplayed(sha, verify, data).value;
              state == r.state && rows == r.rows && sink.writes == Sunk(sink.discard, old(sink.writes), r.sunk)
  {
    hide Sunk, StreamSteps, StreamStarted, ReadHeader, CheckedAt, WalkStops, StreamStartStops, Closes;
    state, rows := map[], [];
    var head := ReadHeader(data);
    if head.Failure? || head.value.value.version != FORMAT_VERSION_STREAMED {
      return false, state, rows;
    }
    var reader := new ChunkReader(sha, head.value.value, head.value.rest);
    var replay := new Replayer(sha, verify, sink);
    ok := StreamStart(reader, replay);
    if !ok {
      return false, state, rows;
    }
    ok := StreamLedgers(reader, replay);
    if !ok {
      return false, state, rows;
    }
    ok := reader.Finish();
    if !ok {
      return false, state, rows;
    }
    ok := replay.Finish();
    state, rows := replay.state, replay.rows;
  }

  // ---------------------------------------------------------------------------------------------
  // Streaming against reading the whole file first

  /** Reading all the ledgers and then replaying them is the same as doing both in turn. */
  lemma {:induction false} StepsAfterReading(sha: Sha, verify: bool, s: Live, b: bytes, count: nat)
    ensures
      StreamSteps(sha, verify, s, b, count) ==
      if ReadPairs(b, count).Failure? then Failure
      else
        var p := ReadPairs(b, count).value;
        match Steps(sha, verify, s, p.value.deltas, p.value.txMaps)
        case Failure => Failure
        case Success(last) => Success(Parsed(last, p.rest))
    decreases count
  {
    hide Stepped, ReadDelta, ReadTxMap;
    if count > 0 && ReadPair(b).Success? {
      var pair := ReadPair(b).value;
      var next := Stepped(sha, verify, s, pair.value.0, pair.value.1);
      if next.Success? {
        StepsAfterReading(sha, verify, next.value, pair.rest, count - 1);
      }
      var others := ReadPairs(pair.rest, count - 1);
      if others.Success? {
        var ds, ts := [pair.value.0] + others.value.value.deltas, [pair.value.1] + others.value.value.txMaps;
        assert ds[1..] == others.value.value.deltas && ts[1..] == others.value.value.txMaps;
      }
    }
  }

  /** What parsing the body behind a header leaves behind the footer. */
  function BehindFooter(h: Header, body: bytes): Result<bytes> {
    var checkpoint :- ReadNodeList(body);
    var ledgers :- ReadLedgers(FORMAT_VERSION_STREAMED, checkpoint.rest, DeltaCount(h.startLedger, h.endLedger));
    var footer :- ReadExact(ledgers.rest, 4);
    Success(footer.rest)
  }

  /** Nothing stands behind the footer. */
  predicate EndsAtFooter(data: bytes) {
    ReadHeader(data).Success? ==>
      var h := ReadHeader(data).value;
      BehindFooter(h.value, h.rest).Success? ==> BehindFooter(h.value, h.rest).value == []
  }

  predicate IsStreamed(data: bytes) {
    ReadHeader(data).Success? && ReadHeader(data).value.value.version == FORMAT_VERSION_STREAMED
  }

  /** What buffered replay makes of a file. */
  ghost function Buffered(sha: Sha, verify: bool, data: bytes): Result<Live> {
    var c :- DeserializeChunk(sha, data);
    Replayed(sha, verify, c)
  }

  /** The body, parsed as a whole. */
  function ReadBody(h: Header, body: bytes): Result<Parsed<Chunk>> {
    var checkpoint :- ReadNodeList(body);
    var ledgers :- ReadLedgers(FORMAT_VERSION_STREAMED, checkpoint.rest, DeltaCount(h.startLedger, h.endLedger));
    Success(Parsed(Chunk(h.networkId, h.startLedger, h.endLedger, h.checkpointHash, h.chunkHash,
                         checkpoint.value, ledgers.value.deltas, ledgers.value.txMaps), ledgers.rest))
  }

  /** The streamed body is the parsed body, replayed. */
  lemma StreamedBodyIsReplay(sha: Sha, verify: bool, h: Header, body: bytes)
    ensures
      StreamBody(sha, verify, h, body) ==
      match ReadBody(h, body)
      case Failure => Failure
      case Success(p) =>
        if Suffix(p.rest, body) && Closes(sha, h.chunkHash, body, p.rest) then Replayed(sha, verify, p.value)
            else Failure
  {
    hide Started, Steps, StreamSteps, ReadNodeList, ReadTxMap, ReadPairs, Finished, Closes;
    var n := DeltaCount(h.startLedger, h.endLedger);
    if ReadNodeList(body).Success? && ReadTxMap(ReadNodeList(body).value.rest).Success? {
      var checkpoint := ReadNodeList(body).value;
      var cp := ReadTxMap(checkpoint.rest).value;
      var start := Started(sha, verify, checkpoint.value, cp.value);
      if start.Success? {
        StepsAfterReading(sha, verify, start.value, cp.rest, n);
      }
      var pairs := ReadPairs(cp.rest, n);
      if pairs.Success? {
        assert ([cp.value] + pairs.value.value.txMaps)[1..] == pairs.value.value.txMaps;
      }
    }
  }

  lemma {:induction false} PairsSuffix(b: bytes, count: nat)
    requires ReadPairs(b, count).Success?
    ensures Suffix(ReadPairs(b, count).value.rest, b)
    decreases count
  {
    hide ReadDelta, ReadTxMap;
    if count > 0 {
      var delta := ReadDelta(b).value;
      var txMap := ReadTxMap(delta.rest).value;
      DeltaSuffix(b);
      TxMapSuffix(delta.rest);
      PairsSuffix(txMap.rest, count - 1);
      SuffixTrans(txMap.rest, delta.rest, b);
      SuffixTrans(ReadPairs(b, count).value.rest, txMap.rest, b);
    }
  }

  lemma BodySuffix(h: Header, body: bytes)
    requires ReadBody(h, body).Success?
    ensures Suffix(ReadBody(h, body).value.rest, body)
  {
    hide ReadNodeList, ReadTxMap, ReadPairs;
    var checkpoint := ReadNodeList(body).value;
    var cp := ReadTxMap(checkpoint.rest).value;
    NodeListSuffix(body);
    TxMapSuffix(checkpoint.rest);
    PairsSuffix(cp.rest, DeltaCount(h.startLedger, h.endLedger));
    SuffixTrans(cp.rest, checkpoint.rest, body);
    SuffixTrans(ReadBody(h, body).value.rest, cp.rest, body);
  }

  /** Streaming comes to an end on every file it accepts. */
  lemma StreamAcceptedTerminates(sha: Sha, verify: bool, data: bytes)
    requires StreamReplayed(sha, verify, data).Success?
    ensures BodyTerminates(sha, verify, ReadHeader(data).value.value, ReadHeader(data).value.rest)
  {
    hide ReadHeader, ReadNodeList, ReadTxMap, StreamSteps, CheckedAt, WalkStops, Keyed, InsertAll, AllSelfHashed,
         TxTreeOf, TxNodes, Closes;
    if verify {
      var h, body := ReadHeader(data).value.value, ReadHeader(data).value.rest;
      var checkpoint := ReadNodeList(body).value;
      var cp := ReadTxMap(checkpoint.rest).value.value;
      StartKeyed(checkpoint.value);
      CheckedStops(StateOf(checkpoint.value), cp.accountHash);
      var start := StreamStarted(sha, verify, body).value;
      StreamStepsKeyed(sha, verify, start.value, start.rest, DeltaCount(h.startLedger, h.endLedger));
      var last := StreamSteps(sha, verify, start.value, start.rest, DeltaCount(h.startLedger, h.endLedger)).value;
      CheckedStops(last.value.state, last.value.root);
    }
  }

  lemma StreamStepsKeyed(sha: Sha, verify: bool, s: Live, b: bytes, count: nat)
    requires Keyed(s.state) && StreamSteps(sha, verify, s, b, count).Success?
    ensures Keyed(StreamSteps(sha, verify, s, b, count).value.value.state)
  {
    hide Steps, ReadPairs, Keyed;
    StepsAfterReading(sha, verify, s, b, count);
    var p := ReadPairs(b, count).value;
    StepsKeyed(sha, verify, s, p.value.deltas, p.value.txMaps);
  }

  /** The fifth byte of a file is its version. */
  lemma FifthByte(version: byte, c: Chunk, chunkHash: Hash256, rest: bytes)
    ensures
      var data := WriteHeader(version, c, chunkHash) + rest;
      |data| >= 5 && data[4] == version
  {
    HeaderSplit(version, c, chunkHash, rest);
  }

  /** What the streaming writer makes is a streamed file that ends at its footer. */
  lemma WrittenEndsAtFooter(sha: Sha, c: Chunk)
    requires ChunkFits(c)
    ensures
      var data := SerializeStreamed(sha, c);
      |data| >= 5 && data[4] == FORMAT_VERSION_STREAMED && IsStreamed(data) && EndsAtFooter(data)
  {
    hide ReadHeader, WriteHeader, ReadNodeList, WriteNodeList, ReadLedgers;
    HeaderBack(FORMAT_VERSION_STREAMED, c, sha(StreamedBody(c)), StreamedBody(c));
    FifthByte(FORMAT_VERSION_STREAMED, c, sha(StreamedBody(c)), StreamedBody(c));
    NodeListBack(c.checkpoint, WriteTxMap(c.txMaps[0]) + (WritePairs(c.deltas, c.txMaps[1..]) + MAGIC_FOOTER));
    StreamedLedgersBack(c, MAGIC_FOOTER);
    ExactBack(MAGIC_FOOTER, []);
    assert MAGIC_FOOTER + [] == MAGIC_FOOTER;
  }

  /** On every version 3 file that ends at its footer, streaming and buffered replay agree. */
  lemma StreamingAgrees(sha: Sha, verify: bool, data: bytes)
    requires IsStreamed(data) && EndsAtFooter(data)
    ensures StreamReplayed(sha, verify, data) == Buffered(sha, verify, data)
  {
    hide Replayed, ReadHeader, ReadNodeList, ReadLedgers, StreamBody;
    var head := ReadHeader(data).value;
    var h, body := head.value, head.rest;
    StreamedBodyIsReplay(sha, verify, h, body);
    var parsed := ReadBody(h, body);
    if parsed.Success? {
      BodySuffix(h, body);
      var footer := ReadExact(parsed.value.rest, 4);
      if footer.Success? {
        assert footer.value.rest == [];
        assert body[..|body|] == body;
      }
    }
  }

  /**
   * With bytes behind the footer the two hash different strings, so both can accept a file only if
   * those collide.
   */
  lemma TrailingBytesDisagree(sha: Sha, verify: bool, data: bytes) returns (consumed: bytes)
    requires IsStreamed(data) && !EndsAtFooter(data)
    requires StreamReplayed(sha, verify, data).Success? && DeserializeChunk(sha, data).Success?
    ensures consumed != ReadHeader(data).value.rest && sha(consumed) == sha(ReadHeader(data).value.rest)
  {
    hide Replayed, ReadHeader, ReadNodeList, ReadLedgers, StreamBody;
    var head := ReadHeader(data).value;
    var h, body := head.value, head.rest;
    StreamedBodyIsReplay(sha, verify, h, body);
    BodySuffix(h, body);
    var footer := ReadExact(ReadBody(h, body).value.rest, 4).value;
    consumed := body[..|body| - |footer.rest|];
    assert |consumed| < |body|;
  }
}
