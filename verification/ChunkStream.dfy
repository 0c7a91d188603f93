/** Writing and reading a version 3 chunk piece by piece, hashing what passes. */
module ChunkStream {
  import opened Prelude
  import opened Bytes
  import opened SHAMap
  import opened Sorting
  import opened TxTree
  import opened ChunkFormat

  /** The fields of a chunk's header, with nothing in its body. */
  function HeadOf(networkId: u32, startLedger: u32, endLedger: u32, checkpointHash: Hash256): Chunk {
    Chunk(networkId, startLedger, endLedger, checkpointHash, ZERO_HASH, [], [], [])
  }

  const CHUNK_HASH_OFFSET: nat := 49

  /** `file` is the header with a zero chunk hash, then everything hashed so far. */
  class ChunkWriter {
    const sha: Sha
    const head: Chunk
    var file: bytes
    var hashed: bytes

    ghost predicate Valid()
      reads this
    {
      file == WriteHeader(FORMAT_VERSION_STREAMED, head, ZERO_HASH) + hashed
    }

    constructor (sha: Sha, networkId: u32, startLedger: u32, endLedger: u32, checkpointHash: Hash256)
      ensures this.sha == sha && head == HeadOf(networkId, startLedger, endLedger, checkpointHash)
      ensures head.networkId == networkId && head.startLedger == startLedger && head.endLedger == endLedger
      ensures head.checkpointHash == checkpointHash
      ensures Valid() && hashed == []
    {
      this.sha := sha;
      head := HeadOf(networkId, startLedger, endLedger, checkpointHash);
      hashed := [];
      file := WriteHeader(FORMAT_VERSION_STREAMED, HeadOf(networkId, startLedger, endLedger, checkpointHash),
          ZERO_HASH);
    }

    method Body(buf: bytes)
      requires Valid()
      modifies this
      ensures Valid() && hashed == old(hashed) + buf
    {
      AppendAssoc(WriteHeader(FORMAT_VERSION_STREAMED, head, ZERO_HASH), hashed, buf);
      hashed := hashed + buf;
      file := file + buf;
    }

    /** The nodes may come in any order; they are written sorted by hash. */
    method AddCheckpoint(nodes: seq<Node>)
      requires Valid()
      modifies this
      ensures Valid() && hashed == old(hashed) + WriteNodeList(nodes)
    {
      var sorted := SortBy(NodeKey, nodes);
      Body(ToBE(4, |nodes|));
      ghost var start := hashed;
      assert start + WriteNodes(sorted[..0]) == start;
      for i := 0 to |sorted|
        invariant Valid() && hashed == start + WriteNodes(sorted[..i])
      {
        Body(WriteNode(sorted[i]));
        assert sorted[..i + 1] == sorted[..i] + [sorted[i]];
        WriteNodesSnoc(sorted[..i], sorted[i]);
        AppendAssoc(start, WriteNodes(sorted[..i]), WriteNode(sorted[i]));
      }
      assert sorted[..|sorted|] == sorted;
      AppendAssoc(old(hashed), ToBE(4, |nodes|), WriteNodes(sorted));
    }

    method AddDelta(d: LedgerDelta)
      requires Valid()
      modifies this
      ensures Valid() && hashed == old(hashed) + WriteDelta(d)
    {
      Body(WriteDelta(d));
    }

    method AddTxMap(t: TxMap)
      requires Valid()
      modifies this
      ensures Valid() && hashed == old(hashed) + WriteTxMap(t)
    {
      Body(WriteTxMap(t));
    }

    /** Writes the footer, then the hash of the body over the placeholder in the header. */
    method Finish() returns (final: bytes)
      requires Valid()
      modifies this
      ensures final == WriteHeader(FORMAT_VERSION_STREAMED, head, sha(old(hashed) + MAGIC_FOOTER)) +
          (old(hashed) + MAGIC_FOOTER)
    {
      Body(MAGIC_FOOTER);
      var chunkHash := sha(hashed);
      FillHash(head, chunkHash, hashed);
      final := file[..CHUNK_HASH_OFFSET] + chunkHash + file[CHUNK_HASH_OFFSET + 32..];
    }
  }

  lemma {:induction false} WriteNodesSnoc(ns: seq<Node>, n: Node)
    ensures WriteNodes(ns + [n]) == WriteNodes(ns) + WriteNode(n)
  {
    hide WriteNode;
    if ns == [] {
      assert [n][1..] == [];
    } else {
      WriteNodesSnoc(ns[1..], n);
      assert (ns + [n])[1..] == ns[1..] + [n];
      AppendAssoc(WriteNode(ns[0]), WriteNodes(ns[1..]), WriteNode(n));
    }
  }

  /** Overwriting the 32 bytes at the placeholder turns the header into the one with the hash. */
  lemma FillHash(head: Chunk, chunkHash: Hash256, body: bytes)
    ensures
      var file := WriteHeader(FORMAT_VERSION_STREAMED, head, ZERO_HASH) + body;
      |file| >= CHUNK_HASH_OFFSET + 32 &&
      file[..CHUNK_HASH_OFFSET] + chunkHash + file[CHUNK_HASH_OFFSET + 32..]
      == WriteHeader(FORMAT_VERSION_STREAMED, head, chunkHash) + body
  {
    var fixed := HeaderFront(head);
    HeaderIsFront(head, ZERO_HASH);
    HeaderIsFront(head, chunkHash);
    var file := fixed + ZERO_HASH + body;
    assert |fixed| == CHUNK_HASH_OFFSET;
    assert file[..CHUNK_HASH_OFFSET] == fixed;
    assert file[CHUNK_HASH_OFFSET + 32..] == body;
  }

  /** The header up to the chunk hash. */
  function HeaderFront(head: Chunk): bytes {
    (MAGIC_HEADER + [FORMAT_VERSION_STREAMED]) + (ToBE(4, head.networkId) + (ToBE(4, head.startLedger)
      + (ToBE(4, head.endLedger) + head.checkpointHash)))
  }

  lemma HeaderIsFront(head: Chunk, chunkHash: Hash256)
    ensures WriteHeader(FORMAT_VERSION_STREAMED, head, chunkHash) == HeaderFront(head) + chunkHash
  {
    var a, b, c := ToBE(4, head.networkId), ToBE(4, head.startLedger), ToBE(4, head.endLedger);
    assert a + (b + (c + (head.checkpointHash + chunkHash))) == (a + (b + (c + head.checkpointHash))) + chunkHash;
  }
}
