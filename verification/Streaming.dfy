/** Reading a version 3 chunk piece by piece: every reader leaves a suffix, and what passes is hashed. */
module Streaming {
  import opened Prelude
  import opened Reading
  import opened SHAMap
  import opened TxTree
  import opened ChunkFormat

  // ---------------------------------------------------------------------------------------------
  // Every reader leaves a suffix of what it was given

  predicate Suffix(r: bytes, b: bytes) {
    |r| <= |b| && r == b[|b| - |r|..]
  }

  /** The bytes read between `b` and its suffix `r`. */
  function Passed(b: bytes, r: bytes): bytes
    requires Suffix(r, b)
  {
    b[..|b| - |r|]
  }

  lemma SuffixTrans(r: bytes, b: bytes, c: bytes)
    requires Suffix(r, b) && Suffix(b, c)
    ensures Suffix(r, c) && Passed(c, r) == Passed(c, b) + Passed(b, r)
  {
  }

  lemma ExactSuffix(b: bytes, n: nat)
    requires ReadExact(b, n).Success?
    ensures Suffix(ReadExact(b, n).value.rest, b)
  {
  }

  lemma IntSuffix(b: bytes, n: nat)
    requires ReadInt(b, n).Success?
    ensures Suffix(ReadInt(b, n).value.rest, b)
  {
  }

  lemma NodeSuffix(b: bytes)
    requires ReadNode(b).Success?
    ensures Suffix(ReadNode(b).value.rest, b)
  {
    var kind := ReadByte(ReadHash(b).value.rest).value;
    var len := ReadInt(kind.rest, 2).value;
    SuffixTrans(kind.rest, ReadHash(b).value.rest, b);
    SuffixTrans(len.rest, kind.rest, b);
    SuffixTrans(ReadNode(b).value.rest, len.rest, b);
  }

  lemma {:induction false} NodesSuffix(b: bytes, count: nat)
    requires ReadNodes(b, count).Success?
    ensures Suffix(ReadNodes(b, count).value.rest, b)
    decreases count
  {
    hide ReadNode;
    if count > 0 {
      var first := ReadNode(b).value;
      NodeSuffix(b);
      NodesSuffix(first.rest, count - 1);
      SuffixTrans(ReadNodes(b, count).value.rest, first.rest, b);
    }
  }

  lemma NodeListSuffix(b: bytes)
    requires ReadNodeList(b).Success?
    ensures Suffix(ReadNodeList(b).value.rest, b)
  {
    hide ReadNodes;
    var count := ReadInt(b, 4).value;
    NodesSuffix(count.rest, count.value);
    SuffixTrans(ReadNodeList(b).value.rest, count.rest, b);
  }

  lemma {:induction false} HashesSuffix(b: bytes, count: nat)
    requires ReadHashes(b, count).Success?
    ensures Suffix(ReadHashes(b, count).value.rest, b)
    decreases count
  {
    if count > 0 {
      var first := ReadHash(b).value;
      HashesSuffix(first.rest, count - 1);
      SuffixTrans(ReadHashes(b, count).value.rest, first.rest, b);
    }
  }

  lemma DeltaSuffix(b: bytes)
    requires ReadDelta(b).Success?
    ensures Suffix(ReadDelta(b).value.rest, b)
  {
    hide ReadNodeList, ReadHashes, ReadInt;
    var ledgerSeq := ReadU32(b).value;
    var added := ReadNodeList(ledgerSeq.rest).value;
    var count := ReadInt(added.rest, 4).value;
    IntSuffix(b, 4);
    NodeListSuffix(ledgerSeq.rest);
    IntSuffix(added.rest, 4);
    HashesSuffix(count.rest, count.value);
    SuffixTrans(added.rest, ledgerSeq.rest, b);
    SuffixTrans(count.rest, added.rest, b);
    SuffixTrans(ReadDelta(b).value.rest, count.rest, b);
  }

  lemma TxSuffix(b: bytes)
    requires ReadTx(b).Success?
    ensures Suffix(ReadTx(b).value.rest, b)
  {
    hide ReadInt;
    var txHash := ReadHash(b).value;
    var txLen := ReadInt(txHash.rest, 4).value;
    var txBlob := ReadExact(txLen.rest, txLen.value).value;
    var metaLen := ReadInt(txBlob.rest, 4).value;
    IntSuffix(txHash.rest, 4);
    IntSuffix(txBlob.rest, 4);
    SuffixTrans(txLen.rest, txHash.rest, b);
    SuffixTrans(txBlob.rest, txLen.rest, b);
    SuffixTrans(metaLen.rest, txBlob.rest, b);
    SuffixTrans(ReadTx(b).value.rest, metaLen.rest, b);
  }

  lemma {:induction false} TxsSuffix(b: bytes, count: nat)
    requires ReadTxs(b, count).Success?
    ensures Suffix(ReadTxs(b, count).value.rest, b)
    decreases count
  {
    hide ReadTx;
    if count > 0 {
      var first := ReadTx(b).value;
      TxSuffix(b);
      TxsSuffix(first.rest, count - 1);
      SuffixTrans(ReadTxs(b, count).value.rest, first.rest, b);
    }
  }

  lemma TxHeadSuffix(b: bytes)
    requires ReadTxHead(b).Success?
    ensures Suffix(ReadTxHead(b).value.rest, b)
  {
    hide ReadInt;
    var ledgerSeq := ReadU32(b).value;
    var ledgerHash := ReadHash(ledgerSeq.rest).value;
    var accountHash := ReadHash(ledgerHash.rest).value;
    IntSuffix(b, 4);
    IntSuffix(accountHash.rest, 8);
    SuffixTrans(ledgerHash.rest, ledgerSeq.rest, b);
    SuffixTrans(accountHash.rest, ledgerHash.rest, b);
    SuffixTrans(ReadTxHead(b).value.rest, accountHash.rest, b);
  }

  lemma TxTimesSuffix(b: bytes, t: TxMap)
    requires ReadTxTimes(b, t).Success?
    ensures Suffix(ReadTxTimes(b, t).value.rest, b)
  {
    hide ReadInt;
    var parentCloseTime := ReadU32(b).value;
    var closeTime := ReadU32(parentCloseTime.rest).value;
    IntSuffix(b, 4);
    IntSuffix(parentCloseTime.rest, 4);
    SuffixTrans(closeTime.rest, parentCloseTime.rest, b);
    SuffixTrans(closeTime.rest[1..], closeTime.rest, b);
    SuffixTrans(closeTime.rest[1..][1..], closeTime.rest[1..], b);
  }

  lemma TxMapSuffix(b: bytes)
    requires ReadTxMap(b).Success?
    ensures Suffix(ReadTxMap(b).value.rest, b)
  {
    hide ReadTxHead, ReadTxTimes, ReadTxs, ReadInt;
    var head := ReadTxHead(b).value;
    var times := ReadTxTimes(head.rest, head.value).value;
    var count := ReadInt(times.rest, 2).value;
    TxHeadSuffix(b);
    TxTimesSuffix(head.rest, head.value);
    IntSuffix(times.rest, 2);
    TxsSuffix(count.rest, count.value);
    SuffixTrans(times.rest, head.rest, b);
    SuffixTrans(count.rest, times.rest, b);
    SuffixTrans(ReadTxMap(b).value.rest, count.rest, b);
  }

  // ---------------------------------------------------------------------------------------------
  // The reader

  /** What it has read so far runs through the hash; what it has not is `rest`. */
  class ChunkReader {
    const sha: Sha
    const head: Header
    var rest: bytes
    var hashed: bytes
    var deltasRemaining: nat
    ghost const body: bytes

    ghost predicate Valid()
      reads this
    {
      Suffix(rest, body) && hashed == Passed(body, rest)
    }

    constructor (sha: Sha, head: Header, body: bytes)
      ensures this.sha == sha && this.head == head && this.body == body && rest == body && Valid()
      ensures deltasRemaining == DeltaCount(head.startLedger, head.endLedger)
    {
      this.sha, this.head, this.body, rest, hashed := sha, head, body, body, [];
      deltasRemaining := DeltaCount(head.startLedger, head.endLedger);
    }

    /** Moves on to `next`, a suffix of what is left. */
    method Pass(next: bytes)
      requires Valid() && Suffix(next, rest)
      modifies `rest, `hashed
      ensures Valid() && rest == next
    {
      SuffixTrans(next, rest, body);
      hashed := hashed + Passed(rest, next);
      rest := next;
    }

    method ReadCount() returns (r: Result<nat>)
      requires Valid()
      modifies `rest, `hashed
      ensures
        var p := ReadInt(old(rest), 4);
        if p.Failure? then r.Failure? else Valid() && r == Success(p.value.value) && rest == p.value.rest
    {
      var p := ReadInt(rest, 4);
      if p.Failure? {
        return Failure;
      }
      IntSuffix(rest, 4);
      Pass(p.value.rest);
      return Success(p.value.value);
    }

    method NextNode() returns (r: Result<Node>)
      requires Valid()
      modifies `rest, `hashed
      ensures
        var p := ReadNode(old(rest));
        if p.Failure? then r.Failure? else Valid() && r == Success(p.value.value) && rest == p.value.rest
    {
      hide ReadNode;
      var p := ReadNode(rest);
      if p.Failure? {
        return Failure;
      }
      NodeSuffix(rest);
      Pass(p.value.rest);
      return Success(p.value.value);
    }

    method NextTxMap() returns (r: Result<TxMap>)
      requires Valid()
      modifies `rest, `hashed
      ensures
        var p := ReadTxMap(old(rest));
        if p.Failure? then r.Failure? else Valid() && r == Success(p.value.value) && rest == p.value.rest
    {
      hide ReadTxMap;
      var p := ReadTxMap(rest);
      if p.Failure? {
        return Failure;
      }
      TxMapSuffix(rest);
      Pass(p.value.rest);
      return Success(p.value.value);
    }

    /** The next delta and transaction map, if there are ledgers left. */
    method NextDeltaTxMap() returns (r: Result<Option<(LedgerDelta, TxMap)>>)
      requires Valid()
      modifies this
      ensures old(deltasRemaining) == 0 ==> r == Success(None) && Valid() && rest == old(rest) && deltasRemaining == 0
      ensures old(deltasRemaining) > 0 ==>
                var p := ReadPair(old(rest));
                if p.Failure? then r.Failure?
                else
                  && Valid() && r == Success(Some(p.value.value)) && rest == p.value.rest
                  && deltasRemaining == old(deltasRemaining) - 1
    {
      hide ReadDelta, ReadTxMap;
      if deltasRemaining == 0 {
        return Success(None);
      }
      var delta := ReadDelta(rest);
      if delta.Failure? {
        return Failure;
      }
      DeltaSuffix(rest);
      Pass(delta.value.rest);
      var txMap := NextTxMap();
      if txMap.Failure? {
        return Failure;
      }
      deltasRemaining := deltasRemaining - 1;
      return Success(Some((delta.value.value, txMap.value)));
    }

    /** The footer must follow, and everything read must hash to the header's claim. */
    method Finish() returns (ok: bool)
      requires Valid()
      modifies `rest, `hashed
      ensures ok <==> Closes(sha, head.chunkHash, body, old(rest))
    {
      var footer := ReadExact(rest, 4);
      if footer.Failure? || footer.value.value != MAGIC_FOOTER {
        return false;
      }
      ExactSuffix(rest, 4);
      Pass(footer.value.rest);
      return sha(hashed) == head.chunkHash;
    }
  }

  /** The footer stands at `rest`, and the body up to its end hashes to `chunkHash`. */
  predicate Closes(sha: Sha, chunkHash: Hash256, body: bytes, rest: bytes)
    requires Suffix(rest, body)
  {
    var footer := ReadExact(rest, 4);
    footer.Success? && footer.value.value == MAGIC_FOOTER && sha(body[..|body| - |footer.value.rest|]) == chunkHash
  }

  function ReadPair(b: bytes): Result<Parsed<(LedgerDelta, TxMap)>> {
    var delta :- ReadDelta(b);
    var txMap :- ReadTxMap(delta.rest);
    Success(Parsed((delta.value, txMap.value), txMap.rest))
  }
}
