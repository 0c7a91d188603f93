/** Parsing inner nodes into sixteen slots, slot by slot. */
module InnerNodes {
  import opened Prelude
  import opened SHAMap

  /** A full node: sixteen hashes back to back. */
  method FromFullBytes(content: bytes) returns (r: Result<Slots>)
    ensures r == FullChildren(content)
  {
    if |content| != 512 {
      return Failure;
    }
    var children := new Hash256[16](_ => ZERO_HASH);
    for i := 0 to 16
      invariant forall k :: 0 <= k < i ==> children[k] == SlotBytes(content, k)
      invariant forall k :: i <= k < 16 ==> children[k] == ZERO_HASH
    {
      var hash: Hash256 := content[32 * i..32 * i + 32];
      if hash != ZERO_HASH {
        children[i] := hash;
      }
    }
    var slots: Slots := children[..];
    assert slots == FullChildren(content).value;
    return Success(slots);
  }

  /** A compressed node: entries of a hash and a position. */
  method FromCompressedBytes(content: bytes) returns (r: Result<Slots>)
    ensures r == CompressedChildren(content)
  {
    if |content| % ENTRY_BYTES != 0 || |content| > ENTRY_BYTES * 16 {
      return Failure;
    }
    var children := new Hash256[16](_ => ZERO_HASH);
    assert children[..] == EmptySlots();
    var count := |content| / ENTRY_BYTES;
    for k := 0 to count
      invariant PlaceEntries(content, k) == Success(children[..])
    {
      var at := ENTRY_BYTES * k;
      var hash: Hash256 := content[at..at + 32];
      var pos := content[at + 32];
      if pos >= 16 {
        PlaceFails(content, k + 1, count);
        return Failure;
      }
      ghost var before := children[..];
      if hash != ZERO_HASH {
        children[pos] := hash;
        assert children[..] == before[pos := hash];
      }
    }
    return Success(children[..]);
  }

  lemma {:induction false} PlaceFails(content: bytes, k: nat, n: nat)
    requires k <= n && ENTRY_BYTES * n <= |content| && PlaceEntries(content, k).Failure?
    ensures PlaceEntries(content, n).Failure?
    decreases n
  {
    if k < n {
      PlaceFails(content, k, n - 1);
    }
  }

  /** Either kind, by the node's type. */
  method FromNode(n: Node) returns (r: Result<Slots>)
    ensures r == Children(n)
  {
    match n.nodeType
    case Inner =>
      r := FromFullBytes(n.content);
    case CompressedInner =>
      r := FromCompressedBytes(n.content);
    case _ =>
      r := Failure;
  }
}
