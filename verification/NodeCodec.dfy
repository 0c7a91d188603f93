/** The stored value of a node: raw encoding on import, raw, sparse and full decoding on reading. */
module NodeCodec {
  import opened Prelude
  import opened SHAMap

  const CODEC_RAW: byte := 0
  const CODEC_SPARSE_INNER: byte := 2
  const CODEC_FULL_INNER: byte := 3

  const NOTYPE_UNKNOWN: byte := 0
  const NOTYPE_ACCOUNT: byte := 3
  const NOTYPE_TRANSACTION: byte := 4

  const HASH_PREFIX_INNER_NODE: bytes := [0x4D, 0x49, 0x4E, 0x00]

  /** The inverse of `DecodeValue` on the nodes a store holds; it always writes the raw encoding. */
  function EncodeNode(n: Node): bytes {
    [CODEC_RAW] + Zeros(8) +
    match n.nodeType
    case Inner => [NOTYPE_UNKNOWN] + HASH_PREFIX_INNER_NODE + n.content
    case CompressedInner => [NOTYPE_UNKNOWN] + HASH_PREFIX_INNER_NODE + n.content
    case AccountState => [NOTYPE_ACCOUNT] + n.content
    case Transaction => [NOTYPE_TRANSACTION] + n.content
    case TransactionWithMeta => [NOTYPE_TRANSACTION] + n.content
  }

  /** Node content with the wire type byte that follows it. */
  datatype Wire = Wire(content: bytes, nodeType: NodeType)

  function DecodeBlob(data: bytes): Option<Wire> {
    if |data| < 9 then None
    else if data[8] == NOTYPE_UNKNOWN then
      if |data| < 525 then None else Some(Wire(data[13..525], Inner))
    else if data[8] == NOTYPE_ACCOUNT then Some(Wire(data[9..], AccountState))
    else if data[8] == NOTYPE_TRANSACTION then Some(Wire(data[9..], TransactionWithMeta))
    else None
  }

  function DecodeFull(value: bytes): Option<Wire> {
    if |value| != 513 then None else Some(Wire(value[1..], Inner))
  }

  function Halved(x: nat, n: nat): nat {
    if n == 0 then x else Halved(x / 2, n - 1)
  }

  /** `mask & (0x8000 >> slot) != 0`: bits are counted from the most significant. */
  predicate MaskBit(mask: u16, slot: nat)
    requires slot < 16
  {
    Halved(mask, 15 - slot) % 2 == 1
  }

  /** How many of the slots below `k` are present. */
  function Present(mask: u16, k: nat): (n: nat)
    requires k <= 16
    ensures n <= k
  {
    if k == 0 then 0 else Present(mask, k - 1) + if MaskBit(mask, k - 1) then 1 else 0
  }

  /** The children below slot `k`: the present ones are packed in slot order, the others are zero. */
  function SparseSlots(mask: u16, packed: bytes, k: nat): (s: seq<Hash256>)
    requires k <= 16 && 32 * Present(mask, k) <= |packed|
    ensures |s| == k
  {
    if k == 0 then []
    else
      var before := SparseSlots(mask, packed, k - 1);
      var at := 32 * Present(mask, k - 1);
      before + [if MaskBit(mask, k - 1) then packed[at..at + 32] else ZERO_HASH]
  }

  function DecodeSparse(value: bytes): Option<Wire> {
    if |value| < 3 then None
    else
      var mask: u16 := value[1] as int * 256 + value[2] as int;
      if |value| != 3 + 32 * Present(mask, 16) then None
      else Some(Wire(Concat(SparseSlots(mask, value[3..], 16)), Inner))
  }

  /** What a stored value decodes to; ledger headers and unknown codecs are not nodes. */
  function DecodeValue(value: bytes): Option<Wire> {
    if value == [] then None
    else if value[0] == CODEC_FULL_INNER then DecodeFull(value)
    else if value[0] == CODEC_SPARSE_INNER then DecodeSparse(value)
    else if value[0] == CODEC_RAW then DecodeBlob(value[1..])
    else None
  }

  /** Decoding never produces a compressed inner node or a bare transaction. */
  lemma DecodedTypes(value: bytes)
    ensures
      match DecodeValue(value)
      case None => true
      case Some(w) => w.nodeType.Inner? || w.nodeType.AccountState? || w.nodeType.TransactionWithMeta?
  {
  }

  /** A full inner node of 512 bytes, an account-state leaf or a transaction-with-metadata leaf. */
  predicate Storable(n: Node) {
    (n.nodeType.Inner? && |n.content| == 512) || n.nodeType.AccountState? || n.nodeType.TransactionWithMeta?
  }

  /** A node written by the importer reads back unchanged exactly when it is storable. */
  lemma EncodeRoundTripIff(n: Node)
    ensures DecodeValue(EncodeNode(n)) == Some(Wire(n.content, n.nodeType)) <==> Storable(n)
  {
    var value := EncodeNode(n);
    var blob := value[1..];
    assert value[0] == CODEC_RAW;
    if IsInner(n.nodeType) {
      assert blob == Zeros(8) + [NOTYPE_UNKNOWN] + HASH_PREFIX_INNER_NODE + n.content;
      assert blob[8] == NOTYPE_UNKNOWN && |blob| == 13 + |n.content|;
      if |blob| >= 525 {
        assert blob[13..525] == n.content[..512];
        assert DecodeValue(value) == Some(Wire(n.content[..512], Inner));
        assert |n.content| == 512 ==> n.content[..512] == n.content;
      }
    } else {
      var kind := if n.nodeType.AccountState? then NOTYPE_ACCOUNT else NOTYPE_TRANSACTION;
      assert blob == Zeros(8) + [kind] + n.content;
      assert blob[8] == kind && blob[9..] == n.content;
    }
  }
}
