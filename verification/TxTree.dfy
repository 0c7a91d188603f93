/**
 * Rebuilding a ledger's transaction SHAMap from its records, and reading the records back by
 * walking such a tree.
 */
module TxTree {
  import opened Prelude
  import opened Bytes
  import opened SHAMap
  import opened Sorting
  import opened VarLength

  type Sha = bytes -> Hash256

  datatype TxRecord = TxRecord(txHash: Hash256, txBlob: bytes, metaBlob: bytes)

  function TxKey(tx: TxRecord): nat {
    FromBE(tx.txHash)
  }

  const PREFIX_TX_NODE: bytes := [0x53, 0x4E, 0x44, 0x00]
  const PREFIX_INNER_NODE: bytes := [0x4D, 0x49, 0x4E, 0x00]
  const PREFIX_TRANSACTION_ID: bytes := [0x54, 0x58, 0x4E, 0x00]

  function TxId(sha: Sha, txBlob: bytes): Hash256 {
    sha(PREFIX_TRANSACTION_ID + txBlob)
  }

  // ---------------------------------------------------------------------------------------------
  // Leaves

  function LeafContent(tx: TxRecord): bytes {
    PREFIX_TX_NODE + WriteVl(tx.txBlob) + WriteVl(tx.metaBlob) + tx.txHash
  }

  function TxLeaf(sha: Sha, tx: TxRecord): Node {
    Node(sha(LeafContent(tx)), TransactionWithMeta, LeafContent(tx))
  }

  function ParseTxLeaf(content: bytes): Result<TxRecord> {
    if |content| < 36 || content[..4] != PREFIX_TX_NODE then Failure
    else
      var tx :- ReadField(content, 4);
      var meta :- ReadField(content, tx.next);
      if |content| - meta.next != 32 then Failure
      else Success(TxRecord(content[meta.next..], tx.data, meta.data))
  }

  predicate Readable(tx: TxRecord) {
    |tx.txBlob| <= MAX_VL && |tx.metaBlob| <= MAX_VL
  }

  /** A leaf written for a record within the length limit parses back to that record. */
  lemma LeafRoundTrip(tx: TxRecord)
    requires Readable(tx)
    ensures ParseTxLeaf(LeafContent(tx)) == Success(tx)
  {
    var c := LeafContent(tx);
    var w1, w2 := WriteVl(tx.txBlob), WriteVl(tx.metaBlob);
    assert c == PREFIX_TX_NODE + w1 + (w2 + tx.txHash);
    FieldRoundTrip(PREFIX_TX_NODE, tx.txBlob, w2 + tx.txHash);
    FieldRoundTrip(PREFIX_TX_NODE + w1, tx.metaBlob, tx.txHash);
    assert c[..4] == PREFIX_TX_NODE;
    assert c[|PREFIX_TX_NODE + w1 + w2|..] == tx.txHash;
  }

  /** Nothing else parses: what does is exactly what would be written for the record it parses to. */
  lemma LeafParsesIff(content: bytes, tx: TxRecord)
    ensures ParseTxLeaf(content) == Success(tx) <==> Readable(tx) && content == LeafContent(tx)
  {
    hide ReadField, WriteVl;
    if ParseTxLeaf(content) == Success(tx) {
      var x := ReadField(content, 4).value;
      FieldCanonical(content, 4);
      var y := ReadField(content, x.next).value;
      FieldCanonical(content, x.next);
      assert content == content[..4] + content[4..x.next] + content[x.next..y.next] + content[y.next..];
    }
    if Readable(tx) && content == LeafContent(tx) {
      LeafRoundTrip(tx);
    }
  }

  // ---------------------------------------------------------------------------------------------
  // The tree

  /** `key` places the item; `node.hash`, the hash of its content, is what the parent refers to. */
  datatype Item = Item(key: Hash256, node: Node)

  function MakeItem(sha: Sha, tx: TxRecord): Item {
    Item(tx.txHash, TxLeaf(sha, tx))
  }

  function Nibble(key: Hash256, depth: nat): (s: nat)
    requires depth < 64
    ensures s < 16
  {
    if depth % 2 == 0 then key[depth / 2] / 16 else key[depth / 2] % 16
  }

  function Bucket(items: seq<Item>, depth: nat, slot: nat): (b: seq<Item>)
    requires depth < 64
    ensures |b| <= |items|
    ensures forall x :: x in b <==> x in items && Nibble(x.key, depth) == slot
  {
    if items == [] then []
    else
      var before, last := Bucket(items[..|items| - 1], depth, slot), items[|items| - 1];
      if Nibble(last.key, depth) == slot then before + [last] else before
  }

  function InnerOf(sha: Sha, children: seq<Hash256>): Node {
    Node(sha(PREFIX_INNER_NODE + Concat(children)), Inner, Concat(children))
  }

  ghost function RootHashes(kids: seq<Tree>): (hs: seq<Hash256>)
    ensures |hs| == |kids|
  {
    seq(|kids|, i requires 0 <= i < |kids| => RootHash(kids[i]))
  }

  /** The tree of `items` below `depth` nibbles. Indexing past the last nibble aborts the program. */
  ghost function Level(sha: Sha, items: seq<Item>, depth: nat): Result<Tree>
    requires depth <= 64
    decreases 64 - depth, 17
  {
    if depth == 64 then Failure
    else
      var kids :- LevelKids(sha, items, depth, 16);
      Success(Branch(InnerOf(sha, RootHashes(kids)), kids))
  }

  ghost function LevelKids(sha: Sha, items: seq<Item>, depth: nat, k: nat): (r: Result<seq<Tree>>)
    requires depth < 64 && k <= 16
    ensures r.Success? ==> |r.value| == k
    decreases 64 - depth, k
  {
    if k == 0 then Success([])
    else
      var before :- LevelKids(sha, items, depth, k - 1);
      var last :- LevelSlot(sha, Bucket(items, depth, k - 1), depth);
      Success(before + [last])
  }

  ghost function LevelSlot(sha: Sha, bucket: seq<Item>, depth: nat): Result<Tree>
    requires depth < 64
    decreases 64 - depth, 0
  {
    if |bucket| == 0 then Success(Nil)
    else if |bucket| == 1 then Success(Leaf(bucket[0].node))
    else Level(sha, bucket, depth + 1)
  }

  /** The inner nodes of a tree, in the order they are finished. */
  ghost function Inners(t: Tree): seq<Node>
    decreases t, 1
  {
    if t.Branch? then InnersOf(t.kids, |t.kids|) + [t.node] else []
  }

  ghost function InnersOf(kids: seq<Tree>, k: nat): seq<Node>
    requires k <= |kids|
    decreases kids, k
  {
    if k == 0 then [] else InnersOf(kids, k - 1) + Inners(kids[k - 1])
  }

  /** Builds one level, appending every inner node it finishes; `ok` is false if the program aborts. */
  method BuildLevel(sha: Sha, items: seq<Item>, depth: nat, allNodes: seq<Node>)
    returns (ok: bool, hash: Hash256, nodes: seq<Node>)
    requires depth <= 64
    ensures ok <==> Level(sha, items, depth).Success?
    ensures ok ==>
              var t := Level(sha, items, depth).value;
              hash == RootHash(t) && nodes == allNodes + Inners(t)
    decreases 64 - depth, 1
  {
    hide Bucket, Concat, InnerOf, LevelSlot;
    nodes := allNodes;
    hash := ZERO_HASH;
    if depth == 64 {
      return false, hash, nodes;
    }
    var children: seq<Hash256> := [];
    ghost var kids: seq<Tree> := [];
    for slot := 0 to 16
      invariant LevelKids(sha, items, depth, slot) == Success(kids)
      invariant |children| == |kids| == slot && children == RootHashes(kids)
      invariant nodes == allNodes + InnersOf(kids, slot)
    {
      ghost var before := kids;
      var child;
      ok, child, nodes := BuildSlot(sha, Bucket(items, depth, slot), depth, nodes);
      if !ok {
        LevelKidsFail(sha, items, depth, slot, 16);
        return false, hash, nodes;
      }
      children := children + [child];
      kids := kids + [LevelSlot(sha, Bucket(items, depth, slot), depth).value];
      InnersPrefix(before, kids, slot);
      assert kids[slot] == LevelSlot(sha, Bucket(items, depth, slot), depth).value;
    }
    var node := InnerOf(sha, children);
    return true, node.hash, nodes + [node];
  }

  /** One child slot: empty, a single leaf, or a further level. */
  method BuildSlot(sha: Sha, bucket: seq<Item>, depth: nat, allNodes: seq<Node>)
    returns (ok: bool, hash: Hash256, nodes: seq<Node>)
    requires depth < 64
    ensures ok <==> LevelSlot(sha, bucket, depth).Success?
    ensures ok ==>
              var t := LevelSlot(sha, bucket, depth).value;
              hash == RootHash(t) && nodes == allNodes + Inners(t)
    decreases 64 - depth, 0
  {
    match |bucket| {
      case 0 => return true, ZERO_HASH, allNodes;
      case 1 => return true, bucket[0].node.hash, allNodes;
      case _ => ok, hash, nodes := BuildLevel(sha, bucket, depth + 1, allNodes);
    }
  }

  lemma {:induction false} InnersPrefix(a: seq<Tree>, b: seq<Tree>, k: nat)
    requires k <= |a| && a <= b
    ensures InnersOf(a, k) == InnersOf(b, k)
  {
    if k > 0 {
      InnersPrefix(a, b, k - 1);
    }
  }

  lemma {:induction false} LevelKidsFail(sha: Sha, items: seq<Item>, depth: nat, slot: nat, k: nat)
    requires depth < 64 && slot < k <= 16
    requires LevelSlot(sha, Bucket(items, depth, slot), depth).Failure?
    ensures LevelKids(sha, items, depth, k).Failure?
  {
    if slot + 1 < k {
      LevelKidsFail(sha, items, depth, slot, k - 1);
    }
  }

  function MakeItems(sha: Sha, txns: seq<TxRecord>): seq<Item> {
    MapSeq(tx => MakeItem(sha, tx), txns)
  }

  function ItemNode(x: Item): Node {
    x.node
  }

  function LeafNodes(items: seq<Item>): seq<Node> {
    MapSeq(ItemNode, items)
  }

  /** The transaction tree of a ledger; an empty ledger has no root node. */
  ghost function TxTreeOf(sha: Sha, txns: seq<TxRecord>): Result<Tree> {
    if txns == [] then Success(Nil) else Level(sha, MakeItems(sha, txns), 0)
  }

  /** Every node the tree is made of: the leaves first, in list order. */
  ghost function TxNodes(sha: Sha, txns: seq<TxRecord>): seq<Node>
    requires TxTreeOf(sha, txns).Success?
  {
    LeafNodes(MakeItems(sha, txns)) + Inners(TxTreeOf(sha, txns).value)
  }

  method BuildTxTree(sha: Sha, txns: seq<TxRecord>) returns (ok: bool, root: Hash256, nodes: seq<Node>)
    ensures ok <==> TxTreeOf(sha, txns).Success?
    ensures ok ==> root == RootHash(TxTreeOf(sha, txns).value) && nodes == TxNodes(sha, txns)
  {
    if txns == [] {
      return true, ZERO_HASH, [];
    }
    var items := MakeItems(sha, txns);
    ok, root, nodes := BuildLevel(sha, items, 0, LeafNodes(items));
  }
}
