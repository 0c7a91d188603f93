/**
 * SHAMap nodes, and the finite trees they unfold to.
 *
 * A node map sends a hash to a node. Following child hashes from a root unfolds it into a `Tree`,
 * which also records what goes wrong on the way: a hash with no node, an inner node whose content
 * does not parse. Everything said about a walk over a node map is said about this unfolding.
 */
module SHAMap {
  import opened Prelude
  import opened Bytes

  datatype NodeType = Transaction | AccountState | Inner | CompressedInner | TransactionWithMeta

  predicate IsInner(t: NodeType) {
    t.Inner? || t.CompressedInner?
  }

  function WireByte(t: NodeType): byte {
    match t
    case Transaction => 0
    case AccountState => 1
    case Inner => 2
    case CompressedInner => 3
    case TransactionWithMeta => 4
  }

  function NodeTypeOf(b: byte): Result<NodeType> {
    match b
    case 0 => Success(Transaction)
    case 1 => Success(AccountState)
    case 2 => Success(Inner)
    case 3 => Success(CompressedInner)
    case 4 => Success(TransactionWithMeta)
    case _ => Failure
  }

  /** `content` excludes the trailing wire type byte. */
  datatype Node = Node(hash: Hash256, nodeType: NodeType, content: bytes)

  type NodeMap = map<Hash256, Node>

  /** Sort keys: hashes are compared as byte strings, which is the order of these numbers. */
  function HashKey(h: Hash256): nat {
    FromBE(h)
  }

  function NodeHash(n: Node): Hash256 {
    n.hash
  }

  function NodeKey(n: Node): nat {
    FromBE(n.hash)
  }

  // ---------------------------------------------------------------------------------------------
  // Inner node content

  /** The sixteen child hashes of an inner node; the zero hash stands for an empty slot. */
  type Slots = s: seq<Hash256> | |s| == 16 witness seq<Hash256>(16, _ => ZERO_HASH)

  function EmptySlots(): Slots {
    seq<Hash256>(16, _ => ZERO_HASH)
  }

  function SlotBytes(content: bytes, i: nat): (h: Hash256)
    requires |content| == 512 && i < 16
  {
    content[32 * i..32 * i + 32]
  }

  function FullChildren(content: bytes): Result<Slots> {
    if |content| != 512 then Failure
    else Success(seq<Hash256>(16, i requires 0 <= i < 16 => SlotBytes(content, i)))
  }

  const ENTRY_BYTES: nat := 33

  /** Places the first `k` (hash, position) entries; a zero hash places nothing. */
  function PlaceEntries(content: bytes, k: nat): Result<Slots>
    requires ENTRY_BYTES * k <= |content|
  {
    if k == 0 then Success(EmptySlots())
    else
      var before :- PlaceEntries(content, k - 1);
      var at := ENTRY_BYTES * (k - 1);
      var hash: Hash256 := content[at..at + 32];
      var pos := content[at + 32];
      if pos >= 16 then Failure
      else Success(if hash == ZERO_HASH then before else before[pos := hash])
  }

  function CompressedChildren(content: bytes): Result<Slots> {
    if |content| % ENTRY_BYTES != 0 || |content| > ENTRY_BYTES * 16 then Failure
    else PlaceEntries(content, |content| / ENTRY_BYTES)
  }

  /** The children of an inner node, in either encoding. */
  function Children(n: Node): Result<Slots> {
    match n.nodeType
    case Inner => FullChildren(n.content)
    case CompressedInner => CompressedChildren(n.content)
    case _ => Failure
  }

  /** Sixteen hashes back to back: the content of a full inner node. */
  function Concat(hashes: seq<Hash256>): (c: bytes)
    ensures |c| == 32 * |hashes|
  {
    if hashes == [] then [] else Concat(hashes[..|hashes| - 1]) + hashes[|hashes| - 1]
  }

  lemma {:induction false} ConcatSlot(hashes: seq<Hash256>, i: nat)
    requires i < |hashes|
    ensures Concat(hashes)[32 * i..32 * i + 32] == hashes[i]
  {
    var front := hashes[..|hashes| - 1];
    if i < |hashes| - 1 {
      ConcatSlot(front, i);
      assert Concat(hashes)[32 * i..32 * i + 32] == Concat(front)[32 * i..32 * i + 32];
    }
  }

  /** Parsing a full inner node undoes writing its children back to back. */
  lemma FullChildrenOfConcat(s: Slots)
    ensures FullChildren(Concat(s)) == Success(s)
  {
    forall i | 0 <= i < 16 ensures SlotBytes(Concat(s), i) == s[i] {
      ConcatSlot(s, i);
    }
    assert FullChildren(Concat(s)).value == s;
  }

  // ---------------------------------------------------------------------------------------------
  // Trees

  datatype Tree =
    | Nil                                     // an empty slot
    | Absent(missing: Hash256)                // a hash the map has no node for
    | Corrupt(node: Node)                     // an inner node whose content does not parse
    | Leaf(node: Node)
    | Branch(node: Node, kids: seq<Tree>)

  function RootHash(t: Tree): Hash256 {
    match t
    case Nil => ZERO_HASH
    case Absent(h) => h
    case _ => t.node.hash
  }

  ghost predicate Holds(m: NodeMap, h: Hash256, n: Node) {
    h in m && m[h] == n && n.hash == h
  }

  /** `t` is what looking up `h` in `m`, and everything below it, finds. */
  ghost predicate Unfolds(m: NodeMap, h: Hash256, t: Tree)
    decreases t, 0
  {
    match t
    case Nil => false
    case Absent(x) => x == h && h !in m
    case Leaf(n) => Holds(m, h, n) && !IsInner(n.nodeType)
    case Corrupt(n) => Holds(m, h, n) && IsInner(n.nodeType) && Children(n).Failure?
    case Branch(n, kids) =>
      && Holds(m, h, n) && IsInner(n.nodeType) && Children(n).Success? && |kids| == 16
      && forall i :: 0 <= i < 16 ==> SlotUnfolds(m, Children(n).value[i], kids[i])
  }

  /** As `Unfolds`, for a child slot: the zero hash is an empty slot and is never looked up. */
  ghost predicate SlotUnfolds(m: NodeMap, h: Hash256, t: Tree)
    decreases t, 1
  {
    if h == ZERO_HASH then t == Nil else Unfolds(m, h, t)
  }

  /** No node is missing and every inner node parses. */
  ghost predicate Complete(t: Tree) {
    match t
    case Nil => true
    case Absent(_) => false
    case Corrupt(_) => false
    case Leaf(_) => true
    case Branch(_, kids) => forall i :: 0 <= i < |kids| ==> Complete(kids[i])
  }

  /** How many positions of `t` hold each hash. */
  ghost function Occ(t: Tree): multiset<Hash256>
    decreases t, 0
  {
    match t
    case Nil => multiset{}
    case Absent(h) => multiset{h}
    case Corrupt(n) => multiset{n.hash}
    case Leaf(n) => multiset{n.hash}
    case Branch(n, kids) => OccKids(kids, |kids|) + multiset{n.hash}
  }

  ghost function OccKids(kids: seq<Tree>, k: nat): multiset<Hash256>
    requires k <= |kids|
    decreases kids, k
  {
    if k == 0 then multiset{} else OccKids(kids, k - 1) + Occ(kids[k - 1])
  }

  /** No hash occurs at two positions. */
  ghost predicate NoDup(t: Tree) {
    forall h :: Occ(t)[h] <= 1
  }

  /** The nodes of `t`, as a map from hash to node. */
  ghost function NodesOf(m: NodeMap, t: Tree): NodeMap {
    map h | h in m && h in Occ(t) :: m[h]
  }

  ghost predicate Keyed(m: NodeMap) {
    forall h :: h in m ==> m[h].hash == h
  }

  ghost predicate Agrees(s: NodeMap, m: NodeMap) {
    forall h :: h in s ==> h in m && s[h] == m[h]
  }

  lemma InSum(a: multiset<Hash256>, b: multiset<Hash256>, h: Hash256)
    ensures h in a + b <==> h in a || h in b
  {
  }

  lemma {:induction false} OccKidsFind(kids: seq<Tree>, k: nat, h: Hash256) returns (i: nat)
    requires k <= |kids| && h in OccKids(kids, k)
    ensures i < k && h in Occ(kids[i])
  {
    InSum(OccKids(kids, k - 1), Occ(kids[k - 1]), h);
    if h in Occ(kids[k - 1]) {
      i := k - 1;
    } else {
      i := OccKidsFind(kids, k - 1, h);
    }
  }

  lemma {:induction false} OccKidsHas(kids: seq<Tree>, k: nat, i: nat, h: Hash256)
    requires i < k <= |kids| && h in Occ(kids[i])
    ensures h in OccKids(kids, k)
  {
    InSum(OccKids(kids, k - 1), Occ(kids[k - 1]), h);
    if i < k - 1 {
      OccKidsHas(kids, k - 1, i, h);
    }
  }

  lemma OccKidsMember(kids: seq<Tree>, k: nat, h: Hash256)
    requires k <= |kids|
    ensures h in OccKids(kids, k) <==> exists i :: 0 <= i < k && h in Occ(kids[i])
  {
    if h in OccKids(kids, k) {
      var i := OccKidsFind(kids, k, h);
    } else if i :| 0 <= i < k && h in Occ(kids[i]) {
      OccKidsHas(kids, k, i, h);
    }
  }

  lemma OccBranch(t: Tree, h: Hash256)
    requires t.Branch?
    ensures h in Occ(t) <==> h == t.node.hash || exists i :: 0 <= i < |t.kids| && h in Occ(t.kids[i])
  {
    OccKidsMember(t.kids, |t.kids|, h);
  }

  /** A hash unfolds in only one way. */
  lemma {:induction false} UnfoldUnique(m: NodeMap, h: Hash256, a: Tree, b: Tree)
    requires Unfolds(m, h, a) && Unfolds(m, h, b)
    ensures a == b
    decreases a
  {
    if a.Branch? {
      forall i | 0 <= i < 16 ensures a.kids[i] == b.kids[i] {
        var c := Children(a.node).value[i];
        if c != ZERO_HASH {
          UnfoldUnique(m, c, a.kids[i], b.kids[i]);
        }
      }
      assert a.kids == b.kids;
    }
  }

  lemma SlotUnfoldUnique(m: NodeMap, h: Hash256, a: Tree, b: Tree)
    requires SlotUnfolds(m, h, a) && SlotUnfolds(m, h, b)
    ensures a == b
  {
    if h != ZERO_HASH {
      UnfoldUnique(m, h, a, b);
    }
  }

  lemma SlotRoot(m: NodeMap, h: Hash256, t: Tree)
    requires SlotUnfolds(m, h, t)
    ensures RootHash(t) == h
    ensures t.Nil? <==> h == ZERO_HASH
  {
  }

  lemma BranchParts(m: NodeMap, h: Hash256, t: Tree)
    requires SlotUnfolds(m, h, t) && t.Branch?
    ensures h != ZERO_HASH && Holds(m, h, t.node) && IsInner(t.node.nodeType)
    ensures Children(t.node).Success? && |t.kids| == 16
    ensures forall i :: 0 <= i < 16 ==> SlotUnfolds(m, Children(t.node).value[i], t.kids[i])
  {
  }

  /** Every hash of a complete unfolding is in the map. */
  lemma {:induction false} OccPresent(m: NodeMap, h: Hash256, t: Tree, x: Hash256)
    requires SlotUnfolds(m, h, t) && Complete(t) && x in Occ(t)
    ensures x in m && m[x].hash == x
    decreases t
  {
    if t.Branch? {
      OccBranch(t, x);
      if x != t.node.hash {
        var i :| 0 <= i < 16 && x in Occ(t.kids[i]);
        OccPresent(m, Children(t.node).value[i], t.kids[i], x);
      }
    }
  }

  lemma NodesOfKeys(m: NodeMap, h: Hash256, t: Tree)
    requires SlotUnfolds(m, h, t) && Complete(t)
    ensures forall x :: x in NodesOf(m, t) <==> x in Occ(t)
    ensures Agrees(NodesOf(m, t), m) && Keyed(NodesOf(m, t))
  {
    forall x | x in Occ(t) ensures x in m && m[x].hash == x {
      OccPresent(m, h, t, x);
    }
  }

  lemma AgreesEqual(m: NodeMap, a: NodeMap, b: NodeMap)
    requires Agrees(a, m) && Agrees(b, m)
    requires forall h :: h in a <==> h in b
    ensures a == b
  {
  }

  // ---------------------------------------------------------------------------------------------
  // Subtrees

  ghost predicate Within(u: Tree, t: Tree) {
    u == t || (t.Branch? && exists i :: 0 <= i < |t.kids| && Within(u, t.kids[i]))
  }

  lemma {:induction false} WithinSmaller(u: Tree, t: Tree)
    requires Within(u, t)
    ensures u == t || u < t
  {
    if u != t {
      var i :| 0 <= i < |t.kids| && Within(u, t.kids[i]);
      WithinSmaller(u, t.kids[i]);
    }
  }

  lemma {:induction false} WithinOcc(u: Tree, t: Tree)
    requires Within(u, t)
    ensures forall x :: x in Occ(u) ==> x in Occ(t)
    ensures Complete(t) ==> Complete(u)
  {
    if u != t {
      var i :| 0 <= i < |t.kids| && Within(u, t.kids[i]);
      WithinOcc(u, t.kids[i]);
      forall x | x in Occ(u) ensures x in Occ(t) {
        OccBranch(t, x);
      }
    }
  }

  /** The subtree at a position that holds `x`. */
  lemma {:induction false} SubtreeAt(m: NodeMap, h: Hash256, t: Tree, x: Hash256) returns (u: Tree)
    requires Unfolds(m, h, t) && x in Occ(t)
    ensures Within(u, t) && Unfolds(m, x, u)
    decreases t
  {
    if RootHash(t) == x {
      u := t;
    } else {
      OccBranch(t, x);
      var i :| 0 <= i < |t.kids| && x in Occ(t.kids[i]);
      u := SubtreeAt(m, Children(t.node).value[i], t.kids[i], x);
    }
  }

  /** No branch's hash occurs below it: the unfolding is finite. */
  lemma RootOnce(m: NodeMap, h: Hash256, t: Tree, i: nat)
    requires Unfolds(m, h, t) && t.Branch? && i < |t.kids|
    ensures h !in Occ(t.kids[i])
  {
    if h in Occ(t.kids[i]) {
      var u := SubtreeAt(m, Children(t.node).value[i], t.kids[i], h);
      UnfoldUnique(m, h, u, t);
      WithinSmaller(u, t.kids[i]);
    }
  }
}
