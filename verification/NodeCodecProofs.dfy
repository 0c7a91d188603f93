/** The encodings of inner nodes agree, each decoder undoes its encoder, and the loops compute them. */
module NodeCodecProofs {
  import opened Prelude
  import opened Bytes
  import opened SHAMap
  import opened NodeCodec

  // ---------------------------------------------------------------------------------------------
  // The sparse encoding of sixteen children

  predicate BitsCover(bits: seq<bool>, s: Slots) {
    |bits| == 16 && forall i :: 0 <= i < 16 && s[i] != ZERO_HASH ==> bits[i]
  }

  /** The first `k` bits as a number, the first bit most significant. */
  function MaskOf(bits: seq<bool>, k: nat): nat
    requires k <= |bits|
  {
    if k == 0 then 0 else 2 * MaskOf(bits, k - 1) + if bits[k - 1] then 1 else 0
  }

  /** The children whose bit is set, in slot order. */
  function Packed(bits: seq<bool>, s: Slots, k: nat): bytes
    requires k <= 16 && |bits| == 16
  {
    if k == 0 then [] else Packed(bits, s, k - 1) + if bits[k - 1] then s[k - 1] else []
  }

  function EncodeSparse(bits: seq<bool>, s: Slots): bytes
    requires |bits| == 16
  {
    [CODEC_SPARSE_INNER] + ToBE(2, MaskOf(bits, 16)) + Packed(bits, s, 16)
  }

  function EncodeFull(s: Slots): bytes {
    [CODEC_FULL_INNER] + Concat(s)
  }

  lemma {:induction false} MaskBound(bits: seq<bool>, k: nat)
    requires k <= |bits| && k <= 16
    ensures MaskOf(bits, k) < 0x1_0000
    ensures k < 16 ==> 2 * MaskOf(bits, k) + 1 < 0x1_0000
  {
    MaskBoundAt(bits, k);
    assert Pow(2, 4) == 0x10;
    assert Pow(2, 8) == 0x100;
    assert Pow(2, 12) == 0x1000;
    assert Pow(2, 16) == 0x1_0000;
    if k < 16 {
      PowTwoMono(k + 1, 16);
      assert Pow(2, k + 1) == 2 * Pow(2, k);
    } else {
      PowTwoMono(k, 16);
    }
  }

  lemma {:induction false} PowTwoMono(a: nat, b: nat)
    requires a <= b
    ensures Pow(2, a) <= Pow(2, b)
    decreases b
  {
    if a < b {
      PowTwoMono(a, b - 1);
    }
  }

  lemma {:induction false} MaskBoundAt(bits: seq<bool>, k: nat)
    requires k <= |bits|
    ensures MaskOf(bits, k) < Pow(2, k)
  {
    if k > 0 {
      MaskBoundAt(bits, k - 1);
    }
  }

  /** Dropping the last `n` bits leaves the number of the bits before them. */
  lemma {:induction false} MaskHalved(bits: seq<bool>, k: nat, n: nat)
    requires k + n <= |bits|
    ensures Halved(MaskOf(bits, k + n), n) == MaskOf(bits, k)
    decreases n
  {
    if n > 0 {
      assert MaskOf(bits, k + n) / 2 == MaskOf(bits, k + n - 1);
      MaskHalved(bits, k, n - 1);
    }
  }

  lemma MaskBitIs(bits: seq<bool>, slot: nat)
    requires |bits| == 16 && slot < 16
    ensures MaskOf(bits, 16) < 0x1_0000 && (MaskBit(MaskOf(bits, 16), slot) <==> bits[slot])
  {
    hide MaskOf, Halved;
    MaskBound(bits, 16);
    MaskHalved(bits, slot + 1, 15 - slot);
    MaskLow(bits, slot + 1);
  }

  lemma MaskLow(bits: seq<bool>, k: nat)
    requires 0 < k <= |bits|
    ensures MaskOf(bits, k) % 2 == if bits[k - 1] then 1 else 0
  {
  }

  lemma {:induction false} PackedCount(bits: seq<bool>, s: Slots, k: nat)
    requires k <= 16 && |bits| == 16
    ensures MaskOf(bits, 16) < 0x1_0000 && |Packed(bits, s, k)| == 32 * Present(MaskOf(bits, 16), k)
  {
    MaskBound(bits, 16);
    if k > 0 {
      PackedCount(bits, s, k - 1);
      MaskBitIs(bits, k - 1);
    }
  }

  lemma {:induction false} PackedPrefix(bits: seq<bool>, s: Slots, j: nat, k: nat)
    requires j <= k <= 16 && |bits| == 16
    ensures Packed(bits, s, j) <= Packed(bits, s, k)
    decreases k
  {
    if j < k {
      PackedPrefix(bits, s, j, k - 1);
    }
  }

  /** Unpacking finds every child at its slot. */
  lemma {:induction false} SparseSlotsBack(bits: seq<bool>, s: Slots, k: nat)
    requires k <= 16 && BitsCover(bits, s)
    ensures MaskOf(bits, 16) < 0x1_0000 && 32 * Present(MaskOf(bits, 16), k) <= |Packed(bits, s, 16)|
    ensures SparseSlots(MaskOf(bits, 16), Packed(bits, s, 16), k) == s[..k]
  {
    hide Packed, Present, MaskBit;
    PackedCount(bits, s, k);
    PackedPrefix(bits, s, k, 16);
    if k > 0 {
      SparseSlotsBack(bits, s, k - 1);
      PackedCount(bits, s, k - 1);
      PackedSlot(bits, s, k);
      assert s[..k] == s[..k - 1] + [s[k - 1]];
    }
  }

  lemma PackedSlot(bits: seq<bool>, s: Slots, k: nat)
    requires 0 < k <= 16 && |bits| == 16
    ensures MaskOf(bits, 16) < 0x1_0000
    ensures Present(MaskOf(bits, 16), k) == Present(MaskOf(bits, 16), k - 1) + (if bits[k - 1] then 1 else 0)
    ensures MaskBit(MaskOf(bits, 16), k - 1) <==> bits[k - 1]
    ensures
      var all, at := Packed(bits, s, 16), |Packed(bits, s, k - 1)|;
      bits[k - 1] ==> at + 32 <= |all| && all[at..at + 32] == s[k - 1]
  {
    MaskBitIs(bits, k - 1);
    PackedPrefix(bits, s, k, 16);
    var all, at := Packed(bits, s, 16), |Packed(bits, s, k - 1)|;
    if bits[k - 1] {
      assert all[at..at + 32] == Packed(bits, s, k)[at..at + 32] == s[k - 1];
    }
  }

  /**
   * Sparse, full and raw encodings of the same sixteen children, whatever empty slots the sparse
   * one marks as present, decode to the same content, and that content has exactly those children.
   */
  lemma InnerEncodingsAgree(bits: seq<bool>, s: Slots, hash: Hash256)
    requires BitsCover(bits, s)
    ensures DecodeValue(EncodeSparse(bits, s)) == Some(Wire(Concat(s), Inner))
    ensures DecodeValue(EncodeFull(s)) == Some(Wire(Concat(s), Inner))
    ensures DecodeValue(EncodeNode(Node(hash, Inner, Concat(s)))) == Some(Wire(Concat(s), Inner))
    ensures Children(Node(hash, Inner, Concat(s))) == Success(s)
  {
    hide Concat, ToBE, Present, SparseSlots, Packed, MaskOf, DecodeBlob, FullChildren, SlotBytes;
    var value := EncodeSparse(bits, s);
    var packed := Packed(bits, s, 16);
    PackedCount(bits, s, 16);
    SparseSlotsBack(bits, s, 16);
    assert value[3..] == packed && s[..16] == s;
    MaskBytes(MaskOf(bits, 16), [CODEC_SPARSE_INNER], packed);
    assert EncodeFull(s)[1..] == Concat(s);
    EncodeRoundTripIff(Node(hash, Inner, Concat(s)));
    FullChildrenOfConcat(s);
  }

  lemma MaskBytes(mask: nat, head: bytes, tail: bytes)
    requires mask < 0x1_0000 && |head| == 1
    ensures
      var value := head + ToBE(2, mask) + tail;
      value[1] as int * 256 + value[2] as int == mask
  {
    var b := ToBE(2, mask);
    assert ToBE(1, mask / 256) == [mask / 256];
    assert b == [mask / 256] + [mask % 256];
    var value := head + b + tail;
    assert value[1] == b[0] && value[2] == b[1];
  }

  /**
   * Whatever encoding a value came in, storing what it decodes to again loses nothing: the importer's
   * own encoding of it decodes to the same.
   */
  lemma DecodedStoresBack(value: bytes, hash: Hash256)
    requires DecodeValue(value).Some?
    ensures
      var w := DecodeValue(value).value;
      DecodeValue(EncodeNode(Node(hash, w.nodeType, w.content))) == Some(w)
  {
    hide Present, SparseSlots;
    DecodedTypes(value);
    var w := DecodeValue(value).value;
    EncodeRoundTripIff(Node(hash, w.nodeType, w.content));
  }

  // ---------------------------------------------------------------------------------------------
  // Stored values, byte by byte

  /** What the importer stores: codec 0, eight zeros, the kind of node, and for inner nodes their hash prefix. */
  lemma StoredLayout(n: Node)
    ensures
      var b := EncodeNode(n);
      var inner := n.nodeType.Inner? || n.nodeType.CompressedInner?;
      && |b| >= 10 && b[..9] == [0, 0, 0, 0, 0, 0, 0, 0, 0]
      && b[9] == (if inner then 0 else if n.nodeType.AccountState? then 3 else 4)
      && (inner ==> |b| >= 14 && b[10..14] == [0x4D, 0x49, 0x4E, 0x00] && b[14..] == n.content)
      && (!inner ==> b[10..] == n.content)
  {
  }

  /** A stored full inner node: a 3 and sixteen hashes. A sparse one: a 2, a mask of two bytes, and the rest. */
  lemma InnerLayouts(bits: seq<bool>, s: Slots)
    requires |bits| == 16
    ensures EncodeFull(s) == [3] + Concat(s)
    ensures
      var b := EncodeSparse(bits, s);
      && |b| >= 3 && b[0] == 2 && b[3..] == Packed(bits, s, 16)
      && (forall i :: 0 <= i < 16 ==> (bits[i] <==> MaskBit(b[1] as int * 256 + b[2] as int, i)))
  {
    hide Concat, MaskBit, Packed, MaskOf, ToBE;
    var b := EncodeSparse(bits, s);
    MaskBitIs(bits, 0);
    MaskBytes(MaskOf(bits, 16), [2], Packed(bits, s, 16));
    forall i | 0 <= i < 16 ensures bits[i] <==> MaskBit(MaskOf(bits, 16), i) {
      MaskBitIs(bits, i);
    }
  }

  /** The stored values that decode, by codec and kind; ledger headers and anything else do not. */
  lemma DecodesIff(v: bytes, content: bytes, t: NodeType)
    ensures
      DecodeValue(v) == Some(Wire(content, t)) <==>
        || (|v| == 513 && v[0] == 3 && t.Inner? && content == v[1..])
        || (|v| >= 3 && v[0] == 2 && t.Inner? && DecodeSparse(v) == Some(Wire(content, t)))
        || (|v| >= 526 && v[0] == 0 && v[9] == 0 && t.Inner? && content == v[14..526])
        || (|v| >= 10 && v[0] == 0 && v[9] == 3 && t.AccountState? && content == v[10..])
        || (|v| >= 10 && v[0] == 0 && v[9] == 4 && t.TransactionWithMeta? && content == v[10..])
  {
    hide DecodeSparse;
    if |v| >= 10 {
      assert v[1..][9..] == v[10..] && v[1..][8] == v[9];
      if |v| >= 526 {
        assert v[1..][13..525] == v[14..526];
      }
    }
    SparseIsInner(v);
  }

  lemma SparseIsInner(v: bytes)
    ensures DecodeSparse(v).Some? ==> |v| >= 3 && DecodeSparse(v).value.nodeType.Inner?
  {
  }

  /** Slot `i` is the bit of weight 2 to the 15 - i: the first slot is the most significant. */
  lemma MaskLayout(mask: u16, i: nat)
    requires i < 16
    ensures MaskBit(mask, i) <==> (mask / Pow(2, 15 - i)) % 2 == 1
  {
    HalvedIs(mask, 15 - i);
  }

  lemma {:induction false} HalvedIs(x: nat, n: nat)
    ensures Halved(x, n) == x / Pow(2, n)
  {
    if n > 0 {
      HalvedIs(x / 2, n - 1);
      HalfThen(x / 2, x % 2, Pow(2, n - 1));
    }
  }

  lemma HalfThen(h: nat, b: nat, p: nat)
    requires b < 2 && p > 0
    ensures (2 * h + b) / (2 * p) == h / p
  {
    var q, r := h / p, h % p;
    assert h == q * p + r;
    TwiceProduct(q, p);
    DivMod(q, 2 * p, 2 * r + b);
  }

  lemma TwiceProduct(q: nat, p: nat)
    ensures 2 * (q * p) == q * (2 * p)
  {
  }

  /** Every node is one that decoding some stored value yields, as in every map read from a store. */
  ghost predicate Decoded(m: NodeMap) {
    forall h :: h in m ==> IsDecoded(m[h])
  }

  ghost predicate IsDecoded(n: Node) {
    exists value :: DecodeValue(value) == Some(Wire(n.content, n.nodeType))
  }

  /** The nodes that decoding yields are exactly the storable ones. */
  lemma DecodedIsStorable(n: Node)
    ensures IsDecoded(n) <==> Storable(n)
  {
    EncodeRoundTripIff(n);
    if IsDecoded(n) {
      var value :| DecodeValue(value) == Some(Wire(n.content, n.nodeType));
      DecodedStoresBack(value, n.hash);
    }
  }

  // ---------------------------------------------------------------------------------------------
  // The loop that expands a sparse node

  method DecodeSparseInner(value: bytes) returns (r: Option<Wire>)
    ensures r == DecodeSparse(value)
  {
    hide Concat, MaskBit, SparseSlots, Present;
    if |value| < 3 {
      return None;
    }
    var mask: u16 := value[1] as int * 256 + value[2] as int;
    if |value| != 3 + 32 * Present(mask, 16) {
      return None;
    }
    var content := new byte[512](_ => 0);
    var src := 0;
    ghost var packed := value[3..];
    SparseStart(mask, packed);
    for slot := 0 to 16
      invariant src == Present(mask, slot) && src <= Present(mask, 16)
      invariant content[..32 * slot] == Concat(SparseSlots(mask, packed, slot))
      invariant forall i :: 32 * slot <= i < 512 ==> content[i] == 0
    {
      SparseStep(mask, packed, slot);
      if MaskBit(mask, slot) {
        var child := value[3 + 32 * src..3 + 32 * src + 32];
        CopyChild(content, slot, child);
        assert child == packed[32 * src..32 * src + 32];
        src := src + 1;
      } else {
        assert content[32 * slot..32 * slot + 32] == ZERO_HASH;
      }
      assert content[..32 * (slot + 1)] == content[..32 * slot] + content[32 * slot..32 * slot + 32];
    }
    assert content[..512] == content[..];
    return Some(Wire(content[..], Inner));
  }

  lemma SparseStart(mask: u16, packed: bytes)
    ensures Present(mask, 0) == 0 && Concat(SparseSlots(mask, packed, 0)) == []
  {
  }

  /** One more slot: its child is the next packed one, or zero. */
  lemma SparseStep(mask: u16, packed: bytes, slot: nat)
    requires slot < 16 && |packed| == 32 * Present(mask, 16)
    ensures Present(mask, slot) <= Present(mask, slot + 1) <= Present(mask, 16)
    ensures Present(mask, slot + 1) == Present(mask, slot) + if MaskBit(mask, slot) then 1 else 0
    ensures
      var at := 32 * Present(mask, slot);
      (MaskBit(mask, slot) ==> at + 32 <= |packed|)
      && Concat(SparseSlots(mask, packed, slot + 1))
         == Concat(SparseSlots(mask, packed, slot)) + if MaskBit(mask, slot) then packed[at..at + 32] else ZERO_HASH
  {
    hide Concat, MaskBit;
    PresentMono(mask, slot, 16);
    PresentMono(mask, slot + 1, 16);
    var at := 32 * Present(mask, slot);
    ConcatSnoc(SparseSlots(mask, packed, slot), if MaskBit(mask, slot) then packed[at..at + 32] else ZERO_HASH);
  }

  /** Copies one child to its slot and leaves the rest alone. */
  method CopyChild(content: array<byte>, slot: nat, h: Hash256)
    requires content.Length == 512 && slot < 16
    modifies content
    ensures content[32 * slot..32 * slot + 32] == h
    ensures content[..32 * slot] == old(content[..32 * slot])
    ensures forall i :: 32 * slot + 32 <= i < 512 ==> content[i] == old(content[i])
  {
    forall i | 0 <= i < 32 {
      content[32 * slot + i] := h[i];
    }
  }

  lemma ConcatSnoc(hs: seq<Hash256>, h: Hash256)
    ensures Concat(hs + [h]) == Concat(hs) + h
  {
    assert (hs + [h])[..|hs|] == hs;
  }

  lemma {:induction false} PresentMono(mask: u16, j: nat, k: nat)
    requires j <= k <= 16
    ensures Present(mask, j) <= Present(mask, k)
    decreases k
  {
    if j < k {
      PresentMono(mask, j, k - 1);
    }
  }

  // ---------------------------------------------------------------------------------------------
  // The compressed wire form

  /** The entries of the non-empty slots below `k`, each a hash and its position. */
  function EncodeEntries(s: Slots, k: nat): (b: bytes)
    requires k <= 16
    ensures |b| % ENTRY_BYTES == 0 && |b| <= ENTRY_BYTES * k
  {
    if k == 0 then []
    else EncodeEntries(s, k - 1) + if s[k - 1] == ZERO_HASH then [] else s[k - 1] + [k - 1]
  }

  /** The slots below `k`, the others empty. */
  function Upto(s: Slots, k: nat): Slots
    requires k <= 16
  {
    seq<Hash256>(16, i requires 0 <= i < 16 => if i < k then s[i] else ZERO_HASH)
  }

  lemma {:induction false} PlaceExtends(content: bytes, more: bytes, n: nat)
    requires ENTRY_BYTES * n <= |content|
    ensures PlaceEntries(content + more, n) == PlaceEntries(content, n)
  {
    if n > 0 {
      PlaceExtends(content, more, n - 1);
      var at := ENTRY_BYTES * (n - 1);
      assert (content + more)[at..at + 32] == content[at..at + 32] && (content + more)[at + 32] == content[at + 32];
    }
  }

  lemma PlaceOne(front: bytes, n: nat, before: Slots, h: Hash256, pos: nat)
    requires |front| == ENTRY_BYTES * n && PlaceEntries(front, n) == Success(before)
    requires h != ZERO_HASH && pos < 16
    ensures PlaceEntries(front + (h + [pos]), n + 1) == Success(before[pos := h])
  {
    hide PlaceEntries;
    var all := front + (h + [pos]);
    PlaceExtends(front, h + [pos], n);
    assert all[ENTRY_BYTES * n..ENTRY_BYTES * n + 32] == h && all[ENTRY_BYTES * n + 32] == pos;
    PlaceNext(all, n, before, h, pos);
  }

  lemma PlaceNext(all: bytes, n: nat, before: Slots, h: Hash256, pos: nat)
    requires |all| >= ENTRY_BYTES * n + ENTRY_BYTES && PlaceEntries(all, n) == Success(before)
    requires all[ENTRY_BYTES * n..ENTRY_BYTES * n + 32] == h && all[ENTRY_BYTES * n + 32] == pos
    requires h != ZERO_HASH && pos < 16
    ensures PlaceEntries(all, n + 1) == Success(before[pos := h])
  {
  }

  lemma {:induction false} EntriesBack(s: Slots, k: nat)
    requires k <= 16
    ensures PlaceEntries(EncodeEntries(s, k), |EncodeEntries(s, k)| / ENTRY_BYTES) == Success(Upto(s, k))
  {
    hide PlaceEntries;
    var all := EncodeEntries(s, k);
    if k == 0 {
      PlaceNone();
      assert Upto(s, 0) == EmptySlots();
    } else {
      EntriesBack(s, k - 1);
      var front := EncodeEntries(s, k - 1);
      if s[k - 1] == ZERO_HASH {
        assert all == front && Upto(s, k) == Upto(s, k - 1);
      } else {
        var n := |front| / ENTRY_BYTES;
        assert |front| == ENTRY_BYTES * n && |all| / ENTRY_BYTES == n + 1;
        PlaceOne(front, n, Upto(s, k - 1), s[k - 1], k - 1);
        assert Upto(s, k) == Upto(s, k - 1)[k - 1 := s[k - 1]];
      }
    }
  }

  lemma PlaceNone()
    ensures PlaceEntries([], 0) == Success(EmptySlots())
  {
  }

  /** A compressed inner node parses to the children it was written from. */
  lemma CompressedBack(s: Slots, hash: Hash256)
    ensures Children(Node(hash, CompressedInner, EncodeEntries(s, 16))) == Success(s)
  {
    EntriesBack(s, 16);
    assert Upto(s, 16) == s;
  }

  // ---------------------------------------------------------------------------------------------
  // Variable-length integers (LEB128)

  datatype Varint = Varint(value: u64, width: nat)

  function Leb128(v: nat): bytes {
    if v < 128 then [v] else [128 + v % 128] + Leb128(v / 128)
  }

  /** Reads on from byte `i`; what it adds to `result` is cut to 64 bits, and a tenth continuation is refused. */
  function VarintFrom(data: bytes, i: nat, result: u64): Option<Varint>
    decreases |data| - i
  {
    if i >= |data| then None
    else
      var next := (result + (data[i] as int % 128) * Pow(128, i)) % 0x1_0000_0000_0000_0000;
      if data[i] < 128 then Some(Varint(next, i + 1))
      else if 7 * (i + 1) >= 64 then None
      else VarintFrom(data, i + 1, next)
  }

  /** The bits of a byte never overlap those read before, so adding them is or-ing them. */
  method ReadVarint(data: bytes) returns (r: Option<Varint>)
    ensures r == VarintFrom(data, 0, 0)
  {
    var result: u64 := 0;
    var shift := 0;
    for i := 0 to |data|
      invariant shift == 7 * i && VarintFrom(data, i, result) == VarintFrom(data, 0, 0)
    {
      result := (result + (data[i] as int % 128) * Pow(128, i)) % 0x1_0000_0000_0000_0000;
      shift := shift + 7;
      if data[i] < 128 {
        return Some(Varint(result, i + 1));
      }
      if shift >= 64 {
        return None;
      }
    }
    return None;
  }

  lemma Leb128Step(v: nat, i: nat, result: nat)
    ensures (result + (v % 128) * Pow(128, i)) + (v / 128) * Pow(128, i + 1) == result + v * Pow(128, i)
  {
    var p := Pow(128, i);
    assert Pow(128, i + 1) == 128 * p;
    assert v == (v / 128) * 128 + v % 128;
    assert v * p == (v / 128) * 128 * p + (v % 128) * p;
    assert (v / 128) * (128 * p) == (v / 128) * 128 * p;
  }

  lemma {:induction false} PowGrows(i: nat, j: nat)
    requires i <= j
    ensures 0 < Pow(128, i) <= Pow(128, j)
    decreases j
  {
    if i < j {
      PowGrows(i, j - 1);
    }
  }

  /** A continuation never comes at the tenth byte of a 64-bit number. */
  lemma RoomLeft(v: nat, w: nat, i: nat, result: nat)
    requires result + w * Pow(128, i) == v < 0x1_0000_0000_0000_0000 && w >= 128
    ensures 7 * (i + 1) < 64
  {
    hide Pow;
    NinthPower();
    Weighs(w, Pow(128, i));
    if i >= 9 {
      PowGrows(9, i);
    }
  }

  lemma Weighs(w: nat, p: nat)
    requires w >= 128
    ensures w * p >= 128 * p
  {
    assert (w - 128) * p >= 0;
  }

  lemma NinthPower()
    ensures Pow(128, 9) == 0x8000_0000_0000_0000
  {
    assert Pow(128, 3) == 0x20_0000;
    assert Pow(128, 6) == 0x400_0000_0000;
  }

  /** The last byte of a number. */
  lemma VarintLast(data: bytes, i: nat, result: u64, v: nat)
    requires i < |data| && data[i] < 128 && result + data[i] * Pow(128, i) == v < 0x1_0000_0000_0000_0000
    ensures VarintFrom(data, i, result) == Some(Varint(v, i + 1))
  {
    hide Pow;
  }

  /** A byte with more to come. */
  lemma VarintMore(data: bytes, i: nat, result: u64, low: nat, next: u64)
    requires i < |data| && low < 128 && data[i] == 128 + low && 7 * (i + 1) < 64
    requires next == result + low * Pow(128, i)
    ensures VarintFrom(data, i, result) == VarintFrom(data, i + 1, next)
  {
    hide Pow;
    assert data[i] % 128 == low;
  }

  lemma Leb128Tail(data: bytes, i: nat, w: nat, rest: bytes)
    requires i <= |data| && data[i..] == Leb128(w) + rest
    ensures i < |data| && data[i] == (if w < 128 then w else 128 + w % 128)
    ensures w >= 128 ==> data[i + 1..] == Leb128(w / 128) + rest && |Leb128(w)| == |Leb128(w / 128)| + 1
    ensures w < 128 ==> |Leb128(w)| == 1
  {
    assert data[i] == data[i..][0];
    if w >= 128 {
      assert data[i + 1..] == data[i..][1..];
    }
  }

  lemma {:induction false} VarintBackFrom(data: bytes, i: nat, result: u64, w: nat, rest: bytes, v: nat)
    requires i <= |data| && data[i..] == Leb128(w) + rest
    requires result + w * Pow(128, i) == v < 0x1_0000_0000_0000_0000
    ensures VarintFrom(data, i, result) == Some(Varint(v, i + |Leb128(w)|))
    decreases w
  {
    hide Pow, VarintFrom, Leb128;
    Leb128Tail(data, i, w, rest);
    if w >= 128 {
      RoomLeft(v, w, i, result);
      Leb128Step(w, i, result);
      var next: nat := result + (w % 128) * Pow(128, i);
      assert next <= v;
      VarintMore(data, i, result, w % 128, next);
      VarintBackFrom(data, i + 1, next, w / 128, rest, v);
    } else {
      VarintLast(data, i, result, v);
    }
  }

  /** Reading undoes the encoding of every 64-bit number, whatever follows it. */
  lemma VarintBack(v: u64, rest: bytes)
    ensures VarintFrom(Leb128(v) + rest, 0, 0) == Some(Varint(v, |Leb128(v)|))
  {
    var data := Leb128(v) + rest;
    assert data[0..] == data;
    assert Pow(128, 0) == 1;
    VarintBackFrom(data, 0, 0, v, rest, v);
  }
}
