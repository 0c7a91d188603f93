/**
 * Metadata as a tree: its encoding, the one-level rule for affected accounts, and the proof that the
 * decoder applied to the encoding gives exactly what the rule says.
 *
 * The encoding and the rule write every type code, field code, width and flag out as a number; they share
 * none of them with the decoder.
 */
module MetaTree {
  import opened Prelude
  import opened Reading
  import opened VarLength
  import opened MetaFormat

  datatype Value =
    | Fixed(t: nat, data: bytes)
    | Native(value: bytes)
    | Issued(value: bytes, currency: AccountId, issuer: AccountId)
    | Mpt(value: bytes, sign: byte, id: bytes)
    | Blob(t: nat, data: bytes)
    | XrpIssue
    | TokenIssue(currency: AccountId, account: AccountId)
    | MptIssue(currency: AccountId, sequence: bytes)
    | Container(t: nat, fields: seq<Field>)

  datatype Field = Field(f: nat, value: Value)

  function TypeOf(v: Value): nat {
    match v
    case Fixed(t, _) => t
    case Native(_) => 6
    case Issued(_, _, _) => 6
    case Mpt(_, _, _) => 6
    case Blob(t, _) => t
    case XrpIssue => 24
    case TokenIssue(_, _) => 24
    case MptIssue(_, _) => 24
    case Container(t, _) => t
  }

  function IdOf(x: Field): FieldId {
    FieldId(TypeOf(x.value), x.f)
  }

  const MAX_META_VL: nat := MAX_PREFIX

  /** Widths, flag bits and lengths are those of the wire format; no field is an end marker. */
  ghost predicate WellFormed(v: Value) {
    match v
    case Fixed(t, data) => HasWidth(t, |data|)
    case Native(value) => |value| == 8 && value[0] < 128 && (value[0] / 32) % 2 == 0
    case Issued(value, _, _) => |value| == 8 && value[0] >= 128
    case Mpt(value, _, id) => |value| == 8 && value[0] < 128 && (value[0] / 32) % 2 == 1 && |id| == 24
    case Blob(t, data) => (t == 7 || t == 8 || t == 19) && |data| <= MAX_META_VL
    case XrpIssue => true
    case TokenIssue(currency, account) => currency != Zeros(20) && account != Zeros(19) + [1]
    case MptIssue(currency, sequence) => currency != Zeros(20) && |sequence| == 4
    case Container(t, fields) => (t == 14 || t == 15) && FieldsFormed(fields, t)
  }

  /** The types of fixed width: integers and hashes of every size, numbers and currencies. */
  predicate HasWidth(t: nat, n: nat) {
    || (t == 16 && n == 1) || (t == 1 && n == 2) || ((t == 2 || t == 10) && n == 4) || ((t == 3 || t == 11) && n == 8)
    || ((t == 9 || t == 20) && n == 12) || (t == 4 && n == 16) || ((t == 17 || t == 26) && n == 20)
    || (t == 21 && n == 24) || (t == 5 && n == 32) || (t == 22 && n == 48) || (t == 23 && n == 64)
  }

  lemma WidthIs(t: nat, n: nat)
    ensures Width(t) == Some(n) <==> HasWidth(t, n)
  {
  }

  ghost predicate FieldsFormed(fields: seq<Field>, t: nat)
    decreases fields
  {
    fields == [] || (FieldFormed(fields[0]) && IdOf(fields[0]) != FieldId(t, 1)
        && FieldsFormed(fields[1..], t))
  }

  ghost predicate FieldFormed(x: Field)
    decreases x
  {
    1 <= x.f < 256 && WellFormed(x.value)
  }

  // ---------------------------------------------------------------------------------------------
  // Encoding

  function EncodeHeader(id: FieldId): bytes
    requires 1 <= id.t < 256 && 1 <= id.f < 256
  {
    if id.t < 16 && id.f < 16 then [id.t * 16 + id.f]
    else if id.t < 16 then [id.t * 16, id.f]
    else if id.f < 16 then [id.f, id.t]
    else [0, id.t, id.f]
  }

  lemma TypeBounds(v: Value)
    requires WellFormed(v)
    ensures 1 <= TypeOf(v) < 256
  {
  }

  ghost function Encode(v: Value): bytes
    requires WellFormed(v)
    decreases v
  {
    match v
    case Fixed(_, data) => data
    case Native(value) => value
    case Issued(value, currency, issuer) => value + (currency + issuer)
    case Mpt(value, sign, id) => value + ([sign] + id)
    case Blob(_, data) => VlPrefix(|data|) + data
    case XrpIssue => Zeros(20)
    case TokenIssue(currency, account) => currency + account
    case MptIssue(currency, sequence) => currency + ((Zeros(19) + [1]) + sequence)
    case Container(t, fields) => EncodeFields(fields, t) + EncodeHeader(FieldId(t, 1))
  }

  /** The fields of a container of type `t`, without its end marker. */
  ghost function EncodeFields(fields: seq<Field>, t: nat): bytes
    requires FieldsFormed(fields, t)
    decreases fields
  {
    if fields == [] then [] else EncodeField(fields[0]) + EncodeFields(fields[1..], t)
  }

  ghost function EncodeField(x: Field): bytes
    requires FieldFormed(x)
    decreases x
  {
    TypeBounds(x.value);
    EncodeHeader(IdOf(x)) + Encode(x.value)
  }

  // ---------------------------------------------------------------------------------------------
  // The decoder undoes the encoding

  lemma HeaderBack(id: FieldId, rest: bytes)
    requires 1 <= id.t < 256 && 1 <= id.f < 256
    ensures Header(EncodeHeader(id) + rest) == Success(Parsed(id, rest))
  {
    var b := EncodeHeader(id) + rest;
    if id.t < 16 && id.f < 16 {
      assert b[1..] == rest;
    } else if id.t < 16 || id.f < 16 {
      assert b[1..][1..] == rest;
    } else {
      assert b[1..][1..][1..] == rest;
    }
  }

  /** The decoder, by the prefix at the front: it takes a first byte of 255 for one more long prefix. */
  lemma VlLenIs(b: bytes)
    ensures VlLen(b) == if HasPrefix(b) then Success(Parsed(LengthOf(b), b[PrefixWidth(b[0])..])) else Failure
  {
    if HasPrefix(b) {
      assert b[1..] == b[1..][0..];
      if b[0] > 192 {
        assert b[1..][1..] == b[2..];
      }
      if b[0] > 240 {
        assert b[2..][1..] == b[3..];
      }
    }
  }

  /** A written length prefix is read back exactly up to `MAX_META_VL`. */
  lemma VlLenBackIff(len: nat, rest: bytes)
    ensures VlLen(VlPrefix(len) + rest) == Success(Parsed(len, rest)) <==> len <= MAX_META_VL
  {
    hide VlLen, LengthOf, VlPrefix;
    var b := VlPrefix(len) + rest;
    PrefixIff(len, rest);
    VlLenIs(b);
    assert b[|VlPrefix(len)|..] == rest;
  }

  /** An account of zeros stands for none. */
  function NotZero(a: AccountId): Option<AccountId> {
    if a == Zeros(20) then None else Some(a)
  }

  /** An amount's issuer, if it has one that is not zero: of an issuance id, the last 20 bytes. */
  function AmountIssuer(v: Value): Option<AccountId>
    requires v.Mpt? ==> |v.id| == 24
  {
    if v.Issued? then NotZero(v.issuer)
    else if v.Mpt? then NotZero(v.id[4..24])
    else None
  }

  lemma AmountBack(v: Value, rest: bytes)
    requires WellFormed(v) && TypeOf(v) == TYPE_AMOUNT
    ensures v.Native? || v.Issued? || v.Mpt?
    ensures ReadAmount(Encode(v) + rest) == Success(Parsed(AmountIssuer(v), rest))
  {
    hide ReadExact;
    var b := Encode(v) + rest;
    if v.Native? {
      ExactBack(v.value, rest);
    } else if v.Issued? {
      assert b == v.value + (v.currency + (v.issuer + rest));
      ExactBack(v.value, v.currency + (v.issuer + rest));
      ExactBack(v.currency, v.issuer + rest);
      ExactBack(v.issuer, rest);
    } else {
      assert b == v.value + ([v.sign] + (v.id + rest));
      ExactBack(v.value, [v.sign] + (v.id + rest));
      ExactBack([v.sign], v.id + rest);
      ExactBack(v.id, rest);
    }
  }

  lemma BlobBack(data: bytes, rest: bytes)
    requires |data| <= MAX_META_VL
    ensures SkipBlob(VlPrefix(|data|) + data + rest) == Success(rest)
  {
    hide ReadExact, VlLen;
    assert VlPrefix(|data|) + data + rest == VlPrefix(|data|) + (data + rest);
    VlLenBackIff(|data|, data + rest);
    ExactBack(data, rest);
  }

  lemma IssueBack(v: Value, rest: bytes)
    requires WellFormed(v) && TypeOf(v) == TYPE_ISSUE
    ensures SkipIssue(Encode(v) + rest) == Success(rest)
  {
    hide ReadExact;
    var b := Encode(v) + rest;
    if v.XrpIssue? {
      ExactBack(ZERO_ACCOUNT, rest);
    } else if v.TokenIssue? {
      assert b == v.currency + (v.account + rest);
      ExactBack(v.currency, v.account + rest);
      ExactBack(v.account, rest);
    } else {
      assert b == v.currency + (NO_ACCOUNT + (v.sequence + rest));
      ExactBack(v.currency, NO_ACCOUNT + (v.sequence + rest));
      ExactBack(NO_ACCOUNT, v.sequence + rest);
      ExactBack(v.sequence, rest);
    }
  }

  /** Every value, of any depth, is skipped at its exact width. */
  lemma {:induction false} SkipBack(v: Value, rest: bytes)
    requires WellFormed(v)
    ensures SkipValue(Encode(v) + rest, TypeOf(v)) == Success(rest)
    decreases v
  {
    hide ReadExact, ReadAmount, SkipBlob, SkipIssue, SkipFields;
    if v.Fixed? {
      ExactBack(v.data, rest);
    } else if v.Blob? {
      BlobBack(v.data, rest);
    } else if v.Container? {
      var body, end := EncodeFields(v.fields, v.t), EncodeHeader(FieldId(v.t, END_MARKER));
      AppendAssoc(body, end, rest);
      SkipFieldsBack(v.fields, v.t, rest);
    } else if TypeOf(v) == TYPE_ISSUE {
      IssueBack(v, rest);
    } else {
      AmountBack(v, rest);
    }
  }

  lemma {:induction false} SkipFieldsBack(fields: seq<Field>, t: nat, rest: bytes)
    requires IsContainer(t) && FieldsFormed(fields, t)
    ensures SkipFields(EncodeFields(fields, t) + (EncodeHeader(FieldId(t, END_MARKER)) + rest), t) == Success(rest)
    decreases fields
  {
    hide Header, EncodeHeader, SkipValue;
    var end := EncodeHeader(FieldId(t, END_MARKER)) + rest;
    if fields == [] {
      assert [] + end == end;
      HeaderBack(FieldId(t, END_MARKER), rest);
    } else {
      var tail := EncodeFields(fields[1..], t) + end;
      FieldFront(fields[0], EncodeFields(fields[1..], t), end);
      SkipFieldBack(fields[0], tail);
      SkipFieldsBack(fields[1..], t, rest);
    }
  }

  lemma {:induction false} SkipFieldBack(x: Field, rest: bytes)
    requires FieldFormed(x)
    ensures SkipValue(Encode(x.value) + rest, TypeOf(x.value)) == Success(rest)
    decreases x
  {
    SkipBack(x.value, rest);
  }

  /** A field in front of others: its header, its value, and what follows. */
  lemma FieldFront(x: Field, others: bytes, end: bytes)
    requires FieldFormed(x)
    ensures Header(EncodeField(x) + others + end) == Success(Parsed(IdOf(x), Encode(x.value) + (others + end)))
    ensures 1 <= TypeOf(x.value) < 256
  {
    hide Header, EncodeHeader, Encode;
    TypeBounds(x.value);
    var h, v := EncodeHeader(IdOf(x)), Encode(x.value);
    assert h + v + others + end == h + (v + (others + end));
    HeaderBack(IdOf(x), v + (others + end));
  }

  // ---------------------------------------------------------------------------------------------
  // The rule

  /** The accounts one field of `NewFields` or `FinalFields` names. */
  function FieldAccounts(x: Field): set<AccountId> {
    match x.value
    case Blob(t, data) => if t == 8 && |data| == 20 then {data} else {}
    case Issued(_, _, issuer) => if 4 <= x.f <= 7 && issuer != Zeros(20) then {issuer} else {}
    case Mpt(_, _, id) => if 4 <= x.f <= 7 && |id| == 24 && id[4..24] != Zeros(20) then {id[4..24]} else {}
    case Fixed(t, data) => if t == 21 && x.f == 1 && |data| == 24 && data[4..24] != Zeros(20) then {data[4..24]} else {}
    case _ => {}
  }

  /** `inner` is one of the fields, an object named `wanted`, and `x` a field directly below it. */
  ghost predicate Below(fields: seq<Field>, wanted: nat, inner: Field, x: Field) {
    inner in fields && IdOf(inner) == FieldId(14, wanted) && inner.value.Container? && x in inner.value.fields
  }

  /** The object of a node that is looked into: the new fields of a created node, or another's final fields. */
  function LookedInto(f: nat): nat {
    if f == 3 then 8 else 7
  }

  /** `x` stands directly below that object. */
  ghost predicate NamedBelow(node: Field, inner: Field, x: Field) {
    node.value.Container? && Below(node.value.fields, LookedInto(node.f), inner, x)
  }

  /** The rule: an account is affected if a field one level below a node's new or final fields names it. */
  ghost predicate Affects(nodes: seq<Field>, a: AccountId) {
    exists node, inner, x :: node in nodes && NamedBelow(node, inner, x) && a in FieldAccounts(x)
  }

  /** Account fields directly below have 20 bytes or none. */
  ghost predicate AccountsFormed(fields: seq<Field>) {
    forall x :: x in fields && TypeOf(x.value) == 8 && x.value.Blob? ==>
        |x.value.data| == 0 || |x.value.data| == 20
  }

  /** So do those of every object named `wanted`. */
  ghost predicate WantedFormed(fields: seq<Field>, wanted: nat) {
    forall inner :: inner in fields && IdOf(inner) == FieldId(14, wanted) && inner.value.Container?
      ==> AccountsFormed(inner.value.fields)
  }

  ghost predicate NodeFormed(node: Field) {
    && node.value.Container? && node.value.t == 14
    && WantedFormed(node.value.fields, LookedInto(node.f))
  }

  // ---------------------------------------------------------------------------------------------
  // Collecting from an encoding

  lemma AccountBack(v: Value, rest: bytes)
    requires WellFormed(v) && v.Blob? && (|v.data| == 0 || |v.data| == 20)
    ensures ReadAccount(Encode(v) + rest) == Success(Parsed(if |v.data| == 20 then Some(v.data) else None, rest))
  {
    hide ReadExact, VlLen, VlPrefix;
    assert Encode(v) + rest == VlPrefix(|v.data|) + (v.data + rest);
    VlLenBackIff(|v.data|, v.data + rest);
    if |v.data| == 20 {
      ExactBack(v.data, rest);
    } else {
      assert v.data + rest == rest;
    }
  }

  lemma InnerFieldBack(x: Field, rest: bytes)
    requires FieldFormed(x)
    requires TypeOf(x.value) == TYPE_ACCOUNT && x.value.Blob? ==> |x.value.data| == 0 || |x.value.data| == 20
    ensures InnerField(Encode(x.value) + rest, IdOf(x)) == Success(Parsed(FieldAccounts(x), rest))
  {
    hide ReadExact, SkipValue, ReadAmount, VlLen, VlPrefix;
    var v := x.value;
    if TypeOf(v) == TYPE_ACCOUNT {
      AccountIsBlob(v);
      AccountBack(v, rest);
    } else if HasIssuer(IdOf(x)) {
      AmountBack(v, rest);
    } else if IdOf(x) == FieldId(TYPE_UINT192, F_MPT_ISSUANCE_ID) {
      assert v.Fixed?;
      ExactBack(v.data, rest);
    } else {
      SkipBack(v, rest);
    }
  }

  lemma AccountIsBlob(v: Value)
    requires WellFormed(v) && TypeOf(v) == TYPE_ACCOUNT
    ensures v.Blob?
  {
  }

  ghost function Union(fields: seq<Field>): set<AccountId> {
    if fields == [] then {} else FieldAccounts(fields[0]) + Union(fields[1..])
  }

  lemma {:induction false} UnionIff(fields: seq<Field>, a: AccountId)
    ensures a in Union(fields) <==> exists x :: x in fields && a in FieldAccounts(x)
  {
    if fields != [] {
      UnionIff(fields[1..], a);
      if x :| x in fields && a in FieldAccounts(x) {
        assert x == fields[0] || x in fields[1..];
      }
    }
  }

  lemma {:induction false} InnerBack(fields: seq<Field>, rest: bytes)
    requires FieldsFormed(fields, TYPE_OBJECT) && AccountsFormed(fields)
    ensures CollectInner(EncodeFields(fields, TYPE_OBJECT) + (EncodeHeader(FieldId(TYPE_OBJECT, END_MARKER)) + rest))
         == Success(Parsed(Union(fields), rest))
    decreases fields
  {
    hide Header, EncodeHeader, InnerField, FieldAccounts, WellFormed;
    var end := EncodeHeader(FieldId(TYPE_OBJECT, END_MARKER)) + rest;
    if fields == [] {
      assert [] + end == end;
      HeaderBack(FieldId(TYPE_OBJECT, END_MARKER), rest);
    } else {
      var tail := EncodeFields(fields[1..], TYPE_OBJECT) + end;
      FieldFront(fields[0], EncodeFields(fields[1..], TYPE_OBJECT), end);
      assert fields[0] in fields;
      InnerFieldBack(fields[0], tail);
      InnerBack(fields[1..], rest);
    }
  }

  /** The accounts below a field, if it is an object named `wanted`. */
  ghost function WantedUnion(x: Field, wanted: nat): set<AccountId> {
    if IdOf(x) == FieldId(TYPE_OBJECT, wanted) && x.value.Container? then Union(x.value.fields) else {}
  }

  /** The accounts of one node's fields. */
  ghost function NodeUnion(fields: seq<Field>, wanted: nat): set<AccountId> {
    if fields == [] then {} else WantedUnion(fields[0], wanted) + NodeUnion(fields[1..], wanted)
  }

  lemma NodeFieldBack(x: Field, wanted: nat, rest: bytes)
    requires FieldFormed(x)
    requires IdOf(x) == FieldId(TYPE_OBJECT, wanted) && x.value.Container? ==> AccountsFormed(x.value.fields)
    ensures NodeField(Encode(x.value) + rest, IdOf(x), wanted) ==
            Success(Parsed(WantedUnion(x, wanted), rest))
  {
    hide SkipValue, CollectInner, AccountsFormed, EncodeHeader;
    var v := x.value;
    if IdOf(x) == FieldId(TYPE_OBJECT, wanted) {
      ObjectIsContainer(v);
      var body, end := EncodeFields(v.fields, TYPE_OBJECT), EncodeHeader(FieldId(TYPE_OBJECT, END_MARKER));
      AppendAssoc(body, end, rest);
      InnerBack(v.fields, rest);
    } else {
      SkipBack(v, rest);
    }
  }

  lemma ObjectIsContainer(v: Value)
    requires WellFormed(v) && IsContainer(TypeOf(v))
    ensures v.Container? && FieldsFormed(v.fields, v.t)
  {
  }

  lemma {:induction false} NodeBack(fields: seq<Field>, wanted: nat, rest: bytes)
    requires FieldsFormed(fields, TYPE_OBJECT) && WantedFormed(fields, wanted)
    ensures CollectNode(EncodeFields(fields, TYPE_OBJECT) +
        (EncodeHeader(FieldId(TYPE_OBJECT, END_MARKER)) + rest), wanted)
         == Success(Parsed(NodeUnion(fields, wanted), rest))
    decreases fields
  {
    hide Header, EncodeHeader, NodeField, WellFormed, AccountsFormed, Union;
    var end := EncodeHeader(FieldId(TYPE_OBJECT, END_MARKER)) + rest;
    if fields == [] {
      assert [] + end == end;
      HeaderBack(FieldId(TYPE_OBJECT, END_MARKER), rest);
    } else {
      var tail := EncodeFields(fields[1..], TYPE_OBJECT) + end;
      FieldFront(fields[0], EncodeFields(fields[1..], TYPE_OBJECT), end);
      assert fields[0] in fields;
      NodeFieldBack(fields[0], wanted, tail);
      NodeBack(fields[1..], wanted, rest);
    }
  }

  /** The accounts of all nodes. */
  ghost function AllUnion(nodes: seq<Field>): set<AccountId> {
    if nodes == [] then {} else NodeAccounts(nodes[0]) + AllUnion(nodes[1..])
  }

  ghost function NodeAccounts(node: Field): set<AccountId> {
    if node.value.Container? then NodeUnion(node.value.fields, LookedInto(node.f)) else {}
  }

  lemma {:induction false} AffectedBack(nodes: seq<Field>, rest: bytes)
    requires FieldsFormed(nodes, TYPE_ARRAY) && forall node :: node in nodes ==> NodeFormed(node)
    ensures CollectAffected(EncodeFields(nodes, TYPE_ARRAY) + (EncodeHeader(FieldId(TYPE_ARRAY, END_MARKER)) + rest))
         == Success(Parsed(AllUnion(nodes), rest))
    decreases nodes
  {
    hide Header, EncodeHeader, CollectNode, AccountsFormed, NodeUnion;
    var end := EncodeHeader(FieldId(TYPE_ARRAY, END_MARKER)) + rest;
    if nodes == [] {
      assert [] + end == end;
      HeaderBack(FieldId(TYPE_ARRAY, END_MARKER), rest);
    } else {
      var node := nodes[0];
      var tail := EncodeFields(nodes[1..], TYPE_ARRAY) + end;
      FieldFront(node, EncodeFields(nodes[1..], TYPE_ARRAY), end);
      assert node in nodes;
      AppendAssoc(EncodeFields(node.value.fields, TYPE_OBJECT), EncodeHeader(FieldId(TYPE_OBJECT, END_MARKER)), tail);
      NodeBack(node.value.fields, LookedInto(node.f), tail);
      AffectedBack(nodes[1..], rest);
    }
  }

  lemma {:induction false} NodeUnionIff(fields: seq<Field>, wanted: nat, a: AccountId)
    ensures a in NodeUnion(fields, wanted) <==>
        exists inner, x :: Below(fields, wanted, inner, x) && a in FieldAccounts(x)
  {
    hide FieldAccounts;
    if fields != [] {
      var first, others := fields[0], fields[1..];
      NodeUnionIff(others, wanted, a);
      if IdOf(first) == FieldId(TYPE_OBJECT, wanted) && first.value.Container? {
        UnionIff(first.value.fields, a);
        if x :| x in first.value.fields && a in FieldAccounts(x) {
          assert Below(fields, wanted, first, x);
        }
      }
      if inner, x :| Below(others, wanted, inner, x) && a in FieldAccounts(x) {
        assert Below(fields, wanted, inner, x);
      }
      if inner, x :| Below(fields, wanted, inner, x) && a in FieldAccounts(x) && inner != first {
        assert Below(others, wanted, inner, x);
      }
    }
  }

  /** What the decoder collects is what the rule says. */
  lemma {:induction false} AllUnionIff(nodes: seq<Field>, a: AccountId)
    ensures a in AllUnion(nodes) <==> Affects(nodes, a)
  {
    hide FieldAccounts, Below;
    if nodes != [] {
      var first, others := nodes[0], nodes[1..];
      AllUnionIff(others, a);
      if first.value.Container? {
        NodeUnionIff(first.value.fields, LookedInto(first.f), a);
        if inner, x :| Below(first.value.fields, LookedInto(first.f), inner, x) && a in FieldAccounts(x) {
          assert first in nodes && NamedBelow(first, inner, x);
        }
      }
      if node, inner, x :| node in others && NamedBelow(node, inner, x) && a in FieldAccounts(x) {
        assert node in nodes;
      }
      if node, inner, x :| node in nodes && NamedBelow(node, inner, x) && a in FieldAccounts(x) && node != first {
        assert node in others;
      }
    }
  }
}
