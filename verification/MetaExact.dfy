/**
 * Exactly which encoded metadata the decoder accepts, and exactly what cutting it short does.
 */
module MetaExact {
  import opened Prelude
  import opened Reading
  import VarLength
  import opened MetaFormat
  import opened MetaLocal
  import opened MetaTree
  import opened MetaProofs

  // ---------------------------------------------------------------------------------------------
  // What is refused

  lemma BadAccountFails(v: Value, rest: bytes)
    requires WellFormed(v) && v.Blob? && |v.data| != 0 && |v.data| != 20
    ensures ReadAccount(Encode(v) + rest).Failure?
  {
    hide ReadExact, VlLen, VarLength.VlPrefix;
    assert Encode(v) + rest == VarLength.VlPrefix(|v.data|) + (v.data + rest);
    VlLenBackIff(|v.data|, v.data + rest);
  }

  lemma {:induction false} InnerFails(fields: seq<Field>, rest: bytes)
    requires FieldsFormed(fields, TYPE_OBJECT) && !AccountsFormed(fields)
    ensures CollectInner(EncodeFields(fields, TYPE_OBJECT) +
        (EncodeHeader(FieldId(TYPE_OBJECT, END_MARKER)) + rest)).Failure?
    decreases fields
  {
    hide Header, EncodeHeader, InnerField, FieldAccounts, WellFormed, Encode;
    var end := EncodeHeader(FieldId(TYPE_OBJECT, END_MARKER)) + rest;
    var x, tail := fields[0], EncodeFields(fields[1..], TYPE_OBJECT) + end;
    FieldFront(x, EncodeFields(fields[1..], TYPE_OBJECT), end);
    if AccountFormed(x) {
      InnerFieldBack(x, tail);
      OthersBad(fields);
      InnerFails(fields[1..], rest);
    } else {
      InnerFieldFails(x, tail);
    }
  }

  /** An account field has 20 bytes or none. */
  ghost predicate AccountFormed(x: Field) {
    TypeOf(x.value) == TYPE_ACCOUNT && x.value.Blob? ==> |x.value.data| == 0 || |x.value.data| == 20
  }

  lemma OthersBad(fields: seq<Field>)
    requires fields != [] && AccountFormed(fields[0]) && !AccountsFormed(fields)
    ensures !AccountsFormed(fields[1..])
  {
    var x :| x in fields && !AccountFormed(x);
    assert x in fields[1..];
  }

  lemma InnerFieldFails(x: Field, rest: bytes)
    requires FieldFormed(x) && !AccountFormed(x)
    ensures InnerField(Encode(x.value) + rest, IdOf(x)).Failure?
  {
    hide ReadAccount, Encode;
    BadAccountFails(x.value, rest);
  }

  lemma {:induction false} NodeFails(fields: seq<Field>, wanted: nat, rest: bytes)
    requires FieldsFormed(fields, TYPE_OBJECT) && !WantedFormed(fields, wanted)
    ensures CollectNode(EncodeFields(fields, TYPE_OBJECT) +
        (EncodeHeader(FieldId(TYPE_OBJECT, END_MARKER)) + rest), wanted).Failure?
    decreases fields
  {
    hide Header, EncodeHeader, NodeField, WellFormed, AccountsFormed, Encode, Union;
    var end := EncodeHeader(FieldId(TYPE_OBJECT, END_MARKER)) + rest;
    var x, tail := fields[0], EncodeFields(fields[1..], TYPE_OBJECT) + end;
    FieldFront(x, EncodeFields(fields[1..], TYPE_OBJECT), end);
    if InnerFormed(x, wanted) {
      NodeFieldBack(x, wanted, tail);
      OthersUnformed(fields, wanted);
      NodeFails(fields[1..], wanted, rest);
    } else {
      NodeFieldFails(x, wanted, tail);
    }
  }

  ghost predicate InnerFormed(inner: Field, wanted: nat) {
    IdOf(inner) == FieldId(TYPE_OBJECT, wanted) && inner.value.Container? ==> AccountsFormed(inner.value.fields)
  }

  lemma OthersUnformed(fields: seq<Field>, wanted: nat)
    requires fields != [] && InnerFormed(fields[0], wanted) && !WantedFormed(fields, wanted)
    ensures !WantedFormed(fields[1..], wanted)
  {
    hide AccountsFormed;
    var x :| x in fields && !InnerFormed(x, wanted);
    assert x in fields[1..];
  }

  lemma NodeFieldFails(x: Field, wanted: nat, rest: bytes)
    requires FieldFormed(x) && !InnerFormed(x, wanted)
    ensures NodeField(Encode(x.value) + rest, IdOf(x), wanted).Failure?
  {
    hide CollectInner, AccountsFormed, EncodeHeader;
    var v := x.value;
    ObjectIsContainer(v);
    AppendAssoc(EncodeFields(v.fields, TYPE_OBJECT), EncodeHeader(FieldId(TYPE_OBJECT, END_MARKER)), rest);
    InnerFails(v.fields, rest);
  }

  lemma {:induction false} AffectedFails(nodes: seq<Field>, rest: bytes)
    requires FieldsFormed(nodes, TYPE_ARRAY) && exists node :: node in nodes && !NodeFormed(node)
    ensures CollectAffected(EncodeFields(nodes, TYPE_ARRAY) +
        (EncodeHeader(FieldId(TYPE_ARRAY, END_MARKER)) + rest)).Failure?
    decreases nodes
  {
    hide Header, EncodeHeader, CollectNode, NodeFormed, NodeUnion, Encode;
    var end := EncodeHeader(FieldId(TYPE_ARRAY, END_MARKER)) + rest;
    var node, tail := nodes[0], EncodeFields(nodes[1..], TYPE_ARRAY) + end;
    FieldFront(node, EncodeFields(nodes[1..], TYPE_ARRAY), end);
    if NodeFormed(node) {
      FormedNodeBack(node, tail);
      var bad :| bad in nodes && !NodeFormed(bad);
      assert bad in nodes[1..];
      AffectedFails(nodes[1..], rest);
    } else if TypeOf(node.value) == TYPE_OBJECT {
      BadNodeFails(node, tail);
    }
  }

  lemma FormedNodeBack(node: Field, rest: bytes)
    requires FieldFormed(node) && NodeFormed(node)
    ensures TypeOf(node.value) == TYPE_OBJECT
    ensures CollectNode(Encode(node.value) + rest, LookedInto(node.f))
        == Success(Parsed(NodeUnion(node.value.fields, LookedInto(node.f)), rest))
  {
    hide CollectNode, EncodeHeader, NodeUnion;
    var v := node.value;
    AppendAssoc(EncodeFields(v.fields, TYPE_OBJECT), EncodeHeader(FieldId(TYPE_OBJECT, END_MARKER)), rest);
    NodeBack(v.fields, LookedInto(node.f), rest);
  }

  lemma BadNodeFails(node: Field, rest: bytes)
    requires FieldFormed(node) && !NodeFormed(node) && TypeOf(node.value) == TYPE_OBJECT
    ensures CollectNode(Encode(node.value) + rest, LookedInto(node.f)).Failure?
  {
    hide CollectNode, EncodeHeader;
    var v := node.value;
    ObjectIsContainer(v);
    AppendAssoc(EncodeFields(v.fields, TYPE_OBJECT), EncodeHeader(FieldId(TYPE_OBJECT, END_MARKER)), rest);
    NodeFails(v.fields, LookedInto(node.f), rest);
  }

  /** `AffectedNodes` holds well-formed nodes only. */
  ghost predicate NodesFormed(x: Field) {
    IsNodes(x) && x.value.Container? ==> forall node :: node in x.value.fields ==> NodeFormed(node)
  }

  lemma TopFieldFails(x: Field, found: Found, rest: bytes)
    requires FieldFormed(x) && !NodesFormed(x)
    ensures TopField(Encode(x.value) + rest, IdOf(x), found).Failure?
  {
    hide CollectAffected, NodeFormed, EncodeHeader;
    var v := x.value;
    ObjectIsContainer(v);
    AppendAssoc(EncodeFields(v.fields, TYPE_ARRAY), EncodeHeader(FieldId(TYPE_ARRAY, END_MARKER)), rest);
    AffectedFails(v.fields, rest);
  }

  lemma {:induction false} TopFails(meta: seq<Field>, found: Found)
    requires FieldsFormed(meta, TYPE_OBJECT) && !MetaFormed(meta)
    ensures Top(EncodeFields(meta, TYPE_OBJECT), found).Failure?
    decreases meta
  {
    hide Header, EncodeHeader, TopField, FoundIn, WellFormed, NodesFormed, Encode;
    var bad := UnformedField(meta);
    var x, tail := meta[0], EncodeFields(meta[1..], TYPE_OBJECT);
    FieldFront(x, tail, []);
    assert EncodeFields(meta, TYPE_OBJECT) + [] == EncodeFields(meta, TYPE_OBJECT) && tail + [] == tail;
    if NodesFormed(x) {
      FormedFieldBack(x, found, tail);
      assert bad in meta[1..];
      StillUnformed(meta[1..], bad);
      TopFails(meta[1..], FoundIn(x, found));
    } else {
      TopFieldFails(x, found, tail);
    }
  }

  lemma UnformedField(meta: seq<Field>) returns (bad: Field)
    requires FieldsFormed(meta, TYPE_OBJECT) && !MetaFormed(meta)
    ensures bad in meta && !NodesFormed(bad)
  {
    hide NodeFormed, FieldsFormed;
    bad :| bad in meta && !NodesFormed(bad);
  }

  lemma StillUnformed(meta: seq<Field>, bad: Field)
    requires bad in meta && !NodesFormed(bad)
    ensures !MetaFormed(meta)
  {
    hide NodeFormed, FieldsFormed;
  }

  lemma FormedFieldBack(x: Field, found: Found, rest: bytes)
    requires FieldFormed(x) && NodesFormed(x)
    ensures TopField(Encode(x.value) + rest, IdOf(x), found) == Success(Parsed(FoundIn(x, found), rest))
  {
    hide NodeFormed, TopField, FoundIn, Encode;
    TopFieldBack(x, found, rest);
  }

  /**
   * For every list of well-formed fields: the decoder accepts its encoding if and only if it has an
   * `AffectedNodes` field and every such field holds only objects whose new or final fields have
   * accounts of 20 bytes or none.
   */
  lemma AcceptedIff(meta: seq<Field>)
    requires FieldsFormed(meta, TYPE_OBJECT)
    ensures Summary(EncodeFields(meta, TYPE_OBJECT)).Success? <==> HasNodes(meta) && MetaFormed(meta)
  {
    hide Top, HasNodes, NodeFormed;
    if MetaFormed(meta) {
      SummaryOfEncoding(meta);
    } else {
      TopFails(meta, Found({}, None, false));
    }
  }

  // ---------------------------------------------------------------------------------------------
  // What a cut leaves

  lemma {:induction false} FormedPrefix(meta: seq<Field>, j: nat)
    requires FieldsFormed(meta, TYPE_OBJECT) && j <= |meta|
    ensures FieldsFormed(meta[..j], TYPE_OBJECT)
    decreases meta
  {
    hide FieldFormed;
    if j > 0 {
      FormedPrefix(meta[1..], j - 1);
      assert meta[..j][0] == meta[0] && meta[..j][1..] == meta[1..][..j - 1];
    }
  }

  lemma MetaFormedPrefix(meta: seq<Field>, j: nat)
    requires MetaFormed(meta) && j <= |meta|
    ensures MetaFormed(meta[..j])
  {
    hide NodeFormed, FieldsFormed;
    FormedPrefix(meta, j);
    assert forall x :: x in meta[..j] ==> x in meta;
  }

  /** The encoding of a prefix of the fields is a prefix of the encoding. */
  lemma {:induction false} EncodePrefix(meta: seq<Field>, j: nat)
    requires FieldsFormed(meta, TYPE_OBJECT) && j <= |meta|
    ensures FieldsFormed(meta[..j], TYPE_OBJECT)
    ensures EncodeFields(meta[..j], TYPE_OBJECT) <= EncodeFields(meta, TYPE_OBJECT)
    decreases meta
  {
    hide FieldFormed, EncodeField;
    FormedPrefix(meta, j);
    if j > 0 {
      EncodePrefix(meta[1..], j - 1);
      assert meta[..j][0] == meta[0] && meta[..j][1..] == meta[1..][..j - 1];
    }
  }

  /** One field of a cut that still parses: it is the first field, whole. */
  lemma CutField(x: Field, tail: bytes, c: bytes, more: bytes, found: Found) returns (rest: bytes)
    requires FieldFormed(x) && NodesFormed(x) && IdOf(x) != FieldId(TYPE_OBJECT, END_MARKER)
    requires c != [] && c + more == EncodeField(x) + tail && Top(c, found).Success?
    ensures c == EncodeField(x) + rest && rest + more == tail && Top(rest, FoundIn(x, found)).Success?
    ensures |rest| < |c|
  {
    hide Header, TopField, FoundIn, NodesFormed, EncodeHeader, Encode;
    FieldFront(x, tail, []);
    assert EncodeField(x) + tail + [] == EncodeField(x) + tail && tail + [] == tail;
    HeaderExtends(c, more);
    var id := Header(c).value;
    TopFieldExtends(id.rest, id.value, found, more);
    FormedFieldBack(x, found, tail);
    rest := TopField(id.rest, id.value, found).value.rest;
    assert rest + more == tail;
    assert c + more == (EncodeField(x) + rest) + more;
    DropTail(c, EncodeField(x) + rest, more);
  }

  lemma DropTail(a: bytes, b: bytes, more: bytes)
    requires a + more == b + more
    ensures a == b
  {
    assert |a| == |b|;
    AppendInjective(a, more, b, more);
  }

  /** A cut of encoded metadata that still parses ends between two top-level fields. */
  lemma {:induction false} CutBetweenFields(meta: seq<Field>, c: bytes, more: bytes, found: Found) returns (j: nat)
    requires MetaFormed(meta) && c + more == EncodeMeta(meta) && Top(c, found).Success?
    ensures j <= |meta| && MetaFormed(meta[..j]) && c == EncodeMeta(meta[..j])
    decreases meta
  {
    hide Header, TopField, FoundIn, WellFormed, NodeFormed, EncodeField, Top, FieldFormed;
    if c == [] {
      j := 0;
      MetaFormedPrefix(meta, 0);
      assert meta[..0] == [];
    } else {
      var x := meta[0];
      assert x in meta && NodesFormed(x);
      var rest := CutField(x, EncodeFields(meta[1..], TYPE_OBJECT), c, more, found);
      MetaFormedTail(meta);
      var i := CutBetweenFields(meta[1..], rest, more, FoundIn(x, found));
      j := i + 1;
      MetaFormedPrefix(meta, j);
      assert meta[..j][0] == x && meta[..j][1..] == meta[1..][..i];
    }
  }

  lemma MetaFormedTail(meta: seq<Field>)
    requires meta != [] && MetaFormed(meta)
    ensures MetaFormed(meta[1..])
  {
    hide NodeFormed;
    assert forall x :: x in meta[1..] ==> x in meta;
  }

  /** The first `j` fields name every account that all of them name. */
  ghost predicate NamesAll(meta: seq<Field>, j: nat)
    requires j <= |meta|
  {
    forall a :: Named(meta, a) ==> Named(meta[..j], a)
  }

  lemma PrefixNames(meta: seq<Field>, j: nat, a: AccountId)
    requires j <= |meta| && Named(meta[..j], a)
    ensures Named(meta, a)
  {
    hide Affects;
    var x :| x in meta[..j] && IsNodes(x) && x.value.Container? && Affects(x.value.fields, a);
    assert x in meta;
  }

  /** What is found in a cut between fields. */
  lemma CutFinds(meta: seq<Field>, j: nat)
    requires MetaFormed(meta) && j <= |meta| && HasNodes(meta)
    ensures MetaFormed(meta[..j]) && Summary(EncodeMeta(meta)).Success?
    ensures Summary(EncodeMeta(meta[..j])).Success? <==> HasNodes(meta[..j])
    ensures HasNodes(meta[..j]) ==>
              (Summary(EncodeMeta(meta[..j])).value.accounts == Summary(EncodeMeta(meta)).value.accounts <==>
                  NamesAll(meta, j))
  {
    hide Summary, Named, HasNodes, NodeFormed, EncodeMeta;
    MetaFormedPrefix(meta, j);
    SummaryOfEncoding(meta);
    SummaryOfEncoding(meta[..j]);
    if HasNodes(meta[..j]) {
      var cut, whole := Summary(EncodeMeta(meta[..j])).value.accounts, Summary(EncodeMeta(meta)).value.accounts;
      forall a | a in cut ensures a in whole {
        PrefixNames(meta, j, a);
      }
      if NamesAll(meta, j) {
        assert cut == whole;
      } else {
        var a :| Named(meta, a) && !Named(meta[..j], a);
        assert a in whole && a !in cut;
      }
    }
  }

  /** A cut at `k` is refused or loses no account. */
  ghost predicate CutSafe(meta: seq<Field>, k: nat)
    requires MetaFormed(meta) && k <= |EncodeMeta(meta)| && Summary(EncodeMeta(meta)).Success?
  {
    var cut := Summary(EncodeMeta(meta)[..k]);
    cut.Failure? || cut.value.accounts == Summary(EncodeMeta(meta)).value.accounts
  }

  /**
   * Cutting encoded metadata short, anywhere, is an error or leaves the same accounts if and only if
   * every leading run of fields that has an `AffectedNodes` field names all the accounts. With one such
   * field that is always so; with two, the first must name everything.
   */
  lemma NoCutLosesIff(meta: seq<Field>)
    requires MetaFormed(meta) && HasNodes(meta)
    ensures Summary(EncodeMeta(meta)).Success?
    ensures (forall k :: 0 <= k <= |EncodeMeta(meta)| ==> CutSafe(meta, k))
       <==> forall j :: 0 <= j <= |meta| && HasNodes(meta[..j]) ==> NamesAll(meta, j)
  {
    hide Top, NamesAll, HasNodes, NodeFormed, EncodeMeta;
    SummaryOfEncoding(meta);
    if forall k :: 0 <= k <= |EncodeMeta(meta)| ==> CutSafe(meta, k) {
      forall j | 0 <= j <= |meta| && HasNodes(meta[..j]) ensures NamesAll(meta, j) {
        CutAtField(meta, j);
        assert CutSafe(meta, |EncodeMeta(meta[..j])|);
        CutFinds(meta, j);
      }
    }
    if forall j :: 0 <= j <= |meta| && HasNodes(meta[..j]) ==> NamesAll(meta, j) {
      forall k | 0 <= k <= |EncodeMeta(meta)| ensures CutSafe(meta, k) {
        var c, more := EncodeMeta(meta)[..k], EncodeMeta(meta)[k..];
        assert c + more == EncodeMeta(meta);
        if Summary(c).Success? {
          var j := CutBetweenFields(meta, c, more, Found({}, None, false));
          CutFinds(meta, j);
        }
      }
    }
  }

  lemma CutAtField(meta: seq<Field>, j: nat)
    requires MetaFormed(meta) && j <= |meta|
    ensures MetaFormed(meta[..j]) && |EncodeMeta(meta[..j])| <= |EncodeMeta(meta)|
    ensures EncodeMeta(meta)[..|EncodeMeta(meta[..j])|] == EncodeMeta(meta[..j])
  {
    hide NodeFormed;
    MetaFormedPrefix(meta, j);
    EncodePrefix(meta, j);
  }

  // ---------------------------------------------------------------------------------------------
  // One field of affected nodes, and two

  /** A corollary of the condition: with one `AffectedNodes` field no cut loses an account. */
  lemma OneArrayNamesAll(meta: seq<Field>, i: nat)
    requires i < |meta| && forall k :: 0 <= k < |meta| && IsNodes(meta[k]) ==> k == i
    ensures forall j :: 0 <= j <= |meta| && HasNodes(meta[..j]) ==> NamesAll(meta, j)
  {
  }

  /** A modified node whose final fields name one account. */
  function Naming(a: AccountId): Field {
    Field(5, Container(TYPE_OBJECT, [Field(F_FINAL_FIELDS, Container(TYPE_OBJECT, [Field(1, Blob(TYPE_ACCOUNT, a))]))]))
  }

  function ArrayOf(node: Field): Field {
    Field(F_AFFECTED_NODES, Container(TYPE_ARRAY, [node]))
  }

  /** Two arrays, each naming an account of its own. */
  function TwoArrays(a: AccountId, b: AccountId): seq<Field> {
    [ArrayOf(Naming(a)), ArrayOf(Naming(b))]
  }

  lemma OneFormed(x: Field, t: nat)
    requires FieldFormed(x) && IdOf(x) != FieldId(t, END_MARKER)
    ensures FieldsFormed([x], t)
  {
    assert [x][1..] == [];
  }

  lemma ArrayFormed(a: AccountId)
    ensures FieldFormed(ArrayOf(Naming(a))) && NodeFormed(Naming(a))
    ensures IsNodes(ArrayOf(Naming(a)))
  {
    var account := Field(1, Blob(TYPE_ACCOUNT, a));
    OneFormed(account, TYPE_OBJECT);
    var final := Field(F_FINAL_FIELDS, Container(TYPE_OBJECT, [account]));
    OneFormed(final, TYPE_OBJECT);
    OneFormed(Naming(a), TYPE_ARRAY);
  }

  lemma ArrayNames(a: AccountId, b: AccountId)
    ensures Affects([Naming(a)], b) <==> b == a
  {
    var account := Field(1, Blob(TYPE_ACCOUNT, a));
    var final := Field(F_FINAL_FIELDS, Container(TYPE_OBJECT, [account]));
    assert FieldAccounts(account) == {a};
    assert NamedBelow(Naming(a), final, account);
    if Affects([Naming(a)], b) {
      var node, inner, x :| node in [Naming(a)] && NamedBelow(node, inner, x) && b in FieldAccounts(x);
      assert node == Naming(a) && inner == final && x == account;
    }
  }

  /** A concrete loss: metadata with two arrays, cut between them, is accepted without the second's account. */
  lemma TwoArraysLose(a: AccountId, b: AccountId) returns (k: nat)
    requires a != b
    ensures
      var meta := TwoArrays(a, b);
      MetaFormed(meta) && k <= |EncodeMeta(meta)|
      && Summary(EncodeMeta(meta)).Success? && Summary(EncodeMeta(meta)[..k]).Success?
      && b in Summary(EncodeMeta(meta)).value.accounts && b !in Summary(EncodeMeta(meta)[..k]).value.accounts
  {
    hide FieldFormed, NodeFormed, Affects, Summary, EncodeMeta, ArrayOf;
    var meta := TwoArrays(a, b);
    var x, y := ArrayOf(Naming(a)), ArrayOf(Naming(b));
    TwoArraysFormed(a, b);
    CutAtField(meta, 1);
    k := |EncodeMeta(meta[..1])|;
    assert meta[..1] == [x] && x in meta && y in meta && x in meta[..1];
    ArrayFields(a);
    ArrayFields(b);
    SummaryOfEncoding(meta);
    SummaryOfEncoding(meta[..1]);
    ArrayNames(a, b);
    ArrayNames(b, b);
    assert Named(meta, b);
    assert !Named(meta[..1], b);
  }

  lemma ArrayFields(a: AccountId)
    ensures IsNodes(ArrayOf(Naming(a))) && ArrayOf(Naming(a)).value.Container?
    ensures ArrayOf(Naming(a)).value.fields == [Naming(a)]
  {
  }

  lemma TwoArraysFormed(a: AccountId, b: AccountId)
    ensures MetaFormed(TwoArrays(a, b))
  {
    hide FieldFormed, NodeFormed, Naming;
    var x, y := ArrayOf(Naming(a)), ArrayOf(Naming(b));
    ArrayFormed(a);
    ArrayFormed(b);
    OneFormed(y, TYPE_OBJECT);
    assert [x, y][1..] == [y];
  }
}
