/** Decoding the encoding of a metadata tree gives exactly what the rule for affected accounts says. */
module MetaProofs {
  import opened Prelude
  import opened Bytes
  import opened Reading
  import opened MetaFormat
  import opened MetaTree

  ghost predicate IsNodes(x: Field) {
    IdOf(x) == FieldId(15, 8)
  }

  ghost predicate IsIndex(x: Field) {
    IdOf(x) == FieldId(2, 28)
  }

  /** Well-formed fields whose `AffectedNodes` holds well-formed nodes only. */
  ghost predicate MetaFormed(meta: seq<Field>) {
    && FieldsFormed(meta, 14)
    && forall x :: x in meta && IsNodes(x) && x.value.Container? ==> forall node :: node in x.value.fields ==>
        NodeFormed(node)
  }

  /** The top level carries no end marker. */
  ghost function EncodeMeta(meta: seq<Field>): bytes
    requires MetaFormed(meta)
  {
    EncodeFields(meta, 14)
  }

  // ---------------------------------------------------------------------------------------------
  // What the top level finds, field by field

  ghost function FoundIn(x: Field, found: Found): Found
    requires FieldFormed(x)
  {
    if IsNodes(x) && x.value.Container?
        then found.(accounts := found.accounts + AllUnion(x.value.fields), sawNodes := true)
    else if IsIndex(x) && x.value.Fixed? then
      IndexBound(x);
      found.(index := Some(FromBE(x.value.data)))
    else found
  }

  lemma IndexBound(x: Field)
    requires FieldFormed(x) && IsIndex(x) && x.value.Fixed?
    ensures |x.value.data| == 4 && FromBE(x.value.data) < 0x1_0000_0000
  {
    FromBEBound(x.value.data);
    Widths();
  }

  ghost function FoundAll(meta: seq<Field>, found: Found): Found
    requires FieldsFormed(meta, TYPE_OBJECT)
  {
    if meta == [] then found else FoundAll(meta[1..], FoundIn(meta[0], found))
  }

  lemma TopFieldBack(x: Field, found: Found, rest: bytes)
    requires FieldFormed(x)
    requires IsNodes(x) && x.value.Container? ==> forall node :: node in x.value.fields ==> NodeFormed(node)
    ensures TopField(Encode(x.value) + rest, IdOf(x), found) == Success(Parsed(FoundIn(x, found), rest))
  {
    hide ReadExact, SkipValue, CollectAffected, NodeFormed, EncodeHeader, AllUnion;
    var v := x.value;
    if IsNodes(x) {
      ObjectIsContainer(v);
      AppendAssoc(EncodeFields(v.fields, TYPE_ARRAY), EncodeHeader(FieldId(TYPE_ARRAY, END_MARKER)), rest);
      AffectedBack(v.fields, rest);
    } else if IsIndex(x) {
      IndexIsFixed(v);
      IndexBound(x);
      ExactBack(v.data, rest);
    } else {
      SkipBack(v, rest);
    }
  }

  lemma IndexIsFixed(v: Value)
    requires WellFormed(v) && TypeOf(v) == TYPE_UINT32
    ensures v.Fixed? && |v.data| == 4
  {
  }

  lemma {:induction false} TopBack(meta: seq<Field>, found: Found)
    requires MetaFormed(meta)
    ensures Top(EncodeMeta(meta), found) == Success(FoundAll(meta, found))
    decreases meta
  {
    hide Header, EncodeHeader, TopField, FoundIn, WellFormed, NodeFormed;
    if meta != [] {
      var x, tail := meta[0], EncodeFields(meta[1..], TYPE_OBJECT);
      FieldFront(x, tail, []);
      assert EncodeMeta(meta) + [] == EncodeMeta(meta) && tail + [] == tail;
      assert x in meta;
      TopFieldBack(x, found, tail);
      assert MetaFormed(meta[1..]);
      TopBack(meta[1..], FoundIn(x, found));
    }
  }

  // ---------------------------------------------------------------------------------------------
  // What that means

  /** A field of some `AffectedNodes` names the account. */
  ghost predicate Named(meta: seq<Field>, a: AccountId) {
    exists x :: x in meta && IsNodes(x) && x.value.Container? && Affects(x.value.fields, a)
  }

  ghost predicate HasNodes(meta: seq<Field>) {
    exists x :: x in meta && IsNodes(x)
  }

  /** The last `TransactionIndex` counts. */
  ghost function LastIndex(meta: seq<Field>): Option<nat> {
    if meta == [] then None
    else
      var x := meta[|meta| - 1];
      if IsIndex(x) && x.value.Fixed? then Some(FromBE(x.value.data)) else LastIndex(meta[..|meta| - 1])
  }

  lemma {:induction false} FoundAccounts(meta: seq<Field>, found: Found, a: AccountId)
    requires FieldsFormed(meta, TYPE_OBJECT)
    ensures a in FoundAll(meta, found).accounts <==> a in found.accounts || Named(meta, a)
    ensures FoundAll(meta, found).sawNodes <==> found.sawNodes || HasNodes(meta)
    decreases meta
  {
    hide Affects, AllUnion, WellFormed;
    if meta != [] {
      var x, others := meta[0], meta[1..];
      FoundAccounts(others, FoundIn(x, found), a);
      if IsNodes(x) {
        ObjectIsContainer(x.value);
        AllUnionIff(x.value.fields, a);
      }
      if y :| y in others && IsNodes(y) {
        assert y in meta;
      }
      assert forall y :: y in meta <==> y == x || y in others;
    }
  }

  lemma {:induction false} FoundIndex(meta: seq<Field>, found: Found)
    requires FieldsFormed(meta, TYPE_OBJECT)
    ensures FoundAll(meta, found).index == if LastIndex(meta).Some? then LastIndex(meta) else found.index
    decreases meta
  {
    hide WellFormed;
    if meta != [] {
      FoundIndex(meta[1..], FoundIn(meta[0], found));
      LastIndexFront(meta);
    }
  }

  lemma {:induction false} LastIndexFront(meta: seq<Field>)
    requires meta != []
    ensures LastIndex(meta) ==
            if LastIndex(meta[1..]).Some? then LastIndex(meta[1..])
            else if IsIndex(meta[0]) && meta[0].value.Fixed? then Some(FromBE(meta[0].value.data)) else None
  {
    if |meta| > 1 {
      var front := meta[..|meta| - 1];
      LastIndexFront(front);
      assert front[1..] == meta[1..][..|meta| - 2] && meta[1..][|meta| - 2] == meta[|meta| - 1] && front[0] == meta[0];
    } else {
      assert meta[..0] == [] && meta[1..] == [];
    }
  }

  /**
   * For every well-formed metadata tree, of any depth: the decoder accepts its encoding exactly when
   * it has an `AffectedNodes` field, and then finds exactly the accounts the one-level rule names,
   * and the last top-level `TransactionIndex`.
   */
  lemma SummaryOfEncoding(meta: seq<Field>)
    requires MetaFormed(meta)
    ensures Summary(EncodeMeta(meta)).Success? <==> HasNodes(meta)
    ensures HasNodes(meta) ==>
              && (forall a :: a in Summary(EncodeMeta(meta)).value.accounts <==> Named(meta, a))
              && Summary(EncodeMeta(meta)).value.index == LastIndex(meta)
  {
    hide Top, FoundAll, Named, HasNodes, LastIndex;
    var none := Found({}, None, false);
    TopBack(meta, none);
    FoundIndex(meta, none);
    FoundAccounts(meta, none, ZERO_ACCOUNT);
    forall a ensures a in FoundAll(meta, none).accounts <==> Named(meta, a) {
      FoundAccounts(meta, none, a);
    }
  }
}
