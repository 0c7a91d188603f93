/**
 * Parsing metadata is local and prefix-free: what a successful parse consumed decides its result,
 * whatever follows, and nothing shorter parses.
 */
module MetaLocal {
  import opened Prelude
  import opened Reading
  import opened MetaFormat

  lemma VlLenExtends(b: bytes, x: bytes)
    requires VlLen(b).Success?
    ensures VlLen(b + x) == Success(Parsed(VlLen(b).value.value, VlLen(b).value.rest + x))
  {
    ByteExtends(b, x);
    if b[0] > 192 {
      ByteExtends(b[1..], x);
      if b[0] > 240 {
        ByteExtends(b[1..][1..], x);
      }
    }
  }

  lemma HeaderExtends(b: bytes, x: bytes)
    requires Header(b).Success?
    ensures Header(b + x) == Success(Parsed(Header(b).value.value, Header(b).value.rest + x))
  {
    ByteExtends(b, x);
    if b[0] as int / 16 == 0 || b[0] as int % 16 == 0 {
      ByteExtends(b[1..], x);
      if b[0] as int / 16 == 0 && b[0] as int % 16 == 0 {
        ByteExtends(b[1..][1..], x);
      }
    }
  }

  lemma AmountExtends(b: bytes, x: bytes)
    requires ReadAmount(b).Success?
    ensures ReadAmount(b + x) == Success(Parsed(ReadAmount(b).value.value, ReadAmount(b).value.rest + x))
  {
    hide ReadExact;
    assert (b + x)[0] == b[0];
    ExactExtends(b, 8, x);
    var r8 := ReadExact(b, 8).value.rest;
    if IssuedBit(b[0]) {
      ExactExtends(r8, 20, x);
      ExactExtends(ReadExact(r8, 20).value.rest, 20, x);
    } else if MptBit(b[0]) {
      ExactExtends(r8, 1, x);
      ExactExtends(ReadExact(r8, 1).value.rest, 24, x);
    }
  }

  lemma AccountExtends(b: bytes, x: bytes)
    requires ReadAccount(b).Success?
    ensures ReadAccount(b + x) == Success(Parsed(ReadAccount(b).value.value, ReadAccount(b).value.rest + x))
  {
    hide ReadExact, VlLen;
    VlLenExtends(b, x);
    if VlLen(b).value.value == 20 {
      ExactExtends(VlLen(b).value.rest, 20, x);
    }
  }

  lemma IssueExtends(b: bytes, x: bytes)
    requires SkipIssue(b).Success?
    ensures SkipIssue(b + x) == Success(SkipIssue(b).value + x)
  {
    hide ReadExact;
    ExactExtends(b, 20, x);
    var first := ReadExact(b, 20).value;
    if first.value != ZERO_ACCOUNT {
      ExactExtends(first.rest, 20, x);
      var second := ReadExact(first.rest, 20).value;
      if second.value == NO_ACCOUNT {
        ExactExtends(second.rest, 4, x);
      }
    }
  }

  lemma BlobExtends(b: bytes, x: bytes)
    requires SkipBlob(b).Success?
    ensures SkipBlob(b + x) == Success(SkipBlob(b).value + x)
  {
    hide ReadExact, VlLen;
    VlLenExtends(b, x);
    ExactExtends(VlLen(b).value.rest, VlLen(b).value.value, x);
  }

  lemma {:induction false} ValueExtends(b: bytes, t: nat, x: bytes)
    requires SkipValue(b, t).Success?
    ensures SkipValue(b + x, t) == Success(SkipValue(b, t).value + x)
    decreases |b|, 1
  {
    hide ReadExact, ReadAmount, SkipBlob, SkipIssue;
    if Width(t).Some? {
      ExactExtends(b, Width(t).value, x);
    } else if t == TYPE_AMOUNT {
      AmountExtends(b, x);
    } else if IsBlob(t) {
      BlobExtends(b, x);
    } else if t == TYPE_ISSUE {
      IssueExtends(b, x);
    } else {
      FieldsExtend(b, t, x);
    }
  }

  lemma {:induction false} FieldsExtend(b: bytes, t: nat, x: bytes)
    requires SkipFields(b, t).Success?
    ensures SkipFields(b + x, t) == Success(SkipFields(b, t).value + x)
    decreases |b|, 0
  {
    hide Header;
    HeaderExtends(b, x);
    var id := Header(b).value;
    if id.value != FieldId(t, END_MARKER) {
      ValueExtends(id.rest, id.value.t, x);
      FieldsExtend(SkipValue(id.rest, id.value.t).value, t, x);
    }
  }

  lemma InnerFieldExtends(b: bytes, id: FieldId, x: bytes)
    requires InnerField(b, id).Success?
    ensures InnerField(b + x, id) == Success(Parsed(InnerField(b, id).value.value, InnerField(b, id).value.rest + x))
  {
    hide ReadExact, ReadAmount, ReadAccount, SkipValue;
    if id.t == TYPE_ACCOUNT {
      AccountExtends(b, x);
    } else if HasIssuer(id) {
      AmountExtends(b, x);
    } else if id == FieldId(TYPE_UINT192, F_MPT_ISSUANCE_ID) {
      ExactExtends(b, 24, x);
    } else {
      ValueExtends(b, id.t, x);
    }
  }

  lemma {:induction false} InnerExtends(b: bytes, x: bytes)
    requires CollectInner(b).Success?
    ensures CollectInner(b + x) == Success(Parsed(CollectInner(b).value.value, CollectInner(b).value.rest + x))
    decreases |b|
  {
    hide Header, InnerField;
    HeaderExtends(b, x);
    var id := Header(b).value;
    if id.value != FieldId(TYPE_OBJECT, END_MARKER) {
      InnerFieldExtends(id.rest, id.value, x);
      InnerExtends(InnerField(id.rest, id.value).value.rest, x);
    }
  }

  lemma {:induction false} NodeExtends(b: bytes, wanted: nat, x: bytes)
    requires CollectNode(b, wanted).Success?
    ensures CollectNode(b + x, wanted)
        == Success(Parsed(CollectNode(b, wanted).value.value, CollectNode(b, wanted).value.rest + x))
    decreases |b|
  {
    hide Header, CollectInner, SkipValue;
    HeaderExtends(b, x);
    var id := Header(b).value;
    if id.value != FieldId(TYPE_OBJECT, END_MARKER) {
      if id.value == FieldId(TYPE_OBJECT, wanted) {
        InnerExtends(id.rest, x);
      } else {
        ValueExtends(id.rest, id.value.t, x);
      }
      NodeExtends(NodeField(id.rest, id.value, wanted).value.rest, wanted, x);
    }
  }

  lemma {:induction false} AffectedExtends(b: bytes, x: bytes)
    requires CollectAffected(b).Success?
    ensures CollectAffected(b + x) == Success(Parsed(CollectAffected(b).value.value, CollectAffected(b).value.rest + x))
    decreases |b|
  {
    hide Header, CollectNode;
    HeaderExtends(b, x);
    var id := Header(b).value;
    if id.value != FieldId(TYPE_ARRAY, END_MARKER) {
      NodeExtends(id.rest, Wanted(id.value.f), x);
      AffectedExtends(CollectNode(id.rest, Wanted(id.value.f)).value.rest, x);
    }
  }

  // ---------------------------------------------------------------------------------------------
  // Truncation

  /** Cutting a value before its end makes it unreadable. */
  lemma ValueCut(b: bytes, t: nat, k: nat)
    requires SkipValue(b, t).Success? && k < |b| - |SkipValue(b, t).value|
    ensures SkipValue(b[..k], t).Failure?
  {
    hide SkipValue;
    assert b[..k] + b[k..] == b;
    if SkipValue(b[..k], t).Success? {
      ValueExtends(b[..k], t, b[k..]);
    }
  }

  lemma NodeCut(b: bytes, wanted: nat, k: nat)
    requires CollectNode(b, wanted).Success? && k < |b| - |CollectNode(b, wanted).value.rest|
    ensures CollectNode(b[..k], wanted).Failure?
  {
    hide CollectNode;
    assert b[..k] + b[k..] == b;
    if CollectNode(b[..k], wanted).Success? {
      NodeExtends(b[..k], wanted, b[k..]);
    }
  }

  /** No truncation inside `AffectedNodes` yields a smaller account set: it yields an error. */
  lemma AffectedCut(b: bytes, k: nat)
    requires CollectAffected(b).Success? && k < |b| - |CollectAffected(b).value.rest|
    ensures CollectAffected(b[..k]).Failure?
  {
    hide CollectAffected;
    assert b[..k] + b[k..] == b;
    if CollectAffected(b[..k]).Success? {
      AffectedExtends(b[..k], b[k..]);
    }
  }

  lemma TopFieldExtends(b: bytes, id: FieldId, found: Found, x: bytes)
    requires TopField(b, id, found).Success?
    ensures TopField(b + x, id, found)
        == Success(Parsed(TopField(b, id, found).value.value, TopField(b, id, found).value.rest + x))
  {
    hide CollectAffected, SkipValue;
    if id == FieldId(TYPE_ARRAY, F_AFFECTED_NODES) {
      AffectedExtends(b, x);
    } else if id == FieldId(TYPE_UINT32, F_TRANSACTION_INDEX) {
      ExactExtends(b, 4, x);
    } else {
      ValueExtends(b, id.t, x);
    }
  }

  /** How many `AffectedNodes` fields the top level shows. */
  function Arrays(b: bytes, found: Found): nat
    decreases |b|
  {
    if b == [] || Header(b).Failure? || Header(b).value.value == FieldId(TYPE_OBJECT, END_MARKER) then 0
    else
      var id := Header(b).value;
      var next := TopField(id.rest, id.value, found);
      var here := if id.value == FieldId(TYPE_ARRAY, F_AFFECTED_NODES) then 1 else 0;
      if next.Failure? then 0 else here + Arrays(next.value.rest, next.value.value)
  }

  lemma {:induction false} TopGrows(b: bytes, found: Found)
    requires Top(b, found).Success?
    ensures found.accounts <= Top(b, found).value.accounts
    ensures Arrays(b, found) == 0 ==> Top(b, found).value.accounts == found.accounts
    ensures Top(b, found).value.sawNodes <==> found.sawNodes || Arrays(b, found) > 0
    decreases |b|
  {
    hide Header, CollectAffected, SkipValue;
    if b != [] {
      var id := Header(b).value;
      if id.value != FieldId(TYPE_OBJECT, END_MARKER) {
        var next := TopField(id.rest, id.value, found).value;
        TopGrows(next.rest, next.value);
      }
    }
  }

  /** A cut that still parses shows a prefix of the top-level fields. */
  lemma {:induction false} TopCut(b: bytes, k: nat, found: Found)
    requires k <= |b| && Top(b, found).Success? && Top(b[..k], found).Success?
    ensures Arrays(b[..k], found) <= Arrays(b, found)
    ensures Arrays(b[..k], found) == Arrays(b, found) ==>
        Top(b[..k], found).value.accounts == Top(b, found).value.accounts
    decreases |b|
  {
    hide Header, TopField;
    if k == 0 {
      TopGrows(b, found);
    } else {
      var c, x := b[..k], b[k..];
      assert c + x == b;
      HeaderExtends(c, x);
      var id := Header(c).value;
      if id.value != FieldId(TYPE_OBJECT, END_MARKER) {
        TopFieldExtends(id.rest, id.value, found, x);
        var next := TopField(id.rest, id.value, found).value;
        assert (next.rest + x)[..|next.rest|] == next.rest;
        TopCut(next.rest + x, |next.rest|, next.value);
      }
    }
  }

  /** Cutting metadata with one `AffectedNodes` anywhere gives an error or the same accounts, never fewer. */
  lemma SummaryCut(b: bytes, k: nat)
    requires k <= |b| && Summary(b).Success? && Arrays(b, Found({}, None, false)) == 1
    ensures Summary(b[..k]).Failure? || Summary(b[..k]).value.accounts == Summary(b).value.accounts
  {
    hide Top;
    var none := Found({}, None, false);
    if Summary(b[..k]).Success? {
      TopCut(b, k, none);
      TopGrows(b[..k], none);
    }
  }
}
