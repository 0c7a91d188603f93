/** Finding a transaction's type, sequence and sender without decoding the rest of it. */
module TxFields {
  import opened Prelude
  import opened Bytes
  import opened Reading
  import opened MetaFormat
  import opened MetaDecode
  import opened MetaTree

  datatype Fields = Fields(txType: Option<u16>, sequence: Option<u32>, account: Option<AccountId>)

  const NOTHING: Fields := Fields(None, None, None)

  const F_TRANSACTION_TYPE: nat := 2
  const F_SEQUENCE: nat := 4
  const F_ACCOUNT: nat := 1

  predicate Done(x: Fields) {
    x.txType.Some? && x.sequence.Some? && x.account.Some?
  }

  /** One field; past the account type the search is given up. */
  function TxField(b: bytes, id: FieldId, found: Fields): (r: Result<Parsed<Fields>>)
    ensures r.Success? ==> |r.value.rest| <= |b|
  {
    Widths();
    if id == FieldId(TYPE_UINT16, F_TRANSACTION_TYPE) then
      var x :- ReadInt(b, 2);
      Success(Parsed(found.(txType := Some(x.value)), x.rest))
    else if id == FieldId(TYPE_UINT32, F_SEQUENCE) then
      var x :- ReadInt(b, 4);
      Success(Parsed(found.(sequence := Some(x.value)), x.rest))
    else if id == FieldId(TYPE_ACCOUNT, F_ACCOUNT) then
      var a :- ReadAccount(b);
      Success(Parsed(found.(account := Some(if a.value.Some? then a.value.value else ZERO_ACCOUNT)), a.rest))
    else if id.t > TYPE_ACCOUNT then Failure
    else
      var rest :- SkipValue(b, id.t);
      Success(Parsed(found, rest))
  }

  /** The scan stops as soon as it has all three. */
  function Scanned(b: bytes, found: Fields): Result<Fields>
    decreases |b|
  {
    if Done(found) then Success(found)
    else if b == [] then Failure
    else
      var id :- Header(b);
      var next :- TxField(id.rest, id.value, found);
      Scanned(next.rest, next.value)
  }

  method ReadTxField(c: Cursor, id: FieldId, found: Fields) returns (r: Result<Fields>)
    requires c.Valid()
    modifies c`i
    ensures c.Valid() && c.Reads(TxField(old(c.Rest()), id, found), r)
  {
    hide ReadAccount, SkipValue;
    Widths();
    if id == FieldId(TYPE_UINT16, F_TRANSACTION_TYPE) {
      var x := c.Take(2);
      if x.Failure? {
        return Failure;
      }
      FromBEBound(x.value);
      return Success(found.(txType := Some(FromBE(x.value))));
    } else if id == FieldId(TYPE_UINT32, F_SEQUENCE) {
      var x := c.Take(4);
      if x.Failure? {
        return Failure;
      }
      FromBEBound(x.value);
      return Success(found.(sequence := Some(FromBE(x.value))));
    } else if id == FieldId(TYPE_ACCOUNT, F_ACCOUNT) {
      var a := c.ReadAccountField();
      if a.Failure? {
        return Failure;
      }
      return Success(found.(account := Some(if a.value.Some? then a.value.value else ZERO_ACCOUNT)));
    } else if id.t > TYPE_ACCOUNT {
      return Failure;
    }
    var ok := c.Skip(id.t);
    return if ok then Success(found) else Failure;
  }

  /** One turn of the scan. */
  lemma ScanTurn(b: bytes, found: Fields)
    requires !Done(found)
    ensures b == [] ==> Scanned(b, found).Failure?
    ensures b != [] && Header(b).Failure? ==> Scanned(b, found).Failure?
    ensures b != [] && Header(b).Success? ==>
              var id := Header(b).value;
              var next := TxField(id.rest, id.value, found);
              Scanned(b, found) == if next.Failure? then Failure else Scanned(next.value.rest, next.value.value)
  {
    hide Header, TxField;
  }

  method ParseTxFields(blob: bytes) returns (r: Result<Fields>)
    ensures r == Scanned(blob, NOTHING)
  {
    hide Header, TxField, Scanned, Done;
    var c := new Cursor(blob);
    var found := NOTHING;
    while !Done(found)
      invariant c.Valid() && fresh(c) && Scanned(c.Rest(), found) == Scanned(blob, NOTHING)
      decreases |c.b| - c.i
    {
      ScanTurn(c.Rest(), found);
      var eof := c.Eof();
      if eof {
        return Failure;
      }
      ghost var before := c.Rest();
      var id := c.ReadFieldHeader();
      if id.Failure? {
        return Failure;
      }
      assert |c.Rest()| < |before|;
      var next := ReadTxField(c, id.value, found);
      if next.Failure? {
        return Failure;
      }
      found := next.value;
    }
    ScanDone(c.Rest(), found);
    return Success(found);
  }

  lemma ScanDone(b: bytes, found: Fields)
    requires Done(found)
    ensures Scanned(b, found) == Success(found)
  {
  }

  // ---------------------------------------------------------------------------------------------
  // On a transaction in canonical field order

  function Order(id: FieldId): nat {
    id.t * 256 + id.f
  }

  ghost predicate Canonical(fs: seq<Field>) {
    forall i, j :: 0 <= i < j < |fs| ==> Order(IdOf(fs[i])) < Order(IdOf(fs[j]))
  }

  /** The sender has 20 bytes, or none for the zero account. */
  ghost predicate SenderFormed(fs: seq<Field>) {
    forall x :: x in fs && TypeOf(x.value) == 8 && x.value.Blob? ==>
        |x.value.data| == 0 || |x.value.data| == 20
  }

  /** What one field adds. */
  ghost function Adding(x: Field, found: Fields): Fields
    requires FieldFormed(x)
  {
    if IdOf(x) == FieldId(1, 2) && x.value.Fixed? then
      FixedBound(x.value);
      found.(txType := Some(FromBE(x.value.data)))
    else if IdOf(x) == FieldId(2, 4) && x.value.Fixed? then
      FixedBound(x.value);
      found.(sequence := Some(FromBE(x.value.data)))
    else if IdOf(x) == FieldId(8, 1) && x.value.Blob? then
      found.(account := Some(if |x.value.data| == 20 then x.value.data else Zeros(20)))
    else found
  }

  lemma FixedBound(v: Value)
    requires WellFormed(v) && v.Fixed?
    ensures v.t == 1 ==> |v.data| == 2 && FromBE(v.data) < 0x1_0000
    ensures v.t == 2 ==> |v.data| == 4 && FromBE(v.data) < 0x1_0000_0000
  {
    FromBEBound(v.data);
    Widths();
  }

  ghost function AddingAll(fs: seq<Field>, found: Fields): Fields
    requires forall x :: x in fs ==> FieldFormed(x)
  {
    if fs == [] then found else AddingAll(fs[1..], Adding(fs[0], found))
  }

  lemma FieldShape(v: Value)
    requires WellFormed(v)
    ensures TypeOf(v) == 1 || TypeOf(v) == 2 ==> v.Fixed?
    ensures TypeOf(v) == 8 ==> v.Blob?
  {
  }

  lemma TxFieldBack(x: Field, found: Fields, rest: bytes)
    requires FieldFormed(x) && TypeOf(x.value) <= 8
    requires TypeOf(x.value) == 8 && x.value.Blob? ==> |x.value.data| == 0 || |x.value.data| == 20
    ensures TxField(Encode(x.value) + rest, IdOf(x), found) == Success(Parsed(Adding(x, found), rest))
  {
    hide ReadExact, SkipValue, ReadAmount, VlLen;
    var v := x.value;
    FieldShape(v);
    if IdOf(x) == FieldId(1, 2) || IdOf(x) == FieldId(2, 4) {
      FixedBound(v);
      ExactBack(v.data, rest);
    } else if IdOf(x) == FieldId(8, 1) {
      AccountBack(v, rest);
    } else {
      SkipBack(v, rest);
    }
  }

  /** Fields still to come do not repeat what was found. */
  ghost predicate NotRepeated(fs: seq<Field>, found: Fields) {
    forall x :: x in fs ==>
      && (found.txType.Some? ==> IdOf(x) != FieldId(1, 2))
      && (found.sequence.Some? ==> IdOf(x) != FieldId(2, 4))
      && (found.account.Some? ==> IdOf(x) != FieldId(8, 1))
  }

  /** With nothing left to find, the fields to come add nothing. */
  lemma {:induction false} NothingAdded(fs: seq<Field>, found: Fields)
    requires (forall x :: x in fs ==> FieldFormed(x)) && NotRepeated(fs, found) && Done(found)
    ensures AddingAll(fs, found) == found
  {
    hide FieldFormed;
    if fs != [] {
      assert fs[0] in fs;
      NothingAdded(fs[1..], found);
    }
  }

  /** What is missing is in a field to come, so that field is not past the account type. */
  lemma {:induction false} StillBefore(fs: seq<Field>, found: Fields)
    requires fs != [] && Canonical(fs) && (forall x :: x in fs ==> FieldFormed(x))
    requires !Done(found) && Done(AddingAll(fs, found))
    ensures TypeOf(fs[0].value) <= 8
  {
    if TypeOf(fs[0].value) > 8 {
      forall x | x in fs ensures TypeOf(x.value) > 8 {
        var i :| 0 <= i < |fs| && fs[i] == x;
        assert i > 0 ==> Order(IdOf(fs[0])) < Order(IdOf(fs[i]));
      }
      PastNothing(fs, found);
    }
  }

  lemma {:induction false} PastNothing(fs: seq<Field>, found: Fields)
    requires (forall x :: x in fs ==> FieldFormed(x)) && forall x :: x in fs ==> TypeOf(x.value) > 8
    ensures AddingAll(fs, found) == found
  {
    if fs != [] {
      assert fs[0] in fs;
      PastNothing(fs[1..], found);
    }
  }

  /**
   * In canonical field order, whatever follows: if the fields include the three, the scan finds
   * exactly them and reads no further.
   */
  lemma {:induction false} ScanFinds(fs: seq<Field>, found: Fields, rest: bytes)
    requires FieldsFormed(fs, 14) && (forall x :: x in fs ==> FieldFormed(x))
    requires Canonical(fs) && SenderFormed(fs) && NotRepeated(fs, found) && Done(AddingAll(fs, found))
    ensures Scanned(EncodeFields(fs, 14) + rest, found) == Success(AddingAll(fs, found))
    decreases fs
  {
    hide Header, TxField, WellFormed, Adding;
    if Done(found) {
      NothingAdded(fs, found);
    } else {
      var x, others := fs[0], fs[1..];
      assert x in fs;
      StillBefore(fs, found);
      var tail := EncodeFields(others, 14) + rest;
      FieldFront(x, EncodeFields(others, 14), rest);
      TxFieldBack(x, found, tail);
      FreshNext(fs, found);
      assert Canonical(others) && SenderFormed(others);
      ScanFinds(others, Adding(x, found), rest);
    }
  }

  lemma FreshNext(fs: seq<Field>, found: Fields)
    requires fs != [] && Canonical(fs) && (forall x :: x in fs ==> FieldFormed(x)) && NotRepeated(fs, found)
    ensures NotRepeated(fs[1..], Adding(fs[0], found))
  {
    forall x | x in fs[1..] ensures IdOf(x) != IdOf(fs[0]) {
      var i :| 0 <= i < |fs[1..]| && fs[1..][i] == x;
      assert Order(IdOf(fs[0])) < Order(IdOf(fs[i + 1]));
    }
  }

  /** `x` is the field of this type and code. */
  ghost predicate IsField(x: Field, t: nat, f: nat) {
    IdOf(x) == FieldId(t, f)
  }

  /**
   * For a transaction in canonical order with a type, a sequence and a sender of 20 bytes or none, whatever
   * else it holds and whatever follows: parsing succeeds with just these three.
   */
  lemma ParsesCanonical(fs: seq<Field>, rest: bytes, x: Field, y: Field, z: Field)
    requires FieldsFormed(fs, 14) && (forall w :: w in fs ==> FieldFormed(w)) && Canonical(fs) && SenderFormed(fs)
    requires x in fs && IsField(x, 1, 2) && y in fs && IsField(y, 2, 4) && z in fs && IsField(z, 8, 1)
    ensures x.value.Fixed? && y.value.Fixed? && z.value.Blob?
    ensures
      var r := Scanned(EncodeFields(fs, 14) + rest, NOTHING);
      && r.Success? && r.value.txType.Some? && r.value.txType.value == FromBE(x.value.data)
      && r.value.sequence.Some? && r.value.sequence.value == FromBE(y.value.data)
      && r.value.account == Some(if |z.value.data| == 20 then z.value.data else Zeros(20))
  {
    hide Scanned, WellFormed, Adding;
    FieldShape(x.value);
    FieldShape(y.value);
    FieldShape(z.value);
    var r := AddingAll(fs, NOTHING);
    AddsType(fs, NOTHING, x);
    AddsSequence(fs, NOTHING, y);
    AddsSender(fs, NOTHING, z);
    ScanFinds(fs, NOTHING, rest);
  }

  /** Later fields have other ids. */
  lemma OthersDiffer(fs: seq<Field>, x: Field)
    requires fs != [] && Canonical(fs) && x in fs
    ensures x != fs[0] ==> x in fs[1..]
    ensures forall w :: w in fs[1..] ==> IdOf(w) != IdOf(fs[0])
    ensures Canonical(fs[1..])
  {
    forall w | w in fs[1..] ensures IdOf(w) != IdOf(fs[0]) {
      var i :| 0 <= i < |fs[1..]| && fs[1..][i] == w;
      assert Order(IdOf(fs[0])) < Order(IdOf(fs[i + 1]));
    }
  }

  lemma {:induction false} KeepsType(fs: seq<Field>, found: Fields)
    requires (forall w :: w in fs ==> FieldFormed(w)) && forall w :: w in fs ==> !IsField(w, 1, 2)
    ensures AddingAll(fs, found).txType == found.txType
  {
    hide FieldFormed;
    if fs != [] {
      assert fs[0] in fs;
      KeepsType(fs[1..], Adding(fs[0], found));
    }
  }

  lemma {:induction false} AddsType(fs: seq<Field>, found: Fields, x: Field)
    requires (forall w :: w in fs ==> FieldFormed(w)) && Canonical(fs) && x in fs && IsField(x, 1, 2)
    ensures x.value.Fixed? && AddingAll(fs, found).txType.Some?
    ensures AddingAll(fs, found).txType.value == FromBE(x.value.data)
  {
    FieldShape(x.value);
    OthersDiffer(fs, x);
    if x == fs[0] {
      KeepsType(fs[1..], Adding(fs[0], found));
    } else {
      AddsType(fs[1..], Adding(fs[0], found), x);
    }
  }

  lemma {:induction false} KeepsSequence(fs: seq<Field>, found: Fields)
    requires (forall w :: w in fs ==> FieldFormed(w)) && forall w :: w in fs ==> !IsField(w, 2, 4)
    ensures AddingAll(fs, found).sequence == found.sequence
  {
    hide FieldFormed;
    if fs != [] {
      assert fs[0] in fs;
      KeepsSequence(fs[1..], Adding(fs[0], found));
    }
  }

  lemma {:induction false} AddsSequence(fs: seq<Field>, found: Fields, y: Field)
    requires (forall w :: w in fs ==> FieldFormed(w)) && Canonical(fs) && y in fs && IsField(y, 2, 4)
    ensures y.value.Fixed? && AddingAll(fs, found).sequence.Some?
    ensures AddingAll(fs, found).sequence.value == FromBE(y.value.data)
  {
    FieldShape(y.value);
    OthersDiffer(fs, y);
    if y == fs[0] {
      KeepsSequence(fs[1..], Adding(fs[0], found));
    } else {
      AddsSequence(fs[1..], Adding(fs[0], found), y);
    }
  }

  lemma {:induction false} KeepsSender(fs: seq<Field>, found: Fields)
    requires (forall w :: w in fs ==> FieldFormed(w)) && forall w :: w in fs ==> !IsField(w, 8, 1)
    ensures AddingAll(fs, found).account == found.account
  {
    hide FieldFormed;
    if fs != [] {
      assert fs[0] in fs;
      KeepsSender(fs[1..], Adding(fs[0], found));
    }
  }

  lemma {:induction false} AddsSender(fs: seq<Field>, found: Fields, z: Field)
    requires (forall w :: w in fs ==> FieldFormed(w)) && Canonical(fs) && z in fs && IsField(z, 8, 1)
    ensures z.value.Blob?
    ensures AddingAll(fs, found).account == Some(if |z.value.data| == 20 then z.value.data else Zeros(20))
  {
    FieldShape(z.value);
    OthersDiffer(fs, z);
    if z == fs[0] {
      KeepsSender(fs[1..], Adding(fs[0], found));
    } else {
      AddsSender(fs[1..], Adding(fs[0], found), z);
    }
  }
}
