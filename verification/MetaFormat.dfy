/**
 * How serialized metadata is read: what each step of the decoder consumes and what it collects.
 *
 * Every function takes the unread bytes and returns its result with the bytes behind it.
 */
module MetaFormat {
  import opened Prelude
  import opened Bytes
  import opened Reading

  const TYPE_UINT16: nat := 1
  const TYPE_UINT32: nat := 2
  const TYPE_UINT64: nat := 3
  const TYPE_UINT128: nat := 4
  const TYPE_UINT256: nat := 5
  const TYPE_AMOUNT: nat := 6
  const TYPE_VL: nat := 7
  const TYPE_ACCOUNT: nat := 8
  const TYPE_NUMBER: nat := 9
  const TYPE_INT32: nat := 10
  const TYPE_INT64: nat := 11
  const TYPE_OBJECT: nat := 14
  const TYPE_ARRAY: nat := 15
  const TYPE_UINT8: nat := 16
  const TYPE_UINT160: nat := 17
  const TYPE_VECTOR256: nat := 19
  const TYPE_UINT96: nat := 20
  const TYPE_UINT192: nat := 21
  const TYPE_UINT384: nat := 22
  const TYPE_UINT512: nat := 23
  const TYPE_ISSUE: nat := 24
  const TYPE_CURRENCY: nat := 26

  const END_MARKER: nat := 1
  const F_AFFECTED_NODES: nat := 8
  const F_CREATED_NODE: nat := 3
  const F_FINAL_FIELDS: nat := 7
  const F_NEW_FIELDS: nat := 8
  const F_TAKER_PAYS: nat := 4
  const F_TAKER_GETS: nat := 5
  const F_LOW_LIMIT: nat := 6
  const F_HIGH_LIMIT: nat := 7
  const F_MPT_ISSUANCE_ID: nat := 1
  const F_TRANSACTION_INDEX: nat := 28

  type AccountId = a: bytes | |a| == 20 witness Zeros(20)

  const ZERO_ACCOUNT: AccountId := Zeros(20)
  const NO_ACCOUNT: AccountId := Zeros(19) + [1]

  /** The fixed width of a type, if it has one. */
  function Width(t: nat): Option<nat> {
    if t == TYPE_UINT8 then Some(1)
    else if t == TYPE_UINT16 then Some(2)
    else if t == TYPE_UINT32 || t == TYPE_INT32 then Some(4)
    else if t == TYPE_UINT64 || t == TYPE_INT64 then Some(8)
    else if t == TYPE_NUMBER || t == TYPE_UINT96 then Some(12)
    else if t == TYPE_UINT128 then Some(16)
    else if t == TYPE_UINT160 || t == TYPE_CURRENCY then Some(20)
    else if t == TYPE_UINT192 then Some(24)
    else if t == TYPE_UINT256 then Some(32)
    else if t == TYPE_UINT384 then Some(48)
    else if t == TYPE_UINT512 then Some(64)
    else None
  }

  predicate IsBlob(t: nat) {
    t == TYPE_VL || t == TYPE_VECTOR256 || t == TYPE_ACCOUNT
  }

  predicate IsContainer(t: nat) {
    t == TYPE_OBJECT || t == TYPE_ARRAY
  }

  // ---------------------------------------------------------------------------------------------
  // Lengths and headers

  function VlLen(b: bytes): (r: Result<Parsed<nat>>)
    ensures r.Success? ==> |r.value.rest| < |b|
  {
    var b1 :- ReadByte(b);
    if b1.value <= 192 then Success(Parsed(b1.value, b1.rest))
    else
      var b2 :- ReadByte(b1.rest);
      if b1.value <= 240 then Success(Parsed(193 + (b1.value as int - 193) * 256 + b2.value as int, b2.rest))
      else
        var b3 :- ReadByte(b2.rest);
        Success(Parsed(12_481 + (b1.value as int - 241) * 65_536 + b2.value as int * 256 + b3.value as int, b3.rest))
  }

  /** A field's type and its code within the type. */
  datatype FieldId = FieldId(t: nat, f: nat)

  /** A half of the first byte that is zero is replaced by a byte of its own, type before code. */
  function Header(b: bytes): (r: Result<Parsed<FieldId>>)
    ensures r.Success? ==> |r.value.rest| < |b|
  {
    var b1 :- ReadByte(b);
    var t, f := b1.value as int / 16, b1.value as int % 16;
    if t != 0 && f != 0 then Success(Parsed(FieldId(t, f), b1.rest))
    else
      var b2 :- ReadByte(b1.rest);
      if t != 0 then Success(Parsed(FieldId(t, b2.value), b2.rest))
      else if f != 0 then Success(Parsed(FieldId(b2.value, f), b2.rest))
      else
        var b3 :- ReadByte(b2.rest);
        Success(Parsed(FieldId(b2.value, b3.value), b3.rest))
  }

  // ---------------------------------------------------------------------------------------------
  // Values

  function Nonzero(a: AccountId): Option<AccountId> {
    if a == ZERO_ACCOUNT then None else Some(a)
  }

  /** The account in the last 20 bytes of an issuance id. */
  function IssuerOf(id: bytes): AccountId
    requires |id| == 24
  {
    id[4..24]
  }

  predicate IssuedBit(b: byte) {
    b >= 0x80
  }

  predicate MptBit(b: byte) {
    (b as int / 0x20) % 2 == 1
  }

  /** An amount's issuer, if it has a nonzero one. */
  function ReadAmount(b: bytes): (r: Result<Parsed<Option<AccountId>>>)
    ensures r.Success? ==> |r.value.rest| <= |b|
  {
    if b == [] then Failure
    else if IssuedBit(b[0]) then
      var value :- ReadExact(b, 8);
      var currency :- ReadExact(value.rest, 20);
      var issuer :- ReadExact(currency.rest, 20);
      Success(Parsed(Nonzero(issuer.value), issuer.rest))
    else if MptBit(b[0]) then
      var value :- ReadExact(b, 8);
      var sign :- ReadExact(value.rest, 1);
      var id :- ReadExact(sign.rest, 24);
      Success(Parsed(Nonzero(IssuerOf(id.value)), id.rest))
    else
      var value :- ReadExact(b, 8);
      Success(Parsed(None, value.rest))
  }

  function ReadAccount(b: bytes): (r: Result<Parsed<Option<AccountId>>>)
    ensures r.Success? ==> |r.value.rest| <= |b|
  {
    var len :- VlLen(b);
    if len.value == 0 then Success(Parsed(None, len.rest))
    else if len.value == 20 then
      var a :- ReadExact(len.rest, 20);
      Success(Parsed(Some(a.value), a.rest))
    else Failure
  }

  /** 20 bytes for XRP, 40 for an issued currency, 44 for an MPT. */
  function SkipIssue(b: bytes): (r: Result<bytes>)
    ensures r.Success? ==> |r.value| <= |b|
  {
    var first :- ReadExact(b, 20);
    if first.value == ZERO_ACCOUNT then Success(first.rest)
    else
      var second :- ReadExact(first.rest, 20);
      if second.value != NO_ACCOUNT then Success(second.rest)
      else
        var sequence :- ReadExact(second.rest, 4);
        Success(sequence.rest)
  }

  function SkipBlob(b: bytes): (r: Result<bytes>)
    ensures r.Success? ==> |r.value| <= |b|
  {
    var len :- VlLen(b);
    var data :- ReadExact(len.rest, len.value);
    Success(data.rest)
  }

  /** A value of type `t`; containers are walked to their end marker, unknown types refused. */
  function SkipValue(b: bytes, t: nat): (r: Result<bytes>)
    ensures r.Success? ==> |r.value| <= |b|
    decreases |b|, 1
  {
    if Width(t).Some? then
      var data :- ReadExact(b, Width(t).value);
      Success(data.rest)
    else if t == TYPE_AMOUNT then
      var amount :- ReadAmount(b);
      Success(amount.rest)
    else if IsBlob(t) then SkipBlob(b)
    else if t == TYPE_ISSUE then SkipIssue(b)
    else if IsContainer(t) then SkipFields(b, t)
    else Failure
  }

  /** Fields up to and including the end marker of a container of type `t`. */
  function SkipFields(b: bytes, t: nat): (r: Result<bytes>)
    ensures r.Success? ==> |r.value| < |b|
    decreases |b|, 0
  {
    var id :- Header(b);
    if id.value == FieldId(t, END_MARKER) then Success(id.rest)
    else
      var rest :- SkipValue(id.rest, id.value.t);
      SkipFields(rest, t)
  }

  // ---------------------------------------------------------------------------------------------
  // Collecting accounts

  function AsSet(a: Option<AccountId>): set<AccountId> {
    if a.Some? then {a.value} else {}
  }

  predicate HasIssuer(id: FieldId) {
    id.t == TYPE_AMOUNT && (id.f == F_TAKER_PAYS || id.f == F_TAKER_GETS || id.f == F_LOW_LIMIT || id.f == F_HIGH_LIMIT)
  }

  /** One field of `NewFields` or `FinalFields`. */
  function InnerField(b: bytes, id: FieldId): (r: Result<Parsed<set<AccountId>>>)
    ensures r.Success? ==> |r.value.rest| <= |b|
  {
    if id.t == TYPE_ACCOUNT then
      var a :- ReadAccount(b);
      Success(Parsed(AsSet(a.value), a.rest))
    else if HasIssuer(id) then
      var a :- ReadAmount(b);
      Success(Parsed(AsSet(a.value), a.rest))
    else if id == FieldId(TYPE_UINT192, F_MPT_ISSUANCE_ID) then
      var x :- ReadExact(b, 24);
      Success(Parsed(AsSet(Nonzero(IssuerOf(x.value))), x.rest))
    else
      var rest :- SkipValue(b, id.t);
      Success(Parsed({}, rest))
  }

  function CollectInner(b: bytes): (r: Result<Parsed<set<AccountId>>>)
    ensures r.Success? ==> |r.value.rest| < |b|
    decreases |b|
  {
    var id :- Header(b);
    if id.value == FieldId(TYPE_OBJECT, END_MARKER) then Success(Parsed({}, id.rest))
    else
      var first :- InnerField(id.rest, id.value);
      var others :- CollectInner(first.rest);
      Success(Parsed(first.value + others.value, others.rest))
  }

  /** One field of a node of `AffectedNodes`. */
  function NodeField(b: bytes, id: FieldId, wanted: nat): (r: Result<Parsed<set<AccountId>>>)
    ensures r.Success? ==> |r.value.rest| <= |b|
  {
    if id == FieldId(TYPE_OBJECT, wanted) then CollectInner(b)
    else
      var rest :- SkipValue(b, id.t);
      Success(Parsed({}, rest))
  }

  function CollectNode(b: bytes, wanted: nat): (r: Result<Parsed<set<AccountId>>>)
    ensures r.Success? ==> |r.value.rest| < |b|
    decreases |b|
  {
    var id :- Header(b);
    if id.value == FieldId(TYPE_OBJECT, END_MARKER) then Success(Parsed({}, id.rest))
    else
      var first :- NodeField(id.rest, id.value, wanted);
      var others :- CollectNode(first.rest, wanted);
      Success(Parsed(first.value + others.value, others.rest))
  }

  function Wanted(f: nat): nat {
    if f == F_CREATED_NODE then F_NEW_FIELDS else F_FINAL_FIELDS
  }

  function CollectAffected(b: bytes): (r: Result<Parsed<set<AccountId>>>)
    ensures r.Success? ==> |r.value.rest| < |b|
    decreases |b|
  {
    var id :- Header(b);
    if id.value == FieldId(TYPE_ARRAY, END_MARKER) then Success(Parsed({}, id.rest))
    else if id.value.t != TYPE_OBJECT then Failure
    else
      var first :- CollectNode(id.rest, Wanted(id.value.f));
      var others :- CollectAffected(first.rest);
      Success(Parsed(first.value + others.value, others.rest))
  }

  /** What the top level has shown so far. */
  datatype Found = Found(accounts: set<AccountId>, index: Option<u32>, sawNodes: bool)

  function TopField(b: bytes, id: FieldId, found: Found): (r: Result<Parsed<Found>>)
    ensures r.Success? ==> |r.value.rest| <= |b|
  {
    if id == FieldId(TYPE_ARRAY, F_AFFECTED_NODES) then
      var accounts :- CollectAffected(b);
      Success(Parsed(found.(accounts := found.accounts + accounts.value, sawNodes := true), accounts.rest))
    else if id == FieldId(TYPE_UINT32, F_TRANSACTION_INDEX) then
      var x :- ReadInt(b, 4);
      Widths();
      Success(Parsed(found.(index := Some(x.value)), x.rest))
    else
      var rest :- SkipValue(b, id.t);
      Success(Parsed(found, rest))
  }

  /** The top level ends with the buffer, or at an object end marker. */
  function Top(b: bytes, found: Found): Result<Found>
    decreases |b|
  {
    if b == [] then Success(found)
    else
      var id :- Header(b);
      if id.value == FieldId(TYPE_OBJECT, END_MARKER) then Success(found)
      else
        var next :- TopField(id.rest, id.value, found);
        Top(next.rest, next.value)
  }

  /** The decoder's answer as a set; metadata without `AffectedNodes` is refused. */
  function Summary(b: bytes): Result<Found> {
    var found :- Top(b, Found({}, None, false));
    if found.sawNodes then Success(found) else Failure
  }
}
