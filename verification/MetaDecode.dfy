/** The metadata decoder: a cursor that moves over the blob, and the loops that collect accounts. */
module MetaDecode {
  import opened Prelude
  import opened Bytes
  import opened Reading
  import opened Sorting
  import opened MetaFormat

  /** `accounts` is sorted ascending without repetition. */
  datatype MetaSummary = MetaSummary(accounts: seq<AccountId>, index: Option<u32>)

  function AccountKey(a: AccountId): nat {
    FromBE(a)
  }

  /** `accounts` lists `s` in ascending order of its bytes, each once. */
  ghost predicate Lists(accounts: seq<AccountId>, s: set<AccountId>) {
    && (forall a :: a in accounts <==> a in s)
    && forall i, j :: 0 <= i < j < |accounts| ==> LexLess(accounts[i], accounts[j])
  }

  class Cursor {
    const b: bytes
    var i: nat

    ghost predicate Valid()
      reads this
    {
      i <= |b|
    }

    ghost function Rest(): bytes
      reads this
      requires Valid()
    {
      b[i..]
    }

    /** `r` is what a reader returned, and the cursor stands where it left off. */
    ghost predicate Reads<T>(p: Result<Parsed<T>>, r: Result<T>)
      reads this
      requires Valid()
    {
      if p.Failure? then r.Failure? else r == Success(p.value.value) && Rest() == p.value.rest
    }

    ghost predicate Skips(p: Result<bytes>, ok: bool)
      reads this
      requires Valid()
    {
      if p.Failure? then !ok else ok && Rest() == p.value
    }

    constructor (b: bytes)
      ensures Valid() && this.b == b && Rest() == b
    {
      this.b, i := b, 0;
    }

    method Take(n: nat) returns (r: Result<bytes>)
      requires Valid()
      modifies `i
      ensures Valid() && Reads(ReadExact(old(Rest()), n), r)
    {
      if i + n > |b| {
        return Failure;
      }
      assert b[i..][..n] == b[i..i + n] && b[i..][n..] == b[i + n..];
      r := Success(b[i..i + n]);
      i := i + n;
    }

    method TakeByte() returns (r: Result<byte>)
      requires Valid()
      modifies `i
      ensures Valid() && Reads(ReadByte(old(Rest())), r)
    {
      var x := Take(1);
      if x.Failure? {
        return Failure;
      }
      return Success(x.value[0]);
    }

    method Eof() returns (eof: bool)
      requires Valid()
      ensures eof <==> Rest() == []
    {
      return i >= |b|;
    }

    method ReadVlLen() returns (r: Result<nat>)
      requires Valid()
      modifies `i
      ensures Valid() && Reads(VlLen(old(Rest())), r)
    {
      var b1 := TakeByte();
      if b1.Failure? {
        return Failure;
      }
      if b1.value <= 192 {
        return Success(b1.value);
      }
      var b2 := TakeByte();
      if b2.Failure? {
        return Failure;
      }
      if b1.value <= 240 {
        return Success(193 + (b1.value as int - 193) * 256 + b2.value as int);
      }
      var b3 := TakeByte();
      if b3.Failure? {
        return Failure;
      }
      return Success(12_481 + (b1.value as int - 241) * 65_536 + b2.value as int * 256 + b3.value as int);
    }

    method ReadFieldHeader() returns (r: Result<FieldId>)
      requires Valid()
      modifies `i
      ensures Valid() && Reads(Header(old(Rest())), r)
    {
      var b1 := TakeByte();
      if b1.Failure? {
        return Failure;
      }
      var t: nat, f: nat := b1.value as int / 16, b1.value as int % 16;
      if t == 0 {
        var b2 := TakeByte();
        if b2.Failure? {
          return Failure;
        }
        t := b2.value;
      }
      if f == 0 {
        var b3 := TakeByte();
        if b3.Failure? {
          return Failure;
        }
        f := b3.value;
      }
      return Success(FieldId(t, f));
    }

    method ReadAccountField() returns (r: Result<Option<AccountId>>)
      requires Valid()
      modifies `i
      ensures Valid() && Reads(ReadAccount(old(Rest())), r)
    {
      hide VlLen;
      var len := ReadVlLen();
      if len.Failure? || (len.value != 0 && len.value != 20) {
        return Failure;
      }
      if len.value == 0 {
        return Success(None);
      }
      var a := Take(20);
      if a.Failure? {
        return Failure;
      }
      return Success(Some(a.value));
    }

    method ReadAmountField() returns (r: Result<Option<AccountId>>)
      requires Valid()
      modifies `i
      ensures Valid() && Reads(ReadAmount(old(Rest())), r)
    {
      if i >= |b| {
        return Failure;
      }
      var first := b[i];
      var value := Take(8);
      if value.Failure? {
        return Failure;
      }
      if IssuedBit(first) {
        var currency := Take(20);
        if currency.Failure? {
          return Failure;
        }
        var issuer := Take(20);
        if issuer.Failure? {
          return Failure;
        }
        return Success(Nonzero(issuer.value));
      } else if MptBit(first) {
        var sign := Take(1);
        if sign.Failure? {
          return Failure;
        }
        var id := Take(24);
        if id.Failure? {
          return Failure;
        }
        return Success(Nonzero(IssuerOf(id.value)));
      }
      return Success(None);
    }

    method SkipIssueField() returns (ok: bool)
      requires Valid()
      modifies `i
      ensures Valid() && Skips(SkipIssue(old(Rest())), ok)
    {
      var first := Take(20);
      if first.Failure? {
        return false;
      }
      if first.value == ZERO_ACCOUNT {
        return true;
      }
      var second := Take(20);
      if second.Failure? {
        return false;
      }
      if second.value == NO_ACCOUNT {
        var sequence := Take(4);
        return sequence.Success?;
      }
      return true;
    }

    method Skip(t: nat) returns (ok: bool)
      requires Valid()
      modifies `i
      ensures Valid() && Skips(SkipValue(old(Rest()), t), ok)
      decreases |b| - i, 1
    {
      hide VlLen, ReadAmount, SkipIssue, SkipFields;
      if Width(t).Some? {
        var data := Take(Width(t).value);
        ok := data.Success?;
      } else if t == TYPE_AMOUNT {
        var amount := ReadAmountField();
        ok := amount.Success?;
      } else if IsBlob(t) {
        var len := ReadVlLen();
        if len.Failure? {
          return false;
        }
        var data := Take(len.value);
        ok := data.Success?;
      } else if t == TYPE_ISSUE {
        ok := SkipIssueField();
      } else if IsContainer(t) {
        ok := SkipContainer(t);
      } else {
        ok := false;
      }
    }

    /** Fields up to the end marker. */
    method SkipContainer(t: nat) returns (ok: bool)
      requires Valid()
      modifies `i
      ensures Valid() && Skips(SkipFields(old(Rest()), t), ok)
      decreases |b| - i, 0
    {
      hide Header, SkipValue;
      while true
        invariant Valid() && i >= old(i) && SkipFields(Rest(), t) == SkipFields(old(Rest()), t)
        decreases |b| - i
      {
        ghost var before := Rest();
        var id := ReadFieldHeader();
        if id.Failure? {
          return false;
        }
        assert |Rest()| < |before|;
        if id.value == FieldId(t, END_MARKER) {
          return true;
        }
        ok := Skip(id.value.t);
        if !ok {
          return false;
        }
      }
    }

    /** The first level of a node's fields. */
    method CollectInnerFields(out: set<AccountId>) returns (r: Result<set<AccountId>>)
      requires Valid()
      modifies `i
      ensures Valid() && Reads(With(CollectInner(old(Rest())), out), r)
    {
      hide Header, InnerField;
      var accounts := out;
      while true
        invariant Valid() && With(CollectInner(Rest()), accounts) == With(CollectInner(old(Rest())), out)
        decreases |b| - i
      {
        ghost var before := Rest();
        var id := ReadFieldHeader();
        if id.Failure? {
          return Failure;
        }
        assert |Rest()| < |before|;
        if id.value == FieldId(TYPE_OBJECT, END_MARKER) {
          assert accounts + {} == accounts;
          return Success(accounts);
        }
        var found := ReadInnerField(id.value);
        if found.Failure? {
          return Failure;
        }
        Regroup(accounts, found.value, CollectInner(Rest()));
        accounts := accounts + found.value;
      }
    }

    method ReadInnerField(id: FieldId) returns (r: Result<set<AccountId>>)
      requires Valid()
      modifies `i
      ensures Valid() && Reads(InnerField(old(Rest()), id), r)
    {
      hide ReadAccount, ReadAmount, SkipValue;
      if id.t == TYPE_ACCOUNT {
        var a := ReadAccountField();
        return if a.Success? then Success(AsSet(a.value)) else Failure;
      } else if HasIssuer(id) {
        var a := ReadAmountField();
        return if a.Success? then Success(AsSet(a.value)) else Failure;
      } else if id == FieldId(TYPE_UINT192, F_MPT_ISSUANCE_ID) {
        var x := Take(24);
        return if x.Success? then Success(AsSet(Nonzero(IssuerOf(x.value)))) else Failure;
      }
      var ok := Skip(id.t);
      return if ok then Success({}) else Failure;
    }

    /** One node of `AffectedNodes`. */
    method CollectNodeFields(wanted: nat, out: set<AccountId>) returns (r: Result<set<AccountId>>)
      requires Valid()
      modifies `i
      ensures Valid() && Reads(With(CollectNode(old(Rest()), wanted), out), r)
    {
      hide Header, CollectInner, SkipValue;
      var accounts := out;
      while true
        invariant Valid() && With(CollectNode(Rest(), wanted), accounts) == With(CollectNode(old(Rest()), wanted), out)
        decreases |b| - i
      {
        ghost var before := Rest();
        var id := ReadFieldHeader();
        if id.Failure? {
          return Failure;
        }
        assert |Rest()| < |before|;
        if id.value == FieldId(TYPE_OBJECT, END_MARKER) {
          assert accounts + {} == accounts;
          return Success(accounts);
        }
        if id.value == FieldId(TYPE_OBJECT, wanted) {
          ghost var inner := CollectInner(Rest());
          var found := CollectInnerFields(accounts);
          if found.Failure? {
            return Failure;
          }
          Regroup(accounts, inner.value.value, CollectNode(Rest(), wanted));
          accounts := found.value;
        } else {
          var ok := Skip(id.value.t);
          if !ok {
            return Failure;
          }
          Regroup(accounts, {}, CollectNode(Rest(), wanted));
          assert accounts + {} == accounts;
        }
      }
    }

    method CollectAffectedNodes(out: set<AccountId>) returns (r: Result<set<AccountId>>)
      requires Valid()
      modifies `i
      ensures Valid() && Reads(With(CollectAffected(old(Rest())), out), r)
    {
      hide Header, CollectNode;
      var accounts := out;
      while true
        invariant Valid() && With(CollectAffected(Rest()), accounts) == With(CollectAffected(old(Rest())), out)
        decreases |b| - i
      {
        ghost var before := Rest();
        var id := ReadFieldHeader();
        if id.Failure? {
          return Failure;
        }
        assert |Rest()| < |before|;
        if id.value == FieldId(TYPE_ARRAY, END_MARKER) {
          assert accounts + {} == accounts;
          return Success(accounts);
        }
        if id.value.t != TYPE_OBJECT {
          return Failure;
        }
        ghost var node := CollectNode(Rest(), Wanted(id.value.f));
        var found := CollectNodeFields(Wanted(id.value.f), accounts);
        if found.Failure? {
          return Failure;
        }
        Regroup(accounts, node.value.value, CollectAffected(Rest()));
        accounts := found.value;
      }
    }

    /** One top-level field. */
    method ReadTopField(id: FieldId, found: Found) returns (r: Result<Found>)
      requires Valid()
      modifies `i
      ensures Valid() && Reads(TopField(old(Rest()), id, found), r)
    {
      hide CollectAffected, SkipValue;
      if id == FieldId(TYPE_ARRAY, F_AFFECTED_NODES) {
        var accounts := CollectAffectedNodes(found.accounts);
        return if accounts.Success? then Success(found.(accounts := accounts.value, sawNodes := true)) else Failure;
      } else if id == FieldId(TYPE_UINT32, F_TRANSACTION_INDEX) {
        var x := Take(4);
        if x.Failure? {
          return Failure;
        }
        FromBEBound(x.value);
        Widths();
        return Success(found.(index := Some(FromBE(x.value))));
      }
      var ok := Skip(id.t);
      return if ok then Success(found) else Failure;
    }
  }

  /** A collector's result on top of what was there. */
  ghost function With(p: Result<Parsed<set<AccountId>>>, out: set<AccountId>): Result<Parsed<set<AccountId>>> {
    if p.Failure? then Failure else Success(Parsed(out + p.value.value, p.value.rest))
  }

  lemma Regroup(out: set<AccountId>, first: set<AccountId>, others: Result<Parsed<set<AccountId>>>)
    ensures others.Success? ==> out + (first + others.value.value) == (out + first) + others.value.value
  {
  }

  method SortedAccounts(s: set<AccountId>) returns (accounts: seq<AccountId>)
    ensures Lists(accounts, s)
  {
    var left, found: seq<AccountId> := s, [];
    while left != {}
      invariant left <= s && Distinct(found)
      invariant forall a :: a in found <==> a in s && a !in left
      decreases left
    {
      var a :| a in left;
      found := found + [a];
      left := left - {a};
    }
    accounts := SortBy(AccountKey, found);
    SortedIsAscending(found);
  }

  lemma SortedIsAscending(found: seq<AccountId>)
    requires Distinct(found)
    ensures
      var sorted := SortBy(AccountKey, found);
      (forall a :: a in sorted <==> a in found)
      && forall i, j :: 0 <= i < j < |sorted| ==> LexLess(sorted[i], sorted[j])
  {
    var sorted := SortBy(AccountKey, found);
    SortMembers(AccountKey, found);
    SortSorts(AccountKey, found);
    DistinctBag(found, sorted);
    forall i, j | 0 <= i < j < |sorted| ensures LexLess(sorted[i], sorted[j]) {
      LexIsNumeric(sorted[i], sorted[j]);
    }
  }

  /** Decodes one transaction's metadata. It returns what `Summary` says, as a sorted list. */
  method SummarizeMeta(blob: bytes) returns (r: Result<MetaSummary>)
    ensures r.Success? <==> Summary(blob).Success?
    ensures r.Success? ==> Lists(r.value.accounts, Summary(blob).value.accounts)
    ensures r.Success? ==> r.value.index == Summary(blob).value.index
  {
    hide Header, TopField, Lists;
    var c := new Cursor(blob);
    var found := Found({}, None, false);
    while true
      invariant c.Valid() && fresh(c) && Top(c.Rest(), found) == Top(blob, Found({}, None, false))
      decreases |c.b| - c.i
    {
      var eof := c.Eof();
      if eof {
        break;
      }
      ghost var before := c.Rest();
      var id := c.ReadFieldHeader();
      if id.Failure? {
        return Failure;
      }
      assert |c.Rest()| < |before|;
      if id.value == FieldId(TYPE_OBJECT, END_MARKER) {
        break;
      }
      var next := c.ReadTopField(id.value, found);
      if next.Failure? {
        return Failure;
      }
      found := next.value;
    }
    if !found.sawNodes {
      return Failure;
    }
    var sorted := SortedAccounts(found.accounts);
    return Success(MetaSummary(sorted, found.index));
  }
}
