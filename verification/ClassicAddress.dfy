/** Classic `r...` addresses: an account id with a version byte and a checksum, in base 58. */
module ClassicAddress {
  import opened Prelude
  import opened MetaFormat
  import opened Base58

  /** Any hash with a 32-byte result. */
  type Sha256 = bytes -> Hash256

  const ADDRESS_VERSION: byte := 0
  const PAYLOAD_LENGTH: nat := 25

  function Checksum(sha256: Sha256, b: bytes): (c: bytes)
    ensures |c| == 4
  {
    sha256(sha256(b))[..4]
  }

  function Payload(sha256: Sha256, id: AccountId): (p: bytes)
    ensures |p| == PAYLOAD_LENGTH
  {
    [ADDRESS_VERSION] + id + Checksum(sha256, [ADDRESS_VERSION] + id)
  }

  /** 25 bytes: a zero, the id, and the first four bytes of the double hash of both. */
  lemma PayloadLayout(sha256: Sha256, id: AccountId)
    ensures
      var p := Payload(sha256, id);
      |p| == 25 && p[0] == 0 && p[1..21] == id && p[21..25] == sha256(sha256([0] + id))[0..4]
  {
  }

  lemma BytesInBase(b: bytes)
    ensures InBase(256, b)
  {
  }

  /** The characters of a payload's digits. */
  function AddressOf(sha256: Sha256, id: AccountId): bytes {
    var payload := Payload(sha256, id);
    ToDigitsInBase(payload);
    Chars(ToDigits(payload))
  }

  lemma ToDigitsInBase(payload: Digits)
    ensures InBase(58, ToDigits(payload))
  {
    EncodeValue(payload);
  }

  lemma FromDigitsInBase(ix: Digits)
    ensures InBase(256, FromDigits(ix))
  {
    DecodeValue(ix);
  }

  function AccountOf(sha256: Sha256, address: bytes): Result<AccountId> {
    var ix :- Indices(address);
    FromDigitsInBase(ix);
    var payload: bytes := FromDigits(ix);
    if |payload| != PAYLOAD_LENGTH || payload[0] != ADDRESS_VERSION then Failure
    else if payload[21..] != Checksum(sha256, payload[..21]) then Failure
    else Success(payload[1..21])
  }

  // ---------------------------------------------------------------------------------------------
  // The loops

  method CountLeading(s: bytes, zero: byte) returns (n: nat)
    ensures n <= |s| && (forall i :: 0 <= i < n ==> s[i] == zero) && (n < |s| ==> s[n] != zero)
  {
    n := 0;
    while n < |s| && s[n] == zero
      invariant n <= |s| && forall i :: 0 <= i < n ==> s[i] == zero
    {
      n := n + 1;
    }
  }

  lemma {:induction false} LeadingIs(ds: Digits, n: nat)
    requires n <= |ds| && (forall i :: 0 <= i < n ==> ds[i] == 0) && (n < |ds| ==> ds[n] != 0)
    ensures Leading(ds) == n
  {
    if n > 0 {
      LeadingIs(ds[1..], n - 1);
    }
  }

  method Reverse(ds: Digits) returns (r: Digits)
    ensures r == Reversed(ds)
  {
    r := [];
    for i := 0 to |ds|
      invariant r == Reversed(ds[..i])
    {
      ReversedSnoc(ds[..i], ds[i]);
      assert ds[..i + 1] == ds[..i] + [ds[i]];
      r := [ds[i]] + r;
    }
    assert ds[..|ds|] == ds;
  }

  lemma {:induction false} ReversedSnoc(ds: Digits, d: nat)
    ensures Reversed(ds + [d]) == [d] + Reversed(ds)
  {
    if ds != [] {
      ReversedSnoc(ds[1..], d);
      assert (ds + [d])[1..] == ds[1..] + [d];
    }
  }

  /** The classic address of an account id. */
  method EncodeAddress(sha256: Sha256, id: AccountId) returns (address: bytes)
    ensures address == AddressOf(sha256, id)
  {
    hide EncodeDigits, Reversed, Chars, Scaled;
    var payload := Payload(sha256, id);
    var digits: Digits := [0];
    assert EncodeDigits(payload[..0]) == [0] by {
      EncodeNothing();
    }
    for i := 0 to |payload|
      invariant digits == EncodeDigits(payload[..i])
    {
      EncodeSnoc(payload[..i], payload[i]);
      assert payload[..i + 1] == payload[..i] + [payload[i]];
      digits := Scale(58, 256, digits, payload[i]);
    }
    assert payload[..|payload|] == payload;
    var n := CountLeading(payload, 0);
    LeadingIs(payload, n);
    var tail := Reverse(digits);
    ToDigitsInBase(payload);
    address := Chars(NoDigits(n) + tail);
  }

  lemma EncodeNothing()
    ensures EncodeDigits([]) == [0]
  {
  }

  lemma EncodeSnoc(payload: Digits, d: nat)
    ensures EncodeDigits(payload + [d]) == Scaled(58, 256, EncodeDigits(payload), d)
  {
    assert (payload + [d])[..|payload|] == payload;
  }

  lemma DecodeSnoc(ix: Digits, d: nat)
    ensures DecodeDigits(ix + [d]) == Scaled(256, 58, DecodeDigits(ix), d)
  {
    assert (ix + [d])[..|ix|] == ix;
  }

  /** The account id of a classic address. */
  method DecodeAddress(sha256: Sha256, address: bytes) returns (r: Result<AccountId>)
    ensures r == AccountOf(sha256, address)
  {
    hide Reversed, Chars, Scaled, DecodeDigits, Leading;
    var digits: Digits := [];
    ghost var ix: Digits := [];
    DecodeNothing();
    for i := 0 to |address|
      invariant Indices(address[..i]) == Success(ix) && digits == DecodeDigits(ix)
    {
      assert address[..i + 1][..i] == address[..i];
      var d := IndexFrom(address[i], 0);
      if d.None? {
        IndicesPrefix(address, i + 1);
        return Failure;
      }
      DecodeSnoc(ix, d.value);
      ix := ix + [d.value];
      digits := Scale(256, 58, digits, d.value);
    }
    assert address[..|address|] == address;
    var n := CountLeading(address, ALPHABET[0]);
    LeadingChars(address, ix, n);
    var tail := Reverse(digits);
    FromDigitsInBase(ix);
    var payload: bytes := NoDigits(n) + tail;
    if |payload| != PAYLOAD_LENGTH || payload[0] != ADDRESS_VERSION {
      return Failure;
    }
    if payload[21..] != Checksum(sha256, payload[..21]) {
      return Failure;
    }
    return Success(payload[1..21]);
  }

  lemma DecodeNothing()
    ensures DecodeDigits([]) == []
  {
  }

  lemma {:induction false} IndicesPrefix(s: bytes, k: nat)
    requires k <= |s| && Indices(s[..k]).Failure?
    ensures Indices(s).Failure?
    decreases |s| - k
  {
    if k == |s| {
      assert s[..k] == s;
    } else {
      assert s[..k + 1][..k] == s[..k];
      IndicesPrefix(s, k + 1);
    }
  }

  /** Leading `r` characters are the leading zero digits. */
  lemma LeadingChars(s: bytes, ix: Digits, n: nat)
    requires Indices(s) == Success(ix)
    requires n <= |s| && (forall i :: 0 <= i < n ==> s[i] == ALPHABET[0]) && (n < |s| ==> s[n] != ALPHABET[0])
    ensures Leading(ix) == n
  {
    CharsOfIndices(s);
    AlphabetDistinct(0);
    LeadingIs(ix, n);
  }

  // ---------------------------------------------------------------------------------------------
  // Mutually inverse, except for one payload

  lemma {:induction false} ZeroValueIff(base: nat, ds: Digits)
    requires base > 0
    ensures Value(base, ds) == 0 <==> ds == NoDigits(|ds|)
  {
    LeadingSplits(ds);
    var n, tail := Leading(ds), ds[Leading(ds)..];
    ValueZeros(base, n, tail);
    if tail == [] {
      assert NoDigits(n) + [] == NoDigits(n);
    } else {
      StrippedPositive(base, tail);
      assert ds[n] != 0;
    }
  }

  /** Every id round-trips exactly when its payload is not all zero. */
  lemma AddressRoundTripIff(sha256: Sha256, id: AccountId)
    ensures AccountOf(sha256, AddressOf(sha256, id)) == Success(id) <==> Payload(sha256, id) != Zeros(PAYLOAD_LENGTH)
  {
    hide ToDigits, FromDigits, Value;
    var payload := Payload(sha256, id);
    BytesInBase(payload);
    ToDigitsInBase(payload);
    IndicesOfChars(ToDigits(payload));
    ZeroValueIff(256, payload);
    if payload == Zeros(PAYLOAD_LENGTH) {
      assert payload == NoDigits(PAYLOAD_LENGTH);
      ZeroPayload(payload);
      TooLong(PAYLOAD_LENGTH + 1);
    } else {
      assert payload != NoDigits(PAYLOAD_LENGTH);
      DigitsBack(payload);
      assert payload[1..21] == id;
      assert payload[..21] == [ADDRESS_VERSION] + id;
    }
  }

  lemma TooLong(n: nat)
    ensures FromDigits(NoDigits(n)) == NoDigits(n)
  {
    var ix := NoDigits(n);
    LeadingOf(n, []);
    assert ix + [] == ix;
    DecodeValue(ix);
    ZeroValueIff(58, ix);
    if DecodeDigits(ix) != [] {
      StrippedPositive(256, Reversed(DecodeDigits(ix)));
    }
  }

  /**
   * An accepted string is exactly the encoding of the id it decodes to, exactly when that id's
   * payload is not all zero.
   */
  lemma AcceptedIsEncodingIff(sha256: Sha256, address: bytes)
    requires AccountOf(sha256, address).Success?
    ensures
      var id := AccountOf(sha256, address).value;
      AddressOf(sha256, id) == address <==> Payload(sha256, id) != Zeros(PAYLOAD_LENGTH)
  {
    hide ToDigits, FromDigits, Value, Indices, Chars;
    var ix := Indices(address).value;
    var id := AccountOf(sha256, address).value;
    CharsOfIndices(address);
    FromDigitsInBase(ix);
    var payload: bytes := FromDigits(ix);
    assert payload == [payload[0]] + payload[1..21] + payload[21..];
    assert payload[..21] == [ADDRESS_VERSION] + id;
    assert payload == Payload(sha256, id);
    ZeroValueIff(256, payload);
    ZeroValueIff(58, ix);
    if Value(58, ix) > 0 {
      DigitsForth(ix);
      assert payload != NoDigits(PAYLOAD_LENGTH);
    } else {
      TooLong(|ix|);
      ZeroPayload(payload);
      ToDigitsInBase(payload);
      assert |Chars(ToDigits(payload))| == |ix| + 1;
    }
  }
}
