/** Classic addresses: base58 with a version byte and a checksum, encoded and decoded by carry loops. */
module Base58 {
  import opened Prelude
  import opened Bytes

  /** `rpshnaf39wBUDNEGHJKLM4PQRST7V`, then `WXYZ2bcdeCg65jkm8oFqi1tuvAxyz`, as bytes. */
  const ALPHABET_LOW: bytes := [
    114, 112, 115, 104, 110, 97, 102, 51, 57, 119, 66, 85, 68, 78, 69, 71, 72, 74, 75, 76, 77, 52, 80, 81, 82, 83, 84,
        55, 86]
  const ALPHABET_HIGH: bytes := [
    87, 88, 89, 90, 50, 98, 99, 100, 101, 67, 103, 54, 53, 106, 107, 109, 56, 111, 70, 113, 105, 49, 116, 117, 118, 65,
        120, 121, 122]
  const ALPHABET: bytes := ALPHABET_LOW + ALPHABET_HIGH

  ghost predicate Spelled(b: bytes, s: string) {
    |b| == |s| && forall i :: 0 <= i < |s| ==> b[i] == s[i] as int
  }

  /** The same, as characters. */
  lemma AlphabetIs()
    ensures |ALPHABET| == 58
    ensures Spelled(ALPHABET[..29], "rpshnaf39wBUDNEGHJKLM4PQRST7V")
    ensures Spelled(ALPHABET[29..], "WXYZ2bcdeCg65jkm8oFqi1tuvAxyz")
  {
    LowIs();
    HighIs();
    hide Spelled;
    assert ALPHABET[..29] == ALPHABET_LOW && ALPHABET[29..] == ALPHABET_HIGH;
  }

  lemma LowIs()
    ensures |ALPHABET_LOW| == 29 && Spelled(ALPHABET_LOW, "rpshnaf39wBUDNEGHJKLM4PQRST7V")
  {
  }

  lemma HighIs()
    ensures |ALPHABET_HIGH| == 29 && Spelled(ALPHABET_HIGH, "WXYZ2bcdeCg65jkm8oFqi1tuvAxyz")
  {
  }

  type Digits = seq<nat>

  predicate InBase(base: nat, ds: Digits) {
    forall i :: 0 <= i < |ds| ==> ds[i] < base
  }

  // ---------------------------------------------------------------------------------------------
  // Positional values

  /** The value of digits written most significant first. */
  function Value(base: nat, ds: Digits): nat {
    if ds == [] then 0 else base * Value(base, ds[..|ds| - 1]) + ds[|ds| - 1]
  }

  /** No zero in front. */
  predicate Stripped(ds: Digits) {
    ds == [] || ds[0] != 0
  }

  function Leading(ds: Digits): (n: nat)
    ensures n <= |ds|
  {
    if ds != [] && ds[0] == 0 then 1 + Leading(ds[1..]) else 0
  }

  function NoDigits(n: nat): (z: Digits)
    ensures |z| == n && forall i :: 0 <= i < n ==> z[i] == 0
  {
    seq(n, _ => 0)
  }

  lemma {:induction false} LeadingSplits(ds: Digits)
    ensures ds == NoDigits(Leading(ds)) + ds[Leading(ds)..] && Stripped(ds[Leading(ds)..])
  {
    if ds != [] && ds[0] == 0 {
      LeadingSplits(ds[1..]);
      var n := Leading(ds[1..]);
      assert NoDigits(n + 1) == [0] + NoDigits(n);
      assert ds == [0] + ds[1..];
      assert ds[n + 1..] == ds[1..][n..];
    }
  }

  lemma {:induction false} LeadingOf(n: nat, tail: Digits)
    requires Stripped(tail)
    ensures Leading(NoDigits(n) + tail) == n
  {
    var ds := NoDigits(n) + tail;
    if n > 0 {
      assert ds[1..] == NoDigits(n - 1) + tail;
      LeadingOf(n - 1, tail);
    } else {
      assert ds == tail;
    }
  }

  lemma {:induction false} ValueZeros(base: nat, n: nat, tail: Digits)
    ensures Value(base, NoDigits(n) + tail) == Value(base, tail)
  {
    if tail == [] {
      if n > 0 {
        assert (NoDigits(n) + tail)[..n - 1] == NoDigits(n - 1) + [];
        ValueZeros(base, n - 1, []);
      }
    } else {
      var front := tail[..|tail| - 1];
      assert (NoDigits(n) + tail)[..n + |tail| - 1] == NoDigits(n) + front;
      ValueZeros(base, n, front);
    }
  }

  lemma {:induction false} StrippedPositive(base: nat, ds: Digits)
    requires base > 0 && Stripped(ds) && ds != []
    ensures Value(base, ds) > 0
  {
    if |ds| > 1 {
      StrippedPositive(base, ds[..|ds| - 1]);
    }
  }

  lemma SplitDigit(base: nat, a: nat, x: nat, b: nat, y: nat)
    requires x < base && y < base && base * a + x == base * b + y
    ensures a == b && x == y
  {
    if a < b {
      MulGap(a, b, base);
    } else if b < a {
      MulGap(b, a, base);
    }
  }

  /** Digits without a leading zero are determined by their value. */
  lemma {:induction false} ValueUnique(base: nat, a: Digits, b: Digits)
    requires base > 0 && InBase(base, a) && InBase(base, b) && Stripped(a) && Stripped(b)
    requires Value(base, a) == Value(base, b)
    ensures a == b
  {
    if a == [] {
      if b != [] {
        StrippedPositive(base, b);
      }
    } else if b == [] {
      StrippedPositive(base, a);
    } else {
      var fa, fb := a[..|a| - 1], b[..|b| - 1];
      SplitDigit(base, Value(base, fa), a[|a| - 1], Value(base, fb), b[|b| - 1]);
      ValueUnique(base, fa, fb);
      assert a == fa + [a[|a| - 1]] && b == fb + [b[|b| - 1]];
    }
  }

  // ---------------------------------------------------------------------------------------------
  // Multiply and add, least significant digit first

  /** The two bases of the conversions. */
  predicate IsBase(base: nat) {
    base == 58 || base == 256
  }

  function Quot(v: nat, base: nat): (q: nat)
    requires IsBase(base)
    ensures v > 0 ==> q < v
    ensures v == 0 ==> q == 0
  {
    QuotSmaller(v, base);
    v / base
  }

  function Rem(v: nat, base: nat): (r: nat)
    requires IsBase(base)
    ensures r < base && base * Quot(v, base) + r == v
  {
    QuotSmaller(v, base);
    v % base
  }

  lemma QuotSmaller(v: nat, base: nat)
    requires IsBase(base)
    ensures v / base >= 0 && (v > 0 ==> v / base < v) && (v == 0 ==> v / base == 0)
    ensures base * (v / base) + v % base == v
  {
    if base == 58 {
      assert v / 58 >= 0 && 58 * (v / 58) + v % 58 == v;
    } else {
      assert v / 256 >= 0 && 256 * (v / 256) + v % 256 == v;
    }
  }

  /** The digits of a carry. */
  function Pushed(base: nat, carry: nat): Digits
    requires IsBase(base)
  {
    if carry == 0 then [] else [Rem(carry, base)] + Pushed(base, Quot(carry, base))
  }

  /** `factor` times the digits, plus `carry`. */
  function Scaled(base: nat, factor: nat, ds: Digits, carry: nat): Digits
    requires IsBase(base)
  {
    if ds == [] then Pushed(base, carry)
    else
      var v: nat := ds[0] * factor + carry;
      [Rem(v, base)] + Scaled(base, factor, ds[1..], Quot(v, base))
  }

  /** The carry loops of both conversions. */
  method Scale(base: nat, factor: nat, ds: Digits, add: nat) returns (out: Digits)
    requires IsBase(base)
    ensures out == Scaled(base, factor, ds, add)
  {
    hide Quot, Rem, Scaled, Pushed;
    out := [];
    var carry: nat := add;
    assert ds[0..] == ds;
    for i := 0 to |ds|
      invariant out + Scaled(base, factor, ds[i..], carry) == Scaled(base, factor, ds, add)
    {
      var v: nat := ds[i] * factor + carry;
      ScaledCons(base, factor, ds, i, carry);
      AppendAssoc(out, [Rem(v, base)], Scaled(base, factor, ds[i + 1..], Quot(v, base)));
      out := out + [Rem(v, base)];
      carry := Quot(v, base);
    }
    assert ds[|ds|..] == [];
    ScaledNil(base, factor, carry);
    while carry > 0
      invariant out + Pushed(base, carry) == Scaled(base, factor, ds, add)
    {
      PushedCons(base, carry);
      AppendAssoc(out, [Rem(carry, base)], Pushed(base, Quot(carry, base)));
      out := out + [Rem(carry, base)];
      carry := Quot(carry, base);
    }
    PushedNil(base);
  }

  lemma ScaledCons(base: nat, factor: nat, ds: Digits, i: nat, carry: nat)
    requires IsBase(base) && i < |ds|
    ensures
      var v: nat := ds[i] * factor + carry;
      Scaled(base, factor, ds[i..], carry) == [Rem(v, base)] + Scaled(base, factor, ds[i + 1..], Quot(v, base))
  {
    hide Quot, Rem;
    assert ds[i..][1..] == ds[i + 1..];
  }

  lemma ScaledNil(base: nat, factor: nat, carry: nat)
    requires IsBase(base)
    ensures Scaled(base, factor, [], carry) == Pushed(base, carry)
  {
  }

  lemma PushedCons(base: nat, carry: nat)
    requires IsBase(base) && carry > 0
    ensures Pushed(base, carry) == [Rem(carry, base)] + Pushed(base, Quot(carry, base))
  {
  }

  lemma PushedNil(base: nat)
    requires IsBase(base)
    ensures Pushed(base, 0) == []
  {
  }

  lemma ValueSnoc(base: nat, ds: Digits, d: nat)
    ensures Value(base, ds + [d]) == base * Value(base, ds) + d
  {
    assert (ds + [d])[..|ds|] == ds;
  }

  lemma {:induction false} PushedValue(base: nat, carry: nat)
    requires IsBase(base)
    ensures Value(base, Reversed(Pushed(base, carry))) == carry && InBase(base, Pushed(base, carry))
    ensures Stripped(Reversed(Pushed(base, carry)))
    decreases carry
  {
    hide Quot, Rem;
    if carry > 0 {
      PushedValue(base, Quot(carry, base));
      var tail := Pushed(base, Quot(carry, base));
      assert ([Rem(carry, base)] + tail)[1..] == tail;
      ValueSnoc(base, Reversed(tail), Rem(carry, base));
      if tail == [] {
        assert Quot(carry, base) == 0;
        assert base * 0 == 0;
      }
    }
  }

  /** The loop multiplies and adds, and keeps digits in range. */
  lemma {:induction false} ScaledValue(base: nat, factor: nat, ds: Digits, carry: nat)
    requires IsBase(base)
    ensures Value(base, Reversed(Scaled(base, factor, ds, carry))) == factor * Value(base, Reversed(ds)) + carry
    ensures InBase(base, Scaled(base, factor, ds, carry))
  {
    hide Quot, Rem, Value;
    if ds == [] {
      PushedValue(base, carry);
      ValueEmpty(base, factor);
    } else {
      var v: nat, tail := ds[0] * factor + carry, ds[1..];
      ScaledValue(base, factor, tail, Quot(v, base));
      var up := Scaled(base, factor, tail, Quot(v, base));
      assert ([Rem(v, base)] + up)[1..] == up;
      ValueSnoc(base, Reversed(up), Rem(v, base));
      ValueSnoc(base, Reversed(tail), ds[0]);
      ScaleStep(base, factor, Value(base, Reversed(tail)), ds[0], carry);
    }
  }

  lemma ValueEmpty(base: nat, factor: nat)
    ensures factor * Value(base, Reversed<nat>([])) == 0
  {
  }

  lemma ScaleStep(base: nat, factor: nat, x: nat, d: nat, carry: nat)
    requires IsBase(base)
    ensures
      var v := d * factor + carry;
      base * (factor * x + Quot(v, base)) + Rem(v, base) == factor * (base * x + d) + carry
  {
    hide Quot, Rem;
    var v := d * factor + carry;
    assert base * (factor * x + Quot(v, base)) == base * (factor * x) + base * (Quot(v, base));
    assert base * (factor * x) == factor * (base * x);
    assert factor * (base * x + d) == factor * (base * x) + factor * d;
  }

  lemma {:induction false} ScaledStripped(base: nat, factor: nat, ds: Digits, carry: nat)
    requires IsBase(base) && factor > 0 && (ds == [] || Stripped(Reversed(ds)) || (carry > 0 && ds == [0]))
    ensures Stripped(Reversed(Scaled(base, factor, ds, carry)))
  {
    hide Quot, Rem;
    if |ds| > 1 {
      var tail, up := ds[1..], Quot(ds[0] * factor + carry, base);
      assert Reversed(ds)[0] == Reversed(tail)[0];
      ScaledStripped(base, factor, tail, up);
      ScaledLonger(base, factor, tail, up);
      TopKept(Rem(ds[0] * factor + carry, base), Scaled(base, factor, tail, up));
    } else if |ds| == 1 {
      var v: nat := ds[0] * factor + carry;
      OneScaled(base, factor, ds, carry);
      PushedValue(base, v);
    } else {
      PushedValue(base, carry);
    }
  }

  lemma TopKept(d: nat, up: Digits)
    requires up != [] && Stripped(Reversed(up))
    ensures Stripped(Reversed([d] + up))
  {
    assert ([d] + up)[1..] == up;
  }

  lemma OneScaled(base: nat, factor: nat, ds: Digits, carry: nat)
    requires IsBase(base) && |ds| == 1 && factor > 0 && (ds[0] > 0 || carry > 0)
    ensures Scaled(base, factor, ds, carry) == Pushed(base, ds[0] * factor + carry)
    ensures ds[0] * factor + carry > 0
  {
    hide Quot, Rem;
    if ds[0] > 0 {
      assert ds[0] * factor >= factor;
    }
  }

  lemma {:induction false} ScaledLonger(base: nat, factor: nat, ds: Digits, carry: nat)
    requires IsBase(base)
    ensures |Scaled(base, factor, ds, carry)| >= |ds|
  {
    if ds != [] {
      ScaledLonger(base, factor, ds[1..], Quot(ds[0] * factor + carry, base));
    }
  }

  // ---------------------------------------------------------------------------------------------
  // The two conversions

  function EncodeDigits(payload: Digits): Digits {
    if payload == [] then [0] else Scaled(58, 256, EncodeDigits(payload[..|payload| - 1]), payload[|payload| - 1])
  }

  function DecodeDigits(ix: Digits): Digits {
    if ix == [] then [] else Scaled(256, 58, DecodeDigits(ix[..|ix| - 1]), ix[|ix| - 1])
  }

  lemma {:induction false} EncodeValue(payload: Digits)
    ensures Value(58, Reversed(EncodeDigits(payload))) == Value(256, payload) && InBase(58, EncodeDigits(payload))
    ensures EncodeDigits(payload) == [0] || Stripped(Reversed(EncodeDigits(payload)))
    ensures EncodeDigits(payload) != []
  {
    hide Scaled, Value, Reversed;
    ZeroValue(58);
    ZeroValue(256);
    if payload != [] {
      var front, last := payload[..|payload| - 1], payload[|payload| - 1];
      var ds := EncodeDigits(front);
      EncodeValue(front);
      ScaledValue(58, 256, ds, last);
      ScaledLonger(58, 256, ds, last);
      ValueSnoc(256, front, last);
      assert payload == front + [last];
      if ds == [0] && last == 0 {
        ZeroScaled();
      } else {
        ScaledStripped(58, 256, ds, last);
      }
    }
  }

  lemma ZeroScaled()
    ensures Scaled(58, 256, [0], 0) == [0]
  {
    hide Quot, Rem;
    assert Rem(0, 58) == 0;
  }

  lemma {:induction false} DecodeValue(ix: Digits)
    ensures Value(256, Reversed(DecodeDigits(ix))) == Value(58, ix) && InBase(256, DecodeDigits(ix))
    ensures Stripped(Reversed(DecodeDigits(ix)))
  {
    hide Scaled;
    if ix != [] {
      var front, last := ix[..|ix| - 1], ix[|ix| - 1];
      DecodeValue(front);
      ScaledValue(256, 58, DecodeDigits(front), last);
      ScaledStripped(256, 58, DecodeDigits(front), last);
    }
  }

  /** The base-58 digits of a payload: one zero for each leading zero byte, then its value. */
  function ToDigits(payload: Digits): Digits {
    NoDigits(Leading(payload)) + Reversed(EncodeDigits(payload))
  }

  function FromDigits(ix: Digits): Digits {
    NoDigits(Leading(ix)) + Reversed(DecodeDigits(ix))
  }

  /** Zeros in front, then the stripped digits of the same value: there is one such sequence. */
  lemma SameDigits(base: nat, ds: Digits, tail: Digits)
    requires base > 0 && InBase(base, ds) && InBase(base, tail) && Stripped(tail)
    requires Value(base, tail) == Value(base, ds)
    ensures NoDigits(Leading(ds)) + tail == ds
  {
    LeadingSplits(ds);
    var n := Leading(ds);
    ValueZeros(base, n, ds[n..]);
    ValueUnique(base, tail, ds[n..]);
  }

  /** Decoding undoes encoding for every payload of nonzero value. */
  lemma DigitsBack(payload: Digits)
    requires InBase(256, payload) && Value(256, payload) > 0
    ensures FromDigits(ToDigits(payload)) == payload
  {
    hide EncodeDigits, DecodeDigits, Value, Reversed;
    EncodeValue(payload);
    ZeroValue(58);
    var n, tail := Leading(payload), Reversed(EncodeDigits(payload));
    assert Stripped(tail);
    LeadingOf(n, tail);
    ValueZeros(58, n, tail);
    DecodeValue(NoDigits(n) + tail);
    SameDigits(256, payload, Reversed(DecodeDigits(NoDigits(n) + tail)));
  }

  /** Encoding undoes decoding for every digit string of nonzero value. */
  lemma DigitsForth(ix: Digits)
    requires InBase(58, ix) && Value(58, ix) > 0
    ensures ToDigits(FromDigits(ix)) == ix && Value(256, FromDigits(ix)) > 0
  {
    hide EncodeDigits, DecodeDigits, Value, Reversed;
    DecodeValue(ix);
    var n, tail := Leading(ix), Reversed(DecodeDigits(ix));
    LeadingOf(n, tail);
    ValueZeros(256, n, tail);
    EncodeValue(NoDigits(n) + tail);
    ZeroValue(58);
    SameDigits(58, ix, Reversed(EncodeDigits(NoDigits(n) + tail)));
  }

  lemma ZeroValue(base: nat)
    ensures Reversed<nat>([0]) == [0] && Value(base, [0]) == 0 && Value(base, []) == 0
  {
    assert Reversed<nat>([0]) == [0];
    assert Value(base, [0]) == base * Value(base, []) + 0;
  }

  /** A payload of value zero gets one digit too many. */
  lemma ZeroPayload(payload: Digits)
    requires Value(256, payload) == 0 && InBase(256, payload)
    ensures ToDigits(payload) == NoDigits(|payload| + 1)
  {
    hide EncodeDigits, Value, Reversed;
    EncodeValue(payload);
    ZeroValue(58);
    ZeroValue(256);
    if EncodeDigits(payload) != [0] {
      StrippedPositive(58, Reversed(EncodeDigits(payload)));
    }
    SameDigits(256, payload, []);
    var n := Leading(payload);
    assert NoDigits(n) + [] == NoDigits(n);
    assert NoDigits(n) + [0] == NoDigits(n + 1);
  }

  // ---------------------------------------------------------------------------------------------
  // Characters

  /** The first position of a character in the alphabet. */
  function IndexFrom(c: byte, i: nat): Option<nat>
    requires i <= |ALPHABET|
    decreases |ALPHABET| - i
  {
    if i == |ALPHABET| then None else if ALPHABET[i] == c then Some(i) else IndexFrom(c, i + 1)
  }

  lemma {:induction false} IndexIs(c: byte, i: nat)
    requires i <= |ALPHABET|
    ensures IndexFrom(c, i).Some? ==> IndexFrom(c, i).value < 58 && ALPHABET[IndexFrom(c, i).value] == c
    ensures forall d :: i <= d < 58 && ALPHABET[d] == c ==> IndexFrom(c, i) == Some(d)
    decreases |ALPHABET| - i
  {
    if i < |ALPHABET| {
      IndexIs(c, i + 1);
      if ALPHABET[i] == c {
        AlphabetDistinct(i);
      }
    }
  }

  lemma LowDistinct()
    ensures forall i, d :: 0 <= i < d < 29 ==> ALPHABET_LOW[i] != ALPHABET_LOW[d]
  {
  }

  lemma HighDistinct()
    ensures forall i, d :: 0 <= i < d < 29 ==> ALPHABET_HIGH[i] != ALPHABET_HIGH[d]
  {
  }

  lemma CrossDistinct(i: nat)
    requires i < 29
    ensures forall d :: 0 <= d < 29 ==> ALPHABET_LOW[i] != ALPHABET_HIGH[d]
  {
  }

  lemma AlphabetDistinct(i: nat)
    requires i < |ALPHABET|
    ensures forall d :: 0 <= d < 58 && ALPHABET[d] == ALPHABET[i] ==> d == i
  {
    forall d | 0 <= d < 58 && ALPHABET[d] == ALPHABET[i] ensures d == i {
      if i < 29 && d < 29 {
        LowDistinct();
      } else if i >= 29 && d >= 29 {
        HighDistinct();
      } else {
        CrossDistinct(if i < 29 then i else d);
      }
    }
  }

  /** The digits of a string, unless it has a character outside the alphabet. */
  function Indices(s: bytes): Result<Digits> {
    if s == [] then Success([])
    else
      var front :- Indices(s[..|s| - 1]);
      match IndexFrom(s[|s| - 1], 0)
      case None => Failure
      case Some(d) => Success(front + [d])
  }

  function Chars(ds: Digits): (s: bytes)
    requires InBase(58, ds)
    ensures |s| == |ds| && forall i :: 0 <= i < |ds| ==> s[i] == ALPHABET[ds[i]]
  {
    seq(|ds|, i requires 0 <= i < |ds| => ALPHABET[ds[i]])
  }

  lemma {:induction false} IndicesOfChars(ds: Digits)
    requires InBase(58, ds)
    ensures Indices(Chars(ds)) == Success(ds)
  {
    if ds != [] {
      var front, last := ds[..|ds| - 1], ds[|ds| - 1];
      IndicesOfChars(front);
      assert Chars(ds) == Chars(front) + [ALPHABET[last]];
      IndexIs(ALPHABET[last], 0);
      IndicesSnoc(Chars(front), ALPHABET[last], front, last);
      assert front + [last] == ds;
    }
  }

  lemma IndicesSnoc(s: bytes, c: byte, front: Digits, d: nat)
    requires Indices(s) == Success(front) && IndexFrom(c, 0) == Some(d)
    ensures Indices(s + [c]) == Success(front + [d])
  {
    hide IndexFrom;
    assert (s + [c])[..|s|] == s;
  }

  lemma {:induction false} CharsOfIndices(s: bytes)
    requires Indices(s).Success?
    ensures InBase(58, Indices(s).value) && Chars(Indices(s).value) == s
  {
    if s != [] {
      CharsOfIndices(s[..|s| - 1]);
      IndexIs(s[|s| - 1], 0);
    }
  }
}
