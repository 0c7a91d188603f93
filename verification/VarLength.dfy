/** The variable-length prefix of serialized blobs, as written and as the transaction reader reads it. */
module VarLength {
  import opened Prelude

  /** One byte up to 192, two up to 12480, three above; the first byte is truncated to eight bits. */
  function VlPrefix(len: nat): (p: bytes) {
    if len <= 192 then [len]
    else if len <= 12_480 then
      var n := len - 193;
      [193 + n / 256, n % 256]
    else
      var n := len - 12_481;
      [(241 + n / 65_536) % 256, (n / 256) % 256, n % 256]
  }

  function WriteVl(data: bytes): bytes {
    VlPrefix(|data|) + data
  }

  datatype Vl = Vl(length: nat, width: nat)

  /** The length and the width of its prefix. A first byte of 255 is refused. */
  function ReadVl(b: bytes): (r: Result<Vl>)
    ensures r.Success? ==> 1 <= r.value.width <= 3 && r.value.width <= |b|
  {
    if b == [] then Failure
    else if b[0] <= 192 then Success(Vl(b[0], 1))
    else if b[0] <= 240 then
      if |b| < 2 then Failure else Success(Vl(193 + (b[0] as int - 193) * 256 + b[1] as int, 2))
    else if b[0] <= 254 then
      if |b| < 3 then Failure
      else Success(Vl(12_481 + (b[0] as int - 241) * 65_536 + b[1] as int * 256 + b[2] as int, 3))
    else Failure
  }

  /** How many bytes a prefix takes, by its first byte. */
  function PrefixWidth(first: byte): nat {
    if first <= 192 then 1 else if first <= 240 then 2 else 3
  }

  /** There is a whole prefix at the front. */
  predicate HasPrefix(b: bytes) {
    b != [] && |b| >= PrefixWidth(b[0])
  }

  /** The length that the prefix at the front stands for, 255 as a first byte included. */
  function LengthOf(b: bytes): nat
    requires HasPrefix(b)
  {
    if b[0] <= 192 then b[0]
    else if b[0] <= 240 then 193 + (b[0] as int - 193) * 256 + b[1] as int
    else 12_481 + (b[0] as int - 241) * 65_536 + b[1] as int * 256 + b[2] as int
  }

  /** The longest length below a first byte of 255, and the longest of all. */
  const MAX_VL: nat := 929_984
  const MAX_PREFIX: nat := 995_520

  lemma LengthBound(b: bytes)
    requires HasPrefix(b)
    ensures LengthOf(b) <= MAX_PREFIX
    ensures LengthOf(b) <= MAX_VL <==> b[0] < 255
  {
  }

  lemma LongPrefix(len: nat)
    requires 12_480 < len <= MAX_PREFIX
    ensures VlPrefix(len)[0] > 240 && HasPrefix(VlPrefix(len)) && LengthOf(VlPrefix(len)) == len
  {
    var n := len - 12_481;
    ThreeDigits(n);
    assert VlPrefix(len) == [241 + n / 65_536, (n / 256) % 256, n % 256];
  }

  /** A number below 15 * 65536 in base 256. */
  lemma ThreeDigits(n: nat)
    requires n < 983_040
    ensures n / 65_536 <= 14 && n == (n / 65_536) * 65_536 + ((n / 256) % 256) * 256 + n % 256
  {
    var m := n / 256;
    assert n == m * 256 + n % 256 && m == (m / 256) * 256 + m % 256;
    assert m / 256 == n / 65_536;
  }

  /** A written prefix is whole and stands for its length, whatever follows it, exactly up to `MAX_PREFIX`. */
  lemma PrefixIff(len: nat, rest: bytes)
    ensures
      var p := VlPrefix(len);
      HasPrefix(p + rest) && (PrefixWidth(p[0]) == |p| && LengthOf(p + rest) == len <==> len <= MAX_PREFIX)
  {
    var p := VlPrefix(len);
    LengthBound(p + rest);
    if 12_480 < len <= MAX_PREFIX {
      LongPrefix(len);
      assert (p + rest)[0] == p[0] && (p + rest)[1] == p[1] && (p + rest)[2] == p[2];
    }
  }

  /** The reader, by the prefix at the front: it refuses a first byte of 255. */
  lemma ReadVlIs(b: bytes)
    ensures
      ReadVl(b) == if HasPrefix(b) && b[0] < 255 then Success(Vl(LengthOf(b), PrefixWidth(b[0]))) else Failure
  {
  }

  /** The reader recovers a written length exactly up to `MAX_VL`. */
  lemma VlRoundTripIff(len: nat, rest: bytes)
    ensures ReadVl(VlPrefix(len) + rest) == Success(Vl(len, |VlPrefix(len)|)) <==> len <= MAX_VL
  {
    hide ReadVl, LengthOf, VlPrefix;
    PrefixIff(len, rest);
    ReadVlIs(VlPrefix(len) + rest);
    LengthBound(VlPrefix(len) + rest);
  }

  /** A prefix that is read is the one that would be written: there is only one for each length. */
  lemma ReadVlCanonical(b: bytes)
    requires ReadVl(b).Success?
    ensures
      var vl := ReadVl(b).value;
      vl.length <= MAX_VL && VlPrefix(vl.length) == b[..vl.width]
  {
    var vl := ReadVl(b).value;
    LengthBound(b);
    if b[0] > 240 {
      var n := (b[0] as int - 241) * 65_536 + b[1] as int * 256 + b[2] as int;
      ThreeBytes(b[0] as int - 241, b[1], b[2]);
      assert vl.length == 12_481 + n;
    } else if b[0] > 192 {
      TwoBytes(b[0] as int - 193, b[1]);
    }
  }

  lemma ThreeBytes(x: nat, y: byte, z: byte)
    requires x <= 14
    ensures
      var n := x * 65_536 + y * 256 + z;
      n / 65_536 == x && (n / 256) % 256 == y && n % 256 == z
  {
  }

  lemma TwoBytes(x: nat, y: byte)
    ensures (x * 256 + y) / 256 == x && (x * 256 + y) % 256 == y
  {
  }

  /** A blob and the position behind it. */
  datatype Field = Field(data: bytes, next: nat)

  function ReadField(content: bytes, at: nat): (r: Result<Field>)
    requires at <= |content|
    ensures r.Success? ==> r.value.next <= |content|
  {
    var vl :- ReadVl(content[at..]);
    var start := at + vl.width;
    if start + vl.length > |content| then Failure
    else Success(Field(content[start..start + vl.length], start + vl.length))
  }

  lemma FieldRoundTrip(before: bytes, data: bytes, after: bytes)
    requires |data| <= MAX_VL
    ensures ReadField(before + WriteVl(data) + after, |before|) == Success(Field(data, |before| + |WriteVl(data)|))
  {
    var c := before + WriteVl(data) + after;
    assert c[|before|..] == VlPrefix(|data|) + (data + after);
    VlRoundTripIff(|data|, data + after);
    var start := |before| + |VlPrefix(|data|)|;
    assert c[start..start + |data|] == data;
  }

  /** A blob that is read was written there: behind its own prefix. */
  lemma FieldCanonical(content: bytes, at: nat)
    requires at <= |content| && ReadField(content, at).Success?
    ensures
      var r := ReadField(content, at).value;
      |r.data| <= MAX_VL && at <= r.next <= |content| && content[at..r.next] == WriteVl(r.data)
  {
    hide ReadVl, VlPrefix;
    var b := content[at..];
    ReadVlCanonical(b);
    var vl := ReadVl(b).value;
    var r := ReadField(content, at).value;
    assert content[at..r.next] == content[at..at + vl.width] + r.data;
    assert b[..vl.width] == content[at..at + vl.width];
  }
}
