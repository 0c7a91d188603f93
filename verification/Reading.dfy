/** Reading from the front of a byte string: each reader returns its value and the bytes behind it. */
module Reading {
  import opened Prelude
  import opened Bytes

  /** A value and the bytes behind it. */
  datatype Parsed<+T> = Parsed(value: T, rest: bytes)

  function ReadExact(b: bytes, n: nat): (r: Result<Parsed<bytes>>)
    ensures r.Success? ==> b == r.value.value + r.value.rest && |r.value.value| == n
  {
    if |b| < n then Failure else Success(Parsed(b[..n], b[n..]))
  }

  function ReadInt(b: bytes, n: nat): (r: Result<Parsed<nat>>)
    ensures r.Success? ==> |r.value.rest| == |b| - n && r.value.rest == b[n..]
    ensures r.Success? ==> r.value.value < Pow(256, n)
  {
    var p :- ReadExact(b, n);
    FromBEBound(p.value);
    Success(Parsed(FromBE(p.value), p.rest))
  }

  function ReadByte(b: bytes): Result<Parsed<byte>> {
    if b == [] then Failure else Success(Parsed(b[0], b[1..]))
  }

  lemma ExactBack(a: bytes, rest: bytes)
    ensures ReadExact(a + rest, |a|) == Success(Parsed(a, rest))
  {
    assert (a + rest)[..|a|] == a && (a + rest)[|a|..] == rest;
  }

  lemma IntBack(n: nat, v: nat, rest: bytes)
    requires v < Pow(256, n)
    ensures ReadInt(ToBE(n, v) + rest, n) == Success(Parsed(v, rest))
  {
    ExactBack(ToBE(n, v), rest);
    FromToBE(n, v);
  }

  lemma ByteBack(x: byte, rest: bytes)
    ensures ReadByte([x] + rest) == Success(Parsed(x, rest))
  {
    assert ([x] + rest)[1..] == rest;
  }

  lemma ExactExtends(b: bytes, n: nat, x: bytes)
    requires ReadExact(b, n).Success?
    ensures ReadExact(b + x, n) == Success(Parsed(ReadExact(b, n).value.value, ReadExact(b, n).value.rest + x))
  {
    assert (b + x)[..n] == b[..n] && (b + x)[n..] == b[n..] + x;
  }

  lemma ByteExtends(b: bytes, x: bytes)
    requires b != []
    ensures ReadByte(b + x) == Success(Parsed(b[0], b[1..] + x))
  {
    assert (b + x)[1..] == b[1..] + x;
  }

  lemma IntExtends(b: bytes, n: nat, x: bytes)
    requires ReadInt(b, n).Success?
    ensures ReadInt(b + x, n) == Success(Parsed(ReadInt(b, n).value.value, ReadInt(b, n).value.rest + x))
  {
    hide ReadExact, FromBE;
    ExactExtends(b, n, x);
  }
}
