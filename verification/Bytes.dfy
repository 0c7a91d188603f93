/** Big-endian integers and the order of byte strings. */
module Bytes {
  import opened Prelude

  function Pow(b: nat, n: nat): (p: nat)
    ensures b > 0 ==> p > 0
  {
    if n == 0 then 1 else b * Pow(b, n - 1)
  }

  /**
   * The low `n` bytes of `v`, most significant first. Higher bytes are dropped, as an `as u16`
   * cast followed by `to_be_bytes` drops them.
   */
  function ToBE(n: nat, v: nat): (s: bytes)
    ensures |s| == n
  {
    if n == 0 then [] else ToBE(n - 1, v / 256) + [v % 256]
  }

  /** The value of a big-endian byte string. */
  function FromBE(s: bytes): (v: nat) {
    if s == [] then 0 else FromBE(s[..|s| - 1]) * 256 + s[|s| - 1]
  }

  lemma {:induction false} FromBEBound(s: bytes)
    ensures FromBE(s) < Pow(256, |s|)
  {
    if s != [] {
      FromBEBound(s[..|s| - 1]);
    }
  }

  lemma MulGap(a: nat, b: nat, p: nat)
    requires a < b
    ensures a * p + p <= b * p
  {
    assert (b - a - 1) * p >= 0;
    assert b * p == a * p + p + (b - a - 1) * p;
  }

  lemma DivMod(a: nat, d: nat, r: nat)
    requires d > 0 && r < d
    ensures (a * d + r) / d == a
    ensures (a * d + r) % d == r
  {
    var x := a * d + r;
    var q, m := x / d, x % d;
    assert x == q * d + m;
    if q < a {
      MulGap(q, a, d);
    } else if a < q {
      MulGap(a, q, d);
    }
  }

  lemma {:induction false} FromToBE(n: nat, v: nat)
    requires v < Pow(256, n)
    ensures FromBE(ToBE(n, v)) == v
  {
    if n > 0 {
      assert v / 256 < Pow(256, n - 1);
      FromToBE(n - 1, v / 256);
      var s := ToBE(n, v);
      assert s[..|s| - 1] == ToBE(n - 1, v / 256);
    }
  }

  /** Writing a value read from big-endian bytes gives the bytes back. */
  lemma {:induction false} ToFromBE(s: bytes)
    ensures ToBE(|s|, FromBE(s)) == s
  {
    if s != [] {
      ToFromBE(s[..|s| - 1]);
      DivMod(FromBE(s[..|s| - 1]), 256, s[|s| - 1]);
    }
  }

  lemma ModMul(v: nat, p: nat)
    requires p > 0
    ensures v % (256 * p) == (v / 256 % p) * 256 + v % 256
    ensures (v % (256 * p)) / 256 == v / 256 % p
  {
    var q, r := v / 256, v % 256;
    var a, b := q / p, q % p;
    assert v == 256 * q + r && q == p * a + b;
    var low := b * 256 + r;
    assert v == a * (256 * p) + low;
    MulGap(b, p, 256);
    DivMod(a, 256 * p, low);
    DivMod(b, 256, r);
  }

  /** `ToBE` sees only the low `n` bytes of its argument. */
  lemma {:induction false} LowBytes(n: nat, v: nat)
    ensures FromBE(ToBE(n, v)) == v % Pow(256, n)
  {
    if n > 0 {
      LowBytes(n - 1, v / 256);
      ModMul(v, Pow(256, n - 1));
      var s := ToBE(n, v);
      assert s[..|s| - 1] == ToBE(n - 1, v / 256);
    }
  }

  /** The values of the widths the formats use. */
  lemma Widths()
    ensures Pow(256, 1) == 0x100
    ensures Pow(256, 2) == 0x1_0000
    ensures Pow(256, 4) == 0x1_0000_0000
    ensures Pow(256, 6) == 0x1_0000_0000_0000
    ensures Pow(256, 8) == 0x1_0000_0000_0000_0000
  {
    assert Pow(256, 3) == 256 * Pow(256, 2);
    assert Pow(256, 5) == 256 * Pow(256, 4);
    assert Pow(256, 7) == 256 * Pow(256, 6);
  }

  /** Byte-wise lexicographic order, as `<[u8; N] as Ord>::cmp` defines it. */
  predicate LexLess(a: bytes, b: bytes)
    requires |a| == |b|
  {
    a != [] && (a[0] < b[0] || (a[0] == b[0] && LexLess(a[1..], b[1..])))
  }

  lemma {:induction false} FromBEHead(s: bytes)
    requires s != []
    ensures FromBE(s) == s[0] * Pow(256, |s| - 1) + FromBE(s[1..])
  {
    hide Pow;
    if |s| > 1 {
      var front, tail := s[..|s| - 1], s[1..];
      FromBEHead(front);
      assert front[1..] == tail[..|tail| - 1];
      PowStep(|s| - 2);
      HeadStep(s[0], Pow(256, |s| - 2), FromBE(front[1..]), s[|s| - 1]);
    } else {
      PowNone();
      assert s[..0] == [] && s[1..] == [];
      assert s[0] * 1 == s[0] as int;
    }
  }

  lemma PowStep(n: nat)
    ensures Pow(256, n + 1) == 256 * Pow(256, n)
  {
  }

  lemma PowNone()
    ensures Pow(256, 0) == 1
  {
  }

  lemma HeadStep(h: nat, p: nat, rest: nat, last: nat)
    ensures (h * p + rest) * 256 + last == h * (256 * p) + (rest * 256 + last)
  {
    assert (h * p) * 256 == h * (256 * p);
  }

  /** On equally long strings the lexicographic order is the order of the numbers they spell. */
  lemma {:induction false} LexIsNumeric(a: bytes, b: bytes)
    requires |a| == |b|
    ensures LexLess(a, b) <==> FromBE(a) < FromBE(b)
    ensures a == b <==> FromBE(a) == FromBE(b)
  {
    if a != [] {
      FromBEHead(a);
      FromBEHead(b);
      LexIsNumeric(a[1..], b[1..]);
      FromBEBound(a[1..]);
      FromBEBound(b[1..]);
      var p := Pow(256, |a| - 1);
      if a[0] < b[0] {
        MulGap(a[0], b[0], p);
      } else if b[0] < a[0] {
        MulGap(b[0], a[0], p);
      } else {
        assert a == [a[0]] + a[1..] && b == [b[0]] + b[1..];
      }
    }
  }
}
