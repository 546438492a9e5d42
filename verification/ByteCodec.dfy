/** Bytes, the UTF-8 form of strings and big-endian integers: what `as_bytes` and
    `to_be_bytes` yield in the code this project models. */
module ByteCodec {
  import opened ModArith

  newtype byte = x: int | 0 <= x < 256

  // ---- UTF-8 ----

  function Utf8Char(c: char): (bs: seq<byte>)
    ensures 1 <= |bs| <= 4
  {
    var v := c as int;
    if v < 0x80 then [v as byte]
    else if v < 0x800 then [(0xC0 + v / 64) as byte, (0x80 + v % 64) as byte]
    else if v < 0x10000 then [(0xE0 + v / 4096) as byte, (0x80 + v / 64 % 64) as byte, (0x80 + v % 64) as byte]
    else
      [(0xF0 + v / 262144) as byte, (0x80 + v / 4096 % 64) as byte,
       (0x80 + v / 64 % 64) as byte, (0x80 + v % 64) as byte]
  }

  function Utf8(s: string): (bs: seq<byte>)
  {
    if s == "" then [] else Utf8Char(s[0]) + Utf8(s[1..])
  }

  lemma {:induction false} Utf8Length(s: string)
    ensures |Utf8(s)| <= 4 * |s|
  {
    if s != "" {
      Utf8Length(s[1..]);
    }
  }

  /** The first byte of a character tells its length, so no character is a prefix of another. */
  lemma Utf8CharPrefixFree(c: char, d: char, x: seq<byte>, y: seq<byte>)
    requires Utf8Char(c) + x == Utf8Char(d) + y
    ensures c == d && x == y
  {
    var cs, ds := Utf8Char(c), Utf8Char(d);
    assert cs[0] == (cs + x)[0] == (ds + y)[0] == ds[0];
    assert |cs| == |ds|;
    assert cs == (cs + x)[..|cs|] == (ds + y)[..|ds|] == ds;
    assert x == (cs + x)[|cs|..] == (ds + y)[|ds|..] == y;
    Utf8CharRoundTrip(c);
    Utf8CharRoundTrip(d);
    assert c as int == d as int;
  }

  /** The code point a character's bytes stand for. */
  function Utf8Value(bs: seq<byte>): int
    requires 1 <= |bs| <= 4
  {
    if |bs| == 1 then bs[0] as int
    else if |bs| == 2 then (bs[0] as int - 0xC0) * 64 + (bs[1] as int - 0x80)
    else if |bs| == 3 then (bs[0] as int - 0xE0) * 4096 + (bs[1] as int - 0x80) * 64 + (bs[2] as int - 0x80)
    else
      (bs[0] as int - 0xF0) * 262144 + (bs[1] as int - 0x80) * 4096
      + (bs[2] as int - 0x80) * 64 + (bs[3] as int - 0x80)
  }

  lemma Utf8CharRoundTrip(c: char)
    ensures Utf8Value(Utf8Char(c)) == c as int
  {
    var v := c as int;
    assert v / 64 / 64 == v / 4096 && v / 4096 / 64 == v / 262144;
  }

  lemma {:induction false} Utf8Injective(s: string, t: string)
    requires Utf8(s) == Utf8(t)
    ensures s == t
  {
    if s != "" && t != "" {
      Utf8CharPrefixFree(s[0], t[0], Utf8(s[1..]), Utf8(t[1..]));
      Utf8Injective(s[1..], t[1..]);
      assert s == [s[0]] + s[1..] && t == [t[0]] + t[1..];
    }
  }

  // ---- Big-endian integers ----

  function Pow256(k: nat): (p: nat)
    ensures p >= 1
  {
    if k == 0 then 1 else 256 * Pow256(k - 1)
  }

  /** The low `k` bytes of `n`, most significant first. */
  function BigEndian(n: nat, k: nat): (bs: seq<byte>)
    ensures |bs| == k
  {
    if k == 0 then [] else BigEndian(n / 256, k - 1) + [(n % 256) as byte]
  }

  function FromBigEndian(bs: seq<byte>): (n: nat)
  {
    if bs == [] then 0 else 256 * FromBigEndian(bs[..|bs| - 1]) + bs[|bs| - 1] as int
  }

  lemma {:induction false} BigEndianRoundTrip(n: nat, k: nat)
    requires n < Pow256(k)
    ensures FromBigEndian(BigEndian(n, k)) == n
  {
    if k > 0 {
      BigEndianRoundTrip(n / 256, k - 1);
      assert BigEndian(n, k)[..k - 1] == BigEndian(n / 256, k - 1);
    }
  }

  lemma {:induction false} FromBigEndianRoundTrip(bs: seq<byte>)
    ensures FromBigEndian(bs) < Pow256(|bs|)
    ensures BigEndian(FromBigEndian(bs), |bs|) == bs
  {
    if bs != [] {
      var init := bs[..|bs| - 1];
      FromBigEndianRoundTrip(init);
      var n := FromBigEndian(bs);
      assert n / 256 == FromBigEndian(init) && n % 256 == bs[|bs| - 1] as int;
      assert bs == init + [bs[|bs| - 1]];
    }
  }

  lemma BigEndianInjective(m: nat, n: nat, k: nat)
    requires m < Pow256(k) && n < Pow256(k) && BigEndian(m, k) == BigEndian(n, k)
    ensures m == n
  {
    BigEndianRoundTrip(m, k);
    BigEndianRoundTrip(n, k);
  }

  lemma Pow256Values()
    ensures Pow256(8) == 0x1_0000_0000_0000_0000
    ensures Pow256(16) == 0x1_0000_0000_0000_0000_0000_0000_0000_0000
  {
    assert Pow256(4) == 0x1_0000_0000;
    assert Pow256(8) == 0x1_0000_0000_0000_0000;
    assert Pow256(12) == 0x1_0000_0000_0000_0000_0000_0000;
  }

  // ---- The standard forms, bit by bit ----

  /** The forms of section 3 of RFC 3629: lead byte 0xxxxxxx, 110xxxxx, 1110xxxx or
      11110xxx by range, then bytes 10xxxxxx, the x being the code point's bits. */
  lemma Utf8CharIsStandard(c: char)
    ensures var v, bs := c as int, Utf8Char(c);
            if v < 0x80 then bs == [v as byte]
            else if v < 0x800 then
              |bs| == 2 && bs[0] / 32 == 6 && bs[1] / 64 == 2 && v == (bs[0] as int % 32) * 64 + bs[1] as int % 64
            else if v < 0x10000 then
              |bs| == 3 && bs[0] / 16 == 14 && bs[1] / 64 == 2 && bs[2] / 64 == 2
              && v == (bs[0] as int % 16) * 4096 + (bs[1] as int % 64) * 64 + bs[2] as int % 64
            else
              |bs| == 4 && bs[0] / 8 == 30 && bs[1] / 64 == 2 && bs[2] / 64 == 2 && bs[3] / 64 == 2
              && v == (bs[0] as int % 8) * 262144 + (bs[1] as int % 64) * 4096 + (bs[2] as int % 64) * 64 + bs[3] as int % 64
  {
    var v := c as int;
    if 0x80 <= v < 0x800 {
      LeadBits(v / 64, 0xC0, 32);
      TailBits(v);
    } else if 0x800 <= v < 0x10000 {
      LeadBits(v / 4096, 0xE0, 16);
      TailBits(v / 64);
      TailBits(v);
    } else if 0x10000 <= v {
      LeadBits(v / 262144, 0xF0, 8);
      TailBits(v / 4096);
      TailBits(v / 64);
      TailBits(v);
    }
    assert v / 64 / 64 == v / 4096 && v / 4096 / 64 == v / 262144;
  }

  lemma LeadBits(high: nat, mark: nat, size: nat)
    requires (size == 8 && mark == 0xF0) || (size == 16 && mark == 0xE0) || (size == 32 && mark == 0xC0)
    requires high < size
    ensures (mark + high) / size == mark / size && (mark + high) % size == high
  {}

  lemma TailBits(v: nat)
    ensures (0x80 + v % 64) / 64 == 2 && (0x80 + v % 64) % 64 == v % 64
  {}

  lemma {:induction false} Utf8Append(s: string, t: string)
    ensures Utf8(s + t) == Utf8(s) + Utf8(t) && forall c :: Utf8([c]) == Utf8Char(c)
  {
    if s == "" {
      assert s + t == t;
    } else {
      assert (s + t)[1..] == s[1..] + t;
      Utf8Append(s[1..], t);
    }
  }

  /** Most significant first: byte `i` of `k` weighs 256^(k-1-i). */
  lemma {:induction false} BigEndianAt(n: nat, k: nat, i: nat)
    requires i < k
    ensures BigEndian(n, k)[i] as int == n / Pow256(k - 1 - i) % 256
  {
    if i < k - 1 {
      BigEndianAt(n / 256, k - 1, i);
      NestedQuotient(n, 256, Pow256(k - 2 - i));
    }
  }

  lemma NestedQuotient(n: nat, a: nat, b: nat)
    requires a > 0 && b > 0
    ensures a * b > 0 && n / a / b == n / (a * b)
  {
    var q, r, s := n / a / b, n / a % b, n % a;
    MulBounds(a, b);
    MulDistributes(a, b * q, r);
    MulAssoc(a, b, q);
    MulLe(a, r, b - 1);
    MulDistributes(a, b, 1);
    ModUnique(n, a * b, q, a * r + s);
  }
}
