/** crates/core/src/canon.rs: the length-prefixed encoding that signatures and
    MACs are computed over. */
module Canon {
  import opened ByteCodec
  import opened Types

  /** `(f.len() as u64).to_be_bytes()` */
  function LengthPrefix(f: Bytes): (bs: seq<byte>)
    ensures |bs| == 8
  {
    BigEndian(|f|, 8)
  }

  function EncodeField(f: Bytes): (bs: seq<byte>)
    ensures |bs| == 8 + |f|
  {
    LengthPrefix(f) + f
  }

  /** The bytes of a whole field list, the domain tag being its first field. */
  function Encode(fields: seq<Bytes>): (bs: seq<byte>)
  {
    if fields == [] then [] else EncodeField(fields[0]) + Encode(fields[1..])
  }

  /** Reads one field off the front, or fails if the bytes are not an encoding. */
  function TakeField(bs: seq<byte>): (r: Option<(Bytes, seq<byte>)>)
    ensures r.Some? ==> |r.value.1| < |bs|
  {
    if |bs| < 8 then None
    else
      var n := FromBigEndian(bs[..8]);
      if n > ISIZE_MAX || n > |bs| - 8 then None else Some((bs[8..8 + n], bs[8 + n..]))
  }

  function Decode(bs: seq<byte>): (r: Option<seq<Bytes>>)
    decreases |bs|
  {
    if bs == [] then Some([])
    else
      match TakeField(bs)
      case None => None
      case Some((f, rest)) =>
        match Decode(rest)
        case None => None
        case Some(fs) => Some([f] + fs)
  }

  /** The builder. `fields` is what has been appended so far. */
  class CanonicalEncoder {
    var buf: seq<byte>
    ghost var fields: seq<Bytes>

    ghost predicate Valid()
      reads this
    {
      buf == Encode(fields)
    }

    constructor (domain: Text)
      ensures Valid() && fields == [Utf8Bytes(domain)]
    {
      buf := [];
      fields := [];
      new;
      Write(Utf8Bytes(domain));
    }

    method Write(f: Bytes)
      requires Valid()
      modifies this
      ensures Valid() && fields == old(fields) + [f]
    {
      var prefix := LengthPrefix(f);
      EncodeSnoc(fields, f);
      buf := buf + prefix;
      buf := buf + f;
      fields := fields + [f];
    }

    method Field(bytes: Bytes)
      requires Valid()
      modifies this
      ensures Valid() && fields == old(fields) + [bytes]
    {
      Write(bytes);
    }

    method StrField(s: Text)
      requires Valid()
      modifies this
      ensures Valid() && fields == old(fields) + [Utf8Bytes(s)]
    {
      Field(Utf8Bytes(s));
    }

    method Tagged(tag: Text, bytes: Bytes)
      requires Valid()
      modifies this
      ensures Valid() && fields == old(fields) + [Utf8Bytes(tag), bytes]
    {
      Write(Utf8Bytes(tag));
      Write(bytes);
    }

    method Finish() returns (bs: seq<byte>)
      requires Valid()
      ensures bs == Encode(fields)
    {
      bs := buf;
    }
  }

  // ---- What the encoding promises ----

  lemma {:induction false} EncodeAppend(a: seq<Bytes>, b: seq<Bytes>)
    ensures Encode(a + b) == Encode(a) + Encode(b)
  {
    if a == [] {
      assert a + b == b;
    } else {
      assert (a + b)[1..] == a[1..] + b;
      EncodeAppend(a[1..], b);
    }
  }

  lemma EncodeSnoc(a: seq<Bytes>, f: Bytes)
    ensures Encode(a + [f]) == Encode(a) + LengthPrefix(f) + f
  {
    EncodeAppend(a, [f]);
    assert Encode([f]) == EncodeField(f);
  }

  lemma TakeFieldOfEncoding(f: Bytes, rest: seq<byte>)
    ensures TakeField(EncodeField(f) + rest) == Some((f, rest))
  {
    var bs := EncodeField(f) + rest;
    assert bs[..8] == BigEndian(|f|, 8);
    Pow256Values();
    BigEndianRoundTrip(|f|, 8);
    assert bs[8..8 + |f|] == f && bs[8 + |f|..] == rest;
  }

  lemma TakeFieldOfEncodings(fields: seq<Bytes>, rest: seq<byte>)
    requires fields != []
    ensures TakeField(Encode(fields) + rest) == Some((fields[0], Encode(fields[1..]) + rest))
  {
    var f, tail := EncodeField(fields[0]), Encode(fields[1..]);
    assert f + tail + rest == f + (tail + rest);
    TakeFieldOfEncoding(fields[0], tail + rest);
  }

  lemma {:induction false} DecodeEncode(fields: seq<Bytes>)
    ensures Decode(Encode(fields)) == Some(fields)
  {
    if fields != [] {
      TakeFieldOfEncoding(fields[0], Encode(fields[1..]));
      DecodeEncode(fields[1..]);
      assert fields == [fields[0]] + fields[1..];
    }
  }

  lemma EncodingOfTakenField(bs: seq<byte>)
    requires TakeField(bs).Some?
    ensures bs == EncodeField(TakeField(bs).value.0) + TakeField(bs).value.1
  {
    var n := |TakeField(bs).value.0|;
    FromBigEndianRoundTrip(bs[..8]);
    assert bs == bs[..8] + bs[8..8 + n] + bs[8 + n..];
  }

  /** Whatever decodes is the encoding of what it decodes to: with `DecodeEncode`,
      `Encode` is a bijection onto the byte strings `Decode` accepts. */
  lemma {:induction false} EncodeDecode(bs: seq<byte>)
    requires Decode(bs).Some?
    ensures Encode(Decode(bs).value) == bs
    decreases |bs|
  {
    if bs != [] {
      var (f, rest) := TakeField(bs).value;
      EncodingOfTakenField(bs);
      EncodeDecode(rest);
      assert ([f] + Decode(rest).value)[1..] == Decode(rest).value;
    }
  }

  lemma EncodeInjective(a: seq<Bytes>, b: seq<Bytes>)
    requires Encode(a) == Encode(b)
    ensures a == b
  {
    DecodeEncode(a);
    DecodeEncode(b);
  }

  lemma {:induction false} EncodePrefixFree(a: seq<Bytes>, b: seq<Bytes>, x: seq<byte>, y: seq<byte>)
    requires |a| == |b| && Encode(a) + x == Encode(b) + y
    ensures a == b && x == y
  {
    if a != [] {
      TakeFieldOfEncodings(a, x);
      TakeFieldOfEncodings(b, y);
      EncodePrefixFree(a[1..], b[1..], x, y);
      assert a == [a[0]] + a[1..] && b == [b[0]] + b[1..];
    } else {
      assert Encode(a) + x == x && Encode(b) + y == y;
    }
  }

  /** Domain separation: encodings under different tags never coincide, nor is
      one a prefix of the other. */
  lemma DomainsSeparate(d: Text, e: Text, a: seq<Bytes>, b: seq<Bytes>, x: seq<byte>)
    requires d != e
    ensures Encode([Utf8Bytes(d)] + a) + x != Encode([Utf8Bytes(e)] + b)
  {
    TakeFieldOfEncodings([Utf8Bytes(d)] + a, x);
    TakeFieldOfEncodings([Utf8Bytes(e)] + b, []);
    assert Encode([Utf8Bytes(e)] + b) + [] == Encode([Utf8Bytes(e)] + b);
    if Utf8Bytes(d) == Utf8Bytes(e) {
      Utf8Injective(d, e);
    }
  }

  /** The layout: eight bytes that spell the length, most significant first, then the
      field, then the next field. */
  lemma EncodingLayout(f: Bytes, rest: seq<Bytes>, i: nat)
    requires i < 8
    ensures var bs := Encode([f] + rest);
            && |bs| >= 8 + |f| && bs[i] as int == |f| / Pow256(7 - i) % 256
            && bs[8..8 + |f|] == f && bs[8 + |f|..] == Encode(rest)
  {
    assert ([f] + rest)[1..] == rest;
    BigEndianAt(|f|, 8, i);
  }
}
