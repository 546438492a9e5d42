/** crates/core/src/client_auth.rs: the canonical bytes of a client request. */
module ClientAuth {
  import opened ByteCodec
  import opened Types
  import opened Canon

  const CLIENT_AUTH_DOMAIN: Text := "wyrtloom-client-auth-v1"

  datatype Request = Request(method_: Text, path: Text, bodySha256: Bytes, clientId: Text, timestamp: I64, nonce: Text)

  ghost function RequestFields(domain: Text, q: Request): seq<Bytes>
  {
    [Utf8Bytes(domain), Utf8Bytes(q.method_), Utf8Bytes(q.path), q.bodySha256,
     Utf8Bytes(q.clientId), I64Bytes(q.timestamp), Utf8Bytes(q.nonce)]
  }

  method CanonicalRequest(q: Request) returns (bs: seq<byte>)
    ensures bs == Encode(RequestFields(CLIENT_AUTH_DOMAIN, q))
  {
    bs := CanonicalRequestUnder(CLIENT_AUTH_DOMAIN, q);
  }

  method CanonicalRequestUnder(domain: Text, q: Request) returns (bs: seq<byte>)
    ensures bs == Encode(RequestFields(domain, q))
  {
    var e := new CanonicalEncoder(domain);
    e.StrField(q.method_);
    e.StrField(q.path);
    e.Field(q.bodySha256);
    e.StrField(q.clientId);
    e.Field(I64Bytes(q.timestamp));
    e.StrField(q.nonce);
    assert e.fields == RequestFields(domain, q);
    bs := e.Finish();
  }

  /** A signature binds exactly this method, path, body, client, time and nonce. */
  lemma CanonicalRequestInjective(domain: Text, q: Request, r: Request)
    requires Encode(RequestFields(domain, q)) == Encode(RequestFields(domain, r))
    ensures q == r
  {
    var a, b := RequestFields(domain, q), RequestFields(domain, r);
    EncodeInjective(a, b);
    assert forall i :: 0 <= i < 7 ==> a[i] == b[i];
    Utf8Injective(q.method_, r.method_);
    Utf8Injective(q.path, r.path);
    Utf8Injective(q.clientId, r.clientId);
    I64BytesInjective(q.timestamp, r.timestamp);
    Utf8Injective(q.nonce, r.nonce);
  }

  /** Read back, the bytes hold domain, method, path, body hash, client, time and nonce,
      in that order. */
  lemma CanonicalRequestReadsBack(q: Request)
    ensures var r := Decode(Encode(RequestFields(CLIENT_AUTH_DOMAIN, q)));
            && r.Some? && |r.value| == 7
            && r.value[0] == Utf8Bytes("wyrtloom-client-auth-v1")
            && r.value[1] == Utf8Bytes(q.method_) && r.value[2] == Utf8Bytes(q.path) && r.value[3] == q.bodySha256
            && r.value[4] == Utf8Bytes(q.clientId) && r.value[5] == I64Bytes(q.timestamp) && r.value[6] == Utf8Bytes(q.nonce)
  {
    DecodeEncode(RequestFields(CLIENT_AUTH_DOMAIN, q));
  }
}
