/**
 HTTP Basic authentication (section 2 of RFC 7617) as the RPC server builds and checks it
 (jsonrpc/server.go). Strings are their UTF-8 bytes; the digest is any function of them.
 */
module BasicAuth {
  import opened Wrappers
  import opened Base64

  type Bytes = seq<Byte>

  // "Basic "
  const HEADER: Bytes := [66, 97, 115, 105, 99, 32]

  const COLON: Byte := 58

  /** The concatenation form: "Basic " + base64(username + ":" + password). */
  function AuthString(username: Bytes, password: Bytes): Bytes {
    HEADER + Encode(username + [COLON] + password)
  }

  /** `httpBasicAuth` fills a buffer sized in advance; it is filled exactly. */
  method HttpBasicAuth(username: Bytes, password: Bytes) returns (output: array<Byte>)
    ensures fresh(output)
    ensures output[..] == AuthString(username, password)
    ensures output.Length == 6 + (|username| + 1 + |password| + 2) / 3 * 4
  {
    hide Encode, Ascii;
    var b64InputLen := |username| + 1 + |password|;
    var b64Input: Bytes := [];
    b64Input := b64Input + username;
    b64Input := b64Input + [COLON];
    b64Input := b64Input + password;
    assert b64Input == username + [COLON] + password;
    output := new Byte[|HEADER| + EncodedLen(b64InputLen)](_ => 0);
    for i := 0 to |HEADER|
      invariant output[..i] == HEADER[..i]
    {
      output[i] := HEADER[i];
    }
    EncodeInto(output, |HEADER|, b64Input);
  }

  /** The wire form in bytes: "Basic ", then the encoding of user-id, ':' and password. */
  lemma HeaderBytes(u: Bytes, p: Bytes)
    ensures AuthString(u, p) == Ascii("Basic ") + Encode(u + [':' as int] + p)
  {
    assert Ascii("Basic ") == HEADER;
  }

  lemma EncodeMore(a: Byte, b: Byte, c: Byte, rest: Bytes)
    ensures Encode([a, b, c] + rest) == Quartet(a, b, c) + Encode(rest)
  {
    hide *;
    EncodeByGroups([a, b, c] + rest);
    assert ([a, b, c] + rest)[3..] == rest;
  }

  lemma QuartetIs(a: Byte, b: Byte, c: Byte, s: string)
    requires |s| == 4 && forall i | 0 <= i < 4 :: s[i] < 128 as char
    requires Letter(Sextet(Bits(a, b, c), 0)) == s[0] as int && Letter(Sextet(Bits(a, b, c), 1)) == s[1] as int
    requires Letter(Sextet(Bits(a, b, c), 2)) == s[2] as int && Letter(Sextet(Bits(a, b, c), 3)) == s[3] as int
    ensures Quartet(a, b, c) == Ascii(s)
  {
    hide Letter, Sextet, Bits;
  }

  lemma FirstQuartets()
    ensures Quartet(65, 108, 97) == Ascii("QWxh") && Quartet(100, 100, 105) == Ascii("ZGRp")
    ensures Quartet(110, 58, 111) == Ascii("bjpv")
  {
    hide Ascii, Quartet;
    QuartetIs(65, 108, 97, "QWxh");
    QuartetIs(100, 100, 105, "ZGRp");
    QuartetIs(110, 58, 111, "bjpv");
  }

  lemma MoreQuartets()
    ensures Quartet(112, 101, 110) == Ascii("cGVu") && Quartet(32, 115, 101) == Ascii("IHNl")
    ensures Quartet(115, 97, 109) == Ascii("c2Ft")
  {
    hide Ascii, Quartet;
    QuartetIs(112, 101, 110, "cGVu");
    QuartetIs(32, 115, 101, "IHNl");
    QuartetIs(115, 97, 109, "c2Ft");
  }

  lemma EncodeLast()
    ensures Encode([101]) == Ascii("ZQ==")
  {
  }

  /** The bytes of "Aladdin:open sesame" in groups, and their encoding in quartets. */
  lemma EncodeExample(s: Bytes)
    requires s == [65, 108, 97] + ([100, 100, 105] + ([110, 58, 111] + ([112, 101, 110] + ([32, 115, 101]
                  + ([115, 97, 109] + [101])))))
    ensures Encode(s) == Ascii("QWxh") + (Ascii("ZGRp") + (Ascii("bjpv") + (Ascii("cGVu") + (Ascii("IHNl")
                         + (Ascii("c2Ft") + Ascii("ZQ=="))))))
  {
    hide *;
    FirstQuartets();
    MoreQuartets();
    EncodeLast();
    EncodeMore(115, 97, 109, [101]);
    EncodeMore(32, 115, 101, [115, 97, 109] + [101]);
    EncodeMore(112, 101, 110, [32, 115, 101] + ([115, 97, 109] + [101]));
    EncodeMore(110, 58, 111, [112, 101, 110] + ([32, 115, 101] + ([115, 97, 109] + [101])));
    EncodeMore(100, 100, 105, [110, 58, 111] + ([112, 101, 110] + ([32, 115, 101] + ([115, 97, 109] + [101]))));
    EncodeMore(65, 108, 97, [100, 100, 105] + ([110, 58, 111] + ([112, 101, 110] + ([32, 115, 101]
               + ([115, 97, 109] + [101])))));
  }

  lemma FirstHalf()
    ensures Ascii("QWxhZGRpbjpv") == Ascii("QWxh") + Ascii("ZGRp") + Ascii("bjpv")
  {
  }

  lemma SecondHalf()
    ensures Ascii("cGVuIHNlc2FtZQ==") == Ascii("cGVu") + Ascii("IHNl") + Ascii("c2Ft") + Ascii("ZQ==")
  {
  }

  lemma BothHalves()
    ensures Ascii("QWxhZGRpbjpvcGVuIHNlc2FtZQ==") == Ascii("QWxhZGRpbjpv") + Ascii("cGVuIHNlc2FtZQ==")
  {
  }

  lemma ExampleText(s: Bytes)
    requires s == Ascii("QWxh") + (Ascii("ZGRp") + (Ascii("bjpv") + (Ascii("cGVu") + (Ascii("IHNl")
                  + (Ascii("c2Ft") + Ascii("ZQ=="))))))
    ensures s == Ascii("QWxhZGRpbjpvcGVuIHNlc2FtZQ==")
  {
    hide *;
    BothHalves();
    FirstHalf();
    SecondHalf();
    Regroup(Ascii("QWxh"), Ascii("ZGRp"), Ascii("bjpv"), Ascii("cGVu"), Ascii("IHNl"), Ascii("c2Ft"), Ascii("ZQ=="));
  }

  lemma Regroup(a: Bytes, b: Bytes, c: Bytes, d: Bytes, e: Bytes, f: Bytes, g: Bytes)
    ensures a + (b + (c + (d + (e + (f + g))))) == (a + b + c) + (d + e + f + g)
  {
    assert d + (e + (f + g)) == d + e + f + g;
    assert a + (b + (c + (d + e + f + g))) == (a + b + c) + (d + e + f + g);
  }

  /** The example of section 2 of RFC 7617. */
  lemma AladdinsHeader(u: Bytes, p: Bytes)
    requires u == Ascii("Aladdin") && p == Ascii("open sesame")
    ensures AuthString(u, p) == Ascii("Basic ") + Ascii("QWxhZGRpbjpvcGVuIHNlc2FtZQ==")
  {
    hide Encode;
    var s: Bytes := [65, 108, 97] + ([100, 100, 105] + ([110, 58, 111] + ([112, 101, 110] + ([32, 115, 101]
                    + ([115, 97, 109] + [101])))));
    assert u + [COLON] + p == s;
    EncodeExample(s);
    ExampleText(Encode(s));
    HeaderBytes(u, p);
  }

  // ----- reading the header back

  function ColonAt(s: Bytes): (n: nat)
    ensures n <= |s| && COLON !in s[..n] && (n < |s| ==> s[n] == COLON)
  {
    if s == [] || s[0] == COLON then 0 else 1 + ColonAt(s[1..])
  }

  datatype Credentials = Credentials(username: Bytes, password: Bytes)

  /** The credentials of a header: the user-id is what precedes the first colon. */
  function ParseHeader(h: Bytes): Option<Credentials> {
    if !(HEADER <= h) then None
    else match Decode(h[|HEADER|..])
      case None => None
      case Some(s) =>
        var n := ColonAt(s);
        if n == |s| then None else Some(Credentials(s[..n], s[n + 1..]))
  }

  lemma PayloadOf(u: Bytes, p: Bytes)
    ensures HEADER <= AuthString(u, p)
    ensures Decode(AuthString(u, p)[|HEADER|..]) == Some(u + [COLON] + p)
  {
    hide Encode, Decode;
    assert AuthString(u, p)[|HEADER|..] == Encode(u + [COLON] + p);
    DecodeEncode(u + [COLON] + p);
  }

  lemma {:induction false} ColonIsFirst(s: Bytes, k: int)
    requires 0 <= k < |s| && s[k] == COLON
    ensures ColonAt(s) <= k
  {
    if k == 0 {
    } else {
      ColonIsFirst(s[1..], k - 1);
    }
  }

  lemma {:induction false} ColonAfter(u: Bytes, p: Bytes)
    requires COLON !in u
    ensures ColonAt(u + [COLON] + p) == |u|
  {
    var s := u + [COLON] + p;
    if u == [] {
    } else {
      assert u[0] in u;
      ColonAfter(u[1..], p);
      assert s[1..] == u[1..] + [COLON] + p;
    }
  }

  /** Reading back what was built gives the credentials exactly when the user-id has no colon, byte 58. */
  lemma HeaderRoundTrip(u: Bytes, p: Bytes)
    ensures ParseHeader(AuthString(u, p)).Some?
    ensures ParseHeader(AuthString(u, p)) == Some(Credentials(u, p)) <==> 58 !in u
  {
    hide Encode, Decode, AuthString, ColonAt;
    PayloadOf(u, p);
    var s := u + [COLON] + p;
    assert s[|u|] == COLON;
    var n := ColonAt(s);
    ColonIsFirst(s, |u|);
    if COLON !in u {
      ColonAfter(u, p);
      assert s[..n] == u && s[n + 1..] == p;
    }
  }

  /**
   Two headers are equal exactly when the joined credentials are, hence, for user-ids without a
   colon, exactly when both user-id and password are.
   */
  lemma HeadersIdentifyCredentials(u: Bytes, p: Bytes, u': Bytes, p': Bytes)
    ensures AuthString(u, p) == AuthString(u', p') <==> u + [COLON] + p == u' + [COLON] + p'
    ensures COLON !in u && COLON !in u' ==> (AuthString(u, p) == AuthString(u', p') <==> u == u' && p == p')
  {
    hide Encode, Decode, AuthString, ParseHeader;
    PayloadOf(u, p);
    PayloadOf(u', p');
    SameJoin(u, p, u', p');
    HeaderRoundTrip(u, p);
    HeaderRoundTrip(u', p');
  }

  lemma SameJoin(u: Bytes, p: Bytes, u': Bytes, p': Bytes)
    ensures u + [COLON] + p == u' + [COLON] + p' ==> AuthString(u, p) == AuthString(u', p')
  {
  }

  /** A colon can move between user-id and password without changing the header. */
  lemma ColonIsAmbiguous(a: Bytes, b: Bytes, c: Bytes)
    ensures AuthString(a + [COLON] + b, c) == AuthString(a, b + [COLON] + c)
    ensures a + [COLON] + b != a
  {
    assert a + [COLON] + b + [COLON] + c == a + [COLON] + (b + [COLON] + c);
    assert |a + [COLON] + b| > |a|;
  }

  // ----- checking

  datatype AuthError = NoAuth | InvalidHeader

  /** `checkAuthHeader`: the digest of the first Authorization header against the server's. */
  function CheckAuthHeader<D(==)>(hash: Bytes -> D, authsha: D, headers: seq<Bytes>): Option<AuthError> {
    if headers == [] then Some(NoAuth)
    else if hash(headers[0]) != authsha then Some(InvalidHeader)
    else None
  }

  /** Which error a refused request gets: none sent, or a wrong one. */
  lemma AuthErrorKinds<D>(hash: Bytes -> D, authsha: D, headers: seq<Bytes>)
    ensures CheckAuthHeader(hash, authsha, headers) == Some(NoAuth) <==> headers == []
    ensures CheckAuthHeader(hash, authsha, headers) == Some(InvalidHeader)
            <==> headers != [] && hash(headers[0]) != authsha
  {
  }

  datatype Request = Unparsable | OtherCommand | Authenticate(username: Bytes, passphrase: Bytes)

  /** `invalidAuth`: true only for an authenticate request whose credentials do not match. */
  function InvalidAuth<D(==)>(hash: Bytes -> D, authsha: D, req: Request): bool {
    match req
    case Unparsable => false
    case OtherCommand => false
    case Authenticate(u, p) => hash(AuthString(u, p)) != authsha
  }

  /**
   With a digest that does not collide, the websocket check refuses exactly the authenticate requests
   whose joined credentials differ from the configured ones; anything else is not refused here.
   */
  lemma InvalidAuthIff<D>(hash: Bytes -> D, u: Bytes, p: Bytes, req: Request)
    requires forall x, y :: hash(x) == hash(y) ==> x == y
    ensures InvalidAuth(hash, hash(AuthString(u, p)), req)
            <==> req.Authenticate? && req.username + [COLON] + req.passphrase != u + [COLON] + p
  {
    hide AuthString;
    if req.Authenticate? {
      HeadersIdentifyCredentials(u, p, req.username, req.passphrase);
    }
  }

  /**
   With a digest that does not collide, whatever the configured user name and password: a request is
   accepted exactly if its first header decodes to their joined form.
   */
  lemma AcceptsIffJoined<D>(hash: Bytes -> D, u: Bytes, p: Bytes, headers: seq<Bytes>)
    requires forall x, y :: hash(x) == hash(y) ==> x == y
    ensures CheckAuthHeader(hash, hash(AuthString(u, p)), headers) == None
            <==> headers != [] && HEADER <= headers[0]
                 && Decode(headers[0][|HEADER|..]) == Some(u + [COLON] + p)
  {
    hide Encode, Decode;
    PayloadOf(u, p);
    if headers != [] && HEADER <= headers[0] && Decode(headers[0][|HEADER|..]) == Some(u + [COLON] + p) {
      EncodeDecode(headers[0][|HEADER|..]);
      assert headers[0] == HEADER + headers[0][|HEADER|..];
    }
  }

  /**
   Hence, as section 2 of RFC 7617 reads a header, user-id up to the first colon: if the configured
   user name has no colon, the one accepted header is that of the configured credentials. With a
   colon in it the accepted header reads back as other credentials.
   */
  lemma AcceptsOnlyTheCredentials<D>(hash: Bytes -> D, u: Bytes, p: Bytes, headers: seq<Bytes>)
    requires forall x, y :: hash(x) == hash(y) ==> x == y
    ensures CheckAuthHeader(hash, hash(AuthString(u, p)), headers) == None && COLON !in u
            <==> headers != [] && HEADER <= headers[0]
                 && ParseHeader(headers[0]) == Some(Credentials(u, p))
  {
    hide Encode, Decode;
    AcceptsIffJoined(hash, u, p, headers);
    HeaderRoundTrip(u, p);
    if headers != [] && HEADER <= headers[0] && ParseHeader(headers[0]).Some? {
      var s := Decode(headers[0][|HEADER|..]).value;
      assert s == s[..ColonAt(s)] + [COLON] + s[ColonAt(s) + 1..];
    }
    if headers != [] && HEADER <= headers[0] && Decode(headers[0][|HEADER|..]) == Some(u + [COLON] + p) {
      EncodeDecode(headers[0][|HEADER|..]);
      assert headers[0] == AuthString(u, p);
    }
  }
}
