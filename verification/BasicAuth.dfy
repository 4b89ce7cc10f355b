/** Reading a user name and password out of an Authorization header, and the proxy's OK-response gate. */
module BasicAuth {
  import opened Wrappers
  import opened Runes
  import opened Sequences
  import opened Base64

  const SPACE: byte := 0x20
  const COLON: byte := 0x3A

  /** ExtractBAUsernameAndPasswordFromRequest, given the value of the Authorization header. */
  function Extract(header: seq<byte>): (up: (seq<byte>, seq<byte>))
  {
    var fields := Split(header, [SPACE]);
    if |fields| != 2 then ([], [])
    else match Decode(fields[1])
      case None => ([], [])
      case Some(text) =>
        var parts := Split(text, [COLON]);
        if |parts| != 2 then ([], []) else (parts[0], parts[1])
  }

  /** The header of section 2 of RFC 7617: "Basic", a space, and the base64 of user-id ":" password. */
  function BasicHeader(user: seq<byte>, password: seq<byte>): (h: seq<byte>)
  {
    [0x42, 0x61, 0x73, 0x69, 0x63] + [SPACE] + Encode(user + [COLON] + password)
  }

  lemma SplitPair<T>(a: seq<T>, c: T, b: seq<T>)
    requires c !in a && c !in b
    ensures Split(a + [c] + b, [c]) == [a, b]
  {
    SplitAtSeparator(a, c, b);
    SplitPlain(a, c);
    SplitPlain(b, c);
  }

  lemma HeaderFields(user: seq<byte>, password: seq<byte>)
    ensures Split(BasicHeader(user, password), [SPACE]) ==
      [[0x42, 0x61, 0x73, 0x69, 0x63], Encode(user + [COLON] + password)]
  {
    EncodeInAlphabet(user + [COLON] + password);
    SplitPair([0x42, 0x61, 0x73, 0x69, 0x63], SPACE, Encode(user + [COLON] + password));
  }

  /**
   * Exactly what is read from a well-formed header, for all byte strings: both credentials, unless a colon
   * stands in either of them; then nothing. RFC 7617 does allow colons in passwords.
   */
  lemma ExtractFromBasic(user: seq<byte>, password: seq<byte>)
    ensures Extract(BasicHeader(user, password)) ==
      if COLON in user || COLON in password then ([], []) else (user, password)
  {
    var text := user + [COLON] + password;
    HeaderFields(user, password);
    DecodeEncode(text);
    if COLON in user || COLON in password {
      SplitAtSeparator(user, COLON, password);
      if COLON in user { SplitHasTwo(user, COLON); } else { SplitHasTwo(password, COLON); }
    } else {
      SplitPair(user, COLON, password);
    }
  }

  /** The same, byte by byte: "Basic ", then the base64 of the user, a colon and the password. */
  lemma ExtractFromBytes(user: seq<byte>, password: seq<byte>)
    ensures Extract([0x42, 0x61, 0x73, 0x69, 0x63, 0x20] + Encode(user + [0x3A] + password)) ==
      if 0x3A in user || 0x3A in password then ([], []) else (user, password)
  {
    ExtractFromBasic(user, password);
    assert [0x42, 0x61, 0x73, 0x69, 0x63] + [SPACE] == [0x42, 0x61, 0x73, 0x69, 0x63, 0x20];
  }

  /** The header is two fields, and the second decodes to the credentials around the one colon. */
  ghost predicate Carries(
    header: seq<byte>, scheme: seq<byte>, payload: seq<byte>, user: seq<byte>, password: seq<byte>)
  {
    && header == scheme + [0x20] + payload && 0x20 !in scheme && 0x20 !in payload
    && Decode(payload) == Some(user + [0x3A] + password) && 0x3A !in user && 0x3A !in password
  }

  lemma CarriedIsExtracted(
    header: seq<byte>, scheme: seq<byte>, payload: seq<byte>, user: seq<byte>, password: seq<byte>)
    requires Carries(header, scheme, payload, user, password)
    ensures Extract(header) == (user, password)
  {
    SplitPair(scheme, SPACE, payload);
    SplitPair(user, COLON, password);
  }

  lemma ExtractedIsCarried(header: seq<byte>) returns (scheme: seq<byte>, payload: seq<byte>)
    requires Extract(header) != ([], [])
    ensures Carries(header, scheme, payload, Extract(header).0, Extract(header).1)
  {
    TwoFields(header, SPACE);
    scheme, payload := Split(header, [SPACE])[0], Split(header, [SPACE])[1];
    TwoFields(Decode(payload).value, COLON);
  }

  /** Whatever the scheme, credentials are read exactly when the header carries them. */
  lemma ExtractExactlyWhen(header: seq<byte>, user: seq<byte>, password: seq<byte>)
    requires (user, password) != ([], [])
    ensures Extract(header) == (user, password) <==>
      exists scheme, payload :: Carries(header, scheme, payload, user, password)
  {
    if Extract(header) == (user, password) {
      var scheme, payload := ExtractedIsCarried(header);
    }
    if scheme, payload :| Carries(header, scheme, payload, user, password) {
      CarriedIsExtracted(header, scheme, payload, user, password);
    }
  }

  lemma TwoFields(s: seq<byte>, c: byte)
    requires |Split(s, [c])| == 2
    ensures var f := Split(s, [c]); s == f[0] + [c] + f[1] && c !in f[0] && c !in f[1]
  {
    var f := Split(s, [c]);
    JoinSplit(s, [c]);
    assert f[1..] == [f[1]];
    SplitPieces(s, [c]);
    forall i, k: nat | 0 <= i < 2 && k < |f[i]| ensures f[i][k] != c {
      OccursElement(f[i], c, k);
      assert f[i] in f;
    }
  }

  /** "Basic dTpwdw==" is user "u", password "pw". */
  lemma Example()
    ensures Extract([0x42, 0x61, 0x73, 0x69, 0x63, 0x20, 0x64, 0x54, 0x70, 0x77, 0x64, 0x77, 0x3D, 0x3D])
      == ([0x75], [0x70, 0x77])
  {
    EncodedExample();
    assert [0x75] + [0x3A] + [0x70, 0x77] == [0x75, 0x3A, 0x70, 0x77];
    ExtractFromBytes([0x75], [0x70, 0x77]);
    assert [0x42, 0x61, 0x73, 0x69, 0x63, 0x20] + [0x64, 0x54, 0x70, 0x77, 0x64, 0x77, 0x3D, 0x3D]
      == [0x42, 0x61, 0x73, 0x69, 0x63, 0x20, 0x64, 0x54, 0x70, 0x77, 0x64, 0x77, 0x3D, 0x3D];
  }

  lemma EncodedExample()
    ensures Encode([0x75, 0x3A, 0x70, 0x77]) == [0x64, 0x54, 0x70, 0x77, 0x64, 0x77, 0x3D, 0x3D]
  {
    EncodeThree(0x75, 0x3A, 0x70, [0x77]);
    EncodeOne(0x77);
    assert [0x75, 0x3A, 0x70] + [0x77] == [0x75, 0x3A, 0x70, 0x77];
  }

  /** The credentials sent are the credentials read exactly when there is no colon in them. */
  lemma RoundTripExactlyWhen(user: seq<byte>, password: seq<byte>)
    ensures Extract(BasicHeader(user, password)) == (user, password) <==> COLON !in user && COLON !in password
  {
    ExtractFromBasic(user, password);
  }

  /** Nothing is read that was not sent: any credentials come from two fields, the second decoding to them. */
  lemma ExtractIsSound(header: seq<byte>) returns (scheme: seq<byte>, payload: seq<byte>)
    requires Extract(header) != ([], [])
    ensures header == scheme + [SPACE] + payload
    ensures Decode(payload) == Some(Extract(header).0 + [COLON] + Extract(header).1)
  {
    var fields := Split(header, [SPACE]);
    JoinSplit(header, [SPACE]);
    scheme, payload := fields[0], fields[1];
    assert fields[1..] == [payload];
    var text := Decode(payload).value;
    var parts := Split(text, [COLON]);
    JoinSplit(text, [COLON]);
    assert parts[1..] == [parts[1]];
  }

  // ---------- the gate ----------

  /** Does the proxy take the body of the target's response for a success? */
  predicate PassesGate(body: seq<byte>, okResponse: seq<byte>)
  {
    okResponse == [] || Encode(body) == okResponse
  }

  /** With no response configured all bodies pass; else the one it encodes, if it is an encoding, and no other. */
  lemma GateIsExact(body: seq<byte>, okResponse: seq<byte>)
    ensures PassesGate(body, okResponse) <==>
      okResponse == [] || (Decode(okResponse) == Some(body) && Encode(Decode(okResponse).value) == okResponse)
  {
    DecodeEncode(body);
  }

  lemma GateMatchesBody(body: seq<byte>, expected: seq<byte>)
    requires expected != []
    ensures PassesGate(body, Encode(expected)) <==> body == expected
  {
    if PassesGate(body, Encode(expected)) {
      EncodeInjective(body, expected);
    }
  }
}
