/**
 The other end of the handshake: what a server that knows only the wire format gets out of the
 bytes of a negotiation, and the keys that both ends arrive at.
 */
module Reception {
  import opened Errors
  import opened Text
  import opened Streams
  import opened Requests
  import opened Options
  import opened Transport
  import opened Negotiation

  // ---------------------------------------------------------------- reading

  datatype Message =
    | Password(username: Bytes, password: Bytes)
    | AskChallenge(username: Bytes)
    | Proof(sealed: Bytes)
    | Galaxy(name: Bytes)
    | AskVersion
    | AskCodecs

  /** The value of a hexadecimal digit. */
  function Nibble(b: byte): (n: nat)
    requires IsHexDigit(b)
    ensures n < 16
  {
    if b <= '9' then (b - '0') as nat else if b <= 'F' then 10 + (b - 'A') as nat else 10 + (b - 'a') as nat
  }

  /** hex.DecodeString: two digits a byte, the higher one first. */
  function Unhex(s: Bytes): Option<Bytes> {
    if s == [] then Some([]) else
    if |s| < 2 || !IsHexDigit(s[0]) || !IsHexDigit(s[1]) then None else
    var rest := Unhex(s[2..]);
    if rest.None? then None else Some([(16 * Nibble(s[0]) + Nibble(s[1])) as char] + rest.value)
  }

  function ReadMessage(header: Bytes): Option<Message> {
    var p := Split(header, ' ');
    if |p| == 3 && p[0] == "AUTH" then Some(Password(p[1], p[2]))
    else if |p| == 2 && p[0] == "AUTHCHAL" then Some(AskChallenge(p[1]))
    else if |p| == 2 && p[0] == "AUTHRESP" && Unhex(p[1]).Some? then Some(Proof(Unhex(p[1]).value))
    else if |p| == 2 && p[0] == "HELLO" then Some(Galaxy(p[1]))
    else if p == ["WIREVER"] then Some(AskVersion)
    else if p == ["CODECMETA", "ON"] then Some(AskCodecs)
    else None
  }

  /** The message in the bytes that were handed over for a request. */
  function Received(max: nat, talk: Talk): Option<Message> {
    match Receive(talk.key, max, talk.written)
    case Some(text) => if text.1 == [] then ReadMessage(text.0) else None
    case None => None
  }

  datatype Claim = Claim(username: Bytes, password: Bytes, challenge: Bytes)

  /** What a proof claims, to a server that has the secret. */
  function ReadProof(derive: Bytes -> Box, secret: Bytes, sealed: Bytes): Option<Claim> {
    if |sealed| < 24 then None else
    match derive("koutendb-auth-v1\0box\0" + secret).open(sealed[..24], sealed[24..])
    case None => None
    case Some(text) => (
      var p := Split(text, '\n');
      if |p| == 4 && p[0] == "koutendb-auth-v1" then Some(Claim(p[1], p[2], p[3])) else None)
  }

  /** What the key of a connection is derived from. */
  function KeyText(challenge: Bytes, secret: Bytes): Bytes {
    "koutendb-auth-v1\0transport\0" + challenge + "\0" + secret
  }

  // ---------------------------------------------------------------- single messages

  lemma TwoPieces(a: Bytes, b: Bytes, c: byte)
    requires Free(a, c) && Free(b, c)
    ensures Split(a + [c] + b, c) == [a, b]
  {
    SplitCons(a, c, b);
    SplitFree(b, c);
  }

  lemma TwoWords(a: Bytes, b: Bytes)
    requires Free(a, ' ') && Free(b, ' ')
    ensures Split(a + [' '] + b, ' ') == [a, b]
  {
    TwoPieces(a, b, ' ');
  }

  lemma ThreePieces(a: Bytes, b: Bytes, d: Bytes, c: byte)
    requires Free(a, c) && Free(b, c) && Free(d, c)
    ensures Split(a + [c] + (b + [c] + d), c) == [a, b, d]
  {
    hide Split, Free;
    TwoPieces(b, d, c);
    SplitCons(a, c, b + [c] + d);
    assert [a] + [b, d] == [a, b, d];
  }

  lemma FourPieces(a: Bytes, b: Bytes, d: Bytes, e: Bytes, c: byte)
    requires Free(a, c) && Free(b, c) && Free(d, c) && Free(e, c)
    ensures Split(a + [c] + (b + [c] + (d + [c] + e)), c) == [a, b, d, e]
  {
    hide Split, Free;
    ThreePieces(b, d, e, c);
    SplitCons(a, c, b + [c] + (d + [c] + e));
    assert [a] + [b, d, e] == [a, b, d, e];
  }

  lemma PlainIsFree(s: Bytes)
    requires PlainField(s)
    ensures Free(s, ' ') && Free(s, '\n')
  {
  }

  lemma AuthNested(u: Bytes, p: Bytes)
    ensures "AUTH " + u + " " + p == "AUTH" + [' '] + (u + [' '] + p)
  {
  }

  lemma PasswordIsRead(o: Options)
    requires Normal(o)
    ensures ReadMessage(AuthHeader(o.credentials)) == Some(Password(o.credentials.username, o.credentials.password))
  {
    hide Split, PlainField, Unhex, Free;
    var c := o.credentials;
    PlainIsFree(c.username);
    PlainIsFree(c.password);
    assert Free("AUTH", ' ') by { FreeWords(); }
    ThreePieces("AUTH", c.username, c.password, ' ');
    AuthNested(c.username, c.password);
  }

  lemma FreeWords()
    ensures Free("AUTH", ' ') && Free("WIREVER", ' ') && Free("CODECMETA", ' ') && Free("ON", ' ')
    ensures Free("koutendb-auth-v1", '\n')
  {
  }

  lemma ChallengeIsRead(o: Options)
    requires Normal(o)
    ensures ReadMessage(ChallengeHeader(o.credentials)) == Some(AskChallenge(o.credentials.username))
  {
    PlainIsFree(o.credentials.username);
    TwoWords("AUTHCHAL", o.credentials.username);
    assert "AUTHCHAL " + o.credentials.username == "AUTHCHAL" + [' '] + o.credentials.username;
  }

  lemma GalaxyIsRead(o: Options)
    requires Normal(o)
    ensures ReadMessage(HelloHeader(o.galaxy)) == Some(Galaxy(o.galaxy))
  {
    PlainIsFree(o.galaxy);
    TwoWords("HELLO", o.galaxy);
    assert "HELLO " + o.galaxy == "HELLO" + [' '] + o.galaxy;
  }

  lemma AgreementIsRead()
    ensures ReadMessage(VERSION_HEADER) == Some(AskVersion) && ReadMessage(CODEC_HEADER) == Some(AskCodecs)
  {
    hide Split, Unhex, Free;
    FreeWords();
    SplitFree("WIREVER", ' ');
    TwoWords("CODECMETA", "ON");
    assert CODEC_HEADER == "CODECMETA" + [' '] + "ON";
  }

  lemma DigitIsRead(d: nat)
    requires d < 16
    ensures IsHexDigit(HexDigit(d)) && Nibble(HexDigit(d)) == d
  {
  }

  /** Hexadecimal text is decoded to the bytes it was made of. */
  lemma {:induction false} HexIsRead(s: Bytes)
    ensures Unhex(Hex(s)) == Some(s) && Free(Hex(s), ' ')
  {
    if s != [] {
      HexIsRead(s[1..]);
      DigitIsRead(s[0] as int / 16);
      DigitIsRead(s[0] as int % 16);
      assert Hex(s)[2..] == Hex(s[1..]);
      assert 16 * (s[0] as int / 16) + s[0] as int % 16 == s[0] as int;
      assert [s[0]] + s[1..] == s;
    }
  }

  lemma ClaimNested(a: Bytes, u: Bytes, p: Bytes, challenge: Bytes)
    ensures a + u + "\n" + p + "\n" + challenge == a + (u + ['\n'] + (p + ['\n'] + challenge))
  {
  }

  /** What counts as hexadecimal is what can be decoded, to so many bytes. */
  lemma {:induction false} HexIsExact(s: Bytes, n: nat)
    ensures IsHex(s, n) <==> Unhex(s).Some? && |Unhex(s).value| == n
    decreases |s|
  {
    if |s| >= 2 && IsHexDigit(s[0]) && IsHexDigit(s[1]) && n > 0 {
      HexIsExact(s[2..], n - 1);
      assert forall i :: 2 <= i < |s| ==> s[i] == s[2..][i - 2];
    } else if |s| == 1 {
      assert IsHex(s, n) ==> |s| == 2 * n;
    }
  }

  /** The text that is sealed for a challenge gives back who answers it, and which one. */
  lemma ClaimIsRead(o: Options, challenge: Bytes)
    requires Normal(o) && IsHex(challenge, 32)
    ensures Split(AuthMessage(o.credentials, challenge), '\n') ==
            ["koutendb-auth-v1", o.credentials.username, o.credentials.password, challenge]
  {
    hide Split, PlainField, Free;
    var c := o.credentials;
    PlainIsFree(c.username);
    PlainIsFree(c.password);
    FreeWords();
    HexIsFree(challenge);
    FourPieces("koutendb-auth-v1", c.username, c.password, challenge, '\n');
    ClaimNested("koutendb-auth-v1\n", c.username, c.password, challenge);
    assert "koutendb-auth-v1\n" == "koutendb-auth-v1" + ['\n'];
  }

  lemma HexIsFree(s: Bytes)
    requires IsHex(s, 32)
    ensures Free(s, '\n')
  {
  }

  lemma ResponseIsRead(sealed: Bytes)
    ensures ReadMessage(Respond(sealed)) == Some(Proof(sealed))
  {
    hide Split, Unhex, Hex;
    HexIsRead(sealed);
    TwoWords("AUTHRESP", Hex(sealed));
    assert Respond(sealed) == "AUTHRESP" + [' '] + Hex(sealed);
  }

  /** A server that has the secret reads the answer to its challenge, and nobody else's name in it. */
  lemma ProofIsRead(derive: Bytes -> Box, o: Options, challenge: Bytes, nonce: Bytes)
    requires Normal(o) && IsHex(challenge, 32) && |nonce| == 24
    requires forall s: Bytes :: Sound(derive(s))
    ensures var m := ReadMessage(ResponseHeader(derive, o.credentials, challenge, nonce));
            && m.Some? && m.value.Proof?
            && ReadProof(derive, o.credentials.secretKey, m.value.sealed) ==
               Some(Claim(o.credentials.username, o.credentials.password, challenge))
  {
    hide PlainField, IsHexDigit, Sound, Split, Unhex, Hex, AuthMessage, Normal, Free;
    var c := o.credentials;
    var k := derive("koutendb-auth-v1\0box\0" + c.secretKey);
    var text := AuthMessage(c, challenge);
    var sealed := nonce + k.seal(nonce, text);
    assert Sound(k);
    BoxOpens(k, nonce, text);
    ResponseIsRead(sealed);
    ClaimIsRead(o, challenge);
  }

  lemma BoxOpens(k: Box, nonce: Bytes, text: Bytes)
    requires Sound(k) && |nonce| == 24
    ensures var sealed := nonce + k.seal(nonce, text);
            |sealed| >= 24 && k.open(sealed[..24], sealed[24..]) == Some(text)
  {
    var sealed := nonce + k.seal(nonce, text);
    assert sealed[..24] == nonce && sealed[24..] == k.seal(nonce, text);
  }

  // ---------------------------------------------------------------- keys

  /** Both ends derive the same key, from the challenge and the secret. */
  lemma KeysAgree(derive: Bytes -> Box, c: Credentials, challenge: Bytes)
    ensures TransportKey(derive, c, challenge) == derive(KeyText(challenge, c.secretKey))
  {
  }

  /** And what it is derived from tells challenges and secrets apart. */
  lemma KeyTextIsInjective(challenge: Bytes, secret: Bytes, other: Bytes, another: Bytes)
    requires IsHex(challenge, 32) && IsHex(other, 32) && KeyText(challenge, secret) == KeyText(other, another)
    ensures challenge == other && secret == another
  {
    var a, b := KeyText(challenge, secret), KeyText(other, another);
    var n := |"koutendb-auth-v1\0transport\0"|;
    assert challenge == a[n..n + 64] == b[n..n + 64] == other;
    assert secret == a[n + 65..] == b[n + 65..] == another;
  }

  /** Nor is it ever what a key for proofs is derived from. */
  lemma KeyTextsAreApart(challenge: Bytes, secret: Bytes, other: Bytes)
    ensures KeyText(challenge, secret) != "koutendb-auth-v1\0box\0" + other
  {
    assert KeyText(challenge, secret)[17] == 't';
    assert ("koutendb-auth-v1\0box\0" + other)[17] == 'b';
  }

  // ---------------------------------------------------------------- the whole negotiation

  lemma StepIsReceived(x: Setting, node: nat, s: Step, header: Bytes, key: Option<Box>)
    requires StepDone(x, node, s, header, key) && Acceptable(x.max, header, []) && x.max <= MAX_FRAME
    requires key.Some? ==> Sound(key.value)
    ensures Received(x.max, s.talk) == ReadMessage(header) && s.talk.key == key
  {
    hide Outgoing, Receive, Acceptable, ReadMessage, Heard;
    var nonce: Bytes :| |nonce| == 24 && s.talk.written == Outgoing(key, nonce, header, []);
    SendRoundTrip(key, x.max, nonce, header, []);
  }

  /** A negotiation that can be read: its options are normal, and its keys are boxes. */
  ghost predicate Readable(x: Setting, o: Options) {
    Normal(o) && x.max == o.maxFrameBytes && forall s: Bytes :: Sound(x.derive(s))
  }

  predicate SaidOk(reply: seq<Bytes>) {
    |reply| == 2 && reply[0] == "OK"
  }

  lemma KeyIsSound(x: Setting, node: nat, o: Options, steps: seq<Step>, key: Option<Box>)
    requires Negotiated(x, node, o, steps, key) && Readable(x, o)
    ensures (key.Some? ==> Sound(key.value)) && x.max <= MAX_FRAME
  {
    hide StepDone, Sound, Agenda, Accepted, IsHex;
  }

  /** With a password and no secret: AUTH with both, in the clear. */
  lemma PasswordIsReceived(x: Setting, node: nat, o: Options, steps: seq<Step>, key: Option<Box>)
    requires Negotiated(x, node, o, steps, key) && Readable(x, o)
    requires o.credentials.username != [] && o.credentials.secretKey == []
    ensures |steps| == |Agenda(o)| + 1 && key == None
    ensures steps[0].talk.key == None && SaidOk(steps[0].reply)
    ensures Received(x.max, steps[0].talk) == Some(Password(o.credentials.username, o.credentials.password))
  {
    hide StepDone, Sound, Agenda, Accepted, IsHex, AuthHeader, ReadMessage, Acceptable, Normal, Received;
    KeyIsSound(x, node, o, steps, key);
    HandshakeHeadersFit(o);
    StepIsReceived(x, node, steps[0], AuthHeader(o.credentials), None);
    PasswordIsRead(o);
  }

  /**
   With a secret: a challenge is asked for and answered, in the clear; the answer proves to a
   server with this secret who answers which challenge, and the key is the one that it derives.
   */
  lemma ProofIsReceived(x: Setting, node: nat, o: Options, steps: seq<Step>, key: Option<Box>)
    requires Negotiated(x, node, o, steps, key) && Readable(x, o)
    requires o.credentials.username != [] && o.credentials.secretKey != []
    ensures |steps| == |Agenda(o)| + 2
    ensures var c, challenge := o.credentials, if |steps[0].reply| == 2 then steps[0].reply[1] else [];
            && steps[0].talk.key == None && steps[0].reply == ["CHAL", challenge] && IsHex(challenge, 32)
            && Received(x.max, steps[0].talk) == Some(AskChallenge(c.username))
            && steps[1].talk.key == None && SaidOk(steps[1].reply)
            && (var m := Received(x.max, steps[1].talk);
                && m.Some? && m.value.Proof?
                && ReadProof(x.derive, c.secretKey, m.value.sealed) == Some(Claim(c.username, c.password, challenge)))
            && key == Some(x.derive(KeyText(challenge, c.secretKey)))
  {
    hide StepDone, Sound, Agenda, Accepted, IsHex, ChallengeHeader, ResponseHeader, ReadMessage, Acceptable, Normal,
      Received, ReadProof, TransportKey, KeyText;
    var c, challenge := o.credentials, steps[0].reply[1];
    KeyIsSound(x, node, o, steps, key);
    HandshakeHeadersFit(o);
    StepIsReceived(x, node, steps[0], ChallengeHeader(c), None);
    ChallengeIsRead(o);
    var nonce: Bytes :| |nonce| == 24 &&
      StepDone(x, node, steps[1], ResponseHeader(x.derive, c, challenge, nonce), None);
    ResponseFits(x.derive, o, challenge, nonce);
    StepIsReceived(x, node, steps[1], ResponseHeader(x.derive, c, challenge, nonce), None);
    ProofIsRead(x.derive, o, challenge, nonce);
    KeysAgree(x.derive, c, challenge);
    assert steps[0].reply == ["CHAL", challenge];
  }

  /** Then the galaxy, if there is one, and at the end version and codecs, all under the key. */
  lemma AgendaIsReceived(x: Setting, node: nat, o: Options, steps: seq<Step>, key: Option<Box>)
    requires Negotiated(x, node, o, steps, key) && Readable(x, o)
    ensures var n := |steps|;
            && n >= (if o.galaxy == [] then 2 else 3)
            && (o.credentials.username == [] ==> key == None && n == (if o.galaxy == [] then 2 else 3))
            && (o.galaxy != [] ==>
                  && steps[n - 3].talk.key == key && SaidOk(steps[n - 3].reply)
                  && Received(x.max, steps[n - 3].talk) == Some(Galaxy(o.galaxy)))
            && steps[n - 2].talk.key == key && steps[n - 2].reply == ["WIREVER", "1"]
            && Received(x.max, steps[n - 2].talk) == Some(AskVersion)
            && steps[n - 1].talk.key == key && steps[n - 1].reply == ["OK", "codec-metadata"]
            && Received(x.max, steps[n - 1].talk) == Some(AskCodecs)
  {
    hide StepDone, Sound, IsHex, HelloHeader, ReadMessage, Acceptable, Normal, Received;
    var n, a := |steps|, AuthSteps(o.credentials);
    KeyIsSound(x, node, o, steps, key);
    HandshakeHeadersFit(o);
    AgreementIsRead();
    HelloIsOther(o.galaxy);
    if o.galaxy != [] {
      assert Agenda(o)[0] == HelloHeader(o.galaxy) && steps[n - 3] == steps[a + 0];
      StepIsReceived(x, node, steps[n - 3], HelloHeader(o.galaxy), key);
      GalaxyIsRead(o);
    }
    assert Agenda(o)[|Agenda(o)| - 2] == VERSION_HEADER && Agenda(o)[|Agenda(o)| - 1] == CODEC_HEADER;
    assert steps[n - 2] == steps[a + (|Agenda(o)| - 2)] && steps[n - 1] == steps[a + (|Agenda(o)| - 1)];
    StepIsReceived(x, node, steps[n - 2], VERSION_HEADER, key);
    StepIsReceived(x, node, steps[n - 1], CODEC_HEADER, key);
  }

  lemma HelloIsOther(galaxy: Bytes)
    ensures HelloHeader(galaxy) != VERSION_HEADER && HelloHeader(galaxy) != CODEC_HEADER
  {
    assert HelloHeader(galaxy)[0] == 'H';
  }
}
