/**
 The handshake of a new connection (wire.go): authentication, galaxy, wire version and codec
 metadata, in that order, with everything after the key exchange sealed.
 */
module Negotiation {
  import opened Errors
  import opened Text
  import opened Decimal
  import opened Ids
  import opened Streams
  import opened Replies
  import opened Requests
  import opened Options
  import opened Transport

  // ---------------------------------------------------------------- hexadecimal

  predicate IsHexDigit(b: byte) {
    '0' <= b <= '9' || 'a' <= b <= 'f' || 'A' <= b <= 'F'
  }

  /** hex.DecodeString accepts `s` and gives n bytes. */
  predicate IsHex(s: Bytes, n: nat) {
    |s| == 2 * n && forall i :: 0 <= i < |s| ==> IsHexDigit(s[i])
  }

  function HexDigit(d: nat): byte
    requires d < 16
  {
    if d < 10 then '0' + d as char else 'a' + (d - 10) as char
  }

  /** hex.EncodeToString. */
  function Hex(s: Bytes): (r: Bytes)
    ensures IsHex(r, |s|)
  {
    if s == [] then [] else
    [HexDigit(s[0] as int / 16), HexDigit(s[0] as int % 16)] + Hex(s[1..])
  }

  // ---------------------------------------------------------------- what is said

  const BOX_SEED: Bytes := "koutendb-auth-v1\0box\0"
  const TRANSPORT_SEED: Bytes := "koutendb-auth-v1\0transport\0"

  const VERSION_HEADER: Bytes := "WIREVER"
  const VERSION_REPLY: seq<Bytes> := ["WIREVER", "1"]
  const CODEC_HEADER: Bytes := "CODECMETA ON"
  const CODEC_REPLY: seq<Bytes> := ["OK", "codec-metadata"]

  function AuthHeader(c: Credentials): Bytes {
    "AUTH " + c.username + " " + c.password
  }

  function ChallengeHeader(c: Credentials): Bytes {
    "AUTHCHAL " + c.username
  }

  function AuthMessage(c: Credentials, challenge: Bytes): Bytes {
    "koutendb-auth-v1\n" + c.username + "\n" + c.password + "\n" + challenge
  }

  function Respond(sealed: Bytes): Bytes {
    "AUTHRESP " + Hex(sealed)
  }

  /** The sealed credentials that answer a challenge. */
  function ResponseHeader(derive: Bytes -> Box, c: Credentials, challenge: Bytes, nonce: Bytes): Bytes {
    Respond(nonce + derive(BOX_SEED + c.secretKey).seal(nonce, AuthMessage(c, challenge)))
  }

  function HelloHeader(galaxy: Bytes): Bytes {
    "HELLO " + galaxy
  }

  /** The key that seals the connection from the accepted response on. */
  function TransportKey(derive: Bytes -> Box, c: Credentials, challenge: Bytes): Box {
    derive(TRANSPORT_SEED + challenge + "\0" + c.secretKey)
  }

  predicate Encrypted(c: Credentials) {
    c.username != [] && c.secretKey != []
  }

  // ---------------------------------------------------------------- what has been agreed

  predicate IsOk(p: seq<Bytes>) {
    |p| == 2 && p[0] == "OK"
  }

  /** Number of steps that authenticate. */
  function AuthSteps(c: Credentials): nat {
    if c.username == [] then 0 else if c.secretKey == [] then 1 else 2
  }

  /** What does not change about the connections of a client. */
  datatype Setting = Setting(fl: Floats, derive: Bytes -> Box, max: nat)

  ghost function SettingOf(w: Wire): Setting {
    Setting(w.net.fl, w.net.derive, w.max)
  }

  /** What was handed over for this request is the beginning of one frame of it, under the connection's key. */
  ghost predicate SentPartly(talk: Talk) {
    exists nonce: Bytes ::
      |nonce| == 24 && talk.written <= Outgoing(talk.key, nonce, talk.request.header, talk.request.body)
  }

  /** It is one whole frame of it. */
  ghost predicate SentWholly(talk: Talk) {
    exists nonce: Bytes ::
      |nonce| == 24 && talk.written == Outgoing(talk.key, nonce, talk.request.header, talk.request.body)
  }

  /** A completed step: this header was handed over whole, sealed or in the clear, and these fields were read. */
  ghost predicate StepDone(x: Setting, node: nat, s: Step, header: Bytes, key: Option<Box>) {
    && s.talk.request == Request(node, header, [], true) && s.talk.key == key && SentWholly(s.talk)
    && s.talk.input.Some? && Heard(x.fl, x.max, WantFields, s.talk) == Ok(Fields(s.reply))
  }

  /** The first step of the key exchange: a challenge of 32 bytes was asked for in the clear, and read. */
  ghost predicate Challenged(x: Setting, node: nat, c: Credentials, steps: seq<Step>) {
    && |steps| > 0 && StepDone(x, node, steps[0], ChallengeHeader(c), None)
    && |steps[0].reply| == 2 && steps[0].reply[0] == "CHAL" && IsHex(steps[0].reply[1], 32)
  }

  /** The authentication steps, in the clear, in order and each with the reply it needs. */
  ghost predicate Authenticated(x: Setting, node: nat, c: Credentials, steps: seq<Step>) {
    && |steps| >= AuthSteps(c)
    && (AuthSteps(c) == 1 ==> StepDone(x, node, steps[0], AuthHeader(c), None) && IsOk(steps[0].reply))
    && (AuthSteps(c) == 2 ==>
          && Challenged(x, node, c, steps) && IsOk(steps[1].reply)
          && exists nonce: Bytes :: |nonce| == 24 &&
               StepDone(x, node, steps[1], ResponseHeader(x.derive, c, steps[0].reply[1], nonce), None))
  }

  /** The sealing key is the one derived from the challenge that was read, and there is one iff a secret is set. */
  ghost predicate RightKey(derive: Bytes -> Box, c: Credentials, steps: seq<Step>, key: Option<Box>) {
    if Encrypted(c) then |steps| > 0 && |steps[0].reply| == 2 && key == Some(TransportKey(derive, c, steps[0].reply[1]))
    else key == None
  }

  /** What follows the authentication. */
  function Agenda(o: Options): (hs: seq<Bytes>)
    ensures |hs| == if o.galaxy == [] then 2 else 3
  {
    (if o.galaxy == [] then [] else [HelloHeader(o.galaxy)]) + [VERSION_HEADER, CODEC_HEADER]
  }

  /** The replies that these steps need. */
  predicate Accepted(header: Bytes, p: seq<Bytes>) {
    if header == VERSION_HEADER then p == VERSION_REPLY
    else if header == CODEC_HEADER then p == CODEC_REPLY
    else IsOk(p)
  }

  /** A negotiation so far: authenticated, and then the first steps of the agenda, all under this key. */
  ghost predicate Agreed(x: Setting, node: nat, o: Options, steps: seq<Step>, key: Option<Box>) {
    var a := AuthSteps(o.credentials);
    && Authenticated(x, node, o.credentials, steps) && RightKey(x.derive, o.credentials, steps, key)
    && |steps| <= a + |Agenda(o)|
    && forall k :: 0 <= k < |steps| - a ==>
         StepDone(x, node, steps[a + k], Agenda(o)[k], key) && Accepted(Agenda(o)[k], steps[a + k].reply)
  }

  /** A complete negotiation, these steps and no others; what follows the authentication goes under this key. */
  ghost predicate Negotiated(x: Setting, node: nat, o: Options, steps: seq<Step>, key: Option<Box>) {
    Agreed(x, node, o, steps, key) && |steps| == AuthSteps(o.credentials) + |Agenda(o)|
  }

  lemma AgreedOn(x: Setting, node: nat, o: Options, steps: seq<Step>, key: Option<Box>, s: Step)
    requires Agreed(x, node, o, steps, key) && |steps| < AuthSteps(o.credentials) + |Agenda(o)|
    requires var header := Agenda(o)[|steps| - AuthSteps(o.credentials)];
             StepDone(x, node, s, header, key) && Accepted(header, s.reply)
    ensures Agreed(x, node, o, steps + [s], key)
  {
    hide StepDone, Accepted, Agenda, IsOk, IsHex;
  }

  /** The header that authenticates next, after these steps. */
  ghost predicate IsProof(x: Setting, node: nat, c: Credentials, steps: seq<Step>, header: Bytes) {
    if AuthSteps(c) == 1 then header == AuthHeader(c)
    else if steps == [] then header == ChallengeHeader(c)
    else
      && Challenged(x, node, c, steps)
      && exists nonce: Bytes :: |nonce| == 24 && header == ResponseHeader(x.derive, c, steps[0].reply[1], nonce)
  }

  /** The request of the handshake that is due after these steps, and the key it goes under. */
  ghost predicate Due(x: Setting, node: nat, o: Options, steps: seq<Step>, header: Bytes, key: Option<Box>) {
    var n, a := |steps|, AuthSteps(o.credentials);
    if n < a then key == None && IsProof(x, node, o.credentials, steps, header)
    else Agreed(x, node, o, steps, key) && n - a < |Agenda(o)| && header == Agenda(o)[n - a]
  }

  lemma ProofIsDue(x: Setting, node: nat, o: Options, steps: seq<Step>, challenge: Bytes, nonce: Bytes)
    requires AuthSteps(o.credentials) == 2 && |steps| == 1 && |nonce| == 24
    requires Challenged(x, node, o.credentials, steps) && steps[0].reply[1] == challenge
    ensures IsHex(challenge, 32)
    ensures Due(x, node, o, steps, ResponseHeader(x.derive, o.credentials, challenge, nonce), None)
  {
    hide StepDone, ResponseHeader, IsHex;
  }

  lemma ProofIsGiven(x: Setting, node: nat, c: Credentials, steps: seq<Step>, challenge: Bytes, nonce: Bytes, s: Step)
    requires AuthSteps(c) == 2 && |steps| == 1 && |nonce| == 24
    requires Challenged(x, node, c, steps) && steps[0].reply[1] == challenge
    requires StepDone(x, node, s, ResponseHeader(x.derive, c, challenge, nonce), None) && IsOk(s.reply)
    ensures Authenticated(x, node, c, steps + [s])
  {
    hide StepDone, ResponseHeader, IsHex, IsOk;
    assert (steps + [s])[0] == steps[0] && (steps + [s])[1] == s;
  }

  // ---------------------------------------------------------------- what is handed to connections

  /** The events of these steps. */
  ghost function Events(steps: seq<Step>): (es: seq<Event>)
    ensures |es| == |steps| && forall i :: 0 <= i < |es| ==> es[i] == Talked(steps[i].talk)
  {
    if steps == [] then [] else Events(steps[..|steps| - 1]) + [Talked(steps[|steps| - 1].talk)]
  }

  /** The last node dialed is this one, and these steps are all that has happened since. */
  ghost predicate Underway(t: seq<Event>, node: nat, steps: seq<Step>) {
    var d := |t| - |steps| - 1;
    d >= 0 && t[d] == Dialed(node) && t[d + 1..] == Events(steps)
  }

  lemma OneStep(t: seq<Event>, node: nat, steps: seq<Step>, s: Step)
    requires Underway(t, node, steps)
    ensures Underway(t + [Talked(s.talk)], node, steps + [s])
  {
    var d := |t| - |steps| - 1;
    assert (steps + [s])[..|steps|] == steps;
    assert (t + [Talked(s.talk)])[d + 1..] == t[d + 1..] + [Talked(s.talk)];
  }

  /** The handshake's requests: each is the one that is due, given what has been read since the node was dialed. */
  ghost predicate IsStep(x: Setting, o: Options, t: seq<Event>, q: Request, key: Option<Box>) {
    && q.step && q.body == []
    && exists steps: seq<Step> :: Underway(t, q.node, steps) && Due(x, q.node, o, steps, q.header, key)
  }

  /** The node was last dialed at `d`, and then these steps negotiated this key. */
  ghost predicate ReadyAt(x: Setting, o: Options, t: seq<Event>, node: nat, key: Option<Box>, d: nat,
                          steps: seq<Step>) {
    && d + |steps| < |t| && t[d] == Dialed(node) && t[d + 1..d + 1 + |steps|] == Events(steps)
    && (forall i :: d < i < |t| ==> t[i] != Dialed(node))
    && Negotiated(x, node, o, steps, key)
  }

  /** Since the node was last dialed, a whole negotiation has taken place that led to this key. */
  ghost predicate Ready(x: Setting, o: Options, t: seq<Event>, node: nat, key: Option<Box>) {
    exists d: nat, steps: seq<Step> :: ReadyAt(x, o, t, node, key, d, steps)
  }

  /**
   An event, given those before it: dialing, or a request of which no more than one frame was
   handed over.  In the handshake it is the one that is due; and other requests are made only
   after the whole negotiation, under the key that this has led to.
   */
  ghost predicate Accounted(x: Setting, o: Options, t: seq<Event>, e: Event) {
    match e
    case Dialed(_) => true
    case Talked(talk) =>
      && SentPartly(talk)
      && if talk.request.step then IsStep(x, o, t, talk.request, talk.key)
         else Ready(x, o, t, talk.request.node, talk.key)
    case _ => false
  }

  /** More has happened, all of it accounted for: no attempt began or ended, and no stray bytes were handed over. */
  ghost predicate Continues(x: Setting, o: Options, t: seq<Event>, u: seq<Event>) {
    t <= u && forall i :: |t| <= i < |u| ==> Accounted(x, o, u[..i], u[i])
  }

  /** The same, and nothing was dialed. */
  ghost predicate Talks(x: Setting, o: Options, t: seq<Event>, u: seq<Event>) {
    Continues(x, o, t, u) && forall i :: |t| <= i < |u| ==> u[i].Talked?
  }

  lemma TalksHere(x: Setting, o: Options, t: seq<Event>)
    ensures Talks(x, o, t, t)
  {
  }

  lemma ContinuesOn(x: Setting, o: Options, t: seq<Event>, u: seq<Event>, v: seq<Event>)
    requires Continues(x, o, t, u) && Continues(x, o, u, v)
    ensures Continues(x, o, t, v)
  {
    hide Accounted;
    forall i | |t| <= i < |u| ensures u[..i] == v[..i] {
      assert u == v[..|u|];
    }
  }

  lemma TalksOn(x: Setting, o: Options, t: seq<Event>, u: seq<Event>, v: seq<Event>)
    requires Talks(x, o, t, u) && Talks(x, o, u, v)
    ensures Talks(x, o, t, v)
  {
    hide Accounted;
    ContinuesOn(x, o, t, u, v);
  }

  /** A part of the handshake that went well, and what comes after it. */
  lemma GoesOn(x: Setting, o: Options, t: seq<Event>, u: seq<Event>, v: seq<Event>, e: Option<Error>)
    requires Talks(x, o, t, u) && Talks(x, o, u, v)
    requires CalledFor(x, WantFields, t, u, None) && CalledFor(x, WantFields, u, v, e)
    ensures Talks(x, o, t, v) && CalledFor(x, WantFields, t, v, e)
  {
    hide Accounted, Complaint, NetworkError;
    TalksOn(x, o, t, u, v);
  }

  /** Readiness lasts until the node is dialed again. */
  lemma ReadyLater(x: Setting, o: Options, t: seq<Event>, u: seq<Event>, node: nat, key: Option<Box>)
    requires Ready(x, o, t, node, key) && t <= u && forall i :: |t| <= i < |u| ==> u[i] != Dialed(node)
    ensures Ready(x, o, u, node, key)
  {
    hide Negotiated;
    var d: nat, steps: seq<Step> :| ReadyAt(x, o, t, node, key, d, steps);
    assert u[d + 1..d + 1 + |steps|] == t[d + 1..d + 1 + |steps|];
    assert ReadyAt(x, o, u, node, key, d, steps);
  }

  /** A negotiation right after dialing makes ready. */
  lemma ReadyNow(x: Setting, o: Options, t: seq<Event>, node: nat, key: Option<Box>, steps: seq<Step>)
    requires Underway(t, node, steps) && Negotiated(x, node, o, steps, key)
    ensures Ready(x, o, t, node, key)
  {
    hide Negotiated;
    var d := |t| - |steps| - 1;
    forall i | d < i < |t| ensures t[i] != Dialed(node) {
      assert t[i] == t[d + 1..][i - d - 1];
    }
    assert ReadyAt(x, o, t, node, key, d, steps);
  }

  lemma SameKey(x: Setting, node: nat, o: Options, a: seq<Step>, key: Option<Box>, b: seq<Step>, other: Option<Box>)
    requires Negotiated(x, node, o, a, key) && Negotiated(x, node, o, b, other)
    requires a != [] && b != [] ==> a[0].talk == b[0].talk
    ensures key == other
  {
    hide Heard, SentWholly, Agenda, Accepted, IsHex;
  }

  /** So what an observer has seen determines the key under which a request may go. */
  lemma KeyIsDetermined(x: Setting, o: Options, t: seq<Event>, node: nat, key: Option<Box>, other: Option<Box>)
    requires Ready(x, o, t, node, key) && Ready(x, o, t, node, other)
    ensures key == other
  {
    hide Negotiated, Events;
    var d: nat, steps: seq<Step> :| ReadyAt(x, o, t, node, key, d, steps);
    var e: nat, others: seq<Step> :| ReadyAt(x, o, t, node, other, e, others);
    assert d == e;
    if steps != [] && others != [] {
      assert Talked(steps[0].talk) == t[d + 1..d + 1 + |steps|][0] == t[d + 1];
      assert Talked(others[0].talk) == t[d + 1..d + 1 + |others|][0] == t[d + 1];
    }
    SameKey(x, node, o, steps, key, others, other);
  }

  /** The steps since the node was dialed are all that was added in the meantime. */
  lemma SameDial(x: Setting, o: Options, t: seq<Event>, u: seq<Event>, node: nat, steps: seq<Step>)
    requires Underway(t, node, []) && Underway(u, node, steps) && Talks(x, o, t, u)
    ensures u == t + Events(steps)
  {
    hide Accounted;
    var d := |u| - |steps| - 1;
    forall i | d < i < |u| ensures u[i].Talked? {
      assert u[i] == u[d + 1..][i - d - 1];
    }
    assert d == |t| - 1;
    assert u == u[..d + 1] + u[d + 1..];
  }

  /** What one exchange adds to the events and to the requests asked so far. */
  lemma AddedByExchange(x: Setting, o: Options, nonce: Bytes, t: seq<Event>, talk: Talk, attempted: bool)
    requires |nonce| == 24 && talk.written <= Outgoing(talk.key, nonce, talk.request.header, talk.request.body)
    requires if talk.request.step then IsStep(x, o, t, talk.request, talk.key)
             else Ready(x, o, t, talk.request.node, talk.key)
    ensures var u := t + (if attempted then [Talked(talk)] else []);
            && Talks(x, o, t, u)
            && Asked(u) == Asked(t) + (if attempted && !talk.request.step then [talk] else [])
    ensures SentPartly(talk)
    ensures talk.written == Outgoing(talk.key, nonce, talk.request.header, talk.request.body) ==> SentWholly(talk)
  {
    hide Outgoing, IsStep, Ready;
    AskedOfOne(t, Talked(talk));
    assert t + [] == t;
    assert (t + [Talked(talk)])[..|t|] == t;
  }

  // ---------------------------------------------------------------- what failures come from

  /** What the network, or the end of a context, can do at any moment. */
  predicate NetworkError(e: Error) {
    IsContext(e) || e in {Fail(Connection), Fail(Kind.Timeout)}
  }

  /** The replies after which the handshake goes on. */
  predicate Welcome(header: Bytes, p: seq<Bytes>) {
    if header == "WIREVER" then p == ["WIREVER", "1"]
    else if header == "CODECMETA ON" then p == ["OK", "codec-metadata"]
    else if "AUTHCHAL " <= header then |p| == 2 && p[0] == "CHAL" && IsHex(p[1], 32)
    else |p| == 2 && p[0] == "OK"
  }

  /** What any other reply means. */
  function Refusal(header: Bytes, p: seq<Bytes>): Error
    requires |p| > 0
  {
    if p[0] == "ERR" then Fail(if header == "CODECMETA ON" then Server else Authentication)
    else if header == "WIREVER" && |p| == 2 && p[0] == "WIREVER" then Fail(Version)
    else Fail(Protocol)
  }

  /** The error that a request calls for by what was read in reply, if any. */
  function Complaint(x: Setting, want: Want, talk: Talk): Option<Error>
    requires talk.input.Some?
  {
    match Heard(x.fl, x.max, if talk.request.step then WantFields else want, talk)
    case Err(d) => if d.Kouten? then Some(d) else None
    case Ok(Fields(p)) =>
      if p == [] || Welcome(talk.request.header, p) then None else Some(Refusal(talk.request.header, p))
    case Ok(_) => None
  }

  /** The error that the last thing that happened since then calls for, if any. */
  function CallsFor(x: Setting, want: Want, t: seq<Event>, u: seq<Event>): Option<Error> {
    if |u| > |t| && u[|u| - 1].Talked? && u[|u| - 1].talk.input.Some? then Complaint(x, want, u[|u| - 1].talk) else None
  }

  /** The outcome is the error called for; or, if none is, success or a failure of the network. */
  predicate CalledFor(x: Setting, want: Want, t: seq<Event>, u: seq<Event>, e: Option<Error>) {
    match CallsFor(x, want, t, u)
    case Some(d) => e == Some(d)
    case None => e.Some? ==> NetworkError(e.value)
  }

  /** And it is the context's error if and only if that has come to an end. */
  predicate Seen(before: Option<Error>, after: Option<Error>, e: Option<Error>) {
    before == None ==> if e.Some? then Reports(after, e.value) else after == None
  }

  lemma CalledForHere(x: Setting, want: Want, t: seq<Event>)
    ensures CalledFor(x, want, t, t, None)
  {
  }

  /**
   The failure of an operation: the end of its context, if that was seen; and otherwise the error
   called for, or if none is, the network's.
   */
  predicate Blames(end: Option<Error>, x: Setting, want: Want, t: seq<Event>, u: seq<Event>, e: Error) {
    if end.Some? then e == end.value else !IsContext(e) && CalledFor(x, want, t, u, Some(e))
  }

  lemma CalledForOn(x: Setting, want: Want, t: seq<Event>, u: seq<Event>, v: seq<Event>, e: Option<Error>)
    requires t <= u <= v && CalledFor(x, want, u, v, e) && (u == v ==> CalledFor(x, want, t, u, None))
    ensures CalledFor(x, want, t, v, e)
  {
    hide Complaint, NetworkError;
  }

  lemma BlamesOn(end: Option<Error>, x: Setting, want: Want, t: seq<Event>, u: seq<Event>, v: seq<Event>, e: Error)
    requires t <= u <= v && Blames(end, x, want, u, v, e) && (u == v ==> CalledFor(x, want, t, u, None))
    ensures Blames(end, x, want, t, v, e)
  {
    hide CalledFor;
    if end.None? {
      CalledForOn(x, want, t, u, v, Some(e));
    }
  }

  lemma StarvedCalls(x: Setting, t: seq<Event>)
    ensures CalledFor(x, WantFields, t, t, Some(Fail(Connection)))
  {
  }

  // ---------------------------------------------------------------- headers fit

  predicate Harmless(s: Bytes) {
    Free(s, '\r') && Free(s, '\n') && Free(s, '\0')
  }

  lemma FieldIsHarmless(s: Bytes)
    requires PlainField(s)
    ensures Harmless(s) && |s| <= 1024
  {
  }

  /** Every header of the handshake passes the check of exchange, for all normal options. */
  lemma HandshakeHeadersFit(o: Options)
    requires Normal(o)
    ensures Acceptable(o.maxFrameBytes, AuthHeader(o.credentials), [])
    ensures Acceptable(o.maxFrameBytes, ChallengeHeader(o.credentials), [])
    ensures Acceptable(o.maxFrameBytes, HelloHeader(o.galaxy), [])
    ensures Acceptable(o.maxFrameBytes, VERSION_HEADER, []) && Acceptable(o.maxFrameBytes, CODEC_HEADER, [])
  {
    FieldIsHarmless(o.credentials.username);
    FieldIsHarmless(o.credentials.password);
    FieldIsHarmless(o.galaxy);
  }

  lemma ResponseFits(derive: Bytes -> Box, o: Options, challenge: Bytes, nonce: Bytes)
    requires Normal(o) && IsHex(challenge, 32) && |nonce| == 24 && Sound(derive(BOX_SEED + o.credentials.secretKey))
    ensures Acceptable(o.maxFrameBytes, ResponseHeader(derive, o.credentials, challenge, nonce), [])
  {
    var c := o.credentials;
    var sealed := nonce + derive(BOX_SEED + c.secretKey).seal(nonce, AuthMessage(c, challenge));
    assert |sealed| <= 2171;
    assert Harmless(Hex(sealed));
  }

  // ---------------------------------------------------------------- the handshake

  /** A server that accepts this client's negotiation up to the codec metadata, as far as its replies go. */
  ghost predicate Welcoming(net: Net, node: nat, o: Options)
    reads net`answer
  {
    var c := o.credentials;
    && (AuthSteps(c) == 1 ==> SaysOk(net.answer(node, AuthHeader(c), [])))
    && (AuthSteps(c) == 2 ==>
          && SaysChallenge(net.answer(node, ChallengeHeader(c), []))
          && AcceptsResponses(net, node))
    && (o.galaxy != [] ==> SaysOk(net.answer(node, HelloHeader(o.galaxy), [])))
    && Says(net.answer(node, VERSION_HEADER, []), VERSION_REPLY)
  }

  /** One that accepts all of it. */
  ghost predicate Cooperative(net: Net, node: nat, o: Options)
    reads net`answer
  {
    Welcoming(net, node, o) && Says(net.answer(node, CODEC_HEADER, []), CODEC_REPLY)
  }

  /** One that answers the codec metadata with an error. */
  ghost predicate RefusesCodecs(net: Net, node: nat, o: Options)
    reads net`answer
  {
    Welcoming(net, node, o) && SaysError(net.answer(node, CODEC_HEADER, []))
  }

  predicate SaysError(rep: Reply) {
    var p := Words(rep.head);
    |rep.head| <= MAX_HEADER && p.Ok? && p.value[0] == "ERR"
  }

  ghost predicate AcceptsResponses(net: Net, node: nat)
    reads net`answer
  {
    forall x: Bytes {:trigger Respond(x)} :: SaysOk(net.answer(node, Respond(x), []))
  }

  predicate Says(rep: Reply, p: seq<Bytes>) {
    |rep.head| <= MAX_HEADER && Words(rep.head) == Ok(p)
  }

  /** The reply has n fields, the first of which is the tag. */
  predicate Answers(rep: Reply, tag: Bytes, n: nat) {
    var p := Words(rep.head);
    |rep.head| <= MAX_HEADER && p.Ok? && |p.value| == n && p.value[0] == tag
  }

  predicate SaysOk(rep: Reply) {
    Answers(rep, "OK", 2)
  }

  predicate SaysChallenge(rep: Reply) {
    Answers(rep, "CHAL", 2) && IsHex(Words(rep.head).value[1], 32)
  }

  predicate HandshakeError(e: Error) {
    || IsContext(e)
    || e in {Fail(Connection), Fail(Kind.Timeout), Fail(Server), Fail(Protocol), Fail(Authentication), Fail(Version)}
  }

  /** What ack makes of the fields of a reply. */
  function Judge(p: seq<Bytes>, tag: Bytes, n: nat, auth: bool): (r: Result<seq<Bytes>>)
    requires n > 0
    ensures r.Ok? ==> r.value == p && |p| == n && p[0] == tag
    ensures r.Err? ==> r.error in {Fail(Authentication), Fail(Server), Fail(Protocol)}
  {
    match Expect(p, tag, n, auth)
    case None => Ok(p)
    case Some(e) => Err(e)
  }

  /** Replies that ack refuses are the ones that are not welcome, and it gives the error they call for. */
  ghost predicate Suits(header: Bytes, tag: Bytes, n: nat, auth: bool)
    requires n > 0
  {
    forall p: seq<Bytes> :: |p| > 0 && Judge(p, tag, n, auth).Err? ==>
      !Welcome(header, p) && Judge(p, tag, n, auth) == Err(Refusal(header, p))
  }

  lemma JudgedRightly(header: Bytes, p: seq<Bytes>, tag: Bytes, n: nat, auth: bool)
    requires n > 0 && |p| > 0 && Suits(header, tag, n, auth)
    ensures var r := Judge(p, tag, n, auth);
            r.Err? ==> !Welcome(header, p) && r.error == Refusal(header, p)
  {
    hide Judge, Welcome, Refusal;
  }

  lemma PlainSuits(header: Bytes)
    requires header !in {"WIREVER", "CODECMETA ON"} && !("AUTHCHAL " <= header)
    ensures Suits(header, "OK", 2, true)
  {
  }

  lemma ChallengeSuits(header: Bytes)
    requires header !in {"WIREVER", "CODECMETA ON"} && "AUTHCHAL " <= header
    ensures Suits(header, "CHAL", 2, true)
  {
    hide IsHex;
  }

  lemma AgreementSuits()
    ensures Suits(VERSION_HEADER, "WIREVER", 2, true) && Suits(CODEC_HEADER, "OK", 2, false)
  {
    hide IsHex;
  }

  lemma TagsSuit(c: Credentials, galaxy: Bytes, sealed: Bytes)
    ensures Suits(AuthHeader(c), "OK", 2, true) && Suits(ChallengeHeader(c), "CHAL", 2, true)
    ensures Suits(Respond(sealed), "OK", 2, true) && Suits(HelloHeader(galaxy), "OK", 2, true)
  {
    hide Suits, AuthHeader, ChallengeHeader, Respond, HelloHeader;
    HeadersDiffer(c, galaxy, sealed);
    PlainSuits(AuthHeader(c));
    ChallengeSuits(ChallengeHeader(c));
    PlainSuits(Respond(sealed));
    PlainSuits(HelloHeader(galaxy));
  }

  lemma OkIsWelcome(c: Credentials, galaxy: Bytes, sealed: Bytes, p: seq<Bytes>)
    requires IsOk(p)
    ensures Welcome(AuthHeader(c), p) && Welcome(Respond(sealed), p) && Welcome(HelloHeader(galaxy), p)
  {
    hide AuthHeader, ChallengeHeader, Respond, HelloHeader;
    HeadersDiffer(c, galaxy, sealed);
  }

  /** A challenge of another length, or not in hexadecimal, is a protocol error. */
  lemma ChallengeIsWelcome(c: Credentials, p: seq<Bytes>)
    requires |p| == 2 && p[0] == "CHAL"
    ensures if IsHex(p[1], 32) then Welcome(ChallengeHeader(c), p)
            else !Welcome(ChallengeHeader(c), p) && Refusal(ChallengeHeader(c), p) == Fail(Protocol)
  {
    hide AuthHeader, ChallengeHeader, Respond, HelloHeader, IsHex;
    HeadersDiffer(c, [], []);
  }

  /** What a completed step calls for: to go on, if its reply is welcome. */
  lemma StepCalls(x: Setting, node: nat, t: seq<Event>, talk: Talk, p: seq<Bytes>, header: Bytes, key: Option<Box>)
    requires StepDone(x, node, Step(talk, p), header, key) && |p| > 0
    ensures CalledFor(x, WantFields, t, t + [Talked(talk)],
                      if Welcome(header, p) then None else Some(Refusal(header, p)))
  {
    hide Welcome, Refusal, Heard;
  }

  lemma HeadersDiffer(c: Credentials, galaxy: Bytes, sealed: Bytes)
    ensures "AUTHCHAL " <= ChallengeHeader(c)
    ensures !("AUTHCHAL " <= AuthHeader(c)) && !("AUTHCHAL " <= Respond(sealed))
    ensures !("AUTHCHAL " <= HelloHeader(galaxy))
    ensures AuthHeader(c) !in {"WIREVER", "CODECMETA ON"} && ChallengeHeader(c) !in {"WIREVER", "CODECMETA ON"}
    ensures Respond(sealed) !in {"WIREVER", "CODECMETA ON"} && HelloHeader(galaxy) !in {"WIREVER", "CODECMETA ON"}
  {
    var a, b, d, h := AuthHeader(c), ChallengeHeader(c), Respond(sealed), HelloHeader(galaxy);
    assert a[0] == 'A' && a[4] == ' ' && b[0] == 'A' && d[0] == 'A' && d[4] == 'R' && h[0] == 'H';
    assert b == "AUTHCHAL " + c.username;
  }

  /** These steps and one more, of which the reply was not the expected one. */
  ghost predicate Refused(before: seq<Step>, now: seq<Step>, talk: Talk, tag: Bytes, n: nat, auth: bool, e: Error)
    requires n > 0
  {
    exists p: seq<Bytes> :: now == before + [Step(talk, p)] && Judge(p, tag, n, auth) == Err(e)
  }

  /** What an exchange fails with is what was read in reply, or the network's failure. */
  lemma ExchangeCalls(x: Setting, want: Want, t: seq<Event>, talk: Talk, attempted: bool, g: Result<Got>)
    requires talk.input.Some? ==>
               attempted && Mapped(Heard(x.fl, x.max, if talk.request.step then WantFields else want, talk), g)
    requires g.Ok? || g.error in {Fail(Server), Fail(Protocol)} ==> talk.input.Some?
    requires g.Err? ==> NetworkError(g.error) || g.error in {Fail(Server), Fail(Protocol)}
    ensures var u := t + (if attempted then [Talked(talk)] else []);
            && (g.Err? ==> CalledFor(x, want, t, u, Some(g.error)))
            && (g.Ok? && !g.value.Fields? ==> CalledFor(x, want, t, u, None))
            && (g.Ok? ==> Heard(x.fl, x.max, if talk.request.step then WantFields else want, talk) == g)
  {
    hide Heard, Welcome, Refusal;
  }

  /** handshake's ack: one step, with the reply it expects. */
  method Ack(w: Wire, ctx: Context, o: Options, header: Bytes, tag: Bytes, n: nat, auth: bool)
    returns (r: Result<seq<Bytes>>, ghost talk: Talk)
    requires Underway(w.net.trace, w.node, w.steps) && Due(SettingOf(w), w.node, o, w.steps, header, w.key)
    requires w.Usable() && ctx.Valid() && n > 0 && tag != "VAL" && Acceptable(w.max, header, [])
    requires Suits(header, tag, n, auth)
    modifies w`plain, w`input, w`owed, w`sent, w`broken, w`steps, ctx, w.net`trace
    ensures w.Sane() && ctx.Valid() && (r.Ok? ==> w.Usable())
    // what was handed over, if anything: this header, under the key of the connection
    ensures w.net.trace == old(w.net.trace) + [Talked(talk)] || (r.Err? && w.net.trace == old(w.net.trace))
    ensures talk.request == Request(w.node, header, [], true) && talk.key == w.key && SentPartly(talk)
    ensures r.Ok? ==>
              && |r.value| == n && r.value[0] == tag && w.steps == old(w.steps) + [Step(talk, r.value)]
              && Underway(w.net.trace, w.node, w.steps)
              && StepDone(SettingOf(w), w.node, Step(talk, r.value), header, w.key)
    ensures r.Err? ==> HandshakeError(r.error)
    ensures r.Err? ==> CalledFor(SettingOf(w), WantFields, old(w.net.trace), w.net.trace, Some(r.error))
    ensures if r.Err? then Reports(ctx.err, r.error) else ctx.err == None
    ensures r.Err? ==> w.steps == old(w.steps) || Refused(old(w.steps), w.steps, talk, tag, n, auth, r.error)
    ensures Asked(w.net.trace) == Asked(old(w.net.trace))
    ensures Talks(SettingOf(w), o, old(w.net.trace), w.net.trace)
    ensures w.net.calm && ctx.calm ==>
              var rep := w.net.answer(w.node, header, []);
              Words(rep.head).Ok? && |rep.head| <= MAX_HEADER && !IsValueHead(rep.head) ==>
                r == Judge(Words(rep.head).value, tag, n, auth)
  {
    hide Suits, Judge, Refusal, Complaint, Heard, Left, Outgoing, Due, Talks, Acceptable, Pending, SentPartly,
      Proper, Carries, Underway, Welcome, CalledFor;
    ghost var t, before := w.net.trace, w.steps;
    var g, attempted;
    ghost var nonce;
    g, attempted, nonce, talk := w.Exchange(ctx, header, [], WantFields);
    AddedByExchange(SettingOf(w), o, nonce, t, talk, attempted);
    ExchangeCalls(SettingOf(w), WantFields, t, talk, attempted, g);
    if g.Err? {
      return Err(g.error), talk;
    }
    var p := g.value.p;
    OneStep(t, w.node, before, Step(talk, p));
    StepCalls(SettingOf(w), w.node, t, talk, p, header, w.key);
    JudgedRightly(header, p, tag, n, auth);
    r := Judge(p, tag, n, auth);
  }

  /** Where the handshake stands: authenticated, and so many steps into the agenda. */
  ghost predicate Reached(w: Wire, o: Options, k: nat)
    reads w, w.net`trace
  {
    && w.Usable() && |w.steps| == AuthSteps(o.credentials) + k
    && Agreed(SettingOf(w), w.node, o, w.steps, w.key)
    && Underway(w.net.trace, w.node, w.steps)
  }

  /** From here on the connection is sealed. */
  method InstallKey(w: Wire, k: Box)
    requires w.Usable() && w.key == None && Sound(k)
    modifies w`key
    ensures w.Usable() && w.key == Some(k)
  {
    w.key := Some(k);
    if w.net.honest {
      assert Encode(k, []) == [] && Texts([]) == [];
      assert Carries(w.key, [], []);
    }
  }

  /** AUTHRESP: the credentials sealed with the key derived from the secret. */
  method SendResponse(w: Wire, ctx: Context, o: Options, challenge: Bytes) returns (e: Option<Error>)
    requires w.Usable() && ctx.Valid() && Normal(o) && w.max == o.maxFrameBytes && w.key == None
    requires AuthSteps(o.credentials) == 2 && |w.steps| == 1 && Underway(w.net.trace, w.node, w.steps)
    requires Challenged(SettingOf(w), w.node, o.credentials, w.steps) && w.steps[0].reply[1] == challenge
    modifies w`plain, w`input, w`owed, w`sent, w`broken, w`steps, ctx, w.net`trace
    ensures ctx.Valid() && w.Sane() && Asked(w.net.trace) == Asked(old(w.net.trace))
    ensures Talks(SettingOf(w), o, old(w.net.trace), w.net.trace)
    ensures CalledFor(SettingOf(w), WantFields, old(w.net.trace), w.net.trace, e) && Seen(old(ctx.err), ctx.err, e)
    ensures e.Some? ==> HandshakeError(e.value)
    ensures e.None? ==>
              && w.Usable() && |w.steps| == 2 && old(w.steps) <= w.steps && Underway(w.net.trace, w.node, w.steps)
              && Authenticated(SettingOf(w), w.node, o.credentials, w.steps)
    ensures w.net.calm && ctx.calm && AcceptsResponses(w.net, w.node) ==> e.None?
  {
    hide Refused, Acceptable, Pending, Sound, Asked, Talks, StepDone, SentPartly, Underway, Due, Challenged,
      Authenticated, Normal, Suits, Welcome, Refusal, CalledFor, NetworkError;
    ghost var x, before := SettingOf(w), w.steps;
    var nonce := AnyBytes();
    if |nonce| != 24 {
      nonce := ZERO_NONCE;
    }
    var starved := Maybe();
    if starved && !w.net.calm {
      TalksHere(SettingOf(w), o, w.net.trace);
      StarvedCalls(SettingOf(w), w.net.trace);
      return Some(Fail(Connection));
    }
    ProofIsDue(x, w.node, o, before, challenge, nonce);
    ResponseFits(w.net.derive, o, challenge, nonce);
    ghost var t, sealed := w.net.trace, nonce + w.net.derive(BOX_SEED + o.credentials.secretKey)
                                          .seal(nonce, AuthMessage(o.credentials, challenge));
    TagsSuit(o.credentials, [], sealed);
    var p, talk := Ack(w, ctx, o, ResponseHeader(w.net.derive, o.credentials, challenge, nonce), "OK", 2, true);
    if p.Err? {
      return Some(p.error);
    }
    ProofIsGiven(x, w.node, o.credentials, before, challenge, nonce, Step(talk, p.value));
    StepCalls(x, w.node, t, talk, p.value, Respond(sealed), None);
    OkIsWelcome(o.credentials, [], sealed, p.value);
    e := None;
  }

  /** The answer to a challenge, and the key that goes with it. */
  method ProveIdentity(w: Wire, ctx: Context, o: Options, challenge: Bytes) returns (e: Option<Error>)
    requires w.Usable() && ctx.Valid() && Normal(o) && w.max == o.maxFrameBytes && w.key == None
    requires AuthSteps(o.credentials) == 2 && |w.steps| == 1 && Underway(w.net.trace, w.node, w.steps)
    requires StepDone(SettingOf(w), w.node, w.steps[0], ChallengeHeader(o.credentials), None)
    requires w.steps[0].reply == ["CHAL", challenge]
    modifies w`key, w`plain, w`input, w`owed, w`sent, w`broken, w`steps, ctx, w.net`trace
    ensures ctx.Valid() && w.Sane() && Asked(w.net.trace) == Asked(old(w.net.trace))
    ensures Talks(SettingOf(w), o, old(w.net.trace), w.net.trace)
    ensures IsHex(challenge, 32) ==>
              CalledFor(SettingOf(w), WantFields, old(w.net.trace), w.net.trace, e) && Seen(old(ctx.err), ctx.err, e)
    ensures if e.Some? then HandshakeError(e.value) else Reached(w, o, 0)
    ensures !IsHex(challenge, 32) ==>
              && e == Some(Fail(Protocol)) && ctx.err == old(ctx.err)
              && w.sent == old(w.sent) && w.net.trace == old(w.net.trace)
    ensures w.net.calm && ctx.calm && Welcoming(w.net, w.node, o) && IsHex(challenge, 32) ==> e.None?
  {
    hide Asked, Talks, StepDone, Pending, Underway, Suits, Welcome, Refusal, CalledFor, NetworkError;
    var c := o.credentials;
    if !IsHex(challenge, 32) {
      TalksHere(SettingOf(w), o, w.net.trace);
      return Some(Fail(Protocol));
    }
    e := SendResponse(w, ctx, o, challenge);
    if e.None? {
      InstallKey(w, TransportKey(w.net.derive, c, challenge));
    }
  }

  /** AUTH: username and password. */
  method SendPassword(w: Wire, ctx: Context, o: Options) returns (e: Option<Error>)
    requires w.Usable() && ctx.Valid() && Normal(o) && w.max == o.maxFrameBytes && w.key == None && w.steps == []
    requires Underway(w.net.trace, w.node, []) && AuthSteps(o.credentials) == 1
    modifies w`key, w`plain, w`input, w`owed, w`sent, w`broken, w`steps, ctx, w.net`trace
    ensures ctx.Valid() && w.Sane() && Asked(w.net.trace) == Asked(old(w.net.trace))
    ensures Talks(SettingOf(w), o, old(w.net.trace), w.net.trace)
    ensures CalledFor(SettingOf(w), WantFields, old(w.net.trace), w.net.trace, e) && Seen(old(ctx.err), ctx.err, e)
    ensures if e.Some? then HandshakeError(e.value) else Reached(w, o, 0)
    ensures w.net.calm && ctx.calm && Welcoming(w.net, w.node, o) ==> e.None?
  {
    hide AuthHeader, Complaint, Refused, Acceptable, Pending, Sound, Asked, Talks, StepDone, Underway, SentPartly,
      Suits, Welcome, Refusal, CalledFor, NetworkError, Accepted, Normal;
    ghost var t := w.net.trace;
    HandshakeHeadersFit(o);
    TagsSuit(o.credentials, [], []);
    var p, talk := Ack(w, ctx, o, AuthHeader(o.credentials), "OK", 2, true);
    if p.Err? {
      return Some(p.error);
    }
    StepCalls(SettingOf(w), w.node, t, talk, p.value, AuthHeader(o.credentials), None);
    OkIsWelcome(o.credentials, [], [], p.value);
    e := None;
  }

  /** AUTHCHAL, and the answer to the challenge. */
  method ExchangeKeys(w: Wire, ctx: Context, o: Options) returns (e: Option<Error>)
    requires w.Usable() && ctx.Valid() && Normal(o) && w.max == o.maxFrameBytes && w.key == None && w.steps == []
    requires Underway(w.net.trace, w.node, []) && AuthSteps(o.credentials) == 2
    modifies w`key, w`plain, w`input, w`owed, w`sent, w`broken, w`steps, ctx, w.net`trace
    ensures ctx.Valid() && w.Sane() && Asked(w.net.trace) == Asked(old(w.net.trace))
    ensures Talks(SettingOf(w), o, old(w.net.trace), w.net.trace)
    ensures CalledFor(SettingOf(w), WantFields, old(w.net.trace), w.net.trace, e) && Seen(old(ctx.err), ctx.err, e)
    ensures if e.Some? then HandshakeError(e.value) else Reached(w, o, 0)
    ensures w.net.calm && ctx.calm && Welcoming(w.net, w.node, o) ==> e.None?
  {
    hide ChallengeHeader, Complaint, Refused, Acceptable, Pending, Sound, Asked, Talks, StepDone, Underway,
      SentPartly, Suits, Welcome, Refusal, CalledFor, NetworkError, Accepted, Normal, Reached, AcceptsResponses;
    ghost var t := w.net.trace;
    HandshakeHeadersFit(o);
    TagsSuit(o.credentials, [], []);
    var p, talk := Ack(w, ctx, o, ChallengeHeader(o.credentials), "CHAL", 2, true);
    if p.Err? {
      return Some(p.error);
    }
    ghost var u := w.net.trace;
    StepCalls(SettingOf(w), w.node, t, talk, p.value, ChallengeHeader(o.credentials), None);
    ChallengeIsWelcome(o.credentials, p.value);
    e := ProveIdentity(w, ctx, o, p.value[1]);
    TalksOn(SettingOf(w), o, t, u, w.net.trace);
    if IsHex(p.value[1], 32) {
      GoesOn(SettingOf(w), o, t, u, w.net.trace, e);
    }
  }

  /** The first part of handshake: password, or challenge and key exchange. */
  method Authenticate(w: Wire, ctx: Context, o: Options) returns (e: Option<Error>)
    requires w.Usable() && ctx.Valid() && Normal(o) && w.max == o.maxFrameBytes && w.key == None && w.steps == []
    requires Underway(w.net.trace, w.node, [])
    modifies w`key, w`plain, w`input, w`owed, w`sent, w`broken, w`steps, ctx, w.net`trace
    ensures ctx.Valid() && w.Sane() && Asked(w.net.trace) == Asked(old(w.net.trace))
    ensures Talks(SettingOf(w), o, old(w.net.trace), w.net.trace)
    ensures CalledFor(SettingOf(w), WantFields, old(w.net.trace), w.net.trace, e) && Seen(old(ctx.err), ctx.err, e)
    ensures if e.Some? then HandshakeError(e.value) else Reached(w, o, 0)
    ensures w.net.calm && ctx.calm && Welcoming(w.net, w.node, o) ==> e.None?
  {
    hide Pending, Sound, Asked, Talks, StepDone, Underway, CalledFor, Normal, Welcoming;
    var c := o.credentials;
    e := None;
    if c.username == [] {
      TalksHere(SettingOf(w), o, w.net.trace);
      CalledForHere(SettingOf(w), WantFields, w.net.trace);
    } else if c.secretKey == [] {
      e := SendPassword(w, ctx, o);
    } else {
      e := ExchangeKeys(w, ctx, o);
    }
  }

  /** The galaxy, if one is set. */
  method Greet(w: Wire, ctx: Context, o: Options) returns (e: Option<Error>)
    requires Reached(w, o, 0) && ctx.Valid() && Normal(o) && w.max == o.maxFrameBytes
    modifies w`plain, w`input, w`owed, w`sent, w`broken, w`steps, ctx, w.net`trace
    ensures ctx.Valid() && Asked(w.net.trace) == Asked(old(w.net.trace))
    ensures Talks(SettingOf(w), o, old(w.net.trace), w.net.trace)
    ensures CalledFor(SettingOf(w), WantFields, old(w.net.trace), w.net.trace, e) && Seen(old(ctx.err), ctx.err, e)
    ensures if e.Some? then HandshakeError(e.value) else Reached(w, o, |Agenda(o)| - 2)
    ensures w.net.calm && ctx.calm && Welcoming(w.net, w.node, o) ==> e.None?
  {
    hide Asked, Talks, StepDone, Pending, Agreed, Refused, Acceptable, SentPartly, Underway, Suits, Welcome,
      Refusal, CalledFor, NetworkError;
    ghost var before, t := w.steps, w.net.trace;
    if o.galaxy == [] {
      TalksHere(SettingOf(w), o, t);
      CalledForHere(SettingOf(w), WantFields, t);
      return None;
    }
    HandshakeHeadersFit(o);
    TagsSuit(o.credentials, o.galaxy, []);
    var p, talk := Ack(w, ctx, o, HelloHeader(o.galaxy), "OK", 2, true);
    if p.Err? {
      return Some(p.error);
    }
    assert HelloHeader(o.galaxy)[0] == 'H';
    AgreedOn(SettingOf(w), w.node, o, before, w.key, Step(talk, p.value));
    StepCalls(SettingOf(w), w.node, t, talk, p.value, HelloHeader(o.galaxy), w.key);
    OkIsWelcome(o.credentials, o.galaxy, [], p.value);
    e := None;
  }

  /** What a calm exchange of handshake makes of a reply with these words. */
  lemma SaidIsJudged(rep: Reply, p: seq<Bytes>)
    requires Says(rep, p) && |p| > 0 && p[0] != "VAL"
    ensures Words(rep.head).Ok? && |rep.head| <= MAX_HEADER && !IsValueHead(rep.head) && Words(rep.head).value == p
  {
  }

  lemma VersionReplies(p: seq<Bytes>)
    requires |p| == 2 && p[0] == "WIREVER"
    ensures if p[1] == "1" then Welcome(VERSION_HEADER, p)
            else !Welcome(VERSION_HEADER, p) && Refusal(VERSION_HEADER, p) == Fail(Version)
  {
  }

  lemma CodecReplies(p: seq<Bytes>)
    requires |p| == 2 && p[0] == "OK"
    ensures if p[1] == "codec-metadata" then Welcome(CODEC_HEADER, p)
            else !Welcome(CODEC_HEADER, p) && Refusal(CODEC_HEADER, p) == Fail(Protocol)
  {
  }

  /** The wire version. */
  method AgreeWire(w: Wire, ctx: Context, o: Options) returns (e: Option<Error>)
    requires Reached(w, o, |Agenda(o)| - 2) && ctx.Valid()
    modifies w`plain, w`input, w`owed, w`sent, w`broken, w`steps, ctx, w.net`trace
    ensures ctx.Valid() && Asked(w.net.trace) == Asked(old(w.net.trace))
    ensures Talks(SettingOf(w), o, old(w.net.trace), w.net.trace)
    ensures CalledFor(SettingOf(w), WantFields, old(w.net.trace), w.net.trace, e) && Seen(old(ctx.err), ctx.err, e)
    ensures if e.Some? then HandshakeError(e.value) else Reached(w, o, |Agenda(o)| - 1)
    ensures w.net.calm && ctx.calm && Says(w.net.answer(w.node, VERSION_HEADER, []), VERSION_REPLY) ==> e.None?
  {
    hide Words, IsValueHead, Refused, Asked, Talks, Pending, Sound, Agreed, StepDone, SentPartly, Underway, Says,
      Suits, Welcome, Refusal, CalledFor, NetworkError;
    ghost var before, t, rep := w.steps, w.net.trace, w.net.answer(w.node, VERSION_HEADER, []);
    AgreementSuits();
    if Says(rep, VERSION_REPLY) {
      SaidIsJudged(rep, VERSION_REPLY);
    }
    var p, talk := Ack(w, ctx, o, VERSION_HEADER, "WIREVER", 2, true);
    if p.Err? {
      return Some(p.error);
    }
    StepCalls(SettingOf(w), w.node, t, talk, p.value, VERSION_HEADER, w.key);
    VersionReplies(p.value);
    if p.value[1] != "1" {
      return Some(Fail(Version));
    }
    assert p.value == VERSION_REPLY;
    AgreedOn(SettingOf(w), w.node, o, before, w.key, Step(talk, p.value));
    e := None;
  }

  /** The codec metadata; here, unlike in the other steps, an ERR is a server error. */
  method AgreeCodecs(w: Wire, ctx: Context, o: Options) returns (e: Option<Error>)
    requires Reached(w, o, |Agenda(o)| - 1) && ctx.Valid()
    modifies w`plain, w`input, w`owed, w`sent, w`broken, w`steps, ctx, w.net`trace
    ensures ctx.Valid() && Asked(w.net.trace) == Asked(old(w.net.trace))
    ensures Talks(SettingOf(w), o, old(w.net.trace), w.net.trace)
    ensures CalledFor(SettingOf(w), WantFields, old(w.net.trace), w.net.trace, e) && Seen(old(ctx.err), ctx.err, e)
    ensures if e.Some? then HandshakeError(e.value) else Reached(w, o, |Agenda(o)|)
    ensures w.net.calm && ctx.calm && Says(w.net.answer(w.node, CODEC_HEADER, []), CODEC_REPLY) ==> e.None?
    ensures w.net.calm && ctx.calm && SaysError(w.net.answer(w.node, CODEC_HEADER, [])) ==> e == Some(Fail(Server))
  {
    hide Words, IsValueHead, Refused, Asked, Talks, Pending, Sound, Agreed, StepDone, SentPartly, Underway, Suits,
      Welcome, Refusal, CalledFor, NetworkError;
    ghost var before, t, rep := w.steps, w.net.trace, w.net.answer(w.node, CODEC_HEADER, []);
    AgreementSuits();
    if Says(rep, CODEC_REPLY) {
      SaidIsJudged(rep, CODEC_REPLY);
    }
    if SaysError(rep) {
      SaidIsJudged(rep, Words(rep.head).value);
    }
    var p, talk := Ack(w, ctx, o, CODEC_HEADER, "OK", 2, false);
    if p.Err? {
      return Some(p.error);
    }
    StepCalls(SettingOf(w), w.node, t, talk, p.value, CODEC_HEADER, w.key);
    CodecReplies(p.value);
    if p.value[1] != "codec-metadata" {
      return Some(Fail(Protocol));
    }
    assert p.value == CODEC_REPLY;
    AgreedOn(SettingOf(w), w.node, o, before, w.key, Step(talk, p.value));
    e := None;
  }

  /** The last part of handshake: wire version and codec metadata. */
  method AgreeVersion(w: Wire, ctx: Context, o: Options) returns (e: Option<Error>)
    requires Reached(w, o, |Agenda(o)| - 2) && ctx.Valid()
    modifies w`plain, w`input, w`owed, w`sent, w`broken, w`steps, ctx, w.net`trace
    ensures ctx.Valid() && Asked(w.net.trace) == Asked(old(w.net.trace))
    ensures Talks(SettingOf(w), o, old(w.net.trace), w.net.trace)
    ensures CalledFor(SettingOf(w), WantFields, old(w.net.trace), w.net.trace, e) && Seen(old(ctx.err), ctx.err, e)
    ensures if e.Some? then HandshakeError(e.value) else Reached(w, o, |Agenda(o)|)
    ensures w.net.calm && ctx.calm && Cooperative(w.net, w.node, o) ==> e.None?
    ensures w.net.calm && ctx.calm && RefusesCodecs(w.net, w.node, o) ==> e == Some(Fail(Server))
  {
    hide Says, SaysError, Asked, Talks, Reached, Suits, Welcome, Refusal, CalledFor, NetworkError;
    ghost var t := w.net.trace;
    e := AgreeWire(w, ctx, o);
    if e.Some? {
      return;
    }
    assert e == None;
    ghost var u := w.net.trace;
    e := AgreeCodecs(w, ctx, o);
    GoesOn(SettingOf(w), o, t, u, w.net.trace, e);
  }

  /** wire.go's handshake. */
  method Handshake(w: Wire, ctx: Context, o: Options) returns (e: Option<Error>)
    requires w.Usable() && ctx.Valid() && Normal(o) && w.max == o.maxFrameBytes && w.key == None && w.steps == []
    requires Underway(w.net.trace, w.node, [])
    modifies w`key, w`plain, w`input, w`owed, w`sent, w`broken, w`steps, ctx, w.net`trace
    ensures ctx.Valid() && Asked(w.net.trace) == Asked(old(w.net.trace))
    ensures Talks(SettingOf(w), o, old(w.net.trace), w.net.trace)
    ensures CalledFor(SettingOf(w), WantFields, old(w.net.trace), w.net.trace, e) && Seen(old(ctx.err), ctx.err, e)
    ensures e.Some? ==> HandshakeError(e.value)
    ensures e.None? ==>
              && w.Usable() && Negotiated(SettingOf(w), w.node, o, w.steps, w.key)
              && Underway(w.net.trace, w.node, w.steps) && w.net.trace == old(w.net.trace) + Events(w.steps)
    ensures w.net.calm && ctx.calm && Cooperative(w.net, w.node, o) ==> e.None?
    ensures w.net.calm && ctx.calm && RefusesCodecs(w.net, w.node, o) ==> e == Some(Fail(Server))
  {
    hide Agreed, Talks, Welcoming, Asked, Pending, Underway, Agenda, Suits, Welcome, Refusal, CalledFor,
      NetworkError;
    ghost var t := w.net.trace;
    e := Authenticate(w, ctx, o);
    if e.Some? {
      return;
    }
    assert e == None;
    ghost var u := w.net.trace;
    e := Greet(w, ctx, o);
    GoesOn(SettingOf(w), o, t, u, w.net.trace, e);
    if e.Some? {
      return;
    }
    assert e == None;
    ghost var v := w.net.trace;
    e := AgreeVersion(w, ctx, o);
    GoesOn(SettingOf(w), o, t, v, w.net.trace, e);
    if e.None? {
      SameDial(SettingOf(w), o, t, w.net.trace, w.node, w.steps);
    }
  }

  /** What holds of every pooled connection: to its node, negotiated, keyed as configured, usable. */
  ghost predicate Established(w: Wire, net: Net, node: nat, o: Options)
    reads w
  {
    && w.node == node && w.net == net && w.max == o.maxFrameBytes
    && w.Usable()
    && Negotiated(SettingOf(w), node, o, w.steps, w.key)
  }

  /**
   How the result of an exchange depends on the reply.  On every run it is what was read, up to
   the mapping of errors of the network stack.  With an honest server a success, and a server
   error, mean what the reply to this request means; and so does every result if the whole
   reply arrived.
   */
  predicate Tells(fl: Floats, max: nat, want: Want, honest: bool, talk: Talk, r: Result<Got>) {
    && (talk.input.Some? ==> Mapped(Heard(fl, max, want, talk), r))
    && (r.Ok? || r.error in {Fail(Server), Fail(Protocol)} ==> talk.input.Some?)
    && (talk.whole ==> talk.reply.Some?)
    && (honest && (r.Ok? || r == Err(Fail(Server))) ==>
        talk.reply.Some? && Interpret(fl, max, want, talk.reply.value) == r)
    && (talk.whole ==> Interpret(fl, max, want, talk.reply.value) == r)
  }

  /** So a success, a server error and a protocol error are what the driver has read. */
  lemma TellsHeard(fl: Floats, max: nat, want: Want, honest: bool, talk: Talk, r: Result<Got>)
    requires Tells(fl, max, want, honest, talk, r) && (r.Ok? || r.error in {Fail(Server), Fail(Protocol)})
    ensures talk.input.Some? && Heard(fl, max, want, talk) == r
  {
    hide Heard, Interpret;
  }

  /** An exchange after the handshake: the connection stays established, or the exchange failed. */
  method Converse(w: Wire, ctx: Context, o: Options, header: Bytes, body: Bytes, want: Want)
    returns (r: Result<Got>, attempted: bool, ghost talk: Talk)
    requires Established(w, w.net, w.node, o) && ctx.Valid() && !want.WantFields? && Acceptable(w.max, header, body)
    requires Ready(SettingOf(w), o, w.net.trace, w.node, w.key)
    modifies w`plain, w`input, w`owed, w`sent, w`broken, w`steps, ctx, w.net`trace
    ensures ctx.Valid()
    ensures r.Ok? ==> Established(w, w.net, w.node, o) && Fits(want, r.value)
    // what was handed over: of one frame of this request, under the key of the connection
    ensures w.net.trace == old(w.net.trace) + (if attempted then [Talked(talk)] else [])
    ensures talk.request == Request(w.node, header, body, false) && talk.key == w.key && SentPartly(talk)
    ensures r.Ok? || r == Err(Fail(Server)) || r == Err(Fail(Protocol)) ==> attempted && SentWholly(talk)
    ensures w.sent == old(w.sent) + talk.written && (!attempted ==> r.Err? && talk.written == [])
    ensures r.Err? ==>
              IsContext(r.error) || r.error in {Fail(Connection), Fail(Kind.Timeout), Fail(Server), Fail(Protocol)}
    ensures Asked(w.net.trace) == Asked(old(w.net.trace)) + (if attempted then [talk] else [])
    ensures Talks(SettingOf(w), o, old(w.net.trace), w.net.trace)
    ensures Tells(w.net.fl, w.max, want, w.net.honest, talk, r)
    ensures CalledFor(SettingOf(w), want, old(w.net.trace), w.net.trace, if r.Err? then Some(r.error) else None)
    ensures if r.Err? then Reports(ctx.err, r.error) else ctx.err == None
    ensures w.net.calm && ctx.calm ==> attempted && talk.whole && talk.reply == Some(w.net.answer(w.node, header, body))
  {
    hide Negotiated, Interpret, Carries, Ready, SentPartly, SentWholly, Talks, Outgoing, Acceptable, Heard, Left,
      CalledFor;
    ghost var nonce;
    r, attempted, nonce, talk := w.Exchange(ctx, header, body, want);
    AddedByExchange(SettingOf(w), o, nonce, old(w.net.trace), talk, attempted);
    ExchangeCalls(SettingOf(w), want, old(w.net.trace), talk, attempted, r);
    assert r.Ok? ==> w.steps == old(w.steps);
  }
}
