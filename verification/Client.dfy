/**
 The client (client.go): a gate, a pool of negotiated connections, writes that are sent at
 most once, and reads that retry once and follow redirects.

 The methods describe one operation at a time, as the gate enforces; what the gate does among
 many goroutines is the subject of module Gate.
 */
module Client {
  import opened Errors
  import opened Text
  import opened Decimal
  import opened Ids
  import opened Streams
  import opened Replies
  import opened Requests
  import opened Options
  import opened Transport
  import opened Negotiation
  import opened Redirects

  /** The fault-free cluster as a reader of records sees it. */
  function ClusterView(fl: Floats, answer: (nat, Bytes, Bytes) -> Reply, max: nat, peers: nat,
                       selection: Option<Bytes>): View {
    (p: Place, last: bool) =>
      Interpret(fl, max, WantRecord(peers, last), answer(p.node, ReadHeader(fl, p.id, selection), ReadBody(selection)))
  }

  lemma LastOnlyStopsForwards(fl: Floats, peers: nat, p: seq<Bytes>)
    requires |p| > 0
    ensures var r, t := ReadForward(fl, peers, false, p), ReadForward(fl, peers, true, p);
            t == Err(Fail(Protocol)) && (r == t || (r.Ok? && r.value.Forward?))
  {
  }

  lemma LastOnlyMatters(fl: Floats, max: nat, peers: nat, p: seq<Bytes>)
    requires |p| > 0
    ensures Classify(fl, max, WantRecord(peers, true), p) ==
            if p[0] == "FWD" then Done(ReadForward(fl, peers, true, p))
            else Classify(fl, max, WantRecord(peers, false), p)
    ensures p[0] == "FWD" ==> Classify(fl, max, WantRecord(peers, false), p) == Done(ReadForward(fl, peers, false, p))
    ensures var v := Classify(fl, max, WantRecord(peers, false), p);
            p[0] != "FWD" && v.Done? && v.r.Ok? ==> !v.r.value.Forward?
  {
  }

  lemma LastOnlyStops(fl: Floats, max: nat, peers: nat, rep: Reply)
    ensures var r, t := Interpret(fl, max, WantRecord(peers, false), rep),
              Interpret(fl, max, WantRecord(peers, true), rep);
            t == Stopped(r)
  {
    if |rep.head| <= MAX_HEADER && Words(rep.head).Ok? {
      LastOnlyMatters(fl, max, peers, Words(rep.head).value);
      LastOnlyStopsForwards(fl, peers, Words(rep.head).value);
    }
  }

  /** The same for what was read. */
  lemma HeardLastOnly(fl: Floats, max: nat, peers: nat, talk: Talk)
    requires talk.input.Some?
    ensures var r, t := Heard(fl, max, WantRecord(peers, false), talk), Heard(fl, max, WantRecord(peers, true), talk);
            t == Stopped(r)
  {
    hide Classify, ReadForward;
    var p := Reader(Channel(talk.key, max)).line(talk.input.value).0;
    if p.Ok? && p.value != [] {
      LastOnlyMatters(fl, max, peers, p.value);
      LastOnlyStopsForwards(fl, peers, p.value);
    }
  }

  lemma ClusterViewIsRecordView(fl: Floats, answer: (nat, Bytes, Bytes) -> Reply, max: nat, peers: nat,
                                selection: Option<Bytes>)
    ensures RecordView(ClusterView(fl, answer, max, peers, selection), peers)
  {
    var view := ClusterView(fl, answer, max, peers, selection);
    forall p: Place
      ensures view(p, false).Ok? ==> Fits(WantRecord(peers, false), view(p, false).value)
      ensures view(p, true) == Stopped(view(p, false))
    {
      LastOnlyStops(fl, max, peers, answer(p.node, ReadHeader(fl, p.id, selection), ReadBody(selection)));
    }
  }

  /** The request that asks for a record at a place. */
  function FetchRequest(fl: Floats, selection: Option<Bytes>, p: Place): Request {
    Request(p.node, ReadHeader(fl, p.id, selection), ReadBody(selection), false)
  }

  /** How obtaining a connection, or a read, can fail. */
  predicate OperationError(e: Error) {
    HandshakeError(e) || e == Fail(Kind.Closed)
  }

  /** This is what was read in reply to a request; with an honest server it is what its reply means. */
  predicate Replied(fl: Floats, max: nat, want: Want, honest: bool, talk: Talk, g: Result<Got>) {
    && talk.input.Some? && Heard(fl, max, want, talk) == g
    && (honest ==> talk.reply.Some? && Interpret(fl, max, want, talk.reply.value) == g)
  }

  // ---------------------------------------------------------------- writes

  /** What PutCodec makes of the reply, or of the failure to get one. */
  function PutResult(attempted: bool, g: Result<Got>): Result<ID>
    requires g.Ok? ==> g.value.Identity?
  {
    match g
    case Ok(Identity(id)) => Ok(id)
    case Err(e) =>
      if attempted && !Is(e, Server) && !Is(e, Authentication) then Err(Kouten(Indeterminate, Some(e))) else Err(e)
  }

  /** What a reply means to PutCodec. */
  function PutMeaning(fl: Floats, max: nat, rep: Reply): Result<ID> {
    PutResult(true, Interpret(fl, max, WantId, rep))
  }

  /** What failed: the cause that an indeterminate error carries, or the error itself. */
  function Underlying(e: Error): Error {
    if e.Kouten? && e.kind == Indeterminate && e.cause.Some? then e.cause.value else e
  }

  /**
   Write outcomes.  At most one insertion is begun, and no more than one frame of it is handed
   over.  Success and a server error after the beginning mean that all of it was; a failure after
   it was begun says so, unless it is a server error; and a failure that does not say so means
   that it was not begun.  A begun insertion never fails for want of authentication.
   */
  ghost predicate PutOutcome(before: seq<Talk>, now: seq<Talk>, put: Request, r: Result<ID>) {
    && before <= now && |now| <= |before| + 1
    && (now != before ==> now[|before|].request == put && SentPartly(now[|before|]))
    && (now != before && (r.Ok? || r == Err(Fail(Server))) ==> SentWholly(now[|before|]))
    && (r.Ok? ==> now != before && r.value.Valid())
    && (r.Err? && now != before ==>
          r.error == Fail(Server) || r.error == Kouten(Indeterminate, Some(Underlying(r.error))))
    && (r.Err? && now == before ==> !Is(r.error, Indeterminate))
    && (r.Err? && Is(r.error, Authentication) ==> now == before)
  }

  /**
   And where they come from.  The success, the server error and the protocol error of a begun
   insertion are what was read for it, with any server; with an honest one, the first two are
   what the reply to it means, and a reply that arrived whole decides the result.
   */
  ghost predicate PutTruth(fl: Floats, max: nat, honest: bool, before: seq<Talk>, now: seq<Talk>, r: Result<ID>) {
    before < now ==>
      var talk := now[|before|];
      && (r.Ok? ==> talk.input.Some? && Heard(fl, max, WantId, talk) == Ok(Identity(r.value)))
      && (r == Err(Fail(Server)) ==> talk.input.Some? && Heard(fl, max, WantId, talk) == Err(Fail(Server)))
      && (r == Err(Kouten(Indeterminate, Some(Fail(Protocol)))) ==>
          talk.input.Some? && Heard(fl, max, WantId, talk) == Err(Fail(Protocol)))
      && (talk.whole ==> talk.reply.Some?)
      && (honest && (r.Ok? || r == Err(Fail(Server))) ==>
          talk.reply.Some? && PutMeaning(fl, max, talk.reply.value) == r)
      && (talk.whole ==> PutMeaning(fl, max, talk.reply.value) == r)
  }

  /** So a server error means that the server refused this insertion if and only if it was begun. */
  lemma RejectedIffBegun(fl: Floats, max: nat, before: seq<Talk>, now: seq<Talk>, put: Request, r: Result<ID>)
    requires PutOutcome(before, now, put, r) && PutTruth(fl, max, true, before, now, r)
    requires r == Err(Fail(Server))
    ensures before < now <==>
              && |now| > |before| && now[|before|].request == put
              && Replied(fl, max, WantId, true, now[|before|], Err(Fail(Server)))
  {
  }

  lemma NotBegun(fl: Floats, max: nat, honest: bool, before: seq<Talk>, put: Request, e: Error)
    requires OperationError(e) || e == Fail(Input)
    ensures PutOutcome(before, before, put, Err(e)) && PutTruth(fl, max, honest, before, before, Err(e))
    ensures Underlying(e) == e && (OperationError(e) ==> e != Fail(Input))
  {
  }

  lemma PutResultIsSound(fl: Floats, max: nat, honest: bool, before: seq<Talk>, attempted: bool, talk: Talk,
                         g: Result<Got>)
    requires SentPartly(talk)
    requires g.Ok? || g == Err(Fail(Server)) ==> SentWholly(talk)
    requires g.Ok? ==> attempted && Fits(WantId, g.value)
    requires g.Err? ==>
              IsContext(g.error) || g.error in {Fail(Connection), Fail(Kind.Timeout), Fail(Server), Fail(Protocol)}
    requires g == Err(Fail(Server)) ==> attempted
    requires Tells(fl, max, WantId, honest, talk, g)
    ensures var now := before + (if attempted then [talk] else []);
            && PutOutcome(before, now, talk.request, PutResult(attempted, g))
            && PutTruth(fl, max, honest, before, now, PutResult(attempted, g))
            && (g.Err? ==> Underlying(PutResult(attempted, g).error) == g.error)
  {
    hide Interpret, Heard, SentPartly, SentWholly;
  }

  // ---------------------------------------------------------------- reads

  lemma Advance(view: View, peers: nat, start: Place, limit: nat, places: seq<Place>, p: Place, left: nat,
                g: Result<Got>)
    requires RecordView(view, peers) && g == view(p, left == 0) && Tracks(view, start, limit, places, p, left)
    ensures g.Ok? && g.value.Forward? ==>
              left > 0 && Tracks(view, start, limit, places + [p], Target(p, g.value), left - 1)
    ensures g.Err? || !g.value.Forward? ==>
              Follow(view, start, limit) == Conclude(g) && Visits(view, start, limit) == places + [p]
  {
    if g.Ok? && g.value.Forward? {
      TracksForward(view, start, limit, places, p, left);
    } else {
      TracksEnd(view, start, limit, places, p, left);
    }
  }

  /** What readOperation runs: the closure of Health or that of read. */
  datatype Op = OpStatus | OpRead(id: ID, selection: Option<Bytes>)

  /** What it returns. */
  datatype Finding = StatusText(s: Bytes) | Found(payload: Option<Payload>)

  const STATUS_REQUEST := Request(0, "HEALTH", [], false)

  /** The places asked in one attempt: from the original place, at configured peers, within the limit. */
  predicate IsWalk(places: seq<Place>, peers: nat, limit: nat, id: ID) {
    && |places| <= limit + 1
    && (|places| > 0 ==> places[0] == Place(0, id))
    && forall i :: 0 <= i < |places| ==> places[i].node < peers && places[i].id.Valid()
  }

  /** What does not change about a client and its surroundings. */
  datatype World = World(x: Setting, honest: bool, peers: nat, limit: nat)

  /** A request was handed over whole, and what was read in reply sends the reader from one place to another. */
  ghost predicate Sends(w: World, talk: Talk, here: Place, there: Place) {
    && SentWholly(talk) && talk.input.Some?
    && var want := WantRecord(w.peers, false);
       var g := Heard(w.x.fl, w.x.max, want, talk);
       && g.Ok? && g.value.Forward? && there == Target(here, g.value)
       && Replied(w.x.fl, w.x.max, want, w.honest, talk, g)
  }

  /** These requests ask for the record at these places, and what was read for each leads to the next. */
  ghost predicate IsTrail(w: World, selection: Option<Bytes>, places: seq<Place>, asked: seq<Talk>) {
    && |asked| == |places|
    && (forall i :: 0 <= i < |places| ==> asked[i].request == FetchRequest(w.x.fl, selection, places[i]))
    && (forall i :: 0 <= i < |places| - 1 ==> Sends(w, asked[i], places[i], places[i + 1]))
  }

  lemma TrailGrows(w: World, selection: Option<Bytes>, places: seq<Place>, asked: seq<Talk>, p: Place, talk: Talk)
    requires IsTrail(w, selection, places, asked) && talk.request == FetchRequest(w.x.fl, selection, p)
    requires places != [] ==> Sends(w, asked[|asked| - 1], places[|places| - 1], p)
    ensures IsTrail(w, selection, places + [p], asked + [talk])
  {
    hide Sends, FetchRequest;
  }

  /** The requests of one attempt. */
  ghost predicate IsAttempt(w: World, op: Op, asked: seq<Talk>) {
    match op
    case OpStatus => |asked| <= 1 && (asked != [] ==> asked[0].request == STATUS_REQUEST)
    case OpRead(id, selection) =>
      exists places: seq<Place> ::
        IsWalk(places, w.peers, w.limit, id) && IsTrail(w, selection, places, asked)
  }

  /** What was read in reply to this request is a record, or the lack of one; so with honest servers is its reply. */
  predicate Concludes(w: World, talk: Talk, value: Option<Payload>) {
    var want := WantRecord(w.peers, true);
    && talk.input.Some? && Conclude(Heard(w.x.fl, w.x.max, want, talk)) == Ok(value)
    && (w.honest ==>
        talk.reply.Some? && Conclude(Interpret(w.x.fl, w.x.max, want, talk.reply.value)) == Ok(value))
  }

  /** The last request of an attempt was handed over whole, and this finding is what was read in reply. */
  ghost predicate FoundIn(w: World, op: Op, asked: seq<Talk>, a: Finding) {
    && |asked| > 0 && SentWholly(asked[|asked| - 1])
    && var talk := asked[|asked| - 1];
       match op
       case OpStatus =>
         a.StatusText? && Replied(w.x.fl, w.x.max, WantStatus(w.peers), w.honest, talk, Ok(Status(a.s)))
       case OpRead(_, _) => a.Found? && Concludes(w, talk, a.payload)
  }

  /** An attempt sends at most limit + 1 requests, and starts with the original request at node 0. */
  lemma AttemptBound(w: World, op: Op, asked: seq<Talk>)
    requires IsAttempt(w, op, asked)
    ensures |asked| <= if op.OpRead? then w.limit + 1 else 1
    ensures asked != [] ==>
              asked[0].request == match op
                                  case OpStatus => Request(0, "HEALTH", [], false)
                                  case OpRead(id, selection) => FetchRequest(w.x.fl, selection, Place(0, id))
    ensures forall i :: 0 <= i < |asked| && op.OpRead? ==> asked[i].request.node < w.peers
  {
    if op.OpRead? {
      var places: seq<Place> :|
        && IsWalk(places, w.peers, w.limit, op.id)
        && IsTrail(w, op.selection, places, asked);
      assert forall i :: 0 <= i < |asked| ==> asked[i].request == FetchRequest(w.x.fl, op.selection, places[i]);
    }
  }

  /**
   Where the next request of a read goes: to the node named by the redirect that was read, or, if
   that names none, to the node that sent it; and it asks for the identity that the redirect gave.
   */
  lemma AttemptFollows(w: World, op: Op, asked: seq<Talk>, i: nat) returns (to: ID, node: Option<nat>)
    requires IsAttempt(w, op, asked) && op.OpRead? && i + 1 < |asked|
    requires Faithful(w.x.fl) && w.x.max <= MAX_FRAME && FetchInput(w.x.max, op.id, op.selection)
    ensures var talk, next := asked[i], asked[i + 1].request;
            && talk.input.Some? && Heard(w.x.fl, w.x.max, WantRecord(w.peers, false), talk) == Ok(Forward(to, node))
            && next.node == (match node case Some(n) => n case None => talk.request.node)
            && ReadFetch(w.x.fl, next.header, next.body) == Some(Fetch(to, op.selection))
  {
    hide Heard, FetchRequest, ReadFetch;
    var places: seq<Place> :| IsWalk(places, w.peers, w.limit, op.id) && IsTrail(w, op.selection, places, asked);
    assert Sends(w, asked[i], places[i], places[i + 1]);
    var g := Heard(w.x.fl, w.x.max, WantRecord(w.peers, false), asked[i]).value;
    to, node := g.to, g.node;
    AskedFor(w, op.selection, places[i]);
    AskedFor(w, op.selection, places[i + 1]);
  }

  /** What a server reads in the request for a record at a place. */
  lemma AskedFor(w: World, selection: Option<Bytes>, p: Place)
    requires Faithful(w.x.fl) && w.x.max <= MAX_FRAME && FetchInput(w.x.max, p.id, selection)
    ensures var q := FetchRequest(w.x.fl, selection, p);
            q.node == p.node && ReadFetch(w.x.fl, q.header, q.body) == Some(Fetch(p.id, selection))
  {
    FetchRoundTrip(w.x.fl, w.x.max, p.id, selection);
  }

  /** And the first one asks node 0 for the record that the caller wants. */
  lemma AttemptStarts(w: World, op: Op, asked: seq<Talk>)
    requires IsAttempt(w, op, asked) && op.OpRead? && asked != []
    requires Faithful(w.x.fl) && w.x.max <= MAX_FRAME && FetchInput(w.x.max, op.id, op.selection)
    ensures var first := asked[0].request;
            first.node == 0 && ReadFetch(w.x.fl, first.header, first.body) == Some(Fetch(op.id, op.selection))
  {
    hide FetchRequest;
    AttemptBound(w, op, asked);
    AskedFor(w, op.selection, Place(0, op.id));
  }

  /** What the caller is given: the payload of the record that was read, or nil for an absent one. */
  lemma FindingIsRead(w: World, op: Op, asked: seq<Talk>, a: Finding)
    requires FoundIn(w, op, asked, a)
    ensures var talk := asked[|asked| - 1];
            match op
            case OpStatus => a.StatusText? && Heard(w.x.fl, w.x.max, WantStatus(w.peers), talk) == Ok(Status(a.s))
            case OpRead(_, _) =>
              && a.Found?
              && var g := Heard(w.x.fl, w.x.max, WantRecord(w.peers, true), talk);
                 match a.payload case Some(x) => g == Ok(Record(x)) case None => g == Ok(Absent)
  {
    var talk := asked[|asked| - 1];
    DecodeErrors(w.x.fl, Channel(talk.key, w.x.max), WantRecord(w.peers, true), talk.input.value);
  }

  // ---------------------------------------------------------------- attempts

  /** The events of one attempt, from its start to its end, after what was there before. */
  ghost predicate IsTry(w: World, o: Options, op: Op, before: seq<Event>, events: seq<Event>) {
    && |events| >= 2 && events[0].Started? && events[|events| - 1].Ended?
    && (forall i :: 0 < i < |events| - 1 ==> Accounted(w.x, o, before + events[..i], events[i]))
    && IsAttempt(w, op, Asked(events))
    && (var failure := events[|events| - 1].failure;
        failure.Some? ==>
          FailsRightly(w, op, before + [events[0]], before + events[..|events| - 1], Asked(events), failure.value))
  }

  /** How the last reply is to be read that an attempt has asked for. */
  function WantOf(w: World, op: Op, asked: seq<Talk>): Want {
    if op.OpStatus? then WantStatus(w.peers) else WantRecord(w.peers, |asked| > w.limit)
  }

  /** An attempt fails because its context has ended, or with the error that what was read last calls for. */
  predicate FailsRightly(w: World, op: Op, t: seq<Event>, u: seq<Event>, asked: seq<Talk>, e: Error) {
    IsContext(e) || CalledFor(w.x, WantOf(w, op, asked), t, u, Some(e))
  }

  /** How the attempt went. */
  function Failure(events: seq<Event>): Option<Error> {
    if events != [] && events[|events| - 1].Ended? then events[|events| - 1].failure else None
  }

  predicate Retryable(e: Error) {
    Is(e, Connection) || Is(e, Kind.Timeout)
  }

  /**
   The only circumstances in which a read starts over: retry is enabled, the first attempt
   failed with a connection or timeout error, and the context was looked at after that and had
   not ended.  The second attempt dials node 0 before anything else, so its pool was empty.
   */
  predicate Justified(o: Options, first: seq<Event>, second: seq<Event>) {
    && !o.disableReadRetry && Failure(first).Some? && Retryable(Failure(first).value)
    && |first| > 0 && first[|first| - 1].Ended?
    && |second| > 2 && second[0].Started? && second[0].err == None && second[0].looks > first[|first| - 1].looks
    && second[1] == Dialed(0)
  }

  /** The attempts of a read, with the context as it is at the end. */
  ghost predicate Tries(w: World, o: Options, op: Op, end: Option<Error>, before: seq<Event>,
                        first: seq<Event>, second: seq<Event>) {
    && IsTry(w, o, op, before, first)
    && (second != [] ==> IsTry(w, o, op, before + first, second) && Justified(o, first, second))
    && (second == [] && Failure(first).Some? && Retryable(Failure(first).value) ==> o.disableReadRetry || end.Some?)
  }

  /** The result of a read is that of its last attempt, unless its context has ended. */
  predicate Returns(end: Option<Error>, first: seq<Event>, second: seq<Event>, r: Result<Finding>) {
    match Failure(if second == [] then first else second)
    case None => r.Ok?
    case Some(e) => r == Err(if end.Some? then end.value else e)
  }

  /** A read that never began, for lack of the gate, or the attempts of one that did. */
  ghost predicate ReadLaw(w: World, o: Options, op: Op, end: Option<Error>, before: seq<Event>,
                          first: seq<Event>, second: seq<Event>, r: Result<Finding>) {
    if first == [] then second == [] && r.Err? && (IsContext(r.error) || r.error in {Fail(Kind.Closed), Fail(Input)})
    else
      && Tries(w, o, op, end, before, first, second)
      && Returns(end, first, second, r)
      && (r.Ok? ==> FoundIn(w, op, Asked(if second == [] then first else second), r.value))
  }

  /** Errors that end a read, and errors after which it may start over. */
  const FINAL := {Fail(Protocol), Fail(Server), Fail(Authentication), Fail(Version), Canceled, DeadlineExceeded}
  const PASSING := {Fail(Connection), Fail(Kind.Timeout)}

  lemma WhatIsRetried()
    ensures forall e :: e in FINAL ==> !Retryable(e)
    ensures forall e :: e in PASSING ==> Retryable(e)
  {
  }

  /**
   Retry discipline: how many requests a read sends, and that protocol, server, authentication
   and version errors and ended contexts are not retried, while connection and timeout errors
   are, unless retry is disabled or the context has ended.
   */
  lemma RetryDiscipline(w: World, o: Options, op: Op, end: Option<Error>, before: seq<Event>,
                        first: seq<Event>, second: seq<Event>)
    requires Tries(w, o, op, end, before, first, second)
    ensures |Asked(first)| + |Asked(second)| <= 2 * (w.limit + 1)
    ensures o.disableReadRetry ==> |Asked(first)| + |Asked(second)| <= w.limit + 1
    ensures op.OpStatus? ==> |Asked(first)| + |Asked(second)| <= if o.disableReadRetry then 1 else 2
    ensures Failure(first).None? ==> second == []
    ensures Failure(first).Some? && Failure(first).value in FINAL ==> second == []
    ensures Failure(first).Some? && Failure(first).value in PASSING && !o.disableReadRetry && end == None ==>
              second != []
  {
    hide IsAttempt, Accounted, Retryable;
    WhatIsRetried();
    AttemptBound(w, op, Asked(first));
    if second != [] {
      AttemptBound(w, op, Asked(second));
    }
  }

  class Client {
    const net: Net
    const peers: nat
    const max: nat                  // opts.maxFrameBytes and opts.maxRedirects, which never change
    const limit: nat
    var opts: Options
    var gate: nat                   // tokens in the gate channel
    var connections: map<nat, Wire>
    var closed: bool

    ghost function Here(): Setting {
      Setting(net.fl, net.derive, max)
    }

    ghost function TheWorld(): World {
      World(Here(), net.honest, peers, limit)
    }

    /** Connections of the network that are open but not in the pool; every operation keeps their number. */
    ghost function Loose(): int
      reads this`connections, net`live
    {
      net.live - |connections|
    }

    ghost predicate OptionsOk(o: Options) {
      Normal(o) && o.maxFrameBytes == max && o.maxRedirects == limit
    }

    ghost predicate Valid()
      reads this, connections.Values, net`trace
    {
      && net.Valid() && 1 <= peers <= 64 && OptionsOk(opts)
      && (closed ==> connections == map[])
      && PoolOk(connections, opts)
    }

    constructor (net: Net, peers: nat, opts: Options)
      requires net.Valid() && 1 <= peers <= 64 && Normal(opts)
      ensures Valid() && gate == 1 && !closed && connections == map[]
      ensures this.net == net && this.peers == peers && this.opts == opts && Loose() == net.live
      ensures max == opts.maxFrameBytes && limit == opts.maxRedirects
    {
      this.net, this.peers, this.opts := net, peers, opts;
      max, limit := opts.maxFrameBytes, opts.maxRedirects;
      gate, closed, connections := 1, false, map[];
    }

    /** Client.lock: the token, unless the context ends first or the client is closed. */
    method Lock(ctx: Context) returns (e: Option<Error>)
      requires gate == 1 && ctx.Valid()
      modifies this`gate, ctx
      ensures ctx.Valid() && (old(ctx.err).Some? ==> ctx.err == old(ctx.err))
      ensures e.None? ==> gate == 0 && !closed && ctx.err == None
      // the context is looked at once more with the token in hand
      ensures e.None? ==> ctx.looks >= old(ctx.looks) + 2
      ensures e.Some? ==> Reports(ctx.err, e.value)
      ensures e.Some? ==> gate == 1 && (IsContext(e.value) || e.value == Fail(Kind.Closed))
      ensures e == Some(Fail(Kind.Closed)) ==> closed
      ensures ctx.calm && !closed ==> e.None?
    {
      var c := ctx.Poll();
      var waited := Maybe();
      if c.Some? && waited {
        return c;
      }
      gate := 0;
      c := ctx.Poll();
      if c.Some? {
        Unlock();
        return c;
      }
      if closed {
        Unlock();
        return Some(Fail(Kind.Closed));
      }
      e := None;
    }

    /** Client.unlock: the channel has room, so it does not block. */
    method Unlock()
      requires gate == 0
      modifies this`gate
      ensures gate == 1
    {
      gate := gate + 1;
    }

    /** A pooled connection is to a configured peer and established, by what happened since that was last dialed. */
    ghost predicate Pooled(w: Wire, n: nat, o: Options, t: seq<Event>)
      reads w
    {
      n < peers && Established(w, net, n, o) && Ready(Here(), o, t, n, w.key)
    }

    ghost predicate PoolAt(pool: map<nat, Wire>, o: Options, t: seq<Event>)
      reads pool.Values
    {
      forall n :: n in pool ==> Pooled(pool[n], n, o, t)
    }

    ghost predicate PoolOk(pool: map<nat, Wire>, o: Options)
      reads pool.Values, net`trace
    {
      PoolAt(pool, o, net.trace)
    }

    /** Each connection is open and to the node it is pooled under; so no connection is pooled twice. */
    ghost predicate NodesOk(pool: map<nat, Wire>)
      reads pool.Values
    {
      forall n :: n in pool ==> pool[n].node == n && pool[n].net == net && pool[n].open
    }

    lemma Shrinks(pool: map<nat, Wire>, n: nat)
      requires n in pool
      ensures |pool - {n}| == |pool| - 1
    {
      assert (pool - {n}).Keys == pool.Keys - {n};
    }

    lemma PoolNodes(pool: map<nat, Wire>, o: Options)
      requires PoolOk(pool, o)
      ensures NodesOk(pool) && forall n :: n in pool ==> n < peers
    {
    }

    lemma PooledHere(pool: map<nat, Wire>, o: Options, n: nat)
      requires PoolOk(pool, o) && OptionsOk(o) && n in pool
      ensures var w := pool[n];
              && w.max == max && SettingOf(w) == Here()
              && Established(w, w.net, w.node, o) && Ready(SettingOf(w), o, net.trace, w.node, w.key)
    {
      hide Ready, Negotiated;
      assert Pooled(pool[n], n, o, net.trace);
    }

    /** The body of drop's loop. */
    method Release(n: nat)
      requires NodesOk(connections) && n in connections
      modifies this`connections, connections[n], net`live
      ensures connections == old(connections) - {n} && Loose() == old(Loose())
      ensures NodesOk(connections) && !old(connections)[n].open
    {
      Shrinks(connections, n);
      connections[n].Close();
      connections := connections - {n};
    }

    lemma Placed(pool: map<nat, Wire>)
      requires NodesOk(pool)
      ensures forall n :: n in pool ==> pool[n].node == n
    {
    }

    /** Client.drop. */
    method Drop()
      requires NodesOk(connections)
      modifies this`connections, connections.Values, net`live
      ensures connections == map[] && Loose() == old(Loose())
      ensures forall w :: w in old(connections.Values) ==> !w.open
    {
      hide Loose, NodesOk;
      ghost var pool := connections;
      Placed(pool);
      while connections != map[]
        invariant NodesOk(connections) && Loose() == old(Loose())
        invariant forall n :: n in connections ==> n in pool && connections[n] == pool[n]
        invariant forall n :: n in pool && n !in connections ==> !pool[n].open
        decreases |connections|
      {
        var n :| n in connections;
        Shrinks(connections, n);
        Release(n);
      }
    }

    lemma EmptyPool(o: Options)
      ensures PoolOk(map[], o)
    {
    }

    /** Clearing the credentials leaves the options usable. */
    lemma ClearedOptions(o: Options)
      requires OptionsOk(o)
      ensures var x := o.(credentials := Credentials([], [], [], [])); OptionsOk(x) && PoolOk(map[], x)
    {
    }

    /** Client.Close. */
    method Close()
      requires Valid() && gate == 1
      modifies this`gate, this`connections, this`closed, this`opts, connections.Values, net`live
      ensures Valid() && gate == 1 && closed && connections == map[] && Loose() == old(Loose())
      ensures forall w :: w in old(connections.Values) ==> !w.open
      ensures opts == old(opts).(credentials := Credentials([], [], [], []))
    {
      hide PoolAt, NodesOk, OptionsOk, PoolOk, Normal;
      PoolNodes(connections, opts);
      ClearedOptions(opts);
      gate := 0;
      Drop();
      closed := true;
      opts := opts.(credentials := Credentials([], [], [], []));
      Unlock();
    }

    /** The mapping of a failed handshake's error at the end of ensure. */
    method HandshakeFailure(ctx: Context, e: Error) returns (x: Error)
      requires ctx.Valid() && HandshakeError(e)
      modifies ctx
      ensures ctx.Valid() && (old(ctx.err).Some? ==> ctx.err == old(ctx.err))
      ensures HandshakeError(x)
      ensures x == if ctx.err.Some? then ctx.err.value else if IsDeadline(e) then Fail(Kind.Timeout) else e
    {
      var c := ctx.Poll();
      x := if c.Some? then c.value else if IsDeadline(e) then Fail(Kind.Timeout) else e;
    }

    /** The part of ensure that dials and negotiates. */
    method Connect(ctx: Context, node: nat) returns (r: Result<Wire>)
      requires net.Valid() && OptionsOk(opts) && ctx.Valid() && node < peers
      modifies ctx, net`trace, net`live
      ensures ctx.Valid() && (old(ctx.err).Some? ==> ctx.err == old(ctx.err))
      ensures r.Ok? ==> fresh(r.value) && Pooled(r.value, node, opts, net.trace)
      ensures r.Err? ==> HandshakeError(r.error)
      // a failure is the end of the context, or what was read in the handshake calls for it, or the network's
      ensures if r.Err? then Blames(ctx.err, Here(), WantFields, old(net.trace), net.trace, r.error)
              else ctx.err == old(ctx.err) && CalledFor(Here(), WantFields, old(net.trace), net.trace, None)
      // one more open connection, or none
      ensures net.live == old(net.live) + (if r.Ok? then 1 else 0)
      ensures Asked(net.trace) == Asked(old(net.trace)) && Continues(Here(), opts, old(net.trace), net.trace)
      ensures DialsFirst(old(net.trace), net.trace, node) && DialsOnly(old(net.trace), net.trace, node)
      ensures net.calm && ctx.calm && Cooperative(net, node, opts) ==> r.Ok?
      ensures net.calm && ctx.calm && RefusesCodecs(net, node, opts) ==> r == Err(Fail(Server))
    {
      hide Negotiated, Ready, Accounted, Underway, Welcoming, SaysError, Says, Asked, CalledFor, Blames;
      var dial := new Context(ctx.calm);
      var unreachable := Maybe();
      ghost var t := net.trace;
      DialFirst(Here(), opts, t, node);
      net.trace := net.trace + [Dialed(node)];
      ghost var u := net.trace;
      if unreachable && !net.calm {              // DialContext or the TLS handshake fails
        var timeout := Maybe();
        var x := ctx.IoError(timeout);
        UnreachableBlamed(ctx.err, Here(), t, node, x);
        return Err(x);
      }
      var w := new Wire(net, node, max);
      var e := Handshake(w, dial, opts);
      DialedCalls(Here(), opts, t, node, net.trace, e);
      StillContinues(Here(), opts, t, u, net.trace, node);
      if e.Some? {
        w.Close();
        ctx.Inherit(dial);
        var x := HandshakeFailure(ctx, e.value);
        HandshakeBlamed(ctx.err, dial.err, Here(), t, net.trace, e.value, x);
        return Err(x);
      }
      ReadyNow(Here(), opts, net.trace, node, w.key, w.steps);
      r := Ok(w);
    }

    lemma PoolGrows(pool: map<nat, Wire>, o: Options, node: nat, w: Wire)
      requires PoolOk(pool, o) && node !in pool && Pooled(w, node, o, net.trace)
      ensures PoolOk(pool[node := w], o)
      ensures pool.Values <= pool[node := w].Values <= pool.Values + {w} && |pool[node := w]| == |pool| + 1
    {
      hide Pooled;
      assert pool[node := w].Keys == pool.Keys + {node};
      forall x | x in pool.Values ensures x in pool[node := w].Values {
        var n :| n in pool && pool[n] == x;
        assert pool[node := w][n] == x;
      }
    }

    /** Dialing another node leaves the pooled connections as they are. */
    lemma PoolElsewhere(pool: map<nat, Wire>, o: Options, t: seq<Event>, node: nat)
      requires PoolAt(pool, o, t) && DialsOnly(t, net.trace, node) && node !in pool
      ensures PoolOk(pool, o)
    {
      hide Ready, Established;
      forall n | n in pool ensures Pooled(pool[n], n, o, net.trace) {
        ReadyLater(Here(), o, t, net.trace, n, pool[n].key);
      }
    }

    /** And so does anything else but dialing. */
    lemma PoolLater(pool: map<nat, Wire>, o: Options, t: seq<Event>)
      requires PoolAt(pool, o, t)
      requires t <= net.trace && forall i :: |t| <= i < |net.trace| ==> !net.trace[i].Dialed?
      ensures PoolOk(pool, o)
    {
      hide Ready, Established;
      forall n | n in pool ensures Pooled(pool[n], n, o, net.trace) {
        ReadyLater(Here(), o, t, net.trace, n, pool[n].key);
      }
    }

    /** The end of ensure: a new connection goes into the pool. */
    method Enlarge(ctx: Context, node: nat) returns (r: Result<Wire>)
      requires PoolOk(connections, opts) && net.Valid() && OptionsOk(opts) && ctx.Valid()
      requires node < peers && node !in connections
      modifies this`connections, ctx, net`trace, net`live
      ensures PoolOk(connections, opts) && ctx.Valid() && Loose() == old(Loose())
      ensures connections == if r.Ok? then old(connections)[node := r.value] else old(connections)
      ensures if r.Ok? then fresh(r.value) else HandshakeError(r.error)
      ensures old(connections.Values) <= connections.Values
      ensures if r.Err? then Blames(ctx.err, Here(), WantFields, old(net.trace), net.trace, r.error)
              else ctx.err == old(ctx.err) && CalledFor(Here(), WantFields, old(net.trace), net.trace, None)
      ensures Asked(net.trace) == Asked(old(net.trace)) && Continues(Here(), opts, old(net.trace), net.trace)
      ensures DialsFirst(old(net.trace), net.trace, node)
      ensures net.calm && ctx.calm && Cooperative(net, node, opts) ==> r.Ok?
      ensures net.calm && ctx.calm && RefusesCodecs(net, node, opts) ==> r == Err(Fail(Server))
    {
      hide Pooled, PoolAt, Cooperative, RefusesCodecs, Continues, Asked, DialsOnly, DialsFirst, HandshakeError,
        OptionsOk, CalledFor, Blames, Normal;
      ghost var pool, t := connections, net.trace;
      r := Connect(ctx, node);
      PoolElsewhere(pool, opts, t, node);
      if r.Ok? {
        PoolGrows(pool, opts, node, r.value);
        connections := connections[node := r.value];
      }
    }

    /** Client.ensure: the pooled connection to a node, or a new one that has negotiated. */
    method Ensure(ctx: Context, node: nat) returns (r: Result<Wire>)
      requires PoolOk(connections, opts) && net.Valid() && OptionsOk(opts) && ctx.Valid()
      modifies this`connections, ctx, net`trace, net`live
      ensures PoolOk(connections, opts) && ctx.Valid()
      ensures r.Ok? ==> !closed && node in connections && connections[node] == r.value
      ensures r.Ok? ==> r.value in old(connections.Values) || fresh(r.value)
      ensures old(connections.Values) <= connections.Values
      ensures connections == if r.Ok? then old(connections)[node := r.value] else old(connections)
      ensures r.Err? ==> OperationError(r.error) && (r.error == Fail(Kind.Closed) ==> closed)
      ensures r.Err? && !closed && node < peers ==>
                Blames(ctx.err, Here(), WantFields, old(net.trace), net.trace, r.error)
      ensures r.Ok? ==> ctx.err == old(ctx.err) && CalledFor(Here(), WantFields, old(net.trace), net.trace, None)
      ensures Loose() == old(Loose())
      ensures closed ==> net.trace == old(net.trace)
      ensures Asked(net.trace) == Asked(old(net.trace)) && Continues(Here(), opts, old(net.trace), net.trace)
      ensures !closed && node < peers && node !in old(connections) ==> DialsFirst(old(net.trace), net.trace, node)
      ensures !closed && node in old(connections) ==>
                r.Ok? && net.trace == old(net.trace) && connections == old(connections)
      ensures net.calm && ctx.calm && !closed && node < peers && Cooperative(net, node, opts) ==> r.Ok?
      ensures net.calm && ctx.calm && !closed && node < peers && node !in old(connections) ==>
                RefusesCodecs(net, node, opts) ==> r == Err(Fail(Server))
    {
      hide PoolAt, Loose, NodesOk, Cooperative, RefusesCodecs, Continues, Asked, DialsFirst, Normal, OptionsOk;
      ghost var t := net.trace;
      if closed {
        TalksHere(Here(), opts, t);
        r := Err(Fail(Kind.Closed));
      } else if node >= peers {
        PoolNodes(connections, opts);
        TalksHere(Here(), opts, t);
        r := Err(Fail(Protocol));
      } else if node in connections {
        TalksHere(Here(), opts, t);
        r := Ok(connections[node]);
        assert connections == connections[node := r.value];
      } else {
        r := Enlarge(ctx, node);
      }
    }

    /** An exchange on a pooled connection: the pool stays as it should be, or the exchange failed. */
    method Speak(ctx: Context, o: Options, w: Wire, header: Bytes, body: Bytes, want: Want)
      returns (r: Result<Got>, attempted: bool, ghost talk: Talk)
      requires PoolOk(connections, o) && w.node in connections && connections[w.node] == w
      requires OptionsOk(o) && ctx.Valid() && !want.WantFields? && Acceptable(max, header, body)
      modifies w, ctx, net`trace
      ensures NodesOk(connections) && ctx.Valid() && (r.Ok? ==> PoolOk(connections, o))
      ensures r.Ok? || r == Err(Fail(Server)) ==> attempted
      ensures r.Ok? ==> Fits(want, r.value)
      // what was handed over: of one frame of this request, under the key of the connection
      ensures net.trace == old(net.trace) + (if attempted then [Talked(talk)] else [])
      ensures w.sent == old(w.sent) + talk.written && (!attempted ==> talk.written == [])
      ensures talk.key == w.key == old(w.key) && SentPartly(talk)
      ensures r.Ok? || r == Err(Fail(Server)) ==> SentWholly(talk)
      ensures r.Err? ==>
                IsContext(r.error) || r.error in {Fail(Connection), Fail(Kind.Timeout), Fail(Server), Fail(Protocol)}
      ensures talk.request == Request(w.node, header, body, false)
      ensures Asked(net.trace) == Asked(old(net.trace)) + (if attempted then [talk] else [])
      ensures Continues(Here(), o, old(net.trace), net.trace)
      ensures Tells(net.fl, max, want, net.honest, talk, r)
      ensures CalledFor(Here(), want, old(net.trace), net.trace, if r.Err? then Some(r.error) else None)
      ensures if r.Err? then Reports(ctx.err, r.error) else ctx.err == None
      ensures net.calm && ctx.calm ==> attempted && talk.whole && talk.reply == Some(net.answer(w.node, header, body))
    {
      hide Established, Ready, Interpret, Asked, Acceptable, OptionsOk, Fits, IsContext, Tells, Accounted,
        SentPartly, SentWholly;
      ghost var pool, t := connections, net.trace;
      PoolNodes(pool, o);
      PooledHere(pool, o, w.node);
      r, attempted, talk := Converse(w, ctx, o, header, body, want);
      if r.Ok? {
        forall m | m in pool ensures Pooled(pool[m], m, o, net.trace) {
          assert pool[m].node == m && pool[m].net == net;
          ReadyLater(Here(), o, t, net.trace, m, pool[m].key);
        }
        assert PoolOk(pool, o);
      }
    }

    /** A failure after a connection was obtained is blamed on what happened from the start of the operation. */
    lemma SpeechCalls(end: Option<Error>, o: Options, want: Want, t: seq<Event>, u: seq<Event>, v: seq<Event>,
                      e: Option<Error>)
      requires Continues(Here(), o, t, u) && Continues(Here(), o, u, v) && Asked(u) == Asked(t)
      requires CalledFor(Here(), WantFields, t, u, None) && CalledFor(Here(), want, u, v, e)
      requires e.Some? ==> Reports(end, e.value)
      ensures if e.Some? then Blames(end, Here(), want, t, v, e.value) else CalledFor(Here(), want, t, v, None)
    {
      hide CallsFor, NetworkError, Accounted;
      WantIsIdle(Here(), WantFields, want, t, u);
      CalledForOn(Here(), want, t, u, v, e);
    }

    lemma IdleBlames(end: Option<Error>, o: Options, want: Want, other: Want, t: seq<Event>, u: seq<Event>, e: Error)
      requires Continues(Here(), o, t, u) && Asked(u) == Asked(t) && Blames(end, Here(), want, t, u, e)
      ensures Blames(end, Here(), other, t, u, e)
    {
      hide CallsFor, NetworkError, Accounted;
      WantIsIdle(Here(), want, other, t, u);
    }

    // -------------------------------------------------------------- writing

    ghost function PutRequest(ring: Bytes, data: Bytes, codec: Bytes): Request {
      Request(0, PutHeader(ring, data, codec), PutBody(ring, data), false)
    }

    /** Without faults: the insertion is sent and answered in full, and that decides the result. */
    ghost predicate CalmPut(before: seq<Talk>, now: seq<Talk>, put: Request)
      reads net`answer
    {
      && before < now && now[|before|].request == put && now[|before|].whole
      && now[|before|].reply == Some(net.answer(put.node, put.header, put.body))
    }

    /** The pool after an insertion. */
    ghost predicate PutPool(before: map<nat, Wire>, wires: set<Wire>, now: map<nat, Wire>, r: Result<ID>, begun: bool)
      reads wires
    {
      && (r.Ok? ==> 0 in now && now == before[0 := now[0]])
      && (r.Err? ==> now == map[] || now == before)
      && (r.Err? && begun ==> now == map[] && forall w :: w in wires ==> !w.open)
    }

    lemma FrameLimit(o: Options)
      requires OptionsOk(o)
      ensures 1 <= max <= MAX_FRAME
    {
    }

    /** Client.PutCodec. */
    method PutCodec(ctx: Context, ring: Bytes, data: Bytes, codec: Bytes) returns (r: Result<ID>)
      requires Valid() && gate == 1 && ctx.Valid()
      modifies this`gate, this`connections, connections.Values, ctx, net`trace, net`live
      ensures Valid() && gate == 1 && ctx.Valid() && closed == old(closed) && Loose() == old(Loose())
      ensures forall w :: w in connections.Values ==> w in old(connections.Values) || fresh(w)
      ensures PutOutcome(Asked(old(net.trace)), Asked(net.trace), PutRequest(ring, data, codec), r)
      ensures PutTruth(net.fl, max, net.honest, Asked(old(net.trace)), Asked(net.trace), r)
      // unusable input, and nothing else, is refused as such, before anything else is looked at
      ensures r == Err(Fail(Input)) <==>
                ring == [] || |ring| + |data| > max || codec !in {"raw", "json", "nif", "bif"}
      ensures closed && r != Err(Fail(Input)) ==> r == Err(Fail(Kind.Closed)) || (r.Err? && ctx.err == Some(r.error))
      // any other failure is the end of the context, or what was read calls for it, or the network's
      ensures !closed && r.Err? && r.error != Fail(Input) ==>
                Blames(ctx.err, Here(), WantId, old(net.trace), net.trace, Underlying(r.error))
      // nothing else is handed to any connection, but for the handshake of a new one
      ensures Continues(Here(), opts, old(net.trace), net.trace)
      // the pool: as it was, with a connection to node 0, or empty after a failed exchange, with all of it closed
      ensures PutPool(old(connections), old(connections.Values), connections, r,
                Asked(net.trace) != Asked(old(net.trace)))
      // and an exchange on a pooled connection that fails, for whatever reason, empties it
      ensures 0 in old(connections) && r.Err? && net.trace != old(net.trace) ==> connections == map[]
      // a closed client, or unusable input, sends nothing
      ensures closed || !PutInput(max, ring, data, codec) ==> r.Err? && net.trace == old(net.trace)
      // without faults
      ensures ctx.calm && net.calm && Cooperative(net, 0, opts) && !closed && PutInput(max, ring, data, codec) ==>
                CalmPut(Asked(old(net.trace)), Asked(net.trace), PutRequest(ring, data, codec))
      // a server that refuses the codec metadata: a server error for an insertion that was never sent
      ensures ctx.calm && net.calm && RefusesCodecs(net, 0, opts) && !closed && PutInput(max, ring, data, codec)
                && 0 !in old(connections) ==>
                r == Err(Fail(Server)) && Asked(net.trace) == Asked(old(net.trace))
      // but over a connection that is there already, a server error is the answer to a begun insertion
      ensures r == Err(Fail(Server)) && 0 in old(connections) ==> Asked(net.trace) != Asked(old(net.trace))
    {
      hide PoolAt, Loose, Asked, PutHeader, PutBody, Cooperative, RefusesCodecs, Interpret, PutTruth, PutOutcome,
        CalmPut, Continues, CalledFor, NodesOk, Heard, Accounted;
      ghost var before, put := Asked(net.trace), PutRequest(ring, data, codec);
      TalksHere(Here(), opts, net.trace);
      if ring == [] || |ring| > max || |data| > max - |ring| || !ValidCodec(codec) {
        NotBegun(net.fl, max, net.honest, before, put, Fail(Input));
        return Err(Fail(Input));
      }
      var e := Lock(ctx);
      if e.Some? {
        NotBegun(net.fl, max, net.honest, before, put, e.value);
        return Err(e.value);
      }
      r := PutLocked(ctx, opts, ring, data, codec);
      Unlock();
    }

    /** The exchange of PutCodec, and what it makes of a failure. */
    method Insert(ctx: Context, o: Options, w: Wire, ring: Bytes, data: Bytes, codec: Bytes) returns (r: Result<ID>)
      requires PoolOk(connections, o) && OptionsOk(o) && ctx.Valid() && PutInput(max, ring, data, codec)
      requires 0 in connections && connections[0] == w
      modifies this`connections, connections.Values, ctx, net`trace, net`live
      ensures PoolOk(connections, o) && ctx.Valid() && Loose() == old(Loose())
      ensures connections == if r.Ok? then old(connections) else map[]
      ensures r.Err? ==> forall x :: x in old(connections.Values) ==> !x.open
      ensures PutOutcome(Asked(old(net.trace)), Asked(net.trace), PutRequest(ring, data, codec), r)
      ensures PutTruth(net.fl, max, net.honest, Asked(old(net.trace)), Asked(net.trace), r)
      ensures r.Err? ==> r.error != Fail(Input) && Reports(ctx.err, Underlying(r.error))
      ensures CalledFor(Here(), WantId, old(net.trace), net.trace, if r.Err? then Some(Underlying(r.error)) else None)
      ensures Continues(Here(), o, old(net.trace), net.trace)
      ensures ctx.calm && net.calm ==>
                CalmPut(Asked(old(net.trace)), Asked(net.trace), PutRequest(ring, data, codec))
      ensures r == Err(Fail(Server)) ==> Asked(net.trace) != Asked(old(net.trace))
    {
      hide PoolAt, Loose, Ready, Normal, OptionsOk, NodesOk, PutInput, Asked, Acceptable, PutHeader, PutBody,
        PutOutcome, PutTruth, Tells, Continues, SentPartly, SentWholly, Heard, Interpret, Is, Sends, CalledFor,
        Reports;
      PoolNodes(connections, o);
      FrameLimit(o);
      PutIsAcceptable(max, ring, data, codec);
      ghost var before := Asked(net.trace);
      var g, attempted, talk := Speak(ctx, o, w, PutHeader(ring, data, codec), PutBody(ring, data), WantId);
      PutResultIsSound(net.fl, max, net.honest, before, attempted, talk, g);
      if g.Ok? {
        return Ok(g.value.id);
      }
      Drop();
      EmptyPool(o);
      if attempted && !Is(g.error, Server) && !Is(g.error, Authentication) {
        return Err(Kouten(Indeterminate, Some(g.error)));
      }
      r := Err(g.error);
    }

    /** PutCodec's work between lock and unlock. */
    method PutLocked(ctx: Context, o: Options, ring: Bytes, data: Bytes, codec: Bytes) returns (r: Result<ID>)
      requires PoolOk(connections, o) && net.Valid() && opts == o && OptionsOk(o) && ctx.Valid() && !closed && peers > 0
      requires PutInput(max, ring, data, codec)
      modifies this`connections, connections.Values, ctx, net`trace, net`live
      ensures PoolOk(connections, o) && ctx.Valid() && Loose() == old(Loose())
      ensures forall w :: w in connections.Values ==> w in old(connections.Values) || fresh(w)
      ensures PutOutcome(Asked(old(net.trace)), Asked(net.trace), PutRequest(ring, data, codec), r)
      ensures PutTruth(net.fl, max, net.honest, Asked(old(net.trace)), Asked(net.trace), r)
      ensures r.Err? ==> r.error != Fail(Input)
      ensures r.Err? ==> Blames(ctx.err, Here(), WantId, old(net.trace), net.trace, Underlying(r.error))
      ensures Continues(Here(), o, old(net.trace), net.trace)
      ensures PutPool(old(connections), old(connections.Values), connections, r,
                Asked(net.trace) != Asked(old(net.trace)))
      ensures ctx.calm && net.calm && Cooperative(net, 0, o) ==>
                CalmPut(Asked(old(net.trace)), Asked(net.trace), PutRequest(ring, data, codec))
      ensures ctx.calm && net.calm && RefusesCodecs(net, 0, o) && 0 !in old(connections) ==>
                r == Err(Fail(Server)) && Asked(net.trace) == Asked(old(net.trace))
      ensures 0 in old(connections) && r.Err? ==> connections == map[]
      ensures r == Err(Fail(Server)) && 0 in old(connections) ==> Asked(net.trace) != Asked(old(net.trace))
    {
      hide PoolAt, Loose, Normal, OptionsOk, NodesOk, HandshakeError, PutInput, Asked, PutOutcome, PutTruth,
        Cooperative, RefusesCodecs, Continues, CalledFor, Blames, Reports, CalmPut, PutRequest;
      ghost var put, t := PutRequest(ring, data, codec), net.trace;
      var c := Ensure(ctx, 0);
      if c.Err? {
        NotBegun(net.fl, max, net.honest, Asked(t), put, c.error);
        IdleBlames(ctx.err, o, WantFields, WantId, t, net.trace, c.error);
        return Err(c.error);
      }
      ghost var u := net.trace;
      r := Insert(ctx, o, c.value, ring, data, codec);
      ContinuesOn(Here(), o, t, u, net.trace);
      SpeechCalls(ctx.err, o, WantId, t, u, net.trace, if r.Err? then Some(Underlying(r.error)) else None);
    }

    // -------------------------------------------------------------- reading

    ghost predicate AllCooperate(o: Options)
      reads net`answer
    {
      net.calm && forall n: nat :: n < peers ==> Cooperative(net, n, o)
    }

    ghost function RecordsView(selection: Option<Bytes>): View
      reads net`answer
    {
      ClusterView(net.fl, net.answer, max, peers, selection)
    }

    /** One round of read's redirect loop, up to the reply. */
    method AskAt(ctx: Context, o: Options, p: Place, selection: Option<Bytes>, last: bool)
      returns (r: Result<Got>, attempted: bool, ghost talk: Talk)
      requires PoolOk(connections, o) && net.Valid() && opts == o && OptionsOk(o) && ctx.Valid() && !closed
      requires FetchInput(max, p.id, selection) && p.node < peers
      modifies this`connections, connections.Values, ctx, net`trace, net`live
      ensures NodesOk(connections) && ctx.Valid() && Loose() == old(Loose()) && (r.Ok? ==> PoolOk(connections, o))
      ensures forall w :: w in connections.Values ==> w in old(connections.Values) || fresh(w)
      ensures talk.request == FetchRequest(net.fl, selection, p)
      ensures Asked(net.trace) == Asked(old(net.trace)) + (if attempted then [talk] else [])
      ensures Continues(Here(), o, old(net.trace), net.trace)
      ensures p.node !in old(connections) ==> DialsFirst(old(net.trace), net.trace, p.node)
      ensures r.Ok? ==> attempted && Fits(WantRecord(peers, last), r.value) && SentWholly(talk)
      ensures r.Err? ==> OperationError(r.error)
      ensures if r.Err? then Blames(ctx.err, Here(), WantRecord(peers, last), old(net.trace), net.trace, r.error)
              else CalledFor(Here(), WantRecord(peers, last), old(net.trace), net.trace, None)
      ensures r.Ok? ==> Replied(net.fl, max, WantRecord(peers, last), net.honest, talk, r)
      ensures ctx.calm && AllCooperate(o) ==> attempted && r == RecordsView(selection)(p, last)
    {
      hide PoolAt, Loose, Asked, Acceptable, Cooperative, RefusesCodecs, Interpret, Continues, NodesOk, Heard,
        SentWholly, SentPartly, CalledFor, Blames, Reports;
      ghost var t := net.trace;
      var c := Ensure(ctx, p.node);
      talk := Begin(FetchRequest(net.fl, selection, p), None);
      if c.Err? {
        PoolNodes(connections, o);
        IdleBlames(ctx.err, o, WantFields, WantRecord(peers, last), t, net.trace, c.error);
        return Err(c.error), false, talk;
      }
      PoolNodes(connections, o);
      FetchIsAcceptable(net.fl, max, p.id, selection);
      ghost var u := net.trace;
      var header, body := ReadHeader(net.fl, p.id, selection), ReadBody(selection);
      r, attempted, talk := Speak(ctx, o, c.value, header, body, WantRecord(peers, last));
      StillContinues(Here(), o, t, u, net.trace, p.node);
      SpeechCalls(ctx.err, o, WantRecord(peers, last), t, u, net.trace, if r.Err? then Some(r.error) else None);
    }

    /** The requests since `start` are those of a walk through these places. */
    ghost predicate Walked(start: seq<Talk>, now: seq<Talk>, selection: Option<Bytes>, id: ID, places: seq<Place>) {
      && start <= now && IsWalk(places, peers, limit, id)
      && IsTrail(TheWorld(), selection, places, now[|start|..])
    }

    /** What was read last sends the reader to p. */
    ghost predicate Led(now: seq<Talk>, places: seq<Place>, p: Place) {
      places != [] ==> |now| > 0 && Sends(TheWorld(), now[|now| - 1], places[|places| - 1], p)
    }

    lemma WalkNowhere(start: seq<Talk>, selection: Option<Bytes>, id: ID)
      ensures Walked(start, start, selection, id, []) && Led(start, [], Place(0, id))
    {
    }

    lemma WalkOn(start: seq<Talk>, now: seq<Talk>, selection: Option<Bytes>, id: ID, places: seq<Place>, p: Place,
                 talk: Talk)
      requires Walked(start, now, selection, id, places) && |places| <= limit && p.node < peers && p.id.Valid()
      requires places == [] ==> p == Place(0, id)
      requires Led(now, places, p) && talk.request == FetchRequest(net.fl, selection, p)
      ensures Walked(start, now + [talk], selection, id, places + [p])
    {
      hide Sends, FetchRequest;
      var asked := now[|start|..];
      TrailGrows(TheWorld(), selection, places, asked, p, talk);
      assert (now + [talk])[|start|..] == asked + [talk];
    }

    /** The last request since `start` was handed over whole, and this is what was read in reply. */
    ghost predicate EndsWith(start: seq<Talk>, now: seq<Talk>, value: Option<Payload>) {
      |now| > |start| && SentWholly(now[|now| - 1]) && Concludes(TheWorld(), now[|now| - 1], value)
    }

    /** A redirect leads on, and any other reply is a finding. */
    lemma Onward(start: seq<Talk>, now: seq<Talk>, places: seq<Place>, p: Place, last: bool, g: Got)
      requires Fits(WantRecord(peers, last), g) && |now| > |start| && SentWholly(now[|now| - 1])
      requires Replied(net.fl, max, WantRecord(peers, last), net.honest, now[|now| - 1], Ok(g))
      ensures g.Forward? ==> Led(now, places + [p], Target(p, g))
      ensures !g.Forward? ==> EndsWith(start, now, if g.Record? then Some(g.payload) else None)
    {
      hide Interpret, Heard, SentWholly;
      HeardLastOnly(net.fl, max, peers, now[|now| - 1]);
      if net.honest {
        LastOnlyStops(net.fl, max, peers, now[|now| - 1].reply.value);
      }
    }

    /** Without faults: these are the places of the chain so far, and p comes next. */
    ghost predicate OnCourse(calm: bool, o: Options, selection: Option<Bytes>, id: ID, places: seq<Place>, p: Place)
      reads net`answer
    {
      && |places| <= limit
      && (calm && AllCooperate(o) ==>
          Tracks(RecordsView(selection), Place(0, id), limit, places, p, limit - |places|))
    }

    /** Without faults: these are all places of the chain, and this is what it ends with. */
    ghost predicate Arrived(calm: bool, o: Options, selection: Option<Bytes>, id: ID, places: seq<Place>,
                            r: Result<Option<Payload>>)
      reads net`answer
    {
      calm && AllCooperate(o) ==>
        && r == Follow(RecordsView(selection), Place(0, id), limit)
        && places == Visits(RecordsView(selection), Place(0, id), limit)
    }

    lemma SetOut(calm: bool, o: Options, selection: Option<Bytes>, id: ID)
      ensures OnCourse(calm, o, selection, id, [], Place(0, id))
    {
      hide AllCooperate, Tracks;
      TracksStart(RecordsView(selection), Place(0, id), limit);
    }

    lemma KeepCourse(calm: bool, o: Options, selection: Option<Bytes>, id: ID, places: seq<Place>, p: Place,
                     walk: seq<Place>, g: Result<Got>)
      requires OnCourse(calm, o, selection, id, places, p)
      requires calm && AllCooperate(o) ==>
                 walk == places + [p] && g == RecordsView(selection)(p, |places| == limit)
      requires g.Ok? ==> walk == places + [p] && Fits(WantRecord(peers, |places| == limit), g.value)
      ensures if g.Ok? && g.value.Forward? then OnCourse(calm, o, selection, id, walk, Target(p, g.value))
              else Arrived(calm, o, selection, id, walk, Conclude(g))
    {
      hide AllCooperate, Tracks, RecordView, ClusterView, Follow, Visits;
      ClusterViewIsRecordView(net.fl, net.answer, max, peers, selection);
      if calm && AllCooperate(o) {
        Advance(RecordsView(selection), peers, Place(0, id), limit, places, p, limit - |places|, g);
      }
    }

    /** One round of the redirect loop, within a walk. */
    method Round(ctx: Context, o: Options, p: Place, selection: Option<Bytes>, last: bool,
                 ghost start: seq<Talk>, ghost id: ID, ghost places: seq<Place>)
      returns (r: Result<Got>, ghost walk: seq<Place>)
      requires PoolOk(connections, o) && net.Valid() && opts == o && OptionsOk(o) && ctx.Valid() && !closed
      requires FetchInput(max, p.id, selection) && p.node < peers
      requires Walked(start, Asked(net.trace), selection, id, places) && last == (|places| == limit)
      requires OnCourse(ctx.calm, o, selection, id, places, p)
      requires places == [] ==> p == Place(0, id)
      requires Led(Asked(net.trace), places, p)
      modifies this`connections, connections.Values, ctx, net`trace, net`live
      ensures NodesOk(connections) && ctx.Valid() && Loose() == old(Loose()) && (r.Ok? ==> PoolOk(connections, o))
      ensures forall w :: w in connections.Values ==> w in old(connections.Values) || fresh(w)
      ensures Continues(Here(), o, old(net.trace), net.trace)
      ensures p.node !in old(connections) ==> DialsFirst(old(net.trace), net.trace, p.node)
      ensures Walked(start, Asked(net.trace), selection, id, walk)
      ensures r.Ok? ==> walk == places + [p] && Fits(WantRecord(peers, last), r.value)
      ensures r.Err? ==> OperationError(r.error)
      ensures r.Err? ==>
                Blames(ctx.err, Here(), WantRecord(peers, |walk| > limit), old(net.trace), net.trace, r.error)
      ensures r.Ok? && r.value.Forward? ==>
                CalledFor(Here(), WantRecord(peers, false), old(net.trace), net.trace, None)
      ensures net.trace == old(net.trace) ==> walk == places
      ensures if r.Ok? && r.value.Forward?
              then Led(Asked(net.trace), walk, Target(p, r.value)) &&
                   OnCourse(ctx.calm, o, selection, id, walk, Target(p, r.value))
              else Arrived(ctx.calm, o, selection, id, walk, Conclude(r))
      ensures r.Ok? && !r.value.Forward? ==>
                EndsWith(start, Asked(net.trace), if r.value.Record? then Some(r.value.payload) else None)
    {
      hide PoolAt, Loose, Ready, Interpret, Asked, AllCooperate, FetchRequest, Fits, Continues, DialsFirst, Replied,
        IsWalk, IsTrail, Led, EndsWith, SentWholly;
      ghost var now, t := Asked(net.trace), net.trace;
      var attempted;
      ghost var talk;
      r, attempted, talk := AskAt(ctx, o, p, selection, last);
      WalkOn(start, now, selection, id, places, p, talk);
      assert now + [] == now;
      walk := if attempted then places + [p] else places;
      if r.Ok? {
        Onward(start, Asked(net.trace), places, p, last, r.value);
      }
      KeepCourse(ctx.calm, o, selection, id, places, p, walk, r);
      if r.Err? && !attempted {
        IdleBlames(ctx.err, o, WantRecord(peers, last), WantRecord(peers, false), t, net.trace, r.error);
      }
    }

    lemma RoundCalls(end: Option<Error>, o: Options, t: seq<Event>, u: seq<Event>, v: seq<Event>, last: bool,
                     g: Result<Got>)
      requires Continues(Here(), o, t, u) && Continues(Here(), o, u, v)
      requires CalledFor(Here(), WantRecord(peers, false), t, u, None) && (u == v ==> !last)
      requires g.Err? ==> Blames(end, Here(), WantRecord(peers, last), u, v, g.error)
      requires g.Ok? && g.value.Forward? ==> CalledFor(Here(), WantRecord(peers, false), u, v, None)
      ensures g.Err? ==> Blames(end, Here(), WantRecord(peers, last), t, v, g.error)
      ensures g.Ok? && g.value.Forward? ==> CalledFor(Here(), WantRecord(peers, false), t, v, None)
    {
      hide CalledFor, Accounted, Blames;
      if g.Err? {
        BlamesOn(end, Here(), WantRecord(peers, last), t, u, v, g.error);
      } else if g.value.Forward? {
        CalledForOn(Here(), WantRecord(peers, false), t, u, v, None);
      }
    }

    /** The closure of read: the redirect loop. */
    method FetchOnce(ctx: Context, o: Options, id: ID, selection: Option<Bytes>)
      returns (r: Result<Option<Payload>>, ghost places: seq<Place>)
      requires PoolOk(connections, o) && net.Valid() && opts == o && OptionsOk(o) && ctx.Valid() && !closed && peers > 0
      requires FetchInput(max, id, selection)
      modifies this`connections, connections.Values, ctx, net`trace, net`live
      ensures NodesOk(connections) && ctx.Valid() && Loose() == old(Loose()) && (r.Ok? ==> PoolOk(connections, o))
      ensures forall w :: w in connections.Values ==> w in old(connections.Values) || fresh(w)
      ensures Continues(Here(), o, old(net.trace), net.trace)
      ensures old(connections) == map[] ==> DialsFirst(old(net.trace), net.trace, 0)
      ensures Walked(Asked(old(net.trace)), Asked(net.trace), selection, id, places)
      ensures r.Err? ==> OperationError(r.error)
      ensures r.Err? ==>
                Blames(ctx.err, Here(), WantRecord(peers, |places| > limit), old(net.trace), net.trace, r.error)
      ensures r.Ok? ==> EndsWith(Asked(old(net.trace)), Asked(net.trace), r.value)
      ensures Arrived(ctx.calm, o, selection, id, places, r)
    {
      hide Pooled, Loose, Asked, Continues, DialsFirst, Walked, Led, EndsWith, HandshakeError, IsContext, PoolOk,
        NodesOk, OptionsOk, OnCourse, Arrived, Normal, Heard;
      ghost var t, start := net.trace, Asked(net.trace);
      var current: ID, node: nat := id, 0;
      places := [];
      var hops := 0;
      r := Err(Fail(Protocol));
      SetOut(ctx.calm, o, selection, id);
      WalkNowhere(start, selection, id);
      TalksHere(Here(), o, t);
      CalledForHere(Here(), WantRecord(peers, false), t);
      while hops <= limit
        invariant hops <= limit && |places| == hops
        invariant PoolOk(connections, o) && ctx.Valid() && node < peers && current.Valid() && Loose() == old(Loose())
        invariant forall w :: w in connections.Values ==> w in old(connections.Values) || fresh(w)
        invariant Walked(start, Asked(net.trace), selection, id, places)
        invariant Led(Asked(net.trace), places, Place(node, current))
        invariant Continues(Here(), o, t, net.trace)
        invariant CalledFor(Here(), WantRecord(peers, false), t, net.trace, None)
        invariant hops == 0 ==>
                  Place(node, current) == Place(0, id) && net.trace == t && connections == old(connections)
        invariant hops > 0 && old(connections) == map[] ==> DialsFirst(t, net.trace, 0)
        invariant OnCourse(ctx.calm, o, selection, id, places, Place(node, current))
        decreases limit - hops
      {
        var p, last := Place(node, current), hops == limit;
        ghost var u := net.trace;
        var g, walk := Round(ctx, o, p, selection, last, start, id, places);
        StillContinues(Here(), o, t, u, net.trace, 0);
        RoundCalls(ctx.err, o, t, u, net.trace, |walk| > limit, g);
        if g.Err? {
          return Err(g.error), walk;
        }
        places := walk;
        if !g.value.Forward? {
          return Ok(if g.value.Record? then Some(g.value.payload) else None), places;
        }
        current := g.value.to;
        if g.value.node.Some? {
          node := g.value.node.value;
        }
        hops := hops + 1;
      }
      assert false;
    }

    /** The closure of Health. */
    method StatusOnce(ctx: Context, o: Options) returns (r: Result<Bytes>, attempted: bool, ghost talk: Talk)
      requires PoolOk(connections, o) && net.Valid() && opts == o && OptionsOk(o) && ctx.Valid() && !closed && peers > 0
      modifies this`connections, connections.Values, ctx, net`trace, net`live
      ensures NodesOk(connections) && ctx.Valid() && Loose() == old(Loose()) && (r.Ok? ==> PoolOk(connections, o))
      ensures forall w :: w in connections.Values ==> w in old(connections.Values) || fresh(w)
      ensures talk.request == STATUS_REQUEST && (r.Ok? ==> attempted)
      ensures Asked(net.trace) == Asked(old(net.trace)) + (if attempted then [talk] else [])
      ensures Continues(Here(), o, old(net.trace), net.trace)
      ensures old(connections) == map[] ==> DialsFirst(old(net.trace), net.trace, 0)
      ensures r.Err? ==> OperationError(r.error)
      ensures r.Err? ==> Blames(ctx.err, Here(), WantStatus(peers), old(net.trace), net.trace, r.error)
      ensures r.Ok? ==>
                SentWholly(talk) && Replied(net.fl, max, WantStatus(peers), net.honest, talk, Ok(Status(r.value)))
      ensures ctx.calm && AllCooperate(o) ==> attempted && r == CalmStatus()
    {
      hide PoolAt, Loose, Asked, Cooperative, RefusesCodecs, Interpret, Continues, NodesOk, Normal, OptionsOk,
        Heard, SentWholly, SentPartly, CalledFor, Blames, Reports;
      ghost var t := net.trace;
      var c := Ensure(ctx, 0);
      PoolNodes(connections, o);
      talk := Begin(STATUS_REQUEST, None);
      if c.Err? {
        IdleBlames(ctx.err, o, WantFields, WantStatus(peers), t, net.trace, c.error);
        return Err(c.error), false, talk;
      }
      var g;
      ghost var u := net.trace;
      g, attempted, talk := Speak(ctx, o, c.value, "HEALTH", [], WantStatus(peers));
      StillContinues(Here(), o, t, u, net.trace, 0);
      SpeechCalls(ctx.err, o, WantStatus(peers), t, u, net.trace, if g.Err? then Some(g.error) else None);
      r := if g.Err? then Err(g.error) else Ok(g.value.text);
    }

    /** What node 0 answers to a health check. */
    ghost function CalmStatus(): Result<Bytes>
      reads net`answer
    {
      match Interpret(net.fl, max, WantStatus(peers), net.answer(0, "HEALTH", []))
      case Ok(g) => Ok(if g.Status? then g.text else [])
      case Err(e) => Err(e)
    }

    /** What a read gives when nothing fails: the chain of redirects, followed; or the status of node 0. */
    ghost predicate CalmRead(op: Op, asked: seq<Talk>, r: Result<Finding>)
      reads net`answer
    {
      match op
      case OpStatus =>
        && |asked| == 1 && asked[0].request == STATUS_REQUEST
        && r == (match CalmStatus() case Ok(s) => Ok(StatusText(s)) case Err(e) => Err(e))
      case OpRead(id, selection) =>
        var view, start := RecordsView(selection), Place(0, id);
        && IsTrail(TheWorld(), selection, Visits(view, start, limit), asked)
        && r == (match Follow(view, start, limit) case Ok(x) => Ok(Found(x)) case Err(e) => Err(e))
    }

    ghost predicate OpInput(op: Op) {
      op.OpRead? ==> FetchInput(max, op.id, op.selection)
    }

    lemma StatusDone(attempted: bool, talk: Talk, s: Result<Bytes>)
      requires talk.request == STATUS_REQUEST && (s.Ok? ==> attempted)
      requires s.Ok? ==>
                 SentWholly(talk) && Replied(net.fl, max, WantStatus(peers), net.honest, talk, Ok(Status(s.value)))
      ensures var asked := if attempted then [talk] else [];
              && IsAttempt(TheWorld(), OpStatus, asked)
              && (s.Ok? ==> FoundIn(TheWorld(), OpStatus, asked, StatusText(s.value)))
    {
      hide Replied, SentWholly;
    }

    lemma WalkDone(start: seq<Talk>, now: seq<Talk>, id: ID, selection: Option<Bytes>, places: seq<Place>,
                   p: Result<Option<Payload>>)
      requires Walked(start, now, selection, id, places) && (p.Ok? ==> EndsWith(start, now, p.value))
      ensures start <= now && IsTrail(TheWorld(), selection, places, now[|start|..]) && |places| == |now| - |start|
      ensures IsAttempt(TheWorld(), OpRead(id, selection), now[|start|..])
      ensures p.Ok? ==> FoundIn(TheWorld(), OpRead(id, selection), now[|start|..], Found(p.value))
    {
      hide IsWalk, Sends, FetchRequest, Concludes, SentWholly;
      assert p.Ok? ==> now[|start|..][|now| - |start| - 1] == now[|now| - 1];
    }

    /** One run of the operation's closure. */
    method Run(ctx: Context, o: Options, op: Op) returns (r: Result<Finding>, ghost asked: seq<Talk>)
      requires PoolOk(connections, o) && net.Valid() && opts == o && OptionsOk(o) && ctx.Valid() && !closed && peers > 0
      requires OpInput(op)
      modifies this`connections, connections.Values, ctx, net`trace, net`live
      ensures NodesOk(connections) && ctx.Valid() && Loose() == old(Loose()) && (r.Ok? ==> PoolOk(connections, o))
      ensures forall w :: w in connections.Values ==> w in old(connections.Values) || fresh(w)
      ensures Continues(Here(), o, old(net.trace), net.trace)
      ensures old(connections) == map[] ==> DialsFirst(old(net.trace), net.trace, 0)
      ensures Asked(net.trace) == Asked(old(net.trace)) + asked
      ensures IsAttempt(TheWorld(), op, asked)
      ensures if r.Ok? then (r.value.Found? <==> op.OpRead?) else OperationError(r.error)
      ensures r.Ok? ==> FoundIn(TheWorld(), op, asked, r.value)
      ensures r.Err? ==>
                Blames(ctx.err, Here(), WantOf(TheWorld(), op, asked), old(net.trace), net.trace, r.error)
      ensures ctx.calm && AllCooperate(o) ==> CalmRead(op, asked, r)
    {
      hide PoolAt, Loose, Interpret, Asked, AllCooperate, Follow, Visits, IsTrail, Continues, DialsFirst, Walked,
        EndsWith, IsAttempt, FoundIn, Replied, SentWholly, FetchRequest, NodesOk, OptionsOk, Normal;
      ghost var start := Asked(net.trace);
      match op
      case OpStatus =>
        var s, attempted, talk := StatusOnce(ctx, o);
        StatusDone(attempted, talk, s);
        asked := if attempted then [talk] else [];
        r := match s case Ok(x) => Ok(StatusText(x)) case Err(e) => Err(e);
      case OpRead(id, selection) =>
        var p, places := FetchOnce(ctx, o, id, selection);
        WalkDone(start, Asked(net.trace), id, selection, places, p);
        asked := Asked(net.trace)[|start|..];
        r := match p case Ok(x) => Ok(Found(x)) case Err(e) => Err(e);
    }

    /** Without faults a read never fails in a way that would be retried. */
    lemma CalmErrors(op: Op, asked: seq<Talk>, r: Result<Finding>)
      requires CalmRead(op, asked, r)
      ensures r.Err? ==> !Retryable(r.error)
    {
      if op.OpRead? {
        var view := RecordsView(op.selection);
        forall q: Place, last: bool | view(q, last).Err? ensures view(q, last).error in {Fail(Protocol), Fail(Server)} {
          var reply := net.answer(q.node, ReadHeader(net.fl, q.id, op.selection), ReadBody(op.selection));
          assert view(q, last) == Interpret(net.fl, max, WantRecord(peers, last), reply);
        }
        FollowErrors(view, Place(0, op.id), limit, {Fail(Protocol), Fail(Server)});
      }
    }

    lemma BlamedAttempt(end: Option<Error>, op: Op, t: seq<Event>, u: seq<Event>, asked: seq<Talk>, e: Error)
      requires Blames(end, Here(), WantOf(TheWorld(), op, asked), t, u, e) && (end.Some? ==> IsContext(end.value))
      ensures FailsRightly(TheWorld(), op, t, u, asked, e) && Reports(end, e)
    {
      hide CalledFor;
    }

    /** The same, between the events that mark it. */
    method Attempt(ctx: Context, o: Options, op: Op) returns (r: Result<Finding>, ghost events: seq<Event>)
      requires PoolOk(connections, o) && net.Valid() && opts == o && OptionsOk(o) && ctx.Valid() && !closed && peers > 0
      requires OpInput(op)
      modifies this`connections, connections.Values, ctx, net`trace, net`live
      ensures NodesOk(connections) && ctx.Valid() && Loose() == old(Loose()) && (r.Ok? ==> PoolOk(connections, o))
      ensures forall w :: w in connections.Values ==> w in old(connections.Values) || fresh(w)
      ensures net.trace == old(net.trace) + events && |events| >= 2 && IsTry(TheWorld(), o, op, old(net.trace), events)
      ensures events[0] == Started(old(ctx.err), old(ctx.looks))
      ensures events[|events| - 1] == Ended(if r.Err? then Some(r.error) else None, ctx.looks)
      ensures old(connections) == map[] ==> |events| > 2 && events[1] == Dialed(0)
      ensures if r.Ok? then (r.value.Found? <==> op.OpRead?) else OperationError(r.error)
      ensures r.Err? ==> Reports(ctx.err, r.error)
      ensures r.Ok? ==> FoundIn(TheWorld(), op, Asked(events), r.value)
      ensures ctx.calm && AllCooperate(o) ==> CalmRead(op, Asked(events), r) && (r.Err? ==> !Retryable(r.error))
    {
      hide PoolAt, Loose, AllCooperate, FoundIn, CalmRead, OpInput, IsAttempt, OptionsOk, NodesOk, Heard, Normal,
        Ready, IsTry, Accounted, Continues, CalledFor, Blames, FailsRightly;
      ghost var t := net.trace;
      ghost var began := Started(ctx.err, ctx.looks);
      net.trace := t + [began];
      PoolLater(connections, o, t);
      ghost var asked;
      r, asked := Run(ctx, o, op);
      if ctx.calm && AllCooperate(o) {
        CalmErrors(op, asked, r);
      }
      ghost var ended := Ended(if r.Err? then Some(r.error) else None, ctx.looks);
      if r.Err? {
        BlamedAttempt(ctx.err, op, t + [began], net.trace, asked, r.error);
      }
      events := Marked(TheWorld(), o, op, t, net.trace, began, ended, asked);
      ghost var u := net.trace;
      net.trace := u + [ended];
      if r.Ok? {
        PoolLater(connections, o, u);
      }
    }

    /** The retry loop of readOperation. */
    method ReadLocked(ctx: Context, o: Options, op: Op)
      returns (r: Result<Finding>, ghost first: seq<Event>, ghost second: seq<Event>)
      requires PoolOk(connections, o) && net.Valid() && opts == o && OptionsOk(o) && ctx.Valid() && !closed && peers > 0
      requires OpInput(op)
      modifies this`connections, connections.Values, ctx, net`trace, net`live
      ensures PoolOk(connections, o) && ctx.Valid() && Loose() == old(Loose())
      ensures forall w :: w in connections.Values ==> w in old(connections.Values) || fresh(w)
      ensures net.trace == old(net.trace) + first + second && first != []
      ensures ReadLaw(TheWorld(), o, op, ctx.err, old(net.trace), first, second, r)
      ensures r.Err? ==> connections == map[] && Reports(ctx.err, r.error)
      ensures if r.Ok? then (r.value.Found? <==> op.OpRead?) else OperationError(r.error)
      ensures ctx.calm && AllCooperate(o) ==> second == [] && CalmRead(op, Asked(first), r)
    {
      hide Pooled, Loose, Normal, NodesOk, Interpret, Asked, AllCooperate, IsTry, CalmRead, FoundIn, OpInput,
        OptionsOk, FailsRightly, Accounted, CalledFor, Is, Retryable, PoolAt, Ready;
      first, second := [], [];
      ghost var t := net.trace;
      r := Err(Fail(Connection));
      var attempt := 0;
      while attempt < 2
        invariant 0 <= attempt <= 1 && second == [] && net.trace == t + first
        invariant PoolOk(connections, o) && ctx.Valid() && Loose() == old(Loose())
        invariant forall w :: w in connections.Values ==> w in old(connections.Values) || fresh(w)
        invariant if attempt == 0 then first == [] else Pressing(ctx, o, op, t, first)
        invariant attempt > 0 ==> connections == map[]
        invariant ctx.calm && AllCooperate(o) ==> attempt == 0
        decreases 2 - attempt
      {
        ghost var events;
        r, events := Attempt(ctx, o, op);
        if attempt == 0 {
          first := events;
          assert t + [] + events == t + first + [];
        } else {
          second := events;
        }
        if r.Ok? {
          return;
        }
        Drop();
        EmptyPool(o);
        var c := ctx.Poll();
        if c.Some? {
          return Err(c.value), first, second;
        }
        if attempt == 1 || o.disableReadRetry || !Retryable(r.error) {
          return;
        }
        attempt := attempt + 1;
      }
      assert false;
    }

    /** After a first attempt that calls for a second one. */
    ghost predicate Pressing(ctx: Context, o: Options, op: Op, before: seq<Event>, first: seq<Event>)
      reads ctx
    {
      && IsTry(TheWorld(), o, op, before, first)
      && |first| > 0 && first[|first| - 1].Ended? && first[|first| - 1].looks < ctx.looks && ctx.err == None
      && !o.disableReadRetry && Failure(first).Some? && Retryable(Failure(first).value)
    }

    /** readOperation: at most two attempts, the second from scratch and exactly when called for. */
    method ReadOperation(ctx: Context, op: Op)
      returns (r: Result<Finding>, ghost first: seq<Event>, ghost second: seq<Event>)
      requires Valid() && gate == 1 && ctx.Valid() && OpInput(op)
      modifies this`gate, this`connections, connections.Values, ctx, net`trace, net`live
      ensures Valid() && gate == 1 && ctx.Valid() && Loose() == old(Loose())
      ensures forall w :: w in connections.Values ==> w in old(connections.Values) || fresh(w)
      ensures net.trace == old(net.trace) + first + second
      ensures ReadLaw(TheWorld(), opts, op, ctx.err, old(net.trace), first, second, r)
      ensures r.Err? && first != [] ==> connections == map[]
      ensures r.Err? && r.error != Fail(Input) ==> Reports(ctx.err, r.error)
      ensures if r.Ok? then (r.value.Found? <==> op.OpRead?) else OperationError(r.error)
      ensures closed ==> r.Err? && first == [] && second == []
      ensures ctx.calm && !closed && AllCooperate(opts) ==> first != [] && second == [] && CalmRead(op, Asked(first), r)
    {
      hide PoolAt, Loose, Asked, AllCooperate, CalmRead, OpInput, Tries, Returns, FoundIn;
      first, second := [], [];
      var e := Lock(ctx);
      if e.Some? {
        return Err(e.value), first, second;
      }
      r, first, second := ReadLocked(ctx, opts, op);
      Unlock();
    }

    /** Client.Health. */
    method Health(ctx: Context) returns (r: Result<Bytes>, ghost first: seq<Event>, ghost second: seq<Event>)
      requires Valid() && gate == 1 && ctx.Valid()
      modifies this`gate, this`connections, connections.Values, ctx, net`trace, net`live
      ensures Valid() && gate == 1 && ctx.Valid() && Loose() == old(Loose())
      ensures forall w :: w in connections.Values ==> w in old(connections.Values) || fresh(w)
      ensures net.trace == old(net.trace) + first + second
      ensures ReadLaw(TheWorld(), opts, OpStatus, ctx.err, old(net.trace), first, second,
                      match r case Ok(s) => Ok(StatusText(s)) case Err(e) => Err(e))
      ensures r.Err? && first != [] ==> connections == map[]
      ensures r.Err? && r.error != Fail(Input) ==> Reports(ctx.err, r.error)
      ensures closed ==> r.Err? && net.trace == old(net.trace)
      ensures r.Err? ==> OperationError(r.error)
      ensures ctx.calm && !closed && AllCooperate(opts) ==> second == [] && |Asked(first)| == 1 && r == CalmStatus()
    {
      hide PoolAt, Loose, Asked, OptionsOk, ReadLaw, AllCooperate, CalmStatus;
      var a;
      a, first, second := ReadOperation(ctx, OpStatus);
      r := if a.Ok? then Ok(a.value.s) else Err(a.error);
    }

    /** Client.read, behind Get (no selection) and Query. */
    method Read(ctx: Context, id: ID, selection: Option<Bytes>)
      returns (r: Result<Option<Payload>>, ghost first: seq<Event>, ghost second: seq<Event>)
      requires Valid() && gate == 1 && ctx.Valid()
      modifies this`gate, this`connections, connections.Values, ctx, net`trace, net`live
      ensures Valid() && gate == 1 && ctx.Valid() && Loose() == old(Loose())
      ensures forall w :: w in connections.Values ==> w in old(connections.Values) || fresh(w)
      ensures net.trace == old(net.trace) + first + second
      ensures ReadLaw(TheWorld(), opts, OpRead(id, selection), ctx.err, old(net.trace), first, second,
                      match r case Ok(x) => Ok(Found(x)) case Err(e) => Err(e))
      ensures r.Err? && first != [] ==> connections == map[]
      ensures r.Err? && r.error != Fail(Input) ==> Reports(ctx.err, r.error)
      ensures closed || !FetchInput(max, id, selection) ==> r.Err? && net.trace == old(net.trace)
      ensures r == Err(Fail(Input)) <==> !id.Valid() || (selection.Some? && |selection.value| > max)
      ensures ctx.calm && !closed && AllCooperate(opts) && FetchInput(max, id, selection) ==>
                && second == []
                && r == Follow(RecordsView(selection), Place(0, id), limit)
                && IsTrail(TheWorld(), selection, Visits(RecordsView(selection), Place(0, id), limit), Asked(first))
    {
      hide PoolAt, Loose, Asked, OptionsOk, Follow, Visits, AllCooperate, Tries, Returns, FoundIn, IsTrail;
      first, second := [], [];
      if !id.Valid() || (selection.Some? && |selection.value| > max) {
        return Err(Fail(Input)), first, second;
      }
      var a;
      a, first, second := ReadOperation(ctx, OpRead(id, selection));
      r := if a.Ok? then Ok(a.value.payload) else Err(a.error);
    }
  }

  /** The first thing that happens is dialing this node. */
  predicate DialsFirst(t: seq<Event>, u: seq<Event>, node: nat) {
    |t| < |u| && u[|t|] == Dialed(node)
  }

  /** No other node is dialed. */
  ghost predicate DialsOnly(t: seq<Event>, u: seq<Event>, node: nat) {
    t <= u && forall i :: |t| <= i < |u| && u[i].Dialed? ==> u[i].node == node
  }

  lemma UnreachableBlamed(end: Option<Error>, x: Setting, t: seq<Event>, node: nat, e: Error)
    requires NetworkError(e) && Reports(end, e)
    ensures Blames(end, x, WantFields, t, t + [Dialed(node)], e)
  {
  }

  /** What ensure makes of the failure of a handshake, of which the context was derived from its own. */
  lemma HandshakeBlamed(end: Option<Error>, dial: Option<Error>, x: Setting, t: seq<Event>, u: seq<Event>,
                        e: Error, r: Error)
    requires CalledFor(x, WantFields, t, u, Some(e)) && HandshakeError(e)
    requires Reports(dial, e) && (dial == Some(Canceled) ==> end.Some?)
    requires r == if end.Some? then end.value else if IsDeadline(e) then Fail(Kind.Timeout) else e
    ensures Blames(end, x, WantFields, t, u, r)
  {
    hide Heard, Welcome;
  }

  /** After dialing, what matters is the handshake. */
  lemma DialedCalls(x: Setting, o: Options, t: seq<Event>, node: nat, u: seq<Event>, e: Option<Error>)
    requires Continues(x, o, t + [Dialed(node)], u) && CalledFor(x, WantFields, t + [Dialed(node)], u, e)
    ensures CalledFor(x, WantFields, t, u, e)
  {
    hide Complaint, Accounted;
  }

  /** What is read for a request proper does not matter while none is made. */
  lemma WantIsIdle(x: Setting, want: Want, other: Want, t: seq<Event>, u: seq<Event>)
    requires t <= u && Asked(t) == Asked(u)
    ensures CallsFor(x, want, t, u) == CallsFor(x, other, t, u)
  {
    hide Heard, Welcome, Refusal;
    if |u| > |t| {
      var v, last := u[..|u| - 1], u[|u| - 1];
      assert v == t + v[|t|..];
      AskedAppends(t, v[|t|..]);
      assert |Asked(v)| >= |Asked(t)|;
    }
  }

  lemma DialFirst(x: Setting, o: Options, t: seq<Event>, node: nat)
    ensures var u := t + [Dialed(node)];
            Continues(x, o, t, u) && Underway(u, node, []) && DialsFirst(t, u, node) && Asked(u) == Asked(t)
  {
    AskedOfOne(t, Dialed(node));
    assert (t + [Dialed(node)])[|t| + 1..] == [];
  }

  lemma StillContinues(x: Setting, o: Options, t: seq<Event>, u: seq<Event>, v: seq<Event>, node: nat)
    requires Continues(x, o, t, u) && Continues(x, o, u, v)
    ensures Continues(x, o, t, v)
    ensures DialsFirst(t, u, node) ==> DialsFirst(t, v, node)
  {
    hide Accounted;
    ContinuesOn(x, o, t, u, v);
    assert t <= u <= v;
  }

  lemma {:induction false} AskedAppends(t: seq<Event>, u: seq<Event>)
    ensures Asked(t + u) == Asked(t) + Asked(u)
  {
    if u == [] {
      assert t + u == t;
    } else {
      AskedAppends(t, u[..|u| - 1]);
      assert (t + u)[..|t + u| - 1] == t + u[..|u| - 1];
    }
  }

  /** What happened between two marks, with the marks. */
  lemma Between(t: seq<Event>, u: seq<Event>, began: Event, ended: Event, asked: seq<Talk>) returns (events: seq<Event>)
    requires began.Started? && ended.Ended? && t + [began] <= u && Asked(u) == Asked(t + [began]) + asked
    ensures u + [ended] == t + events && |events| == |u| - |t| + 1 && events[0] == began && events[|u| - |t|] == ended
    ensures Asked(events) == asked
  {
    events := u[|t|..] + [ended];
    assert u[..|t|] == (t + [began])[..|t|] == t;
    assert u == t + u[|t|..];
    AskedAppends(t, u[|t|..]);
    AskedOfOne(t, began);
    AskedOfOne(u[|t|..], ended);
    assert asked == (Asked(t) + asked)[|Asked(t)|..] == (Asked(t) + Asked(u[|t|..]))[|Asked(t)|..];
  }

  lemma Marked(w: World, o: Options, op: Op, t: seq<Event>, u: seq<Event>, began: Event, ended: Event,
               asked: seq<Talk>)
    returns (events: seq<Event>)
    requires began.Started? && ended.Ended? && Continues(w.x, o, t + [began], u) && IsAttempt(w, op, asked)
    requires Asked(u) == Asked(t + [began]) + asked
    requires ended.failure.Some? ==> FailsRightly(w, op, t + [began], u, asked, ended.failure.value)
    ensures u + [ended] == t + events && |events| >= 2 && events[0] == began && events[|events| - 1] == ended
    ensures IsTry(w, o, op, t, events) && Asked(events) == asked
    ensures DialsFirst(t + [began], u, 0) ==> |events| > 2 && events[1] == Dialed(0)
  {
    hide Accounted, IsAttempt, Asked, FailsRightly;
    events := Between(t, u, began, ended, asked);
    forall i | 0 < i < |events| - 1 ensures Accounted(w.x, o, t + events[..i], events[i]) && events[i] == u[|t| + i] {
      var v := u + [ended];
      assert v[..|t| + i] == u[..|t| + i] && v[..|t| + i] == t + events[..i];
      assert v[|t| + i] == events[i];
    }
    assert t + events[..|events| - 1] == (t + events)[..|u|] == u;
    assert Asked(events) == asked;
  }

  /** Dial: normalizes the options and connects to the first peer before returning. */
  method Dial(net: Net, ctx: Context, peers: seq<Bytes>, options: Options, usable: Bytes -> bool, tlsReady: bool)
    returns (r: Result<Client>)
    requires net.Valid() && ctx.Valid()
    modifies ctx, net`trace, net`live
    ensures ctx.Valid() && Asked(net.trace) == Asked(old(net.trace))
    // nothing is handed over but the steps of the handshake, each when it is due
    ensures var o := WithDefaults(options);
            Normal(o) ==> Continues(Setting(net.fl, net.derive, o.maxFrameBytes), o, old(net.trace), net.trace)
    ensures r.Ok? ==>
              && fresh(r.value) && r.value.Valid() && r.value.gate == 1 && !r.value.closed
              && r.value.net == net && r.value.peers == |peers| && r.value.opts == WithDefaults(options)
              && r.value.connections.Keys == {0} && fresh(r.value.connections.Values)
              && r.value.max == WithDefaults(options).maxFrameBytes
              && r.value.limit == WithDefaults(options).maxRedirects
    // the connection of the client, or none left open
    ensures net.live == old(net.live) + (if r.Ok? then 1 else 0)
    // a failure is the end of the context, or what was read in the handshake calls for it, or the network's
    ensures var o := WithDefaults(options);
            r.Err? && r.error != Fail(Input) ==>
              && Normal(o)
              && Blames(ctx.err, Setting(net.fl, net.derive, o.maxFrameBytes), WantFields,
                        old(net.trace), net.trace, r.error)
    ensures !(UsablePeers(peers, usable) && Normal(WithDefaults(options)) && tlsReady) ==>
              r == Err(Fail(Input)) && net.trace == old(net.trace)
    ensures net.calm && ctx.calm && Cooperative(net, 0, WithDefaults(options)) && r.Err? ==> r.error == Fail(Input)
    ensures net.calm && ctx.calm && RefusesCodecs(net, 0, WithDefaults(options)) ==> r.Err?
    ensures UsablePeers(peers, usable) && Normal(WithDefaults(options)) && tlsReady ==> r != Err(Fail(Input))
  {
    hide Client.Pooled, Asked, WithDefaults, Cooperative, RefusesCodecs, Continues;
    ghost var d := WithDefaults(options);
    if Normal(d) {
      TalksHere(Setting(net.fl, net.derive, d.maxFrameBytes), d, net.trace);
    }
    var o := Normalize(peers, options, usable, tlsReady);
    if o.Err? {
      return Err(o.error);
    }
    var c := new Client(net, |peers|, o.value);
    var w := c.Ensure(ctx, 0);
    if w.Err? {
      c.PoolNodes(c.connections, c.opts);
      c.Drop();
      return Err(w.error);
    }
    r := Ok(c);
  }
}
