/**
 The gate among goroutines (client.go): any number of goroutines use and close one client, as
 interleaved steps over the bytes of its connections.  A connection is read by `Decode`, the
 function that the methods of module Transport refine, applied to what has arrived by the time
 the read succeeds or gives up; a new one is in the state in which the handshake leaves it.
 */
module Gate {
  import opened Errors
  import opened Text
  import opened Ids
  import opened Streams
  import opened Replies
  import opened Transport

  type Gid = nat

  /** Requests are numbered in the order in which they are begun. */
  type Tag = nat

  /** Who began a request, and what reply it wants. */
  datatype Ask = Ask(g: Gid, want: Want)

  /** One connection: what can be read and what is on its way, and the requests the server has not answered. */
  datatype Conn = Conn(ch: Channel, st: Stream, owed: Bytes, waiting: seq<Tag>)

  ghost predicate Sane(max: nat, c: Conn) {
    c.ch.max == max && 1 <= max <= MAX_FRAME && (c.ch.key.Some? ==> Sound(c.ch.key.value))
  }

  /** Every request has been answered and every reply read to its end. */
  ghost predicate Settled(max: nat, c: Conn) {
    Sane(max, c) && c.waiting == [] && Pending(c.ch, c.st, c.owed, [])
  }

  datatype Pc =
    | Idle
    | AtGate(closing: bool)           // in lock's select, or in Close's receive
    | Checking                        // has the token; looks at the context and at closed
    | Ensuring                        // in ensure
    | Ready(node: nat)                // has a connection; about to send
    | Sending(node: nat, tag: Tag)
    | Reading(node: nat, tag: Tag)    // has asked; in the reply closure
    | Dropping(retry: bool)           // in drop, after a failure
    | Closing                         // in Close's drop
    | Leaving                         // about to unlock

  /** A result given to a caller, and the request it was given for. */
  datatype Outcome = Outcome(g: Gid, tag: Tag, got: Got)

  datatype State = State(
    tokens: nat, closed: bool, pool: map<nat, Conn>, pcs: map<Gid, Pc>,
    asks: seq<Ask>, answers: map<Tag, Reply>, outcomes: seq<Outcome>)

  predicate HasToken(p: Pc) {
    !p.Idle? && !p.AtGate?
  }

  /** In possession of a connection, or about to be. */
  predicate IsTalking(p: Pc) {
    p.Ensuring? || p.Ready? || p.Sending? || p.Reading?
  }

  predicate Init(s: State) {
    && s.tokens == 1 && !s.closed && s.pool == map[] && s.asks == [] && s.answers == map[] && s.outcomes == []
    && forall g :: g in s.pcs ==> s.pcs[g] == Idle
  }

  function At(s: State, g: Gid, p: Pc): State {
    s.(pcs := s.pcs[g := p])
  }

  // ---------------------------------------------------------------- steps

  /** Entering an operation or Close, and giving up in lock's select when the context ends. */
  ghost predicate Arrive(s: State, t: State, g: Gid)
    requires g in s.pcs
  {
    || (s.pcs[g].Idle? && (t == At(s, g, AtGate(false)) || t == At(s, g, AtGate(true))))
    || (s.pcs[g] == AtGate(false) && t == At(s, g, Idle))
  }

  /** Receiving the token from the channel, and what follows at once. */
  ghost predicate Enter(s: State, t: State, g: Gid)
    requires g in s.pcs
  {
    || (s.pcs[g].AtGate? && s.tokens > 0
        && t == At(s, g, if s.pcs[g].closing then Closing else Checking).(tokens := s.tokens - 1))
    || (s.pcs[g].Checking? && (t == At(s, g, Leaving) || (!s.closed && t == At(s, g, Ensuring))))
  }

  /** ensure: refuses a closed client, finds a connection, dials and negotiates one, or fails. */
  ghost predicate Ensure(s: State, t: State, g: Gid, node: nat, max: nat)
    requires g in s.pcs
  {
    s.pcs[g].Ensuring? &&
    (|| t == At(s, g, Leaving) || t == At(s, g, Dropping(false)) || t == At(s, g, Dropping(true))
     || (!s.closed && node in s.pool && t == At(s, g, Ready(node)))
     || (!s.closed && node !in s.pool &&
         exists c: Conn :: Settled(max, c) && t == At(s, g, Ready(node)).(pool := s.pool[node := c])))
  }

  /** The request is begun. */
  ghost predicate Begin(s: State, t: State, g: Gid)
    requires g in s.pcs
  {
    s.pcs[g].Ready? &&
    exists want: Want :: !want.WantFields? &&
      t == At(s, g, Sending(s.pcs[g].node, |s.asks|)).(asks := s.asks + [Ask(g, want)])
  }

  /** The connection after a request has reached its server. */
  function Sent(c: Conn, tag: Tag): Conn {
    c.(waiting := c.waiting + [tag])
  }

  /** It is sent in full, or not; a failed send may have reached the server all the same. */
  ghost predicate Send(s: State, t: State, g: Gid)
    requires g in s.pcs
  {
    s.pcs[g].Sending? && s.pcs[g].node in s.pool &&
    var Sending(node, tag) := s.pcs[g];
    var c := s.pool[node];
    var sent := s.pool[node := Sent(c, tag)];
    || t == At(s, g, Reading(node, tag)).(pool := sent)
    || t == At(s, g, Dropping(false)) || t == At(s, g, Dropping(true))
    || t == At(s, g, Dropping(false)).(pool := sent) || t == At(s, g, Dropping(true)).(pool := sent)
  }

  /** The connection after a read that stopped here. */
  function Past(c: Conn, st: Stream): Conn {
    c.(st := st)
  }

  /**
   Reading: failure at any moment, or success once what has arrived decodes, whosever reply it
   is.  After a success the operation returns or asks again.  It does not matter that reading
   goes on while bytes arrive: by Replies.DecodeMore a read that succeeded early does the same
   on all that has arrived by the time it ends.
   */
  ghost predicate Read(s: State, t: State, g: Gid, fl: Floats)
    requires g in s.pcs
  {
    s.pcs[g].Reading? && s.pcs[g].node in s.pool && s.pcs[g].tag < |s.asks| &&
    var Reading(node, tag) := s.pcs[g];
    var c := s.pool[node];
    var (r, st) := Decode(fl, c.ch.max, s.asks[tag].want, Reader(c.ch), c.st);
    || t == At(s, g, Dropping(false)) || t == At(s, g, Dropping(true))
    || (r.Ok? &&
        var u := s.(pool := s.pool[node := Past(c, st)], outcomes := s.outcomes + [Outcome(g, tag, r.value)]);
        t == At(u, g, Leaving) || t == At(u, g, Ensuring))
  }

  /** drop, one connection at a time; then another attempt, or the end. */
  ghost predicate Drop(s: State, t: State, g: Gid, node: nat)
    requires g in s.pcs
  {
    s.pcs[g].Dropping? &&
    if s.pool == map[] then t == At(s, g, if s.pcs[g].retry then Ensuring else Leaving)
    else node in s.pool && t == s.(pool := s.pool - {node})
  }

  /** Close, with the token. */
  ghost predicate CloseStep(s: State, t: State, g: Gid, node: nat)
    requires g in s.pcs
  {
    s.pcs[g].Closing? &&
    if s.pool == map[] then t == At(s, g, Leaving).(closed := true)
    else node in s.pool && t == s.(pool := s.pool - {node})
  }

  /** unlock: sends to a channel of capacity one, so it can go on only if that is empty. */
  ghost predicate Leave(s: State, t: State, g: Gid)
    requires g in s.pcs
  {
    s.pcs[g].Leaving? && s.tokens < 1 && t == At(s, g, Idle).(tokens := s.tokens + 1)
  }

  /** An honest server answers the oldest request it has, with one complete reply cut into frames in any way. */
  ghost predicate Serve(s: State, t: State, node: nat) {
    node in s.pool && s.pool[node].waiting != [] &&
    var c := s.pool[node];
    exists rep: Reply, raw: Bytes :: Proper(rep) && Carries(c.ch.key, raw, ReplyBytes(rep)) &&
      t == s.(pool := s.pool[node := c.(owed := c.owed + raw, waiting := c.waiting[1..])],
              answers := s.answers[c.waiting[0] := rep])
  }

  /** The connection after n of the bytes on their way have arrived. */
  function Delivered(c: Conn, n: nat): Conn
    requires n <= |c.owed|
  {
    c.(st := c.st.(input := c.st.input + c.owed[..n]), owed := c.owed[n..])
  }

  /** Some of what it said arrives. */
  ghost predicate Deliver(s: State, t: State, node: nat, n: nat) {
    node in s.pool && n <= |s.pool[node].owed| &&
    t == s.(pool := s.pool[node := Delivered(s.pool[node], n)])
  }

  ghost predicate Act(s: State, t: State, g: Gid, node: nat, fl: Floats, max: nat)
    requires g in s.pcs
  {
    || Arrive(s, t, g) || Enter(s, t, g) || Ensure(s, t, g, node, max)
    || Begin(s, t, g) || Send(s, t, g) || Read(s, t, g, fl)
    || Drop(s, t, g, node) || CloseStep(s, t, g, node) || Leave(s, t, g)
  }

  /** Who or what moves, and how far. */
  datatype Step = Step(g: Gid, node: nat, n: nat)

  ghost predicate Moves(s: State, t: State, x: Step, fl: Floats, max: nat) {
    Serve(s, t, x.node) || Deliver(s, t, x.node, x.n) || (x.g in s.pcs && Act(s, t, x.g, x.node, fl, max))
  }

  ghost predicate Next(s: State, t: State, fl: Floats, max: nat) {
    exists x: Step :: Moves(s, t, x, fl, max)
  }

  // ---------------------------------------------------------------- the invariant

  /** Tokens in the channel and goroutines that hold it: never more than one in all. */
  predicate OneHolder(s: State) {
    && s.tokens <= 1
    && (s.tokens == 1 ==> forall g :: g in s.pcs ==> !HasToken(s.pcs[g]))
    && (forall g, h :: g in s.pcs && h in s.pcs && HasToken(s.pcs[g]) && HasToken(s.pcs[h]) ==> g == h)
  }

  ghost predicate SomeHolder(s: State) {
    s.tokens == 0 ==> exists g :: g in s.pcs && HasToken(s.pcs[g])
  }

  ghost predicate AllSettledBut(s: State, max: nat, node: nat) {
    forall n :: n in s.pool && n != node ==> Settled(max, s.pool[n])
  }

  ghost predicate AllSettled(s: State, max: nat) {
    forall n :: n in s.pool ==> Settled(max, s.pool[n])
  }

  /** The request is the only one in flight: the server has yet to answer it, or its reply is all that is pending. */
  ghost predicate Midway(s: State, max: nat, c: Conn, tag: Tag) {
    && Sane(max, c)
    && if c.waiting == [] then
         && tag in s.answers && Proper(s.answers[tag])
         && Pending(c.ch, c.st, c.owed, ReplyBytes(s.answers[tag]))
       else c.waiting == [tag] && Pending(c.ch, c.st, c.owed, [])
  }

  /** The request is this goroutine's, and nobody has been given its reply. */
  predicate Own(s: State, g: Gid, tag: Tag) {
    && tag < |s.asks| && s.asks[tag].g == g && !s.asks[tag].want.WantFields?
    && forall i :: 0 <= i < |s.outcomes| ==> s.outcomes[i].tag != tag
  }

  /** What the pool looks like while a goroutine is at this place with the token. */
  ghost predicate PoolFits(s: State, max: nat, g: Gid, p: Pc) {
    match p
    case Ready(node) => node in s.pool && AllSettled(s, max)
    case Sending(node, tag) => node in s.pool && AllSettled(s, max) && Own(s, g, tag) && tag !in s.answers
    case Reading(node, tag) =>
      node in s.pool && AllSettledBut(s, max, node) && Midway(s, max, s.pool[node], tag) && Own(s, g, tag)
    case Dropping(_) => true
    case _ => AllSettled(s, max)
  }

  /** At most one request is unanswered, and it is none of those that have been answered. */
  predicate WaitsFit(s: State) {
    && (forall n :: n in s.pool && s.pool[n].waiting != [] ==>
          |s.pool[n].waiting| == 1 && s.pool[n].waiting[0] < |s.asks| && s.pool[n].waiting[0] !in s.answers)
    && (forall n, m :: n in s.pool && m in s.pool && s.pool[n].waiting != [] && s.pool[m].waiting != [] ==> n == m)
    && (forall tag :: tag in s.answers ==> tag < |s.asks|)
  }

  /** The result is what the reply to the goroutine's own request means. */
  predicate Good(s: State, fl: Floats, max: nat, o: Outcome) {
    && o.tag < |s.asks| && s.asks[o.tag].g == o.g && o.tag in s.answers
    && Interpret(fl, max, s.asks[o.tag].want, s.answers[o.tag]) == Ok(o.got)
  }

  predicate OutcomesFit(s: State, fl: Floats, max: nat) {
    && (forall i :: 0 <= i < |s.outcomes| ==> Good(s, fl, max, s.outcomes[i]))
    && (forall i, j :: 0 <= i < j < |s.outcomes| ==> s.outcomes[i].tag != s.outcomes[j].tag)
  }

  ghost predicate Invariant(s: State, fl: Floats, max: nat) {
    && OneHolder(s) && SomeHolder(s)
    && (s.closed ==> s.pool == map[])
    && (s.closed ==> forall g :: g in s.pcs && HasToken(s.pcs[g]) ==> s.pcs[g] in {Checking, Closing, Leaving})
    && (s.tokens == 1 ==> AllSettled(s, max))
    && (forall g :: g in s.pcs && HasToken(s.pcs[g]) ==> PoolFits(s, max, g, s.pcs[g]))
    && WaitsFit(s) && OutcomesFit(s, fl, max)
  }

  // ---------------------------------------------------------------- it is kept

  /** The holder of the token, when somebody acts with it. */
  lemma NobodyElse(s: State, g: Gid, h: Gid)
    requires OneHolder(s) && g in s.pcs && HasToken(s.pcs[g]) && h in s.pcs && h != g
    ensures !HasToken(s.pcs[h]) && s.tokens == 0
  {
  }

  /** A step of the holder that keeps the token, up to the pool. */
  lemma KeepsHolding(s: State, t: State, g: Gid, p: Pc, fl: Floats, max: nat)
    requires Invariant(s, fl, max) && g in s.pcs && HasToken(s.pcs[g]) && HasToken(p)
    requires t.tokens == s.tokens && t.pcs == s.pcs[g := p]
    requires PoolFits(t, max, g, p)
    requires t.closed ==> t.pool == map[] && p in {Checking, Closing, Leaving}
    requires WaitsFit(t) && OutcomesFit(t, fl, max)
    ensures Invariant(t, fl, max)
  {
    hide PoolFits, Good, OutcomesFit, WaitsFit, AllSettled;
    forall h | h in t.pcs && HasToken(t.pcs[h]) ensures h == g {
      if h != g {
        NobodyElse(s, g, h);
      }
    }
    assert HasToken(t.pcs[g]);
  }

  /** What the pool must look like depends on nothing but the pool and what was said. */
  lemma PoolFitsFrame(s: State, t: State, fl: Floats, max: nat)
    requires t.pool == s.pool && t.asks == s.asks && t.answers == s.answers && t.outcomes == s.outcomes
    ensures AllSettled(t, max) == AllSettled(s, max) && WaitsFit(t) == WaitsFit(s)
    ensures OutcomesFit(t, fl, max) == OutcomesFit(s, fl, max)
    ensures forall g: Gid, p: Pc :: PoolFits(t, max, g, p) == PoolFits(s, max, g, p)
  {
    hide Settled, Pending, Interpret;
    assert forall o: Outcome :: Good(t, fl, max, o) == Good(s, fl, max, o);
    assert forall g: Gid, tag: Tag :: Own(t, g, tag) == Own(s, g, tag);
    assert forall c: Conn, tag: Tag :: Midway(t, max, c, tag) == Midway(s, max, c, tag);
  }

  lemma ArriveIsSafe(s: State, t: State, g: Gid, fl: Floats, max: nat)
    requires Invariant(s, fl, max) && g in s.pcs && Arrive(s, t, g)
    ensures Invariant(t, fl, max)
  {
    hide PoolFits, Good, AllSettled, WaitsFit, OutcomesFit;
    PoolFitsFrame(s, t, fl, max);
    forall h | h in t.pcs && HasToken(t.pcs[h]) ensures h in s.pcs && t.pcs[h] == s.pcs[h] {
    }
    if s.tokens == 0 {
      var h :| h in s.pcs && HasToken(s.pcs[h]);
      assert t.pcs[h] == s.pcs[h];
    }
  }

  lemma EnterIsSafe(s: State, t: State, g: Gid, fl: Floats, max: nat)
    requires Invariant(s, fl, max) && g in s.pcs && Enter(s, t, g)
    ensures Invariant(t, fl, max)
  {
    hide Good, AllSettled, WaitsFit, OutcomesFit;
    PoolFitsFrame(s, t, fl, max);
    if s.pcs[g].Checking? {
      KeepsHolding(s, t, g, t.pcs[g], fl, max);
    } else {
      assert HasToken(t.pcs[g]);
      forall h | h in t.pcs && HasToken(t.pcs[h]) ensures h == g {
      }
    }
  }

  lemma EnsureIsSafe(s: State, t: State, g: Gid, node: nat, fl: Floats, max: nat)
    requires Invariant(s, fl, max) && g in s.pcs && Ensure(s, t, g, node, max)
    ensures Invariant(t, fl, max)
  {
    hide Pending, Sane, Interpret, OneHolder, SomeHolder;
    assert PoolFits(s, max, g, s.pcs[g]);
    assert OutcomesFit(t, fl, max) by { OutcomesStay(s, t, fl, max); }
    KeepsHolding(s, t, g, t.pcs[g], fl, max);
  }

  /** Asking more and answering what was not answered leaves the results as good as they were. */
  lemma OutcomesStay(s: State, t: State, fl: Floats, max: nat)
    requires OutcomesFit(s, fl, max) && t.outcomes == s.outcomes && s.asks <= t.asks
    requires forall tag :: tag in s.answers ==> tag in t.answers && t.answers[tag] == s.answers[tag]
    ensures OutcomesFit(t, fl, max)
  {
    hide Interpret;
    forall i | 0 <= i < |t.outcomes| ensures Good(t, fl, max, t.outcomes[i]) {
      assert Good(s, fl, max, s.outcomes[i]);
    }
  }

  lemma WaitsStay(s: State, t: State)
    requires WaitsFit(s) && t.pool.Keys == s.pool.Keys && s.asks <= t.asks && t.answers == s.answers
    requires forall n :: n in s.pool ==> t.pool[n].waiting == s.pool[n].waiting
    ensures WaitsFit(t)
  {
  }

  lemma BeginIsSafe(s: State, t: State, g: Gid, fl: Floats, max: nat)
    requires Invariant(s, fl, max) && g in s.pcs && Begin(s, t, g)
    ensures Invariant(t, fl, max)
  {
    hide Settled, Interpret, OneHolder, SomeHolder;
    assert PoolFits(s, max, g, s.pcs[g]);
    OutcomesStay(s, t, fl, max);
    forall i | 0 <= i < |s.outcomes| ensures s.outcomes[i].tag < |s.asks| {
      assert Good(s, fl, max, s.outcomes[i]);
    }
    KeepsHolding(s, t, g, t.pcs[g], fl, max);
  }

  lemma SentWaits(s: State, t: State, max: nat, node: nat, tag: Tag)
    requires WaitsFit(s) && AllSettled(s, max) && node in s.pool && tag < |s.asks| && tag !in s.answers
    requires t.pool == s.pool[node := Sent(s.pool[node], tag)] && t.asks == s.asks && t.answers == s.answers
    ensures WaitsFit(t) && AllSettledBut(t, max, node) && Midway(t, max, t.pool[node], tag)
  {
    hide Pending;
  }

  lemma SendIsSafe(s: State, t: State, g: Gid, fl: Floats, max: nat)
    requires Invariant(s, fl, max) && g in s.pcs && Send(s, t, g)
    ensures Invariant(t, fl, max)
  {
    hide WaitsFit, OutcomesFit, OneHolder, SomeHolder, AllSettled, AllSettledBut, Midway;
    assert PoolFits(s, max, g, s.pcs[g]);
    OutcomesStay(s, t, fl, max);
    if t.pool == s.pool {
      WaitsStay(s, t);
    } else {
      SentWaits(s, t, max, s.pcs[g].node, s.pcs[g].tag);
    }
    KeepsHolding(s, t, g, t.pcs[g], fl, max);
  }

  /** A read that succeeds has read the reply to its own request, and all of it. */
  lemma OwnReplyRead(s: State, max: nat, c: Conn, g: Gid, tag: Tag, fl: Floats)
    requires Midway(s, max, c, tag) && Own(s, g, tag)
    ensures c.ch.max == max
    ensures var (r, st) := Decode(fl, max, s.asks[tag].want, Reader(c.ch), c.st);
            r.Ok? ==>
              Good(s, fl, max, Outcome(g, tag, r.value)) && Settled(max, Past(c, st))
  {
    hide Decode, Interpret, Pending;
    var want := s.asks[tag].want;
    DecodeErrors(fl, c.ch, want, c.st);
    if c.waiting == [] {
      ReplyRead(fl, c.ch, want, c.st, c.owed, s.answers[tag]);
    } else {
      QuietReadsNothing(fl, c.ch, want, c.st, c.owed);
    }
  }

  lemma OneMoreSettled(s: State, t: State, max: nat, node: nat, st: Stream)
    requires node in s.pool && AllSettledBut(s, max, node) && Settled(max, Past(s.pool[node], st))
    requires t.pool == s.pool[node := Past(s.pool[node], st)]
    ensures AllSettled(t, max) && t.pool.Keys == s.pool.Keys
    ensures forall n :: n in s.pool ==> t.pool[n].waiting == s.pool[n].waiting
  {
    hide Settled;
  }

  lemma ReadIsSafe(s: State, t: State, g: Gid, fl: Floats, max: nat)
    requires Invariant(s, fl, max) && g in s.pcs && Read(s, t, g, fl)
    ensures Invariant(t, fl, max)
  {
    hide OneHolder, SomeHolder, Decode, WaitsFit, OutcomesFit, Midway, Own, Good, AllSettled, AllSettledBut, Settled,
        Past;
    var Reading(node, tag) := s.pcs[g];
    var c := s.pool[node];
    assert PoolFits(s, max, g, s.pcs[g]);
    OwnReplyRead(s, max, c, g, tag, fl);
    if t.pcs[g].Dropping? {
      OutcomesStay(s, t, fl, max);
    } else {
      OutcomesGrow(s, t, fl, max, t.outcomes[|s.outcomes|]);
      OneMoreSettled(s, t, max, node, Decode(fl, c.ch.max, s.asks[tag].want, Reader(c.ch), c.st).1);
    }
    WaitsStay(s, t);
    KeepsHolding(s, t, g, t.pcs[g], fl, max);
  }

  lemma OutcomesGrow(s: State, t: State, fl: Floats, max: nat, o: Outcome)
    requires OutcomesFit(s, fl, max) && t.outcomes == s.outcomes + [o] && t.asks == s.asks && t.answers == s.answers
    requires Good(s, fl, max, o) && Own(s, o.g, o.tag)
    ensures OutcomesFit(t, fl, max)
  {
    hide Interpret;
    forall i | 0 <= i < |t.outcomes| ensures Good(t, fl, max, t.outcomes[i]) {
      assert i < |s.outcomes| ==> Good(s, fl, max, s.outcomes[i]);
    }
  }

  lemma DropIsSafe(s: State, t: State, g: Gid, node: nat, fl: Floats, max: nat)
    requires Invariant(s, fl, max) && g in s.pcs && (Drop(s, t, g, node) || CloseStep(s, t, g, node))
    ensures Invariant(t, fl, max)
  {
    hide OneHolder, SomeHolder, Settled, Interpret;
    assert t.pcs == s.pcs[g := t.pcs[g]];
    assert PoolFits(s, max, g, s.pcs[g]);
    OutcomesStay(s, t, fl, max);
    KeepsHolding(s, t, g, t.pcs[g], fl, max);
  }

  lemma LeaveIsSafe(s: State, t: State, g: Gid, fl: Floats, max: nat)
    requires Invariant(s, fl, max) && g in s.pcs && Leave(s, t, g)
    ensures Invariant(t, fl, max)
  {
    hide Good, AllSettled, WaitsFit, OutcomesFit;
    PoolFitsFrame(s, t, fl, max);
    forall h | h in t.pcs ensures !HasToken(t.pcs[h]) {
      if h != g {
        NobodyElse(s, g, h);
      }
    }
    assert PoolFits(s, max, g, s.pcs[g]);
  }

  /** Only a goroutine that has the token and has sent leaves something unsettled. */
  lemma UnsettledIsHeld(s: State, fl: Floats, max: nat, node: nat) returns (g: Gid)
    requires Invariant(s, fl, max) && node in s.pool && !Settled(max, s.pool[node])
    ensures g in s.pcs && HasToken(s.pcs[g]) && PoolFits(s, max, g, s.pcs[g])
    ensures s.pcs[g].Dropping? || (s.pcs[g].Reading? && s.pcs[g].node == node)
  {
    hide Settled, Interpret, WaitsFit, OutcomesFit;
    var h :| h in s.pcs && HasToken(s.pcs[h]);
    g := h;
  }

  lemma ServeKeepsMidway(s: State, t: State, max: nat, c: Conn, tag: Tag, rep: Reply, raw: Bytes)
    requires Midway(s, max, c, tag) && c.waiting != [] && Proper(rep) && Carries(c.ch.key, raw, ReplyBytes(rep))
    requires t.answers == s.answers[tag := rep]
    ensures Midway(t, max, c.(owed := c.owed + raw, waiting := c.waiting[1..]), tag)
  {
    hide Pending, Carries, Proper;
    PendingGrows(c.ch, c.st, c.owed, [], raw, ReplyBytes(rep));
    assert [] + ReplyBytes(rep) == ReplyBytes(rep);
  }

  lemma ServeIsSafe(s: State, t: State, node: nat, fl: Floats, max: nat)
    requires Invariant(s, fl, max) && Serve(s, t, node)
    ensures Invariant(t, fl, max)
  {
    hide OneHolder, SomeHolder, Pending, Interpret, Carries, Proper;
    var c := s.pool[node];
    var rep: Reply, raw: Bytes :| Proper(rep) && Carries(c.ch.key, raw, ReplyBytes(rep)) &&
      t == s.(pool := s.pool[node := c.(owed := c.owed + raw, waiting := c.waiting[1..])],
              answers := s.answers[c.waiting[0] := rep]);
    assert !Settled(max, c);
    var g := UnsettledIsHeld(s, fl, max, node);
    assert t.pcs == s.pcs[g := s.pcs[g]];
    OutcomesStay(s, t, fl, max);
    if s.pcs[g].Reading? {
      ServeKeepsMidway(s, t, max, c, s.pcs[g].tag, rep, raw);
      assert AllSettledBut(t, max, node);
    }
    KeepsHolding(s, t, g, s.pcs[g], fl, max);
  }

  lemma DeliverKeeps(max: nat, c: Conn, n: nat, text: Bytes)
    requires n <= |c.owed| && Pending(c.ch, c.st, c.owed, text)
    ensures Pending(c.ch, c.st.(input := c.st.input + c.owed[..n]), c.owed[n..], text)
  {
    PendingArrives(c.ch, c.st, c.owed, text, n);
  }

  lemma DeliverKeepsFit(s: State, t: State, node: nat, n: nat, max: nat, g: Gid, p: Pc)
    requires node in s.pool && n <= |s.pool[node].owed| && t == s.(pool := s.pool[node := Delivered(s.pool[node], n)])
    requires PoolFits(s, max, g, p)
    ensures PoolFits(t, max, g, p)
  {
    hide Pending;
    var c := s.pool[node];
    if Pending(c.ch, c.st, c.owed, []) {
      DeliverKeeps(max, c, n, []);
    }
    if p.Reading? && p.node == node && c.waiting == [] {
      DeliverKeeps(max, c, n, ReplyBytes(s.answers[p.tag]));
    }
  }

  lemma DeliverIsSafe(s: State, t: State, node: nat, n: nat, fl: Floats, max: nat)
    requires Invariant(s, fl, max) && Deliver(s, t, node, n)
    ensures Invariant(t, fl, max)
  {
    hide PoolFits, OneHolder, OutcomesFit, WaitsFit, AllSettled;
    SameHolders(s, t);
    forall g | g in t.pcs && HasToken(t.pcs[g]) ensures PoolFits(t, max, g, t.pcs[g]) {
      DeliverKeepsFit(s, t, node, n, max, g, t.pcs[g]);
    }
    if t.tokens == 1 {
      FreePool(s, max);
      DeliverKeepsFit(s, t, node, n, max, 0, Checking);
      FreePool(t, max);
    }
    OutcomesStay(s, t, fl, max);
    WaitsStay(s, t);
  }

  lemma SameHolders(s: State, t: State)
    requires OneHolder(s) && SomeHolder(s) && t.pcs == s.pcs && t.tokens == s.tokens
    ensures OneHolder(t) && SomeHolder(t)
  {
  }

  lemma FreePool(s: State, max: nat)
    ensures PoolFits(s, max, 0, Checking) <==> AllSettled(s, max)
  {
  }

  /** What was asked, answered and returned is never revised. */
  predicate OnlyGrows(s: State, t: State) {
    && s.asks <= t.asks && s.outcomes <= t.outcomes
    && (forall tag :: tag in s.answers ==> tag in t.answers && t.answers[tag] == s.answers[tag])
  }

  lemma InvariantIsKept(s: State, t: State, fl: Floats, max: nat)
    requires Invariant(s, fl, max) && Next(s, t, fl, max)
    ensures Invariant(t, fl, max) && (s.closed ==> t.closed)
  {
    hide Arrive, Enter, Ensure, Begin, Send, Read, Drop, CloseStep, Leave, Serve, Deliver, Invariant;
    var x: Step :| Moves(s, t, x, fl, max);
    var Step(g, node, n) := x;
    StaysClosed(s, t, x, fl, max);
    if Serve(s, t, node) {
      ServeIsSafe(s, t, node, fl, max);
    } else if Deliver(s, t, node, n) {
      DeliverIsSafe(s, t, node, n, fl, max);
    } else if Arrive(s, t, g) {
      ArriveIsSafe(s, t, g, fl, max);
    } else if Enter(s, t, g) {
      EnterIsSafe(s, t, g, fl, max);
    } else if Ensure(s, t, g, node, max) {
      EnsureIsSafe(s, t, g, node, fl, max);
    } else if Begin(s, t, g) {
      BeginIsSafe(s, t, g, fl, max);
    } else if Send(s, t, g) {
      SendIsSafe(s, t, g, fl, max);
    } else if Read(s, t, g, fl) {
      ReadIsSafe(s, t, g, fl, max);
    } else if Drop(s, t, g, node) || CloseStep(s, t, g, node) {
      DropIsSafe(s, t, g, node, fl, max);
    } else {
      LeaveIsSafe(s, t, g, fl, max);
    }
  }

  lemma StaysClosed(s: State, t: State, x: Step, fl: Floats, max: nat)
    requires Moves(s, t, x, fl, max)
    ensures s.closed ==> t.closed
  {
    hide Decode, Settled, Carries, Proper;
  }

  lemma NothingIsRevised(s: State, t: State, fl: Floats, max: nat)
    requires WaitsFit(s) && Next(s, t, fl, max)
    ensures OnlyGrows(s, t)
  {
    hide Serve, Deliver, Act, WaitsFit;
    var x: Step :| Moves(s, t, x, fl, max);
    if Serve(s, t, x.node) {
      ServeRevisesNothing(s, t, x.node);
    } else {
      OthersReviseNothing(s, t, x, fl, max);
    }
  }

  lemma ServeRevisesNothing(s: State, t: State, node: nat)
    requires WaitsFit(s) && Serve(s, t, node)
    ensures OnlyGrows(s, t)
  {
    hide Carries, Proper;
  }

  lemma OthersReviseNothing(s: State, t: State, x: Step, fl: Floats, max: nat)
    requires Deliver(s, t, x.node, x.n) || (x.g in s.pcs && Act(s, t, x.g, x.node, fl, max))
    ensures t.answers == s.answers && s.asks <= t.asks && s.outcomes <= t.outcomes
  {
    hide Arrive, Enter, Ensure, Begin, Send, Read, Drop, CloseStep, Leave;
    if x.g in s.pcs && Act(s, t, x.g, x.node, fl, max) {
      if Ensure(s, t, x.g, x.node, max) {
        EnsureRevisesNothing(s, t, x.g, x.node, max);
      } else if Begin(s, t, x.g) || Send(s, t, x.g) || Read(s, t, x.g, fl) {
        TalkRevisesNothing(s, t, x.g, fl);
      } else {
        RestRevisesNothing(s, t, x.g, x.node);
      }
    }
  }

  lemma EnsureRevisesNothing(s: State, t: State, g: Gid, node: nat, max: nat)
    requires g in s.pcs && Ensure(s, t, g, node, max)
    ensures t.answers == s.answers && s.asks == t.asks && s.outcomes == t.outcomes
  {
    hide Settled;
  }

  lemma TalkRevisesNothing(s: State, t: State, g: Gid, fl: Floats)
    requires g in s.pcs && (Begin(s, t, g) || Send(s, t, g) || Read(s, t, g, fl))
    ensures t.answers == s.answers && s.asks <= t.asks && s.outcomes <= t.outcomes
  {
    hide Decode;
  }

  lemma RestRevisesNothing(s: State, t: State, g: Gid, node: nat)
    requires g in s.pcs
    requires Arrive(s, t, g) || Enter(s, t, g) || Drop(s, t, g, node) || CloseStep(s, t, g, node) || Leave(s, t, g)
    ensures t.answers == s.answers && s.asks == t.asks && s.outcomes == t.outcomes
  {
  }

  // ---------------------------------------------------------------- new connections

  /** A connection of module Transport, as it is seen here. */
  ghost function ConnOf(w: Wire): Conn
    reads w
  {
    Conn(w.Way(), w.State(), w.owed, [])
  }

  /** The connections that the handshake leaves are the ones that the step Ensure adds. */
  lemma UsableIsSettled(w: Wire)
    requires w.Usable() && w.net.honest
    ensures Settled(w.max, ConnOf(w))
  {
  }

  // ---------------------------------------------------------------- what follows for every run

  ghost predicate IsRun(run: seq<State>, fl: Floats, max: nat) {
    && |run| > 0 && Init(run[0])
    && forall i :: 0 <= i < |run| - 1 ==> Next(run[i], run[i + 1], fl, max)
  }

  lemma {:induction false} RunKeepsInvariant(run: seq<State>, fl: Floats, max: nat, n: nat)
    requires IsRun(run, fl, max) && n < |run|
    ensures Invariant(run[n], fl, max)
  {
    hide Next;
    if n > 0 {
      RunKeepsInvariant(run, fl, max, n - 1);
      InvariantIsKept(run[n - 1], run[n], fl, max);
    }
  }

  function Holders(s: State): set<Gid> {
    set g | g in s.pcs && HasToken(s.pcs[g])
  }

  /** Gate safety: one token in all, and unlock never blocks. */
  lemma GateIsSafe(run: seq<State>, fl: Floats, max: nat, n: nat)
    requires IsRun(run, fl, max) && n < |run|
    ensures run[n].tokens + |Holders(run[n])| == 1
    ensures forall g :: g in run[n].pcs && run[n].pcs[g].Leaving? ==> run[n].tokens < 1
  {
    hide Next, PoolFits, OutcomesFit, WaitsFit;
    RunKeepsInvariant(run, fl, max, n);
    var s := run[n];
    if s.tokens == 1 {
      assert Holders(s) == {};
    } else {
      var g :| g in s.pcs && HasToken(s.pcs[g]);
      assert Holders(s) == {g};
    }
  }

  /**
   Alignment: whenever the gate is free, every request on every pooled connection has been
   answered, and nothing of any reply is left to be read.
   */
  lemma FreeMeansAligned(run: seq<State>, fl: Floats, max: nat, n: nat)
    requires IsRun(run, fl, max) && n < |run| && run[n].tokens == 1
    ensures AllSettled(run[n], max)
  {
    hide Next, PoolFits, OutcomesFit, WaitsFit, AllSettled;
    RunKeepsInvariant(run, fl, max, n);
  }

  /**
   No caller ever receives another request's reply, nor part of one: every result is what the
   server's reply to that goroutine's own request means to it, and no request gives two results.
   */
  lemma RepliesAreOwn(run: seq<State>, fl: Floats, max: nat, n: nat)
    requires IsRun(run, fl, max) && n < |run|
    ensures var s := run[n];
            && (forall i :: 0 <= i < |s.outcomes| ==>
                  var o := s.outcomes[i];
                  && o.tag < |s.asks| && s.asks[o.tag].g == o.g && o.tag in s.answers
                  && Interpret(fl, max, s.asks[o.tag].want, s.answers[o.tag]) == Ok(o.got))
            && (forall i, j :: 0 <= i < j < |s.outcomes| ==> s.outcomes[i].tag != s.outcomes[j].tag)
  {
    hide Next, PoolFits, WaitsFit, Interpret;
    RunKeepsInvariant(run, fl, max, n);
    forall i | 0 <= i < |run[n].outcomes| ensures Good(run[n], fl, max, run[n].outcomes[i]) {
    }
  }

  /** And that reply is the one it had from the start: requests, replies and results are never revised. */
  lemma {:induction false} HistoryIsKept(run: seq<State>, fl: Floats, max: nat, m: nat, n: nat)
    requires IsRun(run, fl, max) && m <= n < |run|
    ensures OnlyGrows(run[m], run[n])
    decreases n
  {
    hide Next;
    if m < n {
      HistoryIsKept(run, fl, max, m, n - 1);
      RunKeepsInvariant(run, fl, max, n - 1);
      hide PoolFits, OutcomesFit, WaitsFit;
      NothingIsRevised(run[n - 1], run[n], fl, max);
    }
  }

  /** Closing is final: from then on the client stays closed and its pool empty, and nobody dials, sends or reads. */
  lemma {:induction false} ClosedForGood(run: seq<State>, fl: Floats, max: nat, m: nat, n: nat)
    requires IsRun(run, fl, max) && m <= n < |run| && run[m].closed
    ensures run[n].closed && run[n].pool == map[]
    ensures forall g :: g in run[n].pcs ==> !IsTalking(run[n].pcs[g])
    decreases n
  {
    hide Next, PoolFits, WaitsFit, OutcomesFit;
    RunKeepsInvariant(run, fl, max, n);
    if m < n {
      ClosedForGood(run, fl, max, m, n - 1);
      RunKeepsInvariant(run, fl, max, n - 1);
      InvariantIsKept(run[n - 1], run[n], fl, max);
    }
  }

  /** Only the goroutine that moves changes its place; and in Close there is one way on. */
  predicate PlacesFit(s: State, t: State, g: Gid)
    requires g in s.pcs
  {
    && g in t.pcs && t.pcs == s.pcs[g := t.pcs[g]]
    && (s.pcs[g].Closing? ==> t.pcs[g].Closing? || (t.pcs[g].Leaving? && t.closed))
  }

  lemma TalkingPlaces(s: State, t: State, g: Gid, fl: Floats)
    requires g in s.pcs && (Begin(s, t, g) || Send(s, t, g) || Read(s, t, g, fl))
    ensures PlacesFit(s, t, g)
  {
    hide Decode;
  }

  lemma EnsuringPlaces(s: State, t: State, g: Gid, node: nat, max: nat)
    requires g in s.pcs && Ensure(s, t, g, node, max)
    ensures PlacesFit(s, t, g)
  {
    hide Settled;
  }

  lemma OtherPlaces(s: State, t: State, g: Gid, node: nat)
    requires g in s.pcs
    requires Arrive(s, t, g) || Enter(s, t, g) || Drop(s, t, g, node) || CloseStep(s, t, g, node) || Leave(s, t, g)
    ensures PlacesFit(s, t, g)
  {
    assert s.pcs[g := s.pcs[g]] == s.pcs;
  }

  lemma CloserMoves(s: State, t: State, x: Step, g: Gid, fl: Floats, max: nat)
    requires Moves(s, t, x, fl, max) && g in s.pcs
    ensures g in t.pcs && (s.pcs[g].Closing? ==> t.pcs[g].Closing? || (t.pcs[g].Leaving? && t.closed))
  {
    hide Arrive, Enter, Ensure, Begin, Send, Read, Drop, CloseStep, Leave, Carries, Proper;
    if x.g in s.pcs && Act(s, t, x.g, x.node, fl, max) {
      if Ensure(s, t, x.g, x.node, max) {
        EnsuringPlaces(s, t, x.g, x.node, max);
      } else if Begin(s, t, x.g) || Send(s, t, x.g) || Read(s, t, x.g, fl) {
        TalkingPlaces(s, t, x.g, fl);
      } else {
        OtherPlaces(s, t, x.g, x.node);
      }
    }
  }

  /** Close closes: a goroutine that was in Close and has left it has closed the client, for good. */
  lemma {:induction false} CloseCloses(run: seq<State>, fl: Floats, max: nat, m: nat, n: nat, g: Gid)
    requires IsRun(run, fl, max) && m <= n < |run| && g in run[m].pcs && run[m].pcs[g].Closing?
    ensures g in run[n].pcs && (run[n].pcs[g].Closing? || run[n].closed)
    ensures run[n].closed ==> run[n].pool == map[] && forall h :: h in run[n].pcs ==> !IsTalking(run[n].pcs[h])
    decreases n
  {
    hide Moves, Invariant;
    if m < n {
      CloseCloses(run, fl, max, m, n - 1, g);
      var x: Step :| Moves(run[n - 1], run[n], x, fl, max);
      CloserMoves(run[n - 1], run[n], x, g, fl, max);
      StaysClosed(run[n - 1], run[n], x, fl, max);
    }
    if run[n].closed {
      ClosedForGood(run, fl, max, n, n);
    }
  }
}
