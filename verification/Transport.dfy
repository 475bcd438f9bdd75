/**
 One connection (wire.go): reading, exchanging a request for a reply, and negotiating.
 Everything outside the driver is nondeterministic: the network may accept part of a write,
 fail, time out or deliver anything at any moment, and a context may end at any moment.

 Two assumptions can be switched on for statements that need them.  An `honest` server
 answers each complete request with one complete reply, cut into frames as it likes and
 arriving in parts; `calm` adds that nothing fails, and that replies are the ones `answer` gives.
 */
module Transport {
  import opened Errors
  import opened Text
  import opened Decimal
  import opened Ids
  import opened Streams
  import opened Replies
  import opened Requests
  import opened Options

  /** A request as it is sent; `step` marks those of the handshake. */
  datatype Request = Request(node: nat, header: Bytes, body: Bytes, step: bool)

  /**
   A request, the key its connection had, and the bytes that were handed over for it; once an
   honest server has sent it, the reply, `whole` if all of that arrived in time; and the stream
   that was read in search of a reply.
   */
  datatype Talk = Talk(
    request: Request, key: Option<Box>, written: Bytes, reply: Option<Reply>, whole: bool, input: Option<Stream>)

  function Begin(q: Request, key: Option<Box>): Talk {
    Talk(q, key, [], None, false, None)
  }

  /** What the reader makes of the stream it has read. */
  function Heard(fl: Floats, max: nat, want: Want, talk: Talk): Result<Got>
    requires talk.input.Some?
  {
    Decode(fl, max, want, Reader(Channel(talk.key, max)), talk.input.value).0
  }

  /** And what it leaves of that stream. */
  function Left(fl: Floats, max: nat, want: Want, talk: Talk): Stream
    requires talk.input.Some?
  {
    Decode(fl, max, want, Reader(Channel(talk.key, max)), talk.input.value).1
  }

  /** What an observer sees: of the network, and of the attempts that a read consists of. */
  datatype Event =
    | Dialed(node: nat)
    | Talked(talk: Talk)                               // from the first write of the request on
    | Stray(node: nat, written: Bytes)                 // bytes that belong to no request
    | Started(err: Option<Error>, looks: nat)          // an attempt, with the context as last seen
    | Ended(failure: Option<Error>, looks: nat)        // and how it went

  /** The request begun last. */
  ghost predicate Latest(t: seq<Event>, talk: Talk) {
    |t| > 0 && t[|t| - 1] == Talked(talk)
  }

  /** The same events with more known about the request begun last. */
  function Revised(t: seq<Event>, talk: Talk): seq<Event>
    requires |t| > 0
  {
    t[..|t| - 1] + [Talked(talk)]
  }

  /**
   Bytes handed to a connection are bytes of the request begun last, if that was begun on this
   connection and nothing has been read for it; or else they are stray.
   */
  ghost function Logged(t: seq<Event>, node: nat, key: Option<Box>, written: Bytes): seq<Event> {
    var n := |t|;
    if n > 0 && t[n - 1].Talked? && t[n - 1].talk.request.node == node && t[n - 1].talk.key == key
       && t[n - 1].talk.reply.None? && t[n - 1].talk.input.None? then
      var talk := t[n - 1].talk;
      Revised(t, talk.(written := talk.written + written))
    else t + [Stray(node, written)]
  }

  /** The requests proper among the events, in order, with the replies to them. */
  function Asked(t: seq<Event>): seq<Talk> {
    if t == [] then [] else
    var last := t[|t| - 1];
    Asked(t[..|t| - 1]) + (if last.Talked? && !last.talk.request.step then [last.talk] else [])
  }

  lemma AskedOfOne(t: seq<Event>, e: Event)
    ensures Asked(t + [e]) == Asked(t) + (if e.Talked? && !e.talk.request.step then [e.talk] else [])
  {
    assert (t + [e])[..|t|] == t;
  }

  // What the outside world decides.

  method Maybe() returns (b: bool) {
    b := *;
  }

  method AnyNumber() returns (n: nat) {
    n := *;
  }

  method AnyBytes() returns (b: Bytes) {
    b := *;
  }

  method AnyFrames() returns (fs: seq<Frame>) {
    fs := *;
  }

  method AnyReply() returns (rep: Reply) {
    rep := *;
  }

  /** The context's error is reported if and only if the context has ended, as far as it was looked at. */
  predicate Reports(end: Option<Error>, e: Error) {
    end.Some? || IsContext(e) ==> end == Some(e)
  }

  /** A context.Context: once ended it stays ended. */
  class Context {
    const calm: bool
    var err: Option<Error>
    ghost var looks: nat        // how often it was looked at

    ghost predicate Valid()
      reads this
    {
      (err.Some? ==> IsContext(err.value)) && (calm ==> err.None?)
    }

    constructor (calm: bool)
      ensures Valid() && this.calm == calm && err == None
    {
      this.calm := calm;
      err, looks := None, 0;
    }

    /** ctx.Err(), at a moment by which the context may have ended. */
    method Poll() returns (e: Option<Error>)
      requires Valid()
      modifies this
      ensures Valid() && e == err && (old(err).Some? ==> err == old(err)) && looks == old(looks) + 1
    {
      looks := looks + 1;
      if err.None? && !calm {
        var ended := Maybe();
        var late := Maybe();
        if ended {
          err := Some(if late then DeadlineExceeded else Canceled);
        }
      }
      e := err;
    }

    /** A context that WithTimeout derives from this one is canceled only when this one has been. */
    method Inherit(child: Context)
      requires Valid() && child.Valid() && child.calm == calm
      modifies this
      ensures Valid() && (old(err).Some? ==> err == old(err)) && looks == old(looks)
      ensures child.err == Some(Canceled) ==> err.Some?
    {
      if child.err == Some(Canceled) && err.None? {
        err := Some(Canceled);
      }
    }

    /** errors.go's ioError for an error of the network stack, which says of itself whether it is a timeout. */
    method IoError(timeout: bool) returns (e: Error)
      requires Valid()
      modifies this
      ensures Valid() && (old(err).Some? ==> err == old(err)) && looks == old(looks) + 1
      ensures e == if err.Some? then err.value else if timeout then Fail(Kind.Timeout) else Fail(Connection)
    {
      var c := Poll();
      e := if c.Some? then c.value else if timeout then Fail(Kind.Timeout) else Fail(Connection);
    }
  }

  /** How servers answer: by node, header and body, and always with a complete reply. */
  type Cluster = f: (nat, Bytes, Bytes) -> Reply | forall n: nat, h: Bytes, b: Bytes :: Proper(f(n, h, b))
    ghost witness (n, h, b) => Reply([], [])

  class Net {
    const calm: bool
    const honest: bool
    const fl: Floats
    const derive: Bytes -> Box
    var answer: Cluster         // of calm servers, until they change their mind
    ghost var trace: seq<Event>
    ghost var live: int         // open connections

    ghost predicate Valid() {
      && (calm ==> honest)
      && Faithful(fl)
      && (forall s: Bytes :: Sound(derive(s)))
    }

    constructor (calm: bool, honest: bool, fl: Floats, derive: Bytes -> Box, answer: Cluster)
      ensures this.calm == calm && this.honest == honest && this.fl == fl && trace == []
      ensures this.derive == derive && this.answer == answer
    {
      this.calm, this.honest, this.fl, this.derive, this.answer := calm, honest, fl, derive, answer;
      trace, live := [], 0;
    }
  }

  /** What exchange makes of its closure's result: the driver's own errors are kept. */
  predicate Mapped(d: Result<Got>, r: Result<Got>) {
    if d.Ok? || d.error.Kouten? then r == d
    else r.Err? && (IsContext(r.error) || r.error in {Fail(Connection), Fail(Kind.Timeout)})
  }

  /** An error of the network stack, and not of the driver. */
  predicate Foreign(d: Result<Got>) {
    d.Err? && !d.error.Kouten?
  }

  /** Some of a frame has been handed over, from its beginning. */
  predicate Handed(before: Bytes, now: Bytes, frame: Bytes, written: Bytes) {
    written <= frame && now == before + written
  }

  lemma HandNothing(before: Bytes, frame: Bytes)
    ensures Handed(before, before, frame, [])
  {
  }

  lemma HandMore(before: Bytes, now: Bytes, frame: Bytes, written: Bytes, n: nat)
    requires Handed(before, now, frame, written) && |written| + n <= |frame|
    ensures var rest := frame[|written|..];
            && Handed(before, now + rest[..n], frame, written + rest[..n])
            && rest[n..] == frame[|written| + n..]
  {
    assert written + frame[|written|..][..n] == frame[..|written| + n];
  }

  lemma HandedAll(before: Bytes, now: Bytes, frame: Bytes, written: Bytes)
    requires Handed(before, now, frame, written) && |written| == |frame|
    ensures written == frame
  {
  }

  /** The last event is this request, of which so much has been handed over. */
  ghost predicate Opened(t: seq<Event>, u: seq<Event>, q: Request, key: Option<Box>, written: Bytes) {
    u == t + [Talked(Begin(q, key).(written := written))]
  }

  lemma OpenHere(t: seq<Event>, q: Request, key: Option<Box>)
    ensures Opened(t, t + [Talked(Begin(q, key))], q, key, [])
  {
  }

  lemma OpenedMore(t: seq<Event>, u: seq<Event>, q: Request, key: Option<Box>, written: Bytes, more: Bytes)
    requires Opened(t, u, q, key, written)
    ensures Opened(t, Logged(u, q.node, key, more), q, key, written + more)
  {
    assert u[..|u| - 1] == t;
  }

  /** A completed step of the handshake, and the fields of the reply. */
  datatype Step = Step(talk: Talk, reply: seq<Bytes>)

  const ZERO_NONCE: Bytes := seq(24, i => '\0')

  class Wire {
    const net: Net
    const node: nat
    const max: nat
    var open: bool
    var key: Option<Box>
    var plain: Bytes            // decrypted, not delivered
    var input: Bytes            // raw bytes that reads will find
    var owed: Bytes             // raw bytes an honest server has sent that are still on the way
    ghost var sent: Bytes       // raw bytes handed to the connection
    ghost var steps: seq<Step>
    ghost var broken: Option<nat>   // how often the context had been looked at when a write failed

    ghost function State(): Stream
      reads this
    {
      Stream(plain, input)
    }

    ghost function Way(): Channel
      reads this
    {
      Channel(key, max)
    }

    /** Nothing is pending: every reply so far has been consumed to its end. */
    ghost predicate Quiet()
      reads this
    {
      Pending(Way(), State(), owed, [])
    }

    ghost predicate Sane()
      reads this
    {
      && open && net.Valid() && 1 <= max <= MAX_FRAME
      && (key.Some? ==> Sound(key.value))
      && |plain| <= Cap(max)
      && (key.None? ==> plain == [])
    }

    ghost predicate Usable()
      reads this
    {
      Sane() && broken == None && (net.honest ==> Quiet())
    }

    constructor (net: Net, node: nat, max: nat)
      requires net.Valid() && 1 <= max <= MAX_FRAME
      modifies net`live
      ensures net.live == old(net.live) + 1
      ensures Usable() && this.net == net && this.node == node && this.max == max
      ensures key == None && sent == [] && steps == []
    {
      this.net, this.node, this.max := net, node, max;
      open, key, plain, input, owed := true, None, [], [], [];
      sent, steps, broken := [], [], None;
      new;
      net.live := net.live + 1;
    }

    /** wire.close. */
    method Close()
      modifies this, net`live
      ensures !open && key == None && plain == []
      ensures net.live == old(net.live) - (if old(open) then 1 else 0)
    {
      net.live := net.live - (if open then 1 else 0);
      open := false;
      key := None;
      plain := [];
    }

    // -------------------------------------------------------------- reading

    ghost function NextByte(secure: bool): Stream -> (Result<byte>, Stream)
      requires secure ==> key.Some?
      reads this
    {
      if secure then SecureReader(key.value, max) else RawNext
    }

    method ReadByte(secure: bool) returns (r: Result<byte>)
      requires secure ==> key.Some?
      modifies this`plain, this`input
      ensures (r, State()) == NextByte(secure)(old(State()))
      decreases if secure then 2 else 0, 1
    {
      if secure {
        var b := TakeBytes(1);
        match b
        case Ok(v) => r := Ok(v[0]);
        case Err(e) => r := Err(e);
      } else if input == [] {
        r := Err(Raw);
      } else {
        r := Ok(input[0]);
        input := input[1..];
      }
    }

    /** wire.go's line: grows a buffer until a newline, an error, or MAX_HEADER + 1 bytes. */
    method ReadLine(secure: bool) returns (r: Result<seq<Bytes>>)
      requires secure ==> key.Some?
      modifies this`plain, this`input
      ensures (r, State()) == Line(NextByte(secure), old(State()), [])
      decreases if secure then 2 else 0, 2
    {
      var buf: Bytes := [];
      while true
        invariant |buf| <= MAX_HEADER
        invariant Line(NextByte(secure), old(State()), []) == Line(NextByte(secure), State(), buf)
        decreases MAX_HEADER + 1 - |buf|
      {
        var b := ReadByte(secure);
        if b.Err? {
          return Err(b.error);
        }
        if b.value == '\n' {
          break;
        }
        if |buf| + 1 > MAX_HEADER {
          return Err(Fail(Protocol));
        }
        buf := buf + [b.value];
      }
      r := Words(buf);
    }

    /** wire.rawBytes. */
    method RawBytes(n: nat) returns (r: Result<Bytes>)
      modifies this`input
      ensures (r, State()) == RawTake(n, old(State()))
    {
      if n <= |input| {
        r := Ok(input[..n]);
        input := input[n..];
      } else {
        r := Err(Raw);
        input := [];
      }
    }

    /** wire.fill. */
    method FillBuffer() returns (r: Result<()>)
      requires key.Some?
      modifies this`plain, this`input
      ensures (r, State()) == Fill(key.value, max, old(State()))
      decreases 1, 0
    {
      var p := ReadLine(false);
      if p.Err? {
        return Err(p.error);
      }
      var e := Expect(p.value, "SEC", 2, false);
      if e.Some? {
        return Err(e.value);
      }
      var n := Parse(p.value[1], max + MAX_HEADER + 41 + 1);
      if n.Err? || n.value < 40 {
        return Err(Fail(Protocol));
      }
      var b := RawBytes(n.value);
      if b.Err? {
        return Err(b.error);
      }
      var text := key.value.open(b.value[..24], b.value[24..]);
      if text.None? || |plain| + |text.value| > Cap(max) {
        return Err(Fail(Protocol));
      }
      plain := plain + text.value;
      return Ok(());
    }

    /** wire.bytes. */
    method TakeBytes(n: nat) returns (r: Result<Bytes>)
      modifies this`plain, this`input
      ensures (r, State()) == Reader(Way()).take(n, old(State()))
      ensures r.Ok? ==> |r.value| == n
      decreases 2, 0
    {
      if key == None {
        r := RawBytes(n);
        return;
      }
      while |plain| < n
        invariant SecureTake(key.value, max, n, old(State())) == SecureTake(key.value, max, n, State())
        decreases |input|
      {
        var e := FillBuffer();
        if e.Err? {
          return Err(e.error);
        }
      }
      r := Ok(plain[..n]);
      plain := plain[n..];
    }

    /** wire.header. */
    method Header() returns (r: Result<seq<Bytes>>)
      modifies this`plain, this`input
      ensures (r, State()) == Reader(Way()).line(old(State()))
      ensures r.Ok? ==> |r.value| > 0
    {
      r := ReadLine(key.Some?);
    }

    /** The reply closures of client.go and of handshake. */
    method Receive(want: Want, ghost talk: Talk) returns (r: Result<Got>)
      requires |plain| <= Cap(max) && Latest(net.trace, talk)
      modifies this`plain, this`input, net`trace
      ensures net.trace == Revised(old(net.trace), talk.(input := Some(old(State()))))
      ensures (r, State()) == Decode(net.fl, max, want, Reader(Way()), old(State()))
      ensures |plain| <= Cap(max) && (key.None? ==> plain == old(plain))
    {
      net.trace := Revised(net.trace, talk.(input := Some(State())));
      var p := Header();
      assert |plain| <= Cap(max) && (key.None? ==> plain == old(plain)) by {
        if key.Some? { LineWithinCap(key.value, max, old(State()), []); } else { RawLine(old(State()), []); }
      }
      if p.Err? {
        return Err(p.error);
      }
      var v := Classify(net.fl, max, want, p.value);
      if v.Done? {
        return v.r;
      }
      ghost var st := State();
      var b := TakeBytes(v.n);
      assert |plain| <= Cap(max) by {
        if key.Some? { TakeWithinCap(key.value, max, v.n, st); }
      }
      if b.Err? {
        return Err(b.error);
      }
      return Ok(Record(Payload(b.value, v.codec)));
    }

    // -------------------------------------------------------------- exchanging

    /** net.Conn.Write: accepts some of the bytes, perhaps none, perhaps with an error. */
    method Write(data: Bytes, ghost looks: nat) returns (n: nat, failed: bool)
      requires data != []
      modifies this`sent, this`broken, net`trace
      ensures broken == if failed then Some(looks) else old(broken)
      ensures n <= |data| && sent == old(sent) + data[..n]
      ensures net.trace == Logged(old(net.trace), node, key, data[..n])
      ensures net.calm ==> n > 0 && !failed
    {
      n := AnyNumber();
      failed := Maybe();
      if n > |data| || (net.calm && n == 0) {
        n := |data|;
      }
      if net.calm {
        failed := false;
      }
      if failed {
        broken := Some(looks);
      }
      sent := sent + data[..n];
      net.trace := Logged(net.trace, node, key, data[..n]);
    }

    /** The send loop of exchange: whatever happens, what was handed over is a prefix of the frame. */
    method SendFrame(ctx: Context, frame: Bytes, ghost request: Request)
      returns (e: Option<Error>, attempted: bool, ghost written: Bytes)
      requires ctx.Valid() && frame != [] && request.node == node && broken == None
      modifies this`sent, this`broken, ctx, net`trace
      ensures ctx.Valid() && (old(ctx.err).Some? ==> ctx.err == old(ctx.err))
      ensures Handed(old(sent), sent, frame, written)
      ensures e.None? ==> attempted && written == frame
      ensures !attempted ==> written == [] && net.trace == old(net.trace)
      ensures attempted ==> Opened(old(net.trace), net.trace, request, key, written)
      ensures e.Some? ==> IsContext(e.value) || e.value in {Fail(Kind.Timeout), Fail(Connection)}
      ensures e.Some? && !attempted ==> IsContext(e.value)
      // a write that fails is the context's failure if that has ended, which is looked at afterwards
      ensures if e.Some? then Reports(ctx.err, e.value) else ctx.err == None && broken == None
      ensures broken.Some? ==> ctx.looks > broken.value
      ensures ctx.looks > old(ctx.looks)
      ensures net.calm && ctx.calm ==> e.None?
    {
      hide Logged, Handed, Opened;
      attempted, written := false, [];
      HandNothing(sent, frame);
      var rest := frame;
      while |rest| > 0
        invariant ctx.Valid() && (old(ctx.err).Some? ==> ctx.err == old(ctx.err))
        invariant Handed(old(sent), sent, frame, written) && |written| + |rest| == |frame| && rest == frame[|written|..]
        invariant !attempted ==> written == [] && net.trace == old(net.trace)
        invariant attempted ==> Opened(old(net.trace), net.trace, request, key, written)
        invariant broken == None && ctx.looks >= old(ctx.looks)
        invariant |rest| < |frame| ==> ctx.err == None && ctx.looks > old(ctx.looks)
        decreases |rest|
      {
        var c := ctx.Poll();
        if c.Some? {
          return c, attempted, written;
        }
        if !attempted {
          net.trace := net.trace + [Talked(Begin(request, key))];
          OpenHere(old(net.trace), request, key);
        }
        attempted := true;
        ghost var before, trace := sent, net.trace;
        var n, failed := Write(rest, ctx.looks);
        HandMore(old(sent), before, frame, written, n);
        OpenedMore(old(net.trace), trace, request, key, written, rest[..n]);
        written := written + rest[..n];
        if failed {
          var timeout := Maybe();
          var x := ctx.IoError(timeout);
          return Some(x), attempted, written;
        }
        if n == 0 {
          return Some(Fail(Connection)), attempted, written;
        }
        rest := rest[n..];
      }
      HandedAll(old(sent), sent, frame, written);
      e := None;
    }

    /** The server's raw bytes for a text: cut into frames in any way if there is a key. */
    method Wrap(text: Bytes) returns (raw: Bytes)
      ensures Carries(key, raw, text)
    {
      raw := text;
      if key.Some? {
        var fs := AnyFrames();
        if !ProperNonces(fs) || Texts(fs) != text {
          fs := [Frame(ZERO_NONCE, text)];
          assert Texts(fs[1..]) == [];
        }
        assert Texts(fs) == text && ProperNonces(fs);
        raw := Encode(key.value, fs);
      }
    }

    /** Some of what the server owes arrives; all of it when calm. */
    method Deliver(ghost text: Bytes)
      requires Pending(Way(), State(), owed, text)
      modifies this`input, this`owed
      ensures Pending(Way(), State(), owed, text)
      ensures net.calm ==> owed == []
    {
      var k := AnyNumber();
      var n := if net.calm || k > |owed| then |owed| else k;
      PendingArrives(Way(), State(), owed, text, n);
      var now, later := owed[..n], owed[n..];
      input := input + now;
      owed := later;
    }

    /**
     The server's turn, once it has the whole request.  An honest server appends one complete
     reply to what it owes, and some of what it owes arrives; any other server may send anything.
     */
    method Arrive(header: Bytes, body: Bytes, ghost sent: Talk) returns (ghost talk: Talk)
      requires Usable() && Latest(net.trace, sent) && sent.reply.None? && !sent.whole
      modifies this`input, this`owed, net`trace
      ensures talk == sent.(reply := talk.reply, whole := talk.whole) && (talk.reply.Some? <==> net.honest)
      ensures net.trace == Revised(old(net.trace), talk)
      ensures talk.reply.Some? ==>
                Proper(talk.reply.value) && Pending(Way(), State(), owed, ReplyBytes(talk.reply.value))
      ensures talk.whole <==> talk.reply.Some? && owed == []
      ensures net.calm ==> talk.reply == Some(net.answer(node, header, body)) && talk.whole
    {
      talk := sent;
      if !net.honest {
        var noise := AnyBytes();
        input := input + noise;
        return;
      }
      var reply := AnyReply();
      if net.calm {
        reply := net.answer(node, header, body);
      } else if !Proper(reply) {
        reply := Reply([], []);
      }
      var text := ReplyBytes(reply);
      var raw := Wrap(text);
      assert Pending(Way(), State(), owed + raw, text) by {
        PendingGrows(Way(), State(), owed, [], raw, text);
        assert [] + text == text;
      }
      owed := owed + raw;
      Deliver(text);
      talk := talk.(reply := Some(reply), whole := owed == []);
      net.trace := Revised(net.trace, talk);
    }

    /** The end of exchange: the reply closure, and the mapping of its error. */
    method ReadReply(ctx: Context, want: Want, ghost asked: Talk) returns (r: Result<Got>, ghost talk: Talk)
      requires Sane() && ctx.Valid() && (net.honest ==> asked.reply.Some?)
      requires Latest(net.trace, asked) && asked.key == key
      requires asked.reply.Some? ==>
                Proper(asked.reply.value) && Pending(Way(), State(), owed, ReplyBytes(asked.reply.value))
      requires asked.whole ==> asked.reply.Some? && owed == []
      modifies this`plain, this`input, this`steps, ctx, net`trace
      ensures Sane() && ctx.Valid() && (old(ctx.err).Some? ==> ctx.err == old(ctx.err))
      // what was read, and what the closure made of it, unless that was an error of the network stack
      ensures talk == asked.(input := Some(old(State()))) && net.trace == Revised(old(net.trace), talk)
      ensures Mapped(Heard(net.fl, max, want, talk), r) && State() == Left(net.fl, max, want, talk)
      // an error of the network stack is the context's if that has ended, which is looked at afterwards
      ensures Foreign(Heard(net.fl, max, want, talk)) ==> ctx.looks > old(ctx.looks) && Reports(ctx.err, r.error)
      ensures !Foreign(Heard(net.fl, max, want, talk)) ==> ctx.err == old(ctx.err) && ctx.looks == old(ctx.looks)
      ensures old(ctx.err) == None ==> if r.Err? then Reports(ctx.err, r.error) else ctx.err == None
      ensures r.Err? ==>
                || IsContext(r.error)
                || r.error in {Fail(Connection), Fail(Kind.Timeout), Fail(Server), Fail(Protocol)}
      ensures r.Ok? && Consumed(r.value) && net.honest ==>
                Quiet() && r == Interpret(net.fl, max, want, talk.reply.value)
      ensures r.Ok? ==> Fits(want, r.value)
      ensures steps == old(steps) + (if r.Ok? && r.value.Fields? then [Step(talk, r.value.p)] else [])
      ensures net.honest ==> FromServer(r, Interpret(net.fl, max, want, talk.reply.value))
      ensures talk.whole && !(want.WantFields? && IsValueHead(talk.reply.value.head)) ==>
                r == Interpret(net.fl, max, want, talk.reply.value)
    {
      hide Interpret, Carries, Decode, IsValueHead, Proper, ReplyBytes, Fits, Pending;
      talk := asked.(input := Some(State()));
      if talk.reply.Some? {
        ReplyRead(net.fl, Way(), want, State(), owed, talk.reply.value);
      }
      DecodeErrors(net.fl, Way(), want, State());
      r := Receive(want, asked);
      if r.Ok? {
        if r.value.Fields? {
          steps := steps + [Step(talk, r.value.p)];
        }
      } else if !r.error.Kouten? {
        var timeout := Maybe();
        var x := ctx.IoError(timeout);
        r := Err(x);
      }
    }

    /** The start of exchange, up to the send loop. */
    method Prepare(ctx: Context, header: Bytes, body: Bytes) returns (e: Option<Error>, nonce: Bytes)
      requires ctx.Valid()
      modifies ctx
      ensures ctx.Valid() && (old(ctx.err).Some? ==> ctx.err == old(ctx.err))
      ensures |nonce| == 24
      ensures e.None? ==> Acceptable(max, header, body)
      ensures e.Some? ==> IsContext(e.value) || e.value in {Fail(Input), Fail(Connection), Fail(Kind.Timeout)}
      ensures e == Some(Fail(Input)) ==> !Acceptable(max, header, body)
      // no header of more than 8192 bytes or with a CR, LF or NUL, and no body beyond the limit, is let through
      ensures e == Some(Fail(Input)) || e.None? ==>
                (e.None? <==> |header| <= 8192 && |body| <= max
                              && '\r' !in header && '\n' !in header && '\0' !in header)
      ensures if e.Some? then Reports(ctx.err, e.value) else ctx.err == None
      ensures ctx.looks > old(ctx.looks)
      ensures net.calm && ctx.calm && Acceptable(max, header, body) ==> e.None?
    {
      nonce := ZERO_NONCE;
      var c := ctx.Poll();
      if c.Some? {
        return c, nonce;
      }
      assert forall i :: 0 <= i < |header| ==> header[i] in header;
      if |header| > MAX_HEADER || !Free(header, '\r') || !Free(header, '\n') || !Free(header, '\0') || |body| > max {
        return Some(Fail(Input)), nonce;
      }
      var random := AnyBytes();
      var starved := Maybe();
      var refused := Maybe();
      if |random| == 24 {
        nonce := random;
      }
      if key.Some? && starved && !net.calm {          // encrypt fails
        return Some(Fail(Connection)), nonce;
      }
      if refused && !net.calm {                       // SetWriteDeadline fails
        var timeout := Maybe();
        var x := ctx.IoError(timeout);
        return Some(x), nonce;
      }
      e := None;
    }

    /** Between the send loop and the reply: SetReadDeadline, and one more look at the context. */
    method Turn(ctx: Context) returns (e: Option<Error>)
      requires ctx.Valid()
      modifies ctx
      ensures ctx.Valid() && (old(ctx.err).Some? ==> ctx.err == old(ctx.err))
      ensures e.Some? ==> IsContext(e.value) || e.value in {Fail(Connection), Fail(Kind.Timeout)}
      ensures ctx.looks > old(ctx.looks)
      ensures if e.Some? then Reports(ctx.err, e.value) else ctx.err == None
      ensures net.calm && ctx.calm ==> e.None?
    {
      var refused := Maybe();
      if refused && !net.calm {
        var timeout := Maybe();
        var x := ctx.IoError(timeout);
        return Some(x);
      }
      e := ctx.Poll();
    }

    /** The second half of exchange: the read deadline, the last look at the context, and the reply. */
    method Collect(ctx: Context, header: Bytes, body: Bytes, want: Want, ghost sent: Talk)
      returns (r: Result<Got>, ghost talk: Talk)
      requires Usable() && ctx.Valid()
      requires Latest(net.trace, sent) && sent.key == key && sent == Begin(sent.request, key).(written := sent.written)
      modifies this`plain, this`input, this`owed, this`steps, ctx, net`trace
      ensures Sane() && ctx.Valid() && (old(ctx.err).Some? ==> ctx.err == old(ctx.err))
      ensures net.trace == Revised(old(net.trace), talk)
      ensures talk.request == sent.request && talk.key == sent.key && talk.written == sent.written
      // the result is what was read, on every run, and the rest is still there
      ensures talk.input.Some? ==> Mapped(Heard(net.fl, max, want, talk), r) && State() == Left(net.fl, max, want, talk)
      // the context has been looked at before reading, and again if that failed
      ensures if r.Err? then Reports(ctx.err, r.error) else ctx.err == None
      ensures talk.input.Some? && Foreign(Heard(net.fl, max, want, talk)) ==> ctx.looks >= old(ctx.looks) + 2
      ensures r.Ok? || r.error in {Fail(Server), Fail(Protocol)} ==> talk.input.Some?
      ensures talk.reply.Some? ==> Proper(talk.reply.value)
      ensures talk.whole ==> talk.reply.Some?
      ensures r.Err? ==>
                || IsContext(r.error)
                || r.error in {Fail(Connection), Fail(Kind.Timeout), Fail(Server), Fail(Protocol)}
      ensures r.Ok? && Consumed(r.value) && net.honest ==>
                Quiet() && talk.reply.Some? && r == Interpret(net.fl, max, want, talk.reply.value)
      ensures r.Ok? ==> Fits(want, r.value)
      ensures steps == old(steps) + (if r.Ok? && r.value.Fields? then [Step(talk, r.value.p)] else [])
      ensures r == Err(Fail(Server)) && net.honest ==>
                talk.reply.Some? && Interpret(net.fl, max, want, talk.reply.value) == r
      ensures talk.whole && !(want.WantFields? && IsValueHead(talk.reply.value.head)) ==>
                r == Interpret(net.fl, max, want, talk.reply.value)
      ensures net.calm && ctx.calm ==> talk.whole && talk.reply == Some(net.answer(node, header, body))
    {
      hide Interpret, Carries, Decode, Fits, IsValueHead, Proper, Mapped, Heard, Left, Pending, ReplyBytes,
        Consumed;
      talk := sent;
      var e := Turn(ctx);
      if e.Some? {
        return Err(e.value), talk;
      }
      talk := Arrive(header, body, sent);
      r, talk := ReadReply(ctx, want, talk);
    }

    /**
     wire.go's exchange.  The races of its cancellation callback are the subject of module
     Cancellation; here reading may fail at any byte.
     */
    method Exchange(ctx: Context, header: Bytes, body: Bytes, want: Want)
      returns (r: Result<Got>, attempted: bool, ghost nonce: Bytes, ghost talk: Talk)
      requires Usable() && ctx.Valid()
      modifies this`plain, this`input, this`owed, this`sent, this`broken, this`steps, ctx, net`trace
      ensures Sane() && ctx.Valid() && (old(ctx.err).Some? ==> ctx.err == old(ctx.err))
      // what was sent
      ensures sent == old(sent) + talk.written && talk.written <= Outgoing(key, nonce, header, body) && |nonce| == 24
      ensures !attempted ==> r.Err? && talk.written == []
      ensures attempted ==> Acceptable(max, header, body)
      ensures r.Ok? ==> attempted && talk.written == Outgoing(key, nonce, header, body)
      // what an observer saw
      ensures net.trace == old(net.trace) + (if attempted then [Talked(talk)] else [])
      ensures talk.request == Request(node, header, body, want.WantFields?) && talk.key == key
      // the result is what was read, on every run, and the rest is still there
      ensures talk.input.Some? ==>
                attempted && Mapped(Heard(net.fl, max, want, talk), r) && State() == Left(net.fl, max, want, talk)
      ensures r.Ok? || r.error in {Fail(Server), Fail(Protocol)} ==> talk.input.Some?
      ensures talk.reply.Some? ==> attempted && Proper(talk.reply.value)
      ensures talk.whole ==> talk.reply.Some?
      // the context's error if and only if that has ended; it is looked at after everything that fails
      ensures if r.Err? then Reports(ctx.err, r.error) else ctx.err == None && broken == None
      ensures broken.Some? ==> ctx.looks > broken.value
      ensures talk.input.Some? && Foreign(Heard(net.fl, max, want, talk)) ==> ctx.looks >= old(ctx.looks) + 4
      // how it failed
      ensures r.Err? ==>
                || IsContext(r.error)
                || r.error in {Fail(Input), Fail(Connection), Fail(Kind.Timeout), Fail(Server), Fail(Protocol)}
      ensures r == Err(Fail(Input)) ==> !Acceptable(max, header, body)
      ensures r == Err(Fail(Server)) || r == Err(Fail(Protocol)) ==>
                attempted && talk.written == Outgoing(key, nonce, header, body)
      // alignment
      ensures r.Ok? && Consumed(r.value) && net.honest ==>
                Quiet() && talk.reply.Some? && r == Interpret(net.fl, max, want, talk.reply.value)
      ensures r.Ok? ==> Fits(want, r.value)
      ensures steps == old(steps) + (if r.Ok? && r.value.Fields? then [Step(talk, r.value.p)] else [])
      // a server error is the server's, and a reply that arrived whole decides the result
      ensures r == Err(Fail(Server)) && net.honest ==>
                talk.reply.Some? && Interpret(net.fl, max, want, talk.reply.value) == r
      ensures talk.whole && !(want.WantFields? && IsValueHead(talk.reply.value.head)) ==>
                r == Interpret(net.fl, max, want, talk.reply.value)
      // without faults
      ensures net.calm && ctx.calm && Acceptable(max, header, body) ==>
                attempted && talk.whole && talk.reply == Some(net.answer(node, header, body))
    {
      hide Interpret, Carries, Acceptable, Fits, IsValueHead, Proper, Pending, Consumed, Heard, Left, Mapped;
      attempted := false;
      talk := Begin(Request(node, header, body, want.WantFields?), key);
      var e, random := Prepare(ctx, header, body);
      nonce := random;
      if e.Some? {
        return Err(e.value), false, nonce, talk;
      }
      ghost var written;
      e, attempted, written := SendFrame(ctx, Outgoing(key, random, header, body), talk.request);
      talk := talk.(written := written);
      if e.Some? {
        return Err(e.value), attempted, nonce, talk;
      }
      r, talk := Collect(ctx, header, body, want, talk);
    }
  }
}
