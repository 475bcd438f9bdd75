/**
 Replies: what the reply closures of client.go make of them, and what it takes for a
 connection to be in step with its server.
 */
module Replies {
  import opened Errors
  import opened Text
  import opened Decimal
  import opened Ids
  import opened Streams
  import T = Transparency

  /** What the caller of `exchange` wants to read: one case per reply closure. */
  datatype Want =
    | WantFields                               // a handshake step
    | WantId                                   // PutCodec
    | WantStatus(peers: nat)                   // Health
    | WantRecord(peers: nat, last: bool)       // read; `last` when no more redirects are allowed

  datatype Payload = Payload(data: Bytes, codec: Bytes)

  datatype Got =
    | Fields(p: seq<Bytes>)
    | Identity(id: ID)
    | Status(text: Bytes)
    | Absent
    | Record(payload: Payload)
    | Forward(to: ID, node: Option<nat>)

  predicate ValidCodec(c: Bytes) {
    c == "raw" || c == "json" || c == "nif" || c == "bif"
  }

  /** Where reading a reply stands once its line has been read. */
  datatype Verdict = Done(r: Result<Got>) | NeedBody(n: nat, codec: Bytes)

  predicate Starts(s: Bytes, prefix: Bytes) {
    prefix <= s
  }

  function ReadStatus(peers: nat, p: seq<Bytes>): Result<Got>
    requires |p| > 0
  {
    if p[0] == "ERR" then Err(Fail(Server))
    else if |p| < 2 || p[0] != "OK" || !Starts(p[1], "node=") then Err(Fail(Protocol))
    else if Parse(p[1][5..], peers).Err? then Err(Fail(Protocol))
    else Ok(Status(Join(p[1..], ' ')))
  }

  function ReadForward(fl: Floats, peers: nat, last: bool, p: seq<Bytes>): Result<Got>
    requires |p| > 0
  {
    if last || (|p| != 7 && |p| != 8) then Err(Fail(Protocol)) else
    var to := ParseFields(fl, p[1..7]);
    if to.Err? then Err(to.error) else
    if |p| == 7 then Ok(Forward(to.value, None)) else
    var node := Parse(p[7], peers);
    if node.Err? then Err(node.error) else Ok(Forward(to.value, Some(node.value)))
  }

  function Classify(fl: Floats, max: nat, want: Want, p: seq<Bytes>): (v: Verdict)
    requires |p| > 0
    ensures v.NeedBody? ==> want.WantRecord? && |p| == 4 && p[0] == "VAL" && p[2] == Print(v.n) && v.n <= max
    ensures v.NeedBody? ==> v.codec == p[3] && ValidCodec(v.codec)
  {
    match want
    case WantFields => Done(Ok(Fields(p)))
    case WantId =>
      var e := Expect(p, "ID", 7, false);
      if e.Some? then Done(Err(e.value)) else
      var id := ParseFields(fl, p[1..]);
      Done(if id.Ok? then Ok(Identity(id.value)) else Err(id.error))
    case WantStatus(peers) => Done(ReadStatus(peers, p))
    case WantRecord(peers, last) =>
      if p[0] == "MISS" || p[0] == "GONE" then
        var e := Expect(p, p[0], 1, false);
        Done(if e.None? then Ok(Absent) else Err(e.value))
      else if p[0] == "FWD" then Done(ReadForward(fl, peers, last, p))
      else
        var e := Expect(p, "VAL", 4, false);
        if e.Some? then Done(Err(e.value)) else
        var owner, n := Parse(p[1], peers), Parse(p[2], max + 1);
        if owner.Err? then Done(Err(owner.error)) else
        if n.Err? then Done(Err(n.error)) else
        if !ValidCodec(p[3]) then Done(Err(Fail(Protocol))) else
        NeedBody(n.value, p[3])
  }

  /** The kind of result that a reply closure can produce. */
  predicate Fits(want: Want, g: Got) {
    match want
    case WantFields => g.Fields? && |g.p| > 0
    case WantId => g.Identity? && g.id.Valid()
    case WantStatus(_) => g.Status?
    case WantRecord(peers, last) =>
      || g.Absent?
      || g.Record?
      || (g.Forward? && !last && g.to.Valid() && (g.node.Some? ==> g.node.value < peers))
  }

  lemma ClassifyOutcomes(fl: Floats, max: nat, want: Want, p: seq<Bytes>)
    requires |p| > 0
    ensures var v := Classify(fl, max, want, p);
            && (v.Done? && v.r.Err? ==> v.r.error in {Fail(Protocol), Fail(Server)})
            && (v.Done? && v.r.Ok? ==> Fits(want, v.r.value))
            && (v == Done(Err(Fail(Server))) ==> p[0] == "ERR")
  {
  }

  /** The part of a reply closure that follows its call of header. */
  function AfterLine<S>(fl: Floats, max: nat, want: Want, src: Source<S>, p: seq<Bytes>, s: S): (Result<Got>, S)
    requires |p| > 0
  {
    match Classify(fl, max, want, p)
    case Done(r) => (r, s)
    case NeedBody(n, codec) =>
      var (b, t) := src.take(n, s);
      if b.Err? then (Err(b.error), t) else (Ok(Record(Payload(b.value, codec))), t)
  }

  /** Reading one reply from a connection. */
  function Decode<S>(fl: Floats, max: nat, want: Want, src: Source<S>, s: S): (Result<Got>, S) {
    var (p, t) := src.line(s);
    if p.Err? then (Err(p.error), t)
    else if p.value == [] then (Err(Raw), t)
    else AfterLine(fl, max, want, src, p.value, t)
  }

  /** The only errors that reading a reply can give; authentication is not among them. */
  lemma DecodeErrors(fl: Floats, ch: Channel, want: Want, st: Stream)
    ensures var r := Decode(fl, ch.max, want, Reader(ch), st).0;
            && (r.Err? ==> ReadError(r.error))
            && (r.Ok? ==> Fits(want, r.value))
  {
    RawLine(st, []);
    if ch.key.Some? {
      LineErrors(ch.key.value, ch.max, st, []);
    }
    var (p, t) := Reader(ch).line(st);
    if p.Ok? && p.value != [] {
      ClassifyOutcomes(fl, ch.max, want, p.value);
      var v := Classify(fl, ch.max, want, p.value);
      if v.NeedBody? && ch.key.Some? {
        TakeErrors(ch.key.value, ch.max, v.n, t);
      }
    }
  }

  // ---------------------------------------------------------------- the server's side

  /** One complete reply: a line, and after a value header the announced number of bytes. */
  datatype Reply = Reply(head: Bytes, body: Bytes)

  predicate IsValueHead(head: Bytes) {
    var p := Words(head);
    p.Ok? && |p.value| == 4 && p.value[0] == "VAL"
  }

  predicate Proper(rep: Reply) {
    && Free(rep.head, '\n')
    && if IsValueHead(rep.head) then Words(rep.head).value[2] == Print(|rep.body|) else rep.body == []
  }

  function ReplyBytes(rep: Reply): Bytes {
    rep.head + ['\n'] + rep.body
  }

  /** What a complete reply means to its reader, with no stream in between. */
  function Interpret(fl: Floats, max: nat, want: Want, rep: Reply): (r: Result<Got>)
    ensures r.Err? ==> r.error in {Fail(Protocol), Fail(Server)}
    ensures r.Ok? ==> Fits(want, r.value)
  {
    if |rep.head| > MAX_HEADER then Err(Fail(Protocol)) else
    var p := Words(rep.head);
    if p.Err? then Err(p.error) else
    ClassifyOutcomes(fl, max, want, p.value);
    match Classify(fl, max, want, p.value)
    case Done(r) => r
    case NeedBody(_, codec) => Ok(Record(Payload(rep.body, codec)))
  }

  /** False only for a value header that a handshake step reads without its body. */
  predicate Consumed(g: Got) {
    !(g.Fields? && |g.p| == 4 && g.p[0] == "VAL")
  }

  /** A server error is one that the reply means. */
  predicate FromServer(r: Result<Got>, meaning: Result<Got>) {
    r == Err(Fail(Server)) ==> meaning == r
  }

  /** The body of a reply, of which the first `n` bytes have arrived. */
  lemma BodyPart(fl: Floats, max: nat, want: Want, rep: Reply, n: nat)
    requires Proper(rep) && |rep.head| <= MAX_HEADER && Words(rep.head).Ok? && n <= |rep.body|
    ensures var p := Words(rep.head).value;
            var r := AfterLine(fl, max, want, Reader(Channel(None, max)), p, Stream([], rep.body[..n]));
            && (n == |rep.body| ==> r.0 == Interpret(fl, max, want, rep))
            && (r.0.Ok? && Consumed(r.0.value) ==> n == |rep.body| && r.1 == Stream([], []))
            && FromServer(r.0, Interpret(fl, max, want, rep))
  {
    hide Classify, Words, Print, Canonical;
    var p := Words(rep.head).value;
    var v := Classify(fl, max, want, p);
    ClassifyOutcomes(fl, max, want, p);
    if v.NeedBody? {
      PrintIsCanonical(v.n);
      PrintIsCanonical(|rep.body|);
      assert v.n == |rep.body|;
      assert rep.body[..|rep.body|] == rep.body;
    } else if IsValueHead(rep.head) {
      ValueNeedsBody(fl, max, want, p);
    }
  }

  /** A value header is accepted only where its body is read next, or by a handshake step. */
  lemma ValueNeedsBody(fl: Floats, max: nat, want: Want, p: seq<Bytes>)
    requires |p| == 4 && p[0] == "VAL"
    ensures var v := Classify(fl, max, want, p); v.Done? && v.r.Ok? ==> !Consumed(v.r.value)
  {
  }

  lemma DecodeWhole(fl: Floats, max: nat, want: Want, rep: Reply)
    requires Proper(rep)
    ensures var r := Decode(fl, max, want, Reader(Channel(None, max)), Stream([], ReplyBytes(rep)));
            r.0 == Interpret(fl, max, want, rep) &&
            (r.0.Ok? && Consumed(r.0.value) ==> r.1 == Stream([], []))
  {
    ReadLine([], rep.head, rep.body);
    if |rep.head| <= MAX_HEADER && Words(rep.head).Ok? {
      assert rep.body[..|rep.body|] == rep.body;
      BodyPart(fl, max, want, rep, |rep.body|);
    }
  }

  lemma DecodePart(fl: Floats, max: nat, want: Want, rep: Reply, part: Bytes)
    requires Proper(rep) && part <= ReplyBytes(rep) && part != ReplyBytes(rep)
    ensures var r := Decode(fl, max, want, Reader(Channel(None, max)), Stream([], part)).0;
            (r.Ok? ==> !Consumed(r.value)) && FromServer(r, Interpret(fl, max, want, rep))
  {
    if |part| <= |rep.head| {
      assert part == rep.head[..|part|];
      ReadNoLine([], part);
    } else {
      var rest := part[|rep.head| + 1..];
      assert part == rep.head + ['\n'] + rest;
      assert rest == rep.body[..|rest|];
      ReadLine([], rep.head, rest);
      if |rep.head| <= MAX_HEADER && Words(rep.head).Ok? {
        BodyPart(fl, max, want, rep, |rest|);
      }
    }
  }

  lemma DecodesAgree<S(!new), X(!new)>(
      fl: Floats, max: nat, want: Want, a: Source<S>, b: Source<X>,
      R: (S, X) -> bool, excused: (Error, S) -> bool, s: S, t: X)
    requires Simulates(a, b, R, excused) && R(s, t)
    ensures Agree(Decode(fl, max, want, a, s), Decode(fl, max, want, b, t), R, excused)
  {
    var (p, s') := a.line(s);
    var (q, t') := b.line(t);
    assert Agree(a.line(s), b.line(t), R, excused);
    if p.Ok? && p.value != [] {
      var v := Classify(fl, max, want, p.value);
      if v.NeedBody? {
        assert Agree(a.take(v.n, s'), b.take(v.n, t'), R, excused);
      }
    }
  }

  // ---------------------------------------------------------------- alignment

  /**
   What the server has said and the client has not consumed is exactly `text`; part of it,
   `owed`, is still on its way.
   */
  ghost predicate Pending(ch: Channel, st: Stream, owed: Bytes, text: Bytes) {
    st.plain == [] && Carries(ch.key, st.input + owed, text)
  }

  /** The raw bytes are this text, cut into frames in some way if there is a key. */
  ghost predicate Carries(key: Option<Box>, raw: Bytes, text: Bytes) {
    match key
    case None => raw == text
    case Some(k) => exists fs: seq<Frame> :: ProperNonces(fs) && raw == Encode(k, fs) && Texts(fs) == text
  }

  lemma {:induction false} EncodeConcat(k: Box, fs: seq<Frame>, gs: seq<Frame>)
    ensures Encode(k, fs + gs) == Encode(k, fs) + Encode(k, gs)
    ensures Texts(fs + gs) == Texts(fs) + Texts(gs)
  {
    if fs == [] {
      assert fs + gs == gs;
    } else {
      assert (fs + gs)[1..] == fs[1..] + gs;
      EncodeConcat(k, fs[1..], gs);
    }
  }

  lemma CarriesBoth(key: Option<Box>, r1: Bytes, t1: Bytes, r2: Bytes, t2: Bytes)
    requires Carries(key, r1, t1) && Carries(key, r2, t2)
    ensures Carries(key, r1 + r2, t1 + t2)
  {
    if key.Some? {
      var fs: seq<Frame> :| ProperNonces(fs) && r1 == Encode(key.value, fs) && Texts(fs) == t1;
      var gs: seq<Frame> :| ProperNonces(gs) && r2 == Encode(key.value, gs) && Texts(gs) == t2;
      EncodeConcat(key.value, fs, gs);
      assert ProperNonces(fs + gs);
    }
  }

  /** The server says more. */
  lemma PendingGrows(ch: Channel, st: Stream, owed: Bytes, text: Bytes, raw: Bytes, more: Bytes)
    requires Pending(ch, st, owed, text) && Carries(ch.key, raw, more)
    ensures Pending(ch, st, owed + raw, text + more)
  {
    CarriesBoth(ch.key, st.input + owed, text, raw, more);
    assert st.input + (owed + raw) == st.input + owed + raw;
  }

  /** Part of what was owed arrives. */
  lemma PendingArrives(ch: Channel, st: Stream, owed: Bytes, text: Bytes, n: nat)
    requires Pending(ch, st, owed, text) && n <= |owed|
    ensures Pending(ch, st.(input := st.input + owed[..n]), owed[n..], text)
  {
    assert st.input + owed[..n] + owed[n..] == st.input + owed;
  }

  /** Input that is a prefix of encoded frames is whole frames and at most one stub. */
  lemma {:induction false} PrefixOfFrames(k: Box, fs: seq<Frame>, input: Bytes) returns (j: nat, tail: Bytes)
    requires ProperNonces(fs) && input <= Encode(k, fs)
    ensures j <= |fs| && input == Encode(k, fs[..j]) + tail && Stub(k, tail)
    ensures input == Encode(k, fs) ==> j == |fs| && tail == []
  {
    if fs == [] {
      j, tail := 0, [];
    } else {
      var head := Framed(k, fs[0]);
      if |input| < |head| {
        j, tail := 0, input;
        assert fs[..0] == [];
        assert tail <= head;
      } else {
        assert input == head + input[|head|..];
        assert input[|head|..] <= Encode(k, fs[1..]);
        j, tail := PrefixOfFrames(k, fs[1..], input[|head|..]);
        assert fs[..j + 1] == [fs[0]] + fs[1..][..j];
        assert fs[..j + 1][1..] == fs[1..][..j];
        j := j + 1;
      }
    }
  }

  /** The part of the reply that has arrived in whole frames, read from frames and read plainly. */
  lemma FramedReply(fl: Floats, max: nat, want: Want, early: seq<Frame>, rep: Reply)
    requires 1 <= max && Proper(rep) && Texts(early) <= ReplyBytes(rep)
    ensures var (r, c) := Decode(fl, max, want, Frames(max), Cut([], early, false));
            && (r.Ok? && Consumed(r.value) ==>
                  r == Interpret(fl, max, want, rep) && Texts(early) == ReplyBytes(rep) &&
                  c.plain == [] && Texts(c.frames) == [])
            && (Texts(early) == ReplyBytes(rep) && !(want.WantFields? && IsValueHead(rep.head)) ==>
                  r == Interpret(fl, max, want, rep))
            && FromServer(r, Interpret(fl, max, want, rep))
  {
    var c, o := Cut([], early, false), Stream([], Texts(early));
    assert [] + Texts(early) == Texts(early);
    FramesSimulatePlain(max);
    DecodesAgree(fl, max, want, Frames(max), Reader(Channel(None, max)), SameStream, WasRefused, c, o);
    if Texts(early) == ReplyBytes(rep) {
      DecodeWhole(fl, max, want, rep);
      if !(want.WantFields? && IsValueHead(rep.head)) {
        SizeDecides(fl, max, want, c, rep);
      }
    } else {
      DecodePart(fl, max, want, rep, Texts(early));
    }
  }

  lemma QuietAgain(ch: Channel, st: Stream, c: Cut, tail: Bytes, owed: Bytes, late: seq<Frame>)
    requires ch.key.Some? && SameInput(ch.key.value, tail, st, c) && ProperNonces(late)
    requires tail + owed == Encode(ch.key.value, late) && Texts(late) == []
    requires c.plain == [] && Texts(c.frames) == []
    ensures Pending(ch, st, owed, [])
  {
    var k := ch.key.value;
    assert st.input + owed == Encode(k, c.frames) + Encode(k, late);
    assert Carries(ch.key, Encode(k, c.frames), []);
    assert Carries(ch.key, Encode(k, late), []);
    CarriesBoth(ch.key, Encode(k, c.frames), [], Encode(k, late), []);
    var none: Bytes := [];
    assert none + none == none;
  }

  lemma CancelPrefix(a: Bytes, b: Bytes, c: Bytes, d: Bytes)
    requires a + b + c == a + d
    ensures b + c == d
  {
    assert d == (a + d)[|a|..];
    assert b + c == (a + b + c)[|a|..];
  }

  lemma SecureDecode(fl: Floats, max: nat, want: Want, k: Box, st: Stream, tail: Bytes, early: seq<Frame>)
    requires Sound(k) && max <= MAX_FRAME && ProperNonces(early) && Stub(k, tail)
    requires st == Stream([], Encode(k, early) + tail)
    ensures Agree(Decode(fl, max, want, Reader(Channel(Some(k), max)), st),
                  Decode(fl, max, want, Frames(max), Cut([], early, false)), Alike(k, tail), CutShort(tail))
  {
    WireSimulatesFrames(k, max, tail);
    DecodesAgree(fl, max, want, Reader(Channel(Some(k), max)), Frames(max), Alike(k, tail), CutShort(tail),
                 st, Cut([], early, false));
  }

  /** What has arrived is some whole frames and a stub; the rest of the frames is behind it. */
  lemma ArrivedFrames(k: Box, fs: seq<Frame>, input: Bytes, owed: Bytes)
      returns (early: seq<Frame>, tail: Bytes, late: seq<Frame>)
    requires ProperNonces(fs) && input + owed == Encode(k, fs)
    ensures early + late == fs && ProperNonces(early) && ProperNonces(late)
    ensures Texts(early) + Texts(late) == Texts(fs)
    ensures input == Encode(k, early) + tail && tail + owed == Encode(k, late) && Stub(k, tail)
    ensures owed == [] ==> late == []
  {
    assert owed == [] ==> input == Encode(k, fs) by { if owed == [] { assert input == input + owed; } }
    var j;
    j, tail := PrefixOfFrames(k, fs, input);
    early, late := fs[..j], fs[j..];
    EncodeConcat(k, early, late);
    assert early + late == fs;
    assert Encode(k, early) + tail + owed == Encode(k, early) + Encode(k, late);
    CancelPrefix(Encode(k, early), tail, owed, Encode(k, late));
  }

  /** Reading the reply from an encrypted connection on which nothing else is pending. */
  lemma SecureReply(fl: Floats, ch: Channel, want: Want, st: Stream, owed: Bytes, fs: seq<Frame>, rep: Reply)
    requires 1 <= ch.max <= MAX_FRAME && Proper(rep) && ch.key.Some? && Sound(ch.key.value) && ProperNonces(fs)
    requires st.plain == [] && st.input + owed == Encode(ch.key.value, fs) && Texts(fs) == ReplyBytes(rep)
    ensures var r := Decode(fl, ch.max, want, Reader(ch), st);
            && (r.0.Ok? && Consumed(r.0.value) ==>
                  r.0 == Interpret(fl, ch.max, want, rep) && Pending(ch, r.1, owed, []))
            && (owed == [] && !(want.WantFields? && IsValueHead(rep.head)) ==> r.0 == Interpret(fl, ch.max, want, rep))
            && FromServer(r.0, Interpret(fl, ch.max, want, rep))
  {
    var k := ch.key.value;
    var early, tail, late := ArrivedFrames(k, fs, st.input, owed);
    SecureDecode(fl, ch.max, want, k, st, tail, early);
    FramedReply(fl, ch.max, want, early, rep);
    var (r, st') := Decode(fl, ch.max, want, Reader(ch), st);
    var (rc, c') := Decode(fl, ch.max, want, Frames(ch.max), Cut([], early, false));
    assert Agree((r, st'), (rc, c'), Alike(k, tail), CutShort(tail));
    if r.Ok? && Consumed(r.value) {
      QuietAgain(ch, st', c', tail, owed, late);
    }
  }

  /** A reply that the size bound refuses is one that its reader rejects anyway. */
  lemma SizeDecides(fl: Floats, max: nat, want: Want, c: Cut, rep: Reply)
    requires Proper(rep) && 1 <= max && c.plain == [] && Texts(c.frames) == ReplyBytes(rep) && !c.refused
    requires !(want.WantFields? && IsValueHead(rep.head))
    ensures var d := Decode(fl, max, want, Frames(max), c).1;
            d.refused ==> Interpret(fl, max, want, rep) == Err(Fail(Protocol))
  {
    if |ReplyBytes(rep)| <= Cap(max) {
      T.SmallFits(max, max, c.frames);
      T.FitMeansRoomy(max, max, c.frames);
      T.LineStaysRoomy(max, max, c, []);
      var (p, d) := Frames(max).line(c);
      if p.Ok? {
        var v := Classify(fl, max, want, p.value);
        if v.NeedBody? {
          T.TakeStaysRoomy(max, max, v.n, d);
        }
      }
    } else if |rep.head| <= MAX_HEADER {
      assert |rep.body| > max;
      assert IsValueHead(rep.head);
      var p := Words(rep.head).value;
      PrintIsCanonical(|rep.body|);
      assert !Classify(fl, max, want, p).NeedBody? by {
        if Classify(fl, max, want, p).NeedBody? {
          PrintIsCanonical(Classify(fl, max, want, p).n);
        }
      }
    }
  }

  /**
   Alignment.  If the reply to this request is all that is pending, then a successful read
   returns what that reply means and leaves nothing pending, whatever part of it has arrived;
   if all of it has arrived, the read returns what it means; and a server error is the server's.
   */
  lemma ReplyRead(fl: Floats, ch: Channel, want: Want, st: Stream, owed: Bytes, rep: Reply)
    requires 1 <= ch.max <= MAX_FRAME && Proper(rep) && (ch.key.Some? ==> Sound(ch.key.value))
    requires Pending(ch, st, owed, ReplyBytes(rep))
    ensures var r := Decode(fl, ch.max, want, Reader(ch), st);
            && (r.0.Ok? && Consumed(r.0.value) ==>
                  r.0 == Interpret(fl, ch.max, want, rep) && Pending(ch, r.1, owed, []))
            && (owed == [] && !(want.WantFields? && IsValueHead(rep.head)) ==> r.0 == Interpret(fl, ch.max, want, rep))
            && FromServer(r.0, Interpret(fl, ch.max, want, rep))
  {
    match ch.key
    case None =>
      assert st.input == ReplyBytes(rep)[..|st.input|];
      if owed == [] {
        assert st.input == ReplyBytes(rep);
      }
      if st.input == ReplyBytes(rep) {
        DecodeWhole(fl, ch.max, want, rep);
        assert owed == [];
      } else {
        DecodePart(fl, ch.max, want, rep, st.input);
      }
    case Some(k) =>
      var fs: seq<Frame> :| ProperNonces(fs) && st.input + owed == Encode(k, fs) && Texts(fs) == ReplyBytes(rep);
      SecureReply(fl, ch, want, st, owed, fs, rep);
  }

  /** While nothing is pending there is nothing to read, whatever empty frames have arrived. */
  lemma QuietReadsNothing(fl: Floats, ch: Channel, want: Want, st: Stream, owed: Bytes)
    requires 1 <= ch.max <= MAX_FRAME && (ch.key.Some? ==> Sound(ch.key.value))
    requires Pending(ch, st, owed, [])
    ensures Decode(fl, ch.max, want, Reader(ch), st).0.Err?
  {
    RawLine(Stream([], []), []);
    match ch.key
    case None =>
      assert st.input == [];
    case Some(k) =>
      var fs: seq<Frame> :| ProperNonces(fs) && st.input + owed == Encode(k, fs) && Texts(fs) == [];
      var early, tail, late := ArrivedFrames(k, fs, st.input, owed);
      SecureDecode(fl, ch.max, want, k, st, tail, early);
      var none: Bytes := [];
      assert Texts(early) == [] && none + none == none;
      FramesSimulatePlain(ch.max);
      DecodesAgree(fl, ch.max, want, Frames(ch.max), Reader(Channel(None, ch.max)), SameStream, WasRefused,
                   Cut([], early, false), Stream([], []));
  }

  /**
   Reading a reply as it arrives and reading it at once are the same: a read that succeeds, or
   fails for another reason than running out of input, does so on any longer input too, and
   what is behind a reply is left alone.
   */
  lemma DecodeMore(fl: Floats, ch: Channel, want: Want, st: Stream, more: Bytes)
    ensures Unhurried(Decode(fl, ch.max, want, Reader(ch), st),
                      Decode(fl, ch.max, want, Reader(ch), More(st, more)), more)
  {
    hide Classify, SecureTake, Fill;
    match ch.key {
      case None => RawLineMore(st, more);
      case Some(k) => LineMore(k, ch.max, st, more, []);
    }
    var (p, t) := Reader(ch).line(st);
    if p.Ok? && p.value != [] {
      var v := Classify(fl, ch.max, want, p.value);
      if v.NeedBody? {
        match ch.key {
          case None => RawTakeMore(v.n, t, more);
          case Some(k) => TakeMore(k, ch.max, v.n, t, more);
        }
      }
    }
  }

  // ---------------------------------------------------------------- server errors

  /**
   An unsealed ERR line in place of a frame is reported as a server error, although nothing
   shows that the server sent it: the peer needs no key for it.
   */
  lemma UnsealedErrorIsBelieved(fl: Floats, ch: Channel, want: Want, rest: Bytes)
    requires ch.key.Some?
    ensures Decode(fl, ch.max, want, Reader(ch), Stream([], "ERR\n" + rest)).0 == Err(Fail(Server))
  {
    var st := Stream([], "ERR" + ['\n'] + rest);
    assert "ERR\n" + rest == st.input;
    ReadLine([], "ERR", rest);
    SplitFree("ERR", ' ');
    assert Fill(ch.key.value, ch.max, st).0 == Err(Fail(Server));
    assert SecureTake(ch.key.value, ch.max, 1, st).0 == Err(Fail(Server));
  }
}
