/**
 The assumptions of the other modules can be met together: there are boxes that open what they
 sealed, printers of floats that can be parsed back, and servers with which every client
 negotiates successfully and that answer every later request.
 */
module Assumptions {
  import opened Errors
  import opened Text
  import opened Decimal
  import opened Ids
  import opened Streams
  import opened Replies
  import opened Options
  import opened Transport
  import opened Negotiation
  import opened Requests
  import opened Client

  const TAG: Bytes := "0123456789abcdef"

  function Wrap(nonce: Bytes, text: Bytes): Bytes {
    TAG + text
  }

  function Unwrap(nonce: Bytes, sealed: Bytes): Option<Bytes> {
    if |sealed| < 16 then None else Some(sealed[16..])
  }

  /** A box that does not encrypt. */
  function OpenBox(): Box {
    Box(Wrap, Unwrap)
  }

  lemma OpenBoxIsSound()
    ensures Sound(OpenBox())
  {
    forall nonce: Bytes, text: Bytes
      ensures |OpenBox().seal(nonce, text)| == |text| + 16
      ensures OpenBox().open(nonce, OpenBox().seal(nonce, text)) == Some(text)
    {
      assert (TAG + text)[16..] == text;
    }
  }

  function ParseBits(s: Bytes): Option<Float> {
    match Parse(s, TWO_64)
    case Ok(n) => Some(n)
    case Err(_) => None
  }

  /** Floats printed as the numbers of their bit patterns. */
  function BitFloats(): Floats {
    Floats(f => Print(f), ParseBits)
  }

  lemma BitFloatsAreFaithful()
    ensures Faithful(BitFloats())
  {
    forall f: Float ensures 0 < |Print(f)| <= 32 && Plain(Print(f)) && BitFloats().parse(Print(f)) == Some(f) {
      PrintShort(f);
      PrintIsPlain(f);
      ParsePrinted(f, TWO_64);
    }
  }

  function Zeros(n: nat): (s: Bytes)
    ensures |s| == n && forall i :: 0 <= i < n ==> s[i] == '0'
  {
    if n == 0 then [] else ['0'] + Zeros(n - 1)
  }

  function Pair(a: Bytes, b: Bytes): Bytes {
    a + [' '] + b
  }

  /** A server that has no records, and agrees to everything or to everything but the codec metadata. */
  function Agreeable(willing: bool, header: Bytes): Bytes {
    if header == VERSION_HEADER then Pair("WIREVER", "1")
    else if header == CODEC_HEADER then (if willing then Pair("OK", "codec-metadata") else Pair("ERR", "x"))
    else if "AUTHC" <= header then Pair("CHAL", Zeros(64))
    else if "AUTH" <= header || "HELLO" <= header then Pair("OK", "x")
    else "MISS"
  }

  lemma PairIsTwoWords(a: Bytes, b: Bytes)
    requires Free(a, ' ') && Free(b, ' ') && Printable(a) && Printable(b) && b != []
    ensures Words(Pair(a, b)) == Ok([a, b]) && |Pair(a, b)| == |a| + |b| + 1 && Free(Pair(a, b), '\n')
  {
    SplitCons(a, ' ', b);
    SplitFree(b, ' ');
    assert Pair(a, b)[|a| + |b|] == b[|b| - 1];
    assert [a] + [b] == [a, b];
  }

  lemma PairIsProper(a: Bytes, b: Bytes)
    requires Free(a, ' ') && Free(b, ' ') && Printable(a) && Printable(b) && b != []
    ensures Proper(Reply(Pair(a, b), []))
  {
    PairIsTwoWords(a, b);
  }

  lemma AgreeableIsProper(willing: bool, header: Bytes)
    ensures Proper(Reply(Agreeable(willing, header), []))
  {
    hide Words, Pair, Proper;
    if header == VERSION_HEADER {
      PairIsProper("WIREVER", "1");
    } else if header == CODEC_HEADER {
      PairIsProper("OK", "codec-metadata");
      PairIsProper("ERR", "x");
    } else if "AUTHC" <= header {
      PairIsProper("CHAL", Zeros(64));
    } else if "AUTH" <= header || "HELLO" <= header {
      PairIsProper("OK", "x");
    } else {
      MissIsProper();
    }
  }

  lemma MissIsProper()
    ensures Proper(Reply("MISS", []))
  {
    SplitFree("MISS", ' ');
  }

  lemma AgreeableHeaders(willing: bool, c: Credentials, galaxy: Bytes)
    ensures Agreeable(willing, AuthHeader(c)) == Pair("OK", "x")
    ensures Agreeable(willing, HelloHeader(galaxy)) == Pair("OK", "x")
    ensures Agreeable(willing, ChallengeHeader(c)) == Pair("CHAL", Zeros(64))
    ensures forall x: Bytes {:trigger Respond(x)} :: Agreeable(willing, Respond(x)) == Pair("OK", "x")
    ensures Agreeable(willing, VERSION_HEADER) == Pair("WIREVER", "1")
  {
    hide Pair;
    assert AuthHeader(c)[4] == ' ' && AuthHeader(c)[..4] == "AUTH" && AuthHeader(c)[0] == 'A';
    assert HelloHeader(galaxy)[..5] == "HELLO" && HelloHeader(galaxy)[0] == 'H';
    assert ChallengeHeader(c)[..5] == "AUTHC" && ChallengeHeader(c)[0] == 'A';
    forall x: Bytes ensures Agreeable(willing, Respond(x)) == Pair("OK", "x") {
      assert Respond(x)[..4] == "AUTH" && Respond(x)[4] == 'R' && Respond(x)[0] == 'A';
    }
  }

  lemma AgreeableWelcomes(willing: bool, net: Net, node: nat, o: Options)
    requires forall header: Bytes :: net.answer(node, header, []) == Reply(Agreeable(willing, header), [])
    ensures Welcoming(net, node, o)
  {
    hide Words, Pair, Agreeable, AuthHeader, ChallengeHeader, HelloHeader, Respond;
    AgreeableHeaders(willing, o.credentials, o.galaxy);
    PairIsTwoWords("WIREVER", "1");
    PairIsTwoWords("CHAL", Zeros(64));
    PairIsTwoWords("OK", "x");
  }

  lemma AgreeableAgrees(willing: bool, net: Net, node: nat, o: Options)
    requires forall header: Bytes :: net.answer(node, header, []) == Reply(Agreeable(willing, header), [])
    ensures if willing then Cooperative(net, node, o) else RefusesCodecs(net, node, o)
  {
    hide Words, Pair, Welcoming;
    AgreeableWelcomes(willing, net, node, o);
    PairIsTwoWords("OK", "codec-metadata");
    PairIsTwoWords("ERR", "x");
  }

  function Servers(willing: bool): (nat, Bytes, Bytes) -> Reply {
    (node, header, body) => Reply(Agreeable(willing, header), [])
  }

  lemma ServersAreProper(willing: bool)
    ensures forall n: nat, h: Bytes, b: Bytes :: Proper(Servers(willing)(n, h, b))
  {
    hide Proper, Agreeable;
    forall n: nat, h: Bytes, b: Bytes ensures Proper(Servers(willing)(n, h, b)) {
      AgreeableIsProper(willing, h);
    }
  }

  lemma ServersAgree(willing: bool, net: Net)
    requires net.answer == Servers(willing)
    ensures forall node: nat, o: Options :: if willing then Cooperative(net, node, o) else RefusesCodecs(net, node, o)
  {
    hide Agreeable, Cooperative, RefusesCodecs;
    forall node: nat, o: Options
      ensures if willing then Cooperative(net, node, o) else RefusesCodecs(net, node, o)
    {
      AgreeableAgrees(willing, net, node, o);
    }
  }

  /** A network without faults, whose servers negotiate successfully with every client. */
  method CalmNet() returns (net: Net)
    ensures fresh(net) && net.Valid() && net.calm && net.honest && net.trace == [] && net.answer == Servers(true)
    ensures forall node: nat, o: Options :: Cooperative(net, node, o)
  {
    hide Faithful, Sound, Cooperative, Servers;
    OpenBoxIsSound();
    BitFloatsAreFaithful();
    ServersAreProper(true);
    net := new Net(true, true, BitFloats(), s => OpenBox(), Servers(true));
    ServersAgree(true, net);
  }

  lemma InsertionsMiss(ring: Bytes, data: Bytes, codec: Bytes)
    ensures Agreeable(true, PutHeader(ring, data, codec)) == "MISS"
    ensures forall fl: Floats, max: nat ::
              PutMeaning(fl, max, Reply("MISS", [])) == Err(Kouten(Indeterminate, Some(Fail(Protocol))))
  {
    var header := PutHeader(ring, data, codec);
    assert header[..4] == "PUTR" && header[0] == 'P';
    SplitFree("MISS", ' ');
    assert Words("MISS") == Ok(["MISS"]);
  }

  /** A dialed client whose first insertion gets a malformed answer, which empties its pool. */
  method FailedInsertion(peer: Bytes, o: Options, ring: Bytes, data: Bytes, codec: Bytes)
    returns (ctx: Context, c: Client, first: Result<ID>)
    requires Normal(WithDefaults(o)) && PutInput(WithDefaults(o).maxFrameBytes, ring, data, codec)
    ensures fresh(ctx) && ctx.Valid() && ctx.calm && fresh(c) && fresh(c.net) && c.net.honest && c.net.calm
    ensures c.Valid() && c.gate == 1 && !c.closed && c.connections == map[] && c.opts == WithDefaults(o)
    ensures first == Err(Kouten(Indeterminate, Some(Fail(Protocol)))) && |Asked(c.net.trace)| == 1
  {
    hide Cooperative, RefusesCodecs, PutInput, Normal, Agreeable, PutMeaning, PutHeader, PutBody, WithDefaults,
      Continues, SentPartly, SentWholly, Heard, Client.Pooled, Client.Loose;
    var net := CalmNet();
    ctx := new Context(true);
    var d := Dial(net, ctx, [peer], o, p => true, true);
    c := d.value;
    InsertionsMiss(ring, data, codec);
    first := c.PutCodec(ctx, ring, data, codec);
  }

  /**
   An insertion that fails with a server error although it was never sent, with honest servers
   and no faults: by the time of the second one the server has come to refuse the codec metadata.
   */
  method UnsentInsertion(peer: Bytes, o: Options, ring: Bytes, data: Bytes, codec: Bytes)
    returns (c: Client, first: Result<ID>, second: Result<ID>, ghost between: seq<Talk>)
    requires Normal(WithDefaults(o)) && PutInput(WithDefaults(o).maxFrameBytes, ring, data, codec)
    ensures c.net.honest && c.net.calm
    ensures first == Err(Kouten(Indeterminate, Some(Fail(Protocol)))) && |between| == 1
    ensures second == Err(Fail(Server)) && Asked(c.net.trace) == between
  {
    hide RefusesCodecs, PutInput, Normal, PutHeader, PutBody, WithDefaults, Continues, PutOutcome,
      PutTruth, Client.Pooled, Client.Loose;
    var ctx;
    ctx, c, first := FailedInsertion(peer, o, ring, data, codec);
    between := Asked(c.net.trace);
    ServersAreProper(false);
    c.net.answer := Servers(false);
    ServersAgree(false, c.net);
    second := c.PutCodec(ctx, ring, data, codec);
  }
}
