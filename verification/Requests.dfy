/**
 Requests: the headers that client.go builds, the frame that exchange makes of them, and
 what a receiver that knows only the wire format gets back.
 */
module Requests {
  import opened Errors
  import opened Text
  import opened Decimal
  import opened Ids
  import opened Streams
  import opened Replies

  // ---------------------------------------------------------------- frames

  /** The check at the top of exchange. */
  predicate Acceptable(max: nat, header: Bytes, body: Bytes) {
    && |header| <= MAX_HEADER
    && Free(header, '\r') && Free(header, '\n') && Free(header, '\0')
    && |body| <= max
  }

  function RequestText(header: Bytes, body: Bytes): Bytes {
    header + ['\n'] + body
  }

  /** The bytes that exchange sends. */
  function Outgoing(key: Option<Box>, nonce: Bytes, header: Bytes, body: Bytes): Bytes {
    match key
    case None => RequestText(header, body)
    case Some(k) => Framed(k, Frame(nonce, RequestText(header, body)))
  }

  /** A receiver with the same key and limit: one frame if there is a key, then a line and the rest. */
  function Receive(key: Option<Box>, max: nat, raw: Bytes): Option<(Bytes, Bytes)> {
    var text :=
      match key
      case None => Some(raw)
      case Some(k) => (
        var r := Fill(k, max, Stream([], raw));
        if r.0.Ok? && r.1.input == [] then Some(r.1.plain) else None);
    if text.None? then None else
    var i := IndexOf(text.value, '\n');
    if i == |text.value| then None else Some((text.value[..i], text.value[i + 1..]))
  }

  lemma FrameIsUnwrapped(k: Box, max: nat, nonce: Bytes, text: Bytes)
    requires Sound(k) && |nonce| == 24 && max <= MAX_FRAME
    ensures var r := Fill(k, max, Stream([], Framed(k, Frame(nonce, text))));
            if |text| <= Cap(max) then r == (Ok(()), Stream(text, [])) else r.0 == Err(Fail(Protocol))
  {
    var f := Frame(nonce, text);
    assert Framed(k, f) + [] == Framed(k, f);
    FillFrame(k, max, [], f, []);
    assert [] + text == text;
  }

  lemma RequestSplits(header: Bytes, body: Bytes)
    requires Free(header, '\n')
    ensures var text, i := RequestText(header, body), |header|;
            IndexOf(text, '\n') == i < |text| && text[..i] == header && text[i + 1..] == body
  {
    IndexOfFirst(header, '\n', body);
  }

  /** Every request that passes the check is received as it was meant. */
  lemma SendRoundTrip(key: Option<Box>, max: nat, nonce: Bytes, header: Bytes, body: Bytes)
    requires Acceptable(max, header, body) && max <= MAX_FRAME
    requires key.Some? ==> Sound(key.value) && |nonce| == 24
    ensures Receive(key, max, Outgoing(key, nonce, header, body)) == Some((header, body))
  {
    RequestSplits(header, body);
    if key.Some? {
      FrameIsUnwrapped(key.value, max, nonce, RequestText(header, body));
    }
  }

  /** The frame limit is exact: the longest request is received, one byte more is not. */
  lemma LimitIsExact(k: Box, max: nat, nonce: Bytes, text: Bytes)
    requires Sound(k) && |nonce| == 24 && max <= MAX_FRAME
    ensures Fill(k, max, Stream([], Framed(k, Frame(nonce, text)))).0.Ok? <==> |text| <= MAX_HEADER + 1 + max
    ensures |Sealed(k, Frame(nonce, text))| == |text| + 40
  {
    FrameIsUnwrapped(k, max, nonce, text);
  }

  // ---------------------------------------------------------------- PUTR

  function PutHeader(ring: Bytes, data: Bytes, codec: Bytes): Bytes {
    "PUTR " + Print(|ring|) + " " + Print(|data|) + " 0 " + codec
  }

  function PutBody(ring: Bytes, data: Bytes): Bytes {
    ring + data
  }

  /** PutCodec's check of its arguments. */
  predicate PutInput(max: nat, ring: Bytes, data: Bytes, codec: Bytes) {
    ring != [] && |ring| <= max && |data| <= max - |ring| && ValidCodec(codec)
  }

  datatype Put = Put(ring: Bytes, data: Bytes, codec: Bytes)

  /** A server's reading of a PUTR request, from the wire format alone. */
  function ReadPut(header: Bytes, body: Bytes): Option<Put> {
    var p := Split(header, ' ');
    if |p| != 5 || p[0] != "PUTR" || p[3] != "0" || !ValidCodec(p[4]) then None else
    var r, d := Parse(p[1], TWO_64), Parse(p[2], TWO_64);
    if r.Err? || d.Err? || r.value + d.value != |body| then None
    else Some(Put(body[..r.value], body[r.value..], p[4]))
  }

  /** The last two fields of a PUTR header, and what precedes them. */
  function PutTail(codec: Bytes): Bytes {
    ['0'] + [' '] + codec
  }

  lemma PutTailFields(codec: Bytes)
    requires ValidCodec(codec)
    ensures Split(PutTail(codec), ' ') == ["0", codec]
  {
    SplitFree(codec, ' ');
    SplitCons(['0'], ' ', codec);
  }

  lemma SplitTwice(a: Bytes, b: Bytes, rest: Bytes)
    requires Free(a, ' ') && Free(b, ' ')
    ensures Split(a + [' '] + (b + [' '] + rest), ' ') == [a, b] + Split(rest, ' ')
  {
    SplitCons(b, ' ', rest);
    SplitCons(a, ' ', b + [' '] + rest);
  }

  lemma PutFields(ring: Bytes, data: Bytes, codec: Bytes)
    requires ValidCodec(codec)
    ensures Split(PutHeader(ring, data, codec), ' ') == ["PUTR"] + ([Print(|ring|), Print(|data|)] + ["0", codec])
  {
    PrintIsPlain(|ring|);
    PrintIsPlain(|data|);
    PutTailFields(codec);
    SplitTwice(Print(|ring|), Print(|data|), PutTail(codec));
    SplitCons("PUTR", ' ', PutSizes(Print(|ring|), Print(|data|), codec));
    PutHeaderNested(Print(|ring|), Print(|data|), codec);
  }

  function PutSizes(a: Bytes, b: Bytes, codec: Bytes): Bytes {
    a + [' '] + (b + [' '] + PutTail(codec))
  }

  lemma PutHeaderNested(a: Bytes, b: Bytes, codec: Bytes)
    ensures "PUTR " + a + " " + b + " 0 " + codec == "PUTR" + [' '] + PutSizes(a, b, codec)
  {
    var x, y := "PUTR " + a + " " + b, "PUTR" + [' '] + (a + [' '] + b);
    assert x == y;
    assert x + " 0 " + codec == x + [' '] + PutTail(codec);
  }

  /** Exchange never refuses an accepted insertion. */
  lemma PutIsAcceptable(max: nat, ring: Bytes, data: Bytes, codec: Bytes)
    requires PutInput(max, ring, data, codec) && max <= MAX_FRAME
    ensures Acceptable(max, PutHeader(ring, data, codec), PutBody(ring, data))
  {
    var h := PutHeader(ring, data, codec);
    PrintShort(|ring|);
    PrintShort(|data|);
    assert |h| <= 60;
    PrintIsPlain(|ring|);
    PrintIsPlain(|data|);
    assert Printable(h);
  }

  /** Every accepted insertion is read back exactly. */
  lemma PutRoundTrip(max: nat, ring: Bytes, data: Bytes, codec: Bytes)
    requires PutInput(max, ring, data, codec) && max <= MAX_FRAME
    ensures ReadPut(PutHeader(ring, data, codec), PutBody(ring, data)) == Some(Put(ring, data, codec))
  {
    PutFields(ring, data, codec);
    ParsePrinted(|ring|, TWO_64);
    ParsePrinted(|data|, TWO_64);
    var body := PutBody(ring, data);
    assert body[..|ring|] == ring && body[|ring|..] == data;
  }

  /** So no two accepted insertions are sent alike. */
  lemma PutIsInjective(max: nat, x: Put, y: Put)
    requires max <= MAX_FRAME && PutInput(max, x.ring, x.data, x.codec) && PutInput(max, y.ring, y.data, y.codec)
    requires PutHeader(x.ring, x.data, x.codec) == PutHeader(y.ring, y.data, y.codec)
    requires PutBody(x.ring, x.data) == PutBody(y.ring, y.data)
    ensures x == y
  {
    PutRoundTrip(max, x.ring, x.data, x.codec);
    PutRoundTrip(max, y.ring, y.data, y.codec);
  }

  // ---------------------------------------------------------------- GETID and QRYID

  function ReadHeader(fl: Floats, id: ID, selection: Option<Bytes>): Bytes {
    match selection
    case None => "GETID " + WireText(fl, id)
    case Some(s) => "QRYID " + WireText(fl, id) + " " + Print(|s|)
  }

  function ReadBody(selection: Option<Bytes>): Bytes {
    match selection case None => [] case Some(s) => s
  }

  datatype Fetch = Fetch(id: ID, selection: Option<Bytes>)

  /** A server's reading of a GETID or QRYID request. */
  function ReadFetch(fl: Floats, header: Bytes, body: Bytes): Option<Fetch> {
    var p := Split(header, ' ');
    if |p| == 7 && p[0] == "GETID" && body == [] then
      var id := ParseFields(fl, p[1..]);
      if id.Ok? then Some(Fetch(id.value, None)) else None
    else if |p| == 8 && p[0] == "QRYID" then
      var id, n := ParseFields(fl, p[1..7]), Parse(p[7], TWO_64);
      if id.Ok? && n.Ok? && n.value == |body| then Some(Fetch(id.value, Some(body))) else None
    else None
  }

  predicate FetchInput(max: nat, id: ID, selection: Option<Bytes>) {
    id.Valid() && (selection.Some? ==> |selection.value| <= max)
  }

  lemma {:induction false} JoinAppend(ps: seq<Bytes>, last: Bytes)
    requires |ps| > 0
    ensures Join(ps + [last], ' ') == Join(ps, ' ') + [' '] + last
  {
    if |ps| == 1 {
      assert (ps + [last])[1..] == [last];
    } else {
      JoinAppend(ps[1..], last);
      assert (ps + [last])[1..] == ps[1..] + [last];
    }
  }

  lemma VerbFields(fl: Floats, id: ID, verb: Bytes)
    requires Faithful(fl) && id.Valid()
    ensures Join([verb] + IdFields(fl, id), ' ') == verb + [' '] + WireText(fl, id)
    ensures forall i :: 0 <= i < 6 ==> Free(IdFields(fl, id)[i], ' ')
  {
    WireRoundTrip(fl, id);
    FieldsAreSound(fl, id);
    assert ([verb] + IdFields(fl, id))[1..] == IdFields(fl, id);
  }

  function GetFields(fl: Floats, id: ID): seq<Bytes> {
    ["GETID"] + IdFields(fl, id)
  }

  function QueryFields(fl: Floats, id: ID, n: nat): seq<Bytes> {
    ["QRYID"] + IdFields(fl, id) + [Print(n)]
  }

  lemma GetFieldsSplit(fl: Floats, id: ID)
    requires Faithful(fl) && id.Valid()
    ensures Split(ReadHeader(fl, id, None), ' ') == GetFields(fl, id)
  {
    VerbFields(fl, id, "GETID");
    assert ReadHeader(fl, id, None) == Join(GetFields(fl, id), ' ');
    SplitJoin(GetFields(fl, id), ' ');
  }

  lemma QueryFieldsSplit(fl: Floats, id: ID, s: Bytes)
    requires Faithful(fl) && id.Valid()
    ensures Split(ReadHeader(fl, id, Some(s)), ' ') == QueryFields(fl, id, |s|)
  {
    VerbFields(fl, id, "QRYID");
    PrintIsPlain(|s|);
    JoinAppend(["QRYID"] + IdFields(fl, id), Print(|s|));
    assert ReadHeader(fl, id, Some(s)) == Join(QueryFields(fl, id, |s|), ' ');
    SplitJoin(QueryFields(fl, id, |s|), ' ');
  }

  /** Exchange never refuses an accepted read request. */
  lemma FetchIsAcceptable(fl: Floats, max: nat, id: ID, selection: Option<Bytes>)
    requires Faithful(fl) && FetchInput(max, id, selection) && max <= MAX_FRAME
    ensures Acceptable(max, ReadHeader(fl, id, selection), ReadBody(selection))
  {
    var h := ReadHeader(fl, id, selection);
    WireTextIsPrintable(fl, id);
    if selection.Some? {
      PrintShort(|selection.value|);
      PrintIsPlain(|selection.value|);
    }
    assert |h| <= 240;
    assert Printable(h);
  }

  /** Every accepted read request is understood exactly. */
  lemma FetchRoundTrip(fl: Floats, max: nat, id: ID, selection: Option<Bytes>)
    requires Faithful(fl) && FetchInput(max, id, selection) && max <= MAX_FRAME
    ensures ReadFetch(fl, ReadHeader(fl, id, selection), ReadBody(selection)) == Some(Fetch(id, selection))
  {
    FieldsAreSound(fl, id);
    match selection
    case None =>
      GetFieldsSplit(fl, id);
      assert GetFields(fl, id)[1..] == IdFields(fl, id);
    case Some(s) =>
      QueryFieldsSplit(fl, id, s);
      assert QueryFields(fl, id, |s|)[1..7] == IdFields(fl, id);
      ParsePrinted(|s|, TWO_64);
  }

  lemma FetchIsInjective(fl: Floats, max: nat, x: Fetch, y: Fetch)
    requires Faithful(fl) && max <= MAX_FRAME
    requires FetchInput(max, x.id, x.selection) && FetchInput(max, y.id, y.selection)
    requires ReadHeader(fl, x.id, x.selection) == ReadHeader(fl, y.id, y.selection)
    requires ReadBody(x.selection) == ReadBody(y.selection)
    ensures x == y
  {
    FetchRoundTrip(fl, max, x.id, x.selection);
    FetchRoundTrip(fl, max, y.id, y.selection);
  }
}
