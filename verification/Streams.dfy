/**
 Reading the connection (wire.go): the bounded line parser, and the byte stream that is
 rebuilt from encrypted SEC frames.  Everything is a function of the bytes that will still
 arrive before a read fails, so a statement about all inputs is one about every peer.
 */
module Streams {
  import opened Errors
  import opened Text
  import opened Decimal

  const MAX_FRAME := 64 * 1024 * 1024
  const MAX_HEADER := 8192

  /** A secretbox key, as the two operations it stands for: seal(nonce, text), open(nonce, sealed). */
  datatype Box = Box(seal: (Bytes, Bytes) -> Bytes, open: (Bytes, Bytes) -> Option<Bytes>)

  /** Opening undoes sealing, and sealing adds 16 bytes. */
  ghost predicate Sound(k: Box) {
    forall nonce: Bytes, text: Bytes :: |nonce| == 24 ==>
      |k.seal(nonce, text)| == |text| + 16 && k.open(nonce, k.seal(nonce, text)) == Some(text)
  }

  /** Decrypted bytes not delivered yet, and raw bytes that will arrive before reads fail. */
  datatype Stream = Stream(plain: Bytes, input: Bytes)

  /** How a connection is read: with a transport key or without, and the frame limit. */
  datatype Channel = Channel(key: Option<Box>, max: nat)

  /** Most bytes that may be decrypted and undelivered. */
  function Cap(max: nat): nat {
    max + MAX_HEADER + 1
  }

  // ---------------------------------------------------------------- lines

  function Trim(buf: Bytes): Bytes {
    if buf != [] && buf[|buf| - 1] == '\r' then buf[..|buf| - 1] else buf
  }

  predicate Printable(s: Bytes) {
    forall i :: 0 <= i < |s| ==> 32 <= s[i] as int <= 126
  }

  function Words(buf: Bytes): (r: Result<seq<Bytes>>)
    ensures r.Ok? ==> |r.value| > 0
    ensures r.Err? ==> r.error == Fail(Protocol)
  {
    var t := Trim(buf);
    if t == [] || !Printable(t) then Err(Fail(Protocol)) else Ok(Split(t, ' '))
  }

  /** wire.go's line, over whatever delivers the next byte; `buf` is what it has read so far. */
  function Line<S>(next: S -> (Result<byte>, S), s: S, buf: Bytes): (r: (Result<seq<Bytes>>, S))
    requires |buf| <= MAX_HEADER
    ensures r.0.Ok? ==> |r.0.value| > 0
    decreases MAX_HEADER + 1 - |buf|
  {
    var (b, s') := next(s);
    if b.Err? then (Err(b.error), s')
    else if b.value == '\n' then (Words(buf), s')
    else if |buf| + 1 > MAX_HEADER then (Err(Fail(Protocol)), s')
    else Line(next, s', buf + [b.value])
  }

  /** bufio.Reader.ReadByte. */
  function RawNext(st: Stream): (Result<byte>, Stream) {
    if st.input == [] then (Err(Raw), st) else (Ok(st.input[0]), st.(input := st.input[1..]))
  }

  /** io.ReadFull of n bytes. */
  function RawTake(n: nat, st: Stream): (Result<Bytes>, Stream) {
    if n <= |st.input| then (Ok(st.input[..n]), st.(input := st.input[n..]))
    else (Err(Raw), st.(input := []))
  }

  /** The line parser's outcome, stated by where the first newline is. */
  function LineOutcome(st: Stream, buf: Bytes): (Result<seq<Bytes>>, Stream)
    requires |buf| <= MAX_HEADER
  {
    var k := IndexOf(st.input, '\n');
    if |buf| + k > MAX_HEADER then (Err(Fail(Protocol)), st.(input := st.input[MAX_HEADER + 1 - |buf|..]))
    else if k == |st.input| then (Err(Raw), st.(input := []))
    else (Words(buf + st.input[..k]), st.(input := st.input[k + 1..]))
  }

  lemma OutcomeStep(st: Stream, buf: Bytes)
    requires |buf| < MAX_HEADER && st.input != [] && st.input[0] != '\n'
    ensures LineOutcome(st, buf) == LineOutcome(st.(input := st.input[1..]), buf + [st.input[0]])
  {
    var s, t := st.input, st.input[1..];
    var k := IndexOf(s, '\n');
    assert IndexOf(t, '\n') == k - 1;
    assert buf + [s[0]] + t[..k - 1] == buf + s[..k];
    if |buf| + k > MAX_HEADER {
      assert t[MAX_HEADER - |buf|..] == s[MAX_HEADER + 1 - |buf|..];
    } else if k < |s| {
      assert t[k..] == s[k + 1..];
    }
  }

  /**
   The line parser reads through the first newline and no further, gives up with the protocol
   error on byte MAX_HEADER + 1, and otherwise runs out of input.
   */
  lemma {:induction false} RawLine(st: Stream, buf: Bytes)
    requires |buf| <= MAX_HEADER
    ensures Line(RawNext, st, buf) == LineOutcome(st, buf)
    decreases MAX_HEADER + 1 - |buf|
  {
    var s := st.input;
    if s == [] {
    } else if s[0] == '\n' {
      assert buf + s[..0] == buf;
    } else if |buf| < MAX_HEADER {
      RawLine(st.(input := s[1..]), buf + [s[0]]);
      OutcomeStep(st, buf);
    } else {
      assert |buf| + IndexOf(s, '\n') > MAX_HEADER;
    }
  }

  /** What a line must be to be accepted, and that its fields spell it out. */
  lemma AcceptedLines(buf: Bytes, p: seq<Bytes>)
    ensures Words(buf).Ok? <==> Trim(buf) != [] && Printable(Trim(buf))
    ensures Words(buf) == Ok(p) ==> Join(p, ' ') == Trim(buf) && forall i :: 0 <= i < |p| ==> Free(p[i], ' ')
    ensures Words(buf) == Ok(p) ==> '\r' !in Trim(buf)
  {
    JoinSplit(Trim(buf), ' ');
  }

  /** So a line with these fields is their text, with or without one CR behind it, and nothing else. */
  lemma LinesAreExact(buf: Bytes, p: seq<Bytes>)
    requires |p| > 0
    ensures Words(buf) == Ok(p) <==>
              && (forall i :: 0 <= i < |p| ==> Free(p[i], ' '))
              && Join(p, ' ') != [] && (forall b: byte :: b in Join(p, ' ') ==> 32 <= b as int <= 126)
              && (buf == Join(p, ' ') || buf == Join(p, ' ') + ['\r'])
  {
    hide Split, Join, Free;
    var t := Join(p, ' ');
    if Words(buf) == Ok(p) {
      AcceptedLines(buf, p);
      assert t == Trim(buf);
      assert buf == t || buf == t + ['\r'];
    } else if (forall i :: 0 <= i < |p| ==> Free(p[i], ' ')) && t != [] {
      SplitJoin(p, ' ');
      assert (t + ['\r'])[..|t|] == t;
      assert forall i :: 0 <= i < |t| ==> t[i] in t;
    }
  }

  // ---------------------------------------------------------------- frames

  /** wire.go's expect; None is acceptance. */
  function Expect(p: seq<Bytes>, tag: Bytes, n: nat, auth: bool): (e: Option<Error>)
    requires n > 0
    ensures e.None? ==> |p| == n && p[0] == tag
    ensures e.Some? ==> e.value in {Fail(Authentication), Fail(Server), Fail(Protocol)}
    ensures e == Some(Fail(Authentication)) <==> auth && p != [] && p[0] == "ERR"
    ensures e == Some(Fail(Server)) <==> !auth && p != [] && p[0] == "ERR"
    ensures tag != "ERR" ==> (e.None? <==> |p| == n && p[0] == tag)
  {
    if |p| > 0 && p[0] == "ERR" then Some(Fail(if auth then Authentication else Server))
    else if |p| != n || p[0] != tag then Some(Fail(Protocol))
    else None
  }

  /** The rest of fill, once the fields of the frame's header line are read. */
  function Unseal(k: Box, max: nat, p: seq<Bytes>, st: Stream): (r: (Result<()>, Stream))
    ensures |r.1.input| <= |st.input|
  {
    var e := Expect(p, "SEC", 2, false);
    if e.Some? then (Err(e.value), st) else
    var n := Parse(p[1], max + MAX_HEADER + 41 + 1);
    if n.Err? || n.value < 40 then (Err(Fail(Protocol)), st) else
    var (b, s2) := RawTake(n.value, st);
    if b.Err? then (Err(b.error), s2) else
    var plain := k.open(b.value[..24], b.value[24..]);
    if plain.None? || |st.plain| + |plain.value| > Cap(max) then (Err(Fail(Protocol)), s2)
    else (Ok(()), s2.(plain := st.plain + plain.value))
  }

  /** Reads one SEC frame and appends its text to `plain`. */
  function Fill(k: Box, max: nat, st: Stream): (r: (Result<()>, Stream))
    ensures r.0.Ok? ==> |r.1.input| < |st.input| && |r.1.plain| <= Cap(max)
  {
    RawLine(st, []);
    var (p, s1) := Line(RawNext, st, []);
    if p.Err? then (Err(p.error), s1) else Unseal(k, max, p.value, s1)
  }

  /** wire.bytes with a key: fill until n bytes are there, then deliver them. */
  function SecureTake(k: Box, max: nat, n: nat, st: Stream): (Result<Bytes>, Stream)
    decreases |st.input|
  {
    if n <= |st.plain| then (Ok(st.plain[..n]), st.(plain := st.plain[n..])) else
    var (e, s1) := Fill(k, max, st);
    if e.Err? then (Err(e.error), s1) else SecureTake(k, max, n, s1)
  }

  function First<S>(r: (Result<Bytes>, S)): (Result<byte>, S) {
    match r.0
    case Ok(b) => if b == [] then (Err(Raw), r.1) else (Ok(b[0]), r.1)
    case Err(e) => (Err(e), r.1)
  }

  function SecureNext(k: Box, max: nat, st: Stream): (Result<byte>, Stream) {
    First(SecureTake(k, max, 1, st))
  }

  /** The byte reader that header hands to line when there is a key. */
  function SecureReader(k: Box, max: nat): Stream -> (Result<byte>, Stream) {
    st => SecureNext(k, max, st)
  }

  /** Something that lines and byte blocks are read from. */
  datatype Source<!S> = Source(line: S -> (Result<seq<Bytes>>, S), take: (nat, S) -> (Result<Bytes>, S))

  /** wire.header and wire.bytes. */
  function Reader(ch: Channel): Source<Stream> {
    match ch.key
    case None => Source(st => Line(RawNext, st, []), RawTake)
    case Some(k) => Source(st => Line(SecureReader(k, ch.max), st, []), (n, st) => SecureTake(k, ch.max, n, st))
  }

  lemma FillWithinCap(k: Box, max: nat, st: Stream)
    requires |st.plain| <= Cap(max)
    ensures |Fill(k, max, st).1.plain| <= Cap(max)
  {
    hide Words, Expect, Parse;
    RawLine(st, []);
  }

  /** Whatever the peer sends, decrypted bytes waiting for delivery stay within the cap. */
  lemma {:induction false} TakeWithinCap(k: Box, max: nat, n: nat, st: Stream)
    requires |st.plain| <= Cap(max)
    ensures |SecureTake(k, max, n, st).1.plain| <= Cap(max)
    decreases |st.input|
  {
    hide Fill;
    FillWithinCap(k, max, st);
    if n > |st.plain| {
      var (e, s1) := Fill(k, max, st);
      if e.Ok? {
        TakeWithinCap(k, max, n, s1);
      }
    }
  }

  lemma {:induction false} LineWithinCap(k: Box, max: nat, st: Stream, buf: Bytes)
    requires |st.plain| <= Cap(max) && |buf| <= MAX_HEADER
    ensures |Line(SecureReader(k, max), st, buf).1.plain| <= Cap(max)
    decreases MAX_HEADER + 1 - |buf|
  {
    TakeWithinCap(k, max, 1, st);
    var (b, s') := SecureNext(k, max, st);
    if b.Ok? && b.value != '\n' && |buf| < MAX_HEADER {
      LineWithinCap(k, max, s', buf + [b.value]);
    }
  }

  /** The only errors that reading can give. */
  predicate ReadError(e: Error) {
    e in {Raw, Fail(Protocol), Fail(Server)}
  }

  lemma FillErrors(k: Box, max: nat, st: Stream)
    ensures Fill(k, max, st).0.Err? ==> ReadError(Fill(k, max, st).0.error)
  {
    RawLine(st, []);
  }

  lemma {:induction false} TakeErrors(k: Box, max: nat, n: nat, st: Stream)
    ensures SecureTake(k, max, n, st).0.Err? ==> ReadError(SecureTake(k, max, n, st).0.error)
    decreases |st.input|
  {
    if n > |st.plain| {
      FillErrors(k, max, st);
      var (e, s1) := Fill(k, max, st);
      if e.Ok? {
        TakeErrors(k, max, n, s1);
      }
    }
  }

  lemma {:induction false} LineErrors(k: Box, max: nat, st: Stream, buf: Bytes)
    requires |buf| <= MAX_HEADER
    ensures var r := Line(SecureReader(k, max), st, buf).0; r.Err? ==> ReadError(r.error)
    decreases MAX_HEADER + 1 - |buf|
  {
    TakeErrors(k, max, 1, st);
    var (b, s') := SecureNext(k, max, st);
    if b.Ok? && b.value != '\n' && |buf| < MAX_HEADER {
      LineErrors(k, max, s', buf + [b.value]);
    }
  }

  // ---------------------------------------------------------------- more input

  /** The stream when more has arrived behind it. */
  function More(st: Stream, more: Bytes): Stream {
    st.(input := st.input + more)
  }

  /** A read that did not run out of input is not affected by what arrives behind. */
  ghost predicate Unhurried<V>(r: (Result<V>, Stream), r2: (Result<V>, Stream), more: Bytes) {
    r.0 != Err(Raw) ==> r2.0 == r.0 && (r.0.Ok? ==> r2.1 == More(r.1, more))
  }

  lemma {:induction false} IndexOfMore(s: Bytes, c: byte, more: Bytes)
    requires IndexOf(s, c) < |s|
    ensures IndexOf(s + more, c) == IndexOf(s, c)
  {
    if s[0] != c {
      assert (s + more)[1..] == s[1..] + more;
      IndexOfMore(s[1..], c, more);
    }
  }

  lemma RawTakeMore(n: nat, st: Stream, more: Bytes)
    ensures Unhurried(RawTake(n, st), RawTake(n, More(st, more)), more)
  {
    if n <= |st.input| {
      assert (st.input + more)[..n] == st.input[..n];
      assert (st.input + more)[n..] == st.input[n..] + more;
    }
  }

  lemma RawLineMore(st: Stream, more: Bytes)
    ensures Unhurried(Line(RawNext, st, []), Line(RawNext, More(st, more), []), more)
  {
    RawLine(st, []);
    RawLine(More(st, more), []);
    var s, k := st.input, IndexOf(st.input, '\n');
    if k < |s| {
      IndexOfMore(s, '\n', more);
      assert (s + more)[..k] == s[..k];
      assert (s + more)[k + 1..] == s[k + 1..] + more;
    } else if k > MAX_HEADER {
      IndexOfBeyond(s, '\n', more);
    }
  }

  lemma IndexOfBeyond(s: Bytes, c: byte, more: Bytes)
    requires IndexOf(s, c) == |s|
    ensures IndexOf(s + more, c) >= |s|
  {
    assert forall i :: 0 <= i < |s| ==> (s + more)[i] == s[i];
  }

  lemma UnsealMore(k: Box, max: nat, p: seq<Bytes>, st: Stream, more: Bytes)
    ensures Unhurried(Unseal(k, max, p, st), Unseal(k, max, p, More(st, more)), more)
  {
    if Expect(p, "SEC", 2, false).None? {
      var n := Parse(p[1], max + MAX_HEADER + 41 + 1);
      if n.Ok? {
        RawTakeMore(n.value, st, more);
      }
    }
  }

  lemma FillMore(k: Box, max: nat, st: Stream, more: Bytes)
    ensures Unhurried(Fill(k, max, st), Fill(k, max, More(st, more)), more)
  {
    hide Unseal;
    RawLineMore(st, more);
    var (p, s1) := Line(RawNext, st, []);
    if p.Ok? {
      UnsealMore(k, max, p.value, s1, more);
    }
  }

  lemma {:induction false} TakeMore(k: Box, max: nat, n: nat, st: Stream, more: Bytes)
    ensures Unhurried(SecureTake(k, max, n, st), SecureTake(k, max, n, More(st, more)), more)
    decreases |st.input|
  {
    hide Fill;
    if n > |st.plain| {
      FillMore(k, max, st, more);
      var (e, s1) := Fill(k, max, st);
      if e.Ok? {
        TakeMore(k, max, n, s1, more);
      }
    }
  }

  lemma {:induction false} LineMore(k: Box, max: nat, st: Stream, more: Bytes, buf: Bytes)
    requires |buf| <= MAX_HEADER
    ensures Unhurried(Line(SecureReader(k, max), st, buf), Line(SecureReader(k, max), More(st, more), buf), more)
    decreases MAX_HEADER + 1 - |buf|
  {
    hide SecureTake;
    TakeMore(k, max, 1, st, more);
    var (b, s') := SecureNext(k, max, st);
    if b.Ok? && b.value != '\n' && |buf| < MAX_HEADER {
      LineMore(k, max, s', more, buf + [b.value]);
    }
  }

  // ---------------------------------------------------------------- authentic frames

  datatype Frame = Frame(nonce: Bytes, text: Bytes)

  function Sealed(k: Box, f: Frame): Bytes {
    f.nonce + k.seal(f.nonce, f.text)
  }

  /** The bytes of one frame on the wire. */
  function Framed(k: Box, f: Frame): Bytes {
    "SEC " + Print(|Sealed(k, f)|) + "\n" + Sealed(k, f)
  }

  function Encode(k: Box, fs: seq<Frame>): Bytes {
    if fs == [] then [] else Framed(k, fs[0]) + Encode(k, fs[1..])
  }

  predicate ProperNonces(fs: seq<Frame>) {
    forall i :: 0 <= i < |fs| ==> |fs[i].nonce| == 24
  }

  /** The stream that was cut into these frames. */
  function Texts(fs: seq<Frame>): Bytes {
    if fs == [] then [] else fs[0].text + Texts(fs[1..])
  }

  /** The first line of a frame. */
  function FrameLine(n: nat): Bytes {
    "SEC " + Print(n)
  }

  lemma FrameLineIsFree(n: nat)
    ensures Free(FrameLine(n), '\n') && Trim(FrameLine(n)) == FrameLine(n) && Printable(FrameLine(n))
    ensures n < TWO_64 ==> |FrameLine(n)| <= 24
  {
    PrintIsCanonical(n);
    var s := FrameLine(n);
    assert IsDigit(s[|s| - 1]) by { assert s[|s| - 1] == Print(n)[|Print(n)| - 1]; }
    if n < TWO_64 {
      PrintShort(n);
    }
  }

  lemma FrameLineFields(n: nat)
    ensures Words(FrameLine(n)) == Ok(["SEC", Print(n)])
  {
    FrameLineIsFree(n);
    SplitCons("SEC", ' ', Print(n));
    assert FrameLine(n) == "SEC" + [' '] + Print(n);
    SplitFree(Print(n), ' ') by { PrintIsCanonical(n); }
    assert ["SEC"] + [Print(n)] == ["SEC", Print(n)];
  }

  /** Reading a line that arrived whole, with anything behind it. */
  lemma ReadLine(plain: Bytes, text: Bytes, rest: Bytes)
    requires Free(text, '\n')
    ensures var r := Line(RawNext, Stream(plain, text + ['\n'] + rest), []);
            if |text| > MAX_HEADER then r.0 == Err(Fail(Protocol))
            else r == (Words(text), Stream(plain, rest))
  {
    var s := text + ['\n'] + rest;
    IndexOfFirst(text, '\n', rest);
    RawLine(Stream(plain, s), []);
    assert [] + s[..|text|] == text;
    assert s[|text| + 1..] == rest;
  }

  /** Reading a line of which the newline has not arrived. */
  lemma ReadNoLine(plain: Bytes, text: Bytes)
    requires Free(text, '\n')
    ensures Line(RawNext, Stream(plain, text), []).0 == Err(if |text| > MAX_HEADER then Fail(Protocol) else Raw)
  {
    IndexOfNone(text, '\n');
    RawLine(Stream(plain, text), []);
  }

  lemma FramedIsLine(k: Box, f: Frame)
    requires Sound(k) && |f.nonce| == 24
    ensures |Sealed(k, f)| == |f.text| + 40
    ensures Framed(k, f) == FrameLine(|Sealed(k, f)|) + ['\n'] + Sealed(k, f)
  {
  }

  lemma UnsealFrame(k: Box, max: nat, plain: Bytes, f: Frame, rest: Bytes)
    requires Sound(k) && |f.nonce| == 24
    ensures var r := Unseal(k, max, ["SEC", Print(|Sealed(k, f)|)], Stream(plain, Sealed(k, f) + rest));
            if |plain| + |f.text| <= Cap(max) then r == (Ok(()), Stream(plain + f.text, rest))
            else r.0 == Err(Fail(Protocol))
  {
    var c := Sealed(k, f);
    ParsePrinted(|c|, max + MAX_HEADER + 42);
    assert c[..24] == f.nonce && c[24..] == k.seal(f.nonce, f.text);
    assert (c + rest)[..|c|] == c && (c + rest)[|c|..] == rest;
  }

  lemma FillLine(k: Box, max: nat, plain: Bytes, text: Bytes, p: seq<Bytes>, rest: Bytes)
    requires Free(text, '\n') && Words(text) == Ok(p)
    ensures var r := Fill(k, max, Stream(plain, text + ['\n'] + rest));
            if |text| > MAX_HEADER then r.0 == Err(Fail(Protocol))
            else r == Unseal(k, max, p, Stream(plain, rest))
  {
    ReadLine(plain, text, rest);
  }

  /** An authentic frame is accepted exactly when its text fits in the buffer. */
  lemma FillFrame(k: Box, max: nat, plain: Bytes, f: Frame, rest: Bytes)
    requires Sound(k) && |f.nonce| == 24 && max <= MAX_FRAME
    ensures var r := Fill(k, max, Stream(plain, Framed(k, f) + rest));
            if |plain| + |f.text| <= Cap(max) then r == (Ok(()), Stream(plain + f.text, rest))
            else r.0 == Err(Fail(Protocol))
  {
    hide Fill, Unseal, Words, FrameLine, Framed, Free, Sealed, Print, Trim, Printable;
    var n := |Sealed(k, f)|;
    FrameLineIsFree(n);
    FrameLineFields(n);
    FillLine(k, max, plain, FrameLine(n), ["SEC", Print(n)], Sealed(k, f) + rest);
    assert Framed(k, f) + rest == FrameLine(n) + ['\n'] + (Sealed(k, f) + rest) by { FramedIsLine(k, f); }
    assert n == |f.text| + 40 by { FramedIsLine(k, f); }
    UnsealFrame(k, max, plain, f, rest);
  }

  lemma UnsealShort(k: Box, max: nat, n: nat, st: Stream)
    requires |st.input| < n
    ensures var r := Unseal(k, max, ["SEC", Print(n)], st).0; r.Err? && r.error in {Raw, Fail(Protocol)}
  {
    ParsePrinted(n, max + MAX_HEADER + 42);
  }

  /** A frame of which something is missing is never accepted, nor taken for something the server said. */
  lemma FillStub(k: Box, max: nat, plain: Bytes, f: Frame, tail: Bytes)
    requires Sound(k) && |f.nonce| == 24
    requires tail <= Framed(k, f) && tail != Framed(k, f)
    ensures var r := Fill(k, max, Stream(plain, tail)).0; r.Err? && r.error in {Raw, Fail(Protocol)}
  {
    hide FrameLine, Framed, Words, Sealed, Unseal, Free, Print;
    var c := Sealed(k, f);
    var h := FrameLine(|c|);
    FramedIsLine(k, f);
    FrameLineIsFree(|c|);
    FrameLineFields(|c|);
    if |tail| <= |h| {
      assert tail == h[..|tail|];
      assert Free(tail, '\n') by { FreePrefix(h, |tail|, '\n'); }
      ReadNoLine(plain, tail);
    } else {
      hide Fill;
      var rest := tail[|h| + 1..];
      assert tail == h + ['\n'] + rest;
      FillLine(k, max, plain, h, ["SEC", Print(|c|)], rest);
      UnsealShort(k, max, |c|, Stream(plain, rest));
    }
  }

  lemma FreePrefix(s: Bytes, n: nat, c: byte)
    requires n <= |s| && Free(s, c)
    ensures Free(s[..n], c)
  {
  }

  /**
   A server error on an encrypted connection comes from an unsealed line: fill gives it exactly
   when the next raw line is acceptable and begins with ERR, whatever the key is.
   */
  lemma UnsealedRefusal(k: Box, max: nat, st: Stream)
    ensures Fill(k, max, st).0 == Err(Fail(Server)) <==>
              var p := LineOutcome(st, []).0; p.Ok? && p.value[0] == "ERR"
  {
    RawLine(st, []);
  }

  // ---------------------------------------------------------------- the frame-level reader

  /** The same reader one level up: frames instead of bytes, and a mark when the cap refuses one. */
  datatype Cut = Cut(plain: Bytes, frames: seq<Frame>, refused: bool)

  function CutTake(max: nat, n: nat, c: Cut): (Result<Bytes>, Cut)
    decreases |c.frames|
  {
    if n <= |c.plain| then (Ok(c.plain[..n]), c.(plain := c.plain[n..]))
    else if c.frames == [] then (Err(Raw), c)
    else if |c.plain| + |c.frames[0].text| > Cap(max) then (Err(Fail(Protocol)), c.(refused := true))
    else CutTake(max, n, c.(plain := c.plain + c.frames[0].text, frames := c.frames[1..]))
  }

  function CutNext(max: nat, c: Cut): (Result<byte>, Cut) {
    First(CutTake(max, 1, c))
  }

  function Frames(max: nat): Source<Cut> {
    Source(c => Line(d => CutNext(max, d), c, []), (n, c) => CutTake(max, n, c))
  }

  // ---------------------------------------------------------------- simulation

  /** Two reads agree: the same answer and related states, or the first one failed excusably. */
  ghost predicate Agree<S, T, V>(x: (Result<V>, S), y: (Result<V>, T), R: (S, T) -> bool, excused: (Error, S) -> bool) {
    || (x.0.Err? && excused(x.0.error, x.1))
    || (x.0 == y.0 && (x.0.Ok? ==> R(x.1, y.1)))
  }

  ghost predicate Simulates<S(!new), T(!new)>(
      a: Source<S>, b: Source<T>, R: (S, T) -> bool, excused: (Error, S) -> bool) {
    && (forall s: S, t: T {:trigger a.line(s), b.line(t)} :: R(s, t) ==> Agree(a.line(s), b.line(t), R, excused))
    && (forall n: nat, s: S, t: T {:trigger a.take(n, s), b.take(n, t)} ::
          R(s, t) ==> Agree(a.take(n, s), b.take(n, t), R, excused))
  }

  lemma {:induction false} LinesAgree<S(!new), T(!new)>(
      na: S -> (Result<byte>, S), nb: T -> (Result<byte>, T),
      R: (S, T) -> bool, excused: (Error, S) -> bool, s: S, t: T, buf: Bytes)
    requires |buf| <= MAX_HEADER && R(s, t)
    requires forall x: S, y: T {:trigger na(x), nb(y)} :: R(x, y) ==> Agree(na(x), nb(y), R, excused)
    ensures Agree(Line(na, s, buf), Line(nb, t, buf), R, excused)
    decreases MAX_HEADER + 1 - |buf|
  {
    var (x, s') := na(s);
    var (y, t') := nb(t);
    assert Agree(na(s), nb(t), R, excused);
    if x.Ok? && x.value != '\n' && |buf| < MAX_HEADER {
      LinesAgree(na, nb, R, excused, s', t', buf + [x.value]);
    }
  }

  /** Bytes and frames describe the same waiting input; `tail` is an incomplete last frame. */
  predicate SameInput(k: Box, tail: Bytes, st: Stream, c: Cut) {
    ProperNonces(c.frames) && st.plain == c.plain && st.input == Encode(k, c.frames) + tail
  }

  ghost function Alike(k: Box, tail: Bytes): (Stream, Cut) -> bool {
    (st, c) => SameInput(k, tail, st, c)
  }

  /** The only excuse of the byte-level reader: the input ends inside a frame, which no server said. */
  ghost function CutShort(tail: Bytes): (Error, Stream) -> bool {
    (e, st) => tail != [] && e in {Raw, Fail(Protocol)}
  }

  ghost predicate Stub(k: Box, tail: Bytes) {
    tail == [] || exists f: Frame :: |f.nonce| == 24 && tail <= Framed(k, f) && tail != Framed(k, f)
  }

  /** With nothing but a stub left, the next fill fails; with nothing at all, for want of bytes. */
  lemma FillTail(k: Box, max: nat, tail: Bytes, plain: Bytes)
    requires Sound(k) && Stub(k, tail)
    ensures var r := Fill(k, max, Stream(plain, tail)).0; r.Err? && r.error in {Raw, Fail(Protocol)}
    ensures tail == [] ==> Fill(k, max, Stream(plain, tail)).0 == Err(Raw)
  {
    if tail == [] {
      RawLine(Stream(plain, tail), []);
    } else {
      var f: Frame :| |f.nonce| == 24 && tail <= Framed(k, f) && tail != Framed(k, f);
      FillStub(k, max, plain, f, tail);
    }
  }

  /** With a whole frame ahead, fill does what the frame-level reader does with it. */
  lemma FillNext(k: Box, max: nat, tail: Bytes, st: Stream, c: Cut)
    requires Sound(k) && max <= MAX_FRAME && SameInput(k, tail, st, c) && c.frames != []
    ensures var r := Fill(k, max, st);
            if |c.plain| + |c.frames[0].text| > Cap(max) then r.0 == Err(Fail(Protocol))
            else r.0.Ok? && SameInput(k, tail, r.1, c.(plain := c.plain + c.frames[0].text, frames := c.frames[1..]))
  {
    var f, rest := c.frames[0], Encode(k, c.frames[1..]) + tail;
    assert st.input == Framed(k, f) + rest;
    FillFrame(k, max, st.plain, f, rest);
  }

  lemma {:induction false} TakesAgree(k: Box, max: nat, tail: Bytes, n: nat, st: Stream, c: Cut)
    requires Sound(k) && max <= MAX_FRAME && Stub(k, tail) && SameInput(k, tail, st, c)
    ensures Agree(SecureTake(k, max, n, st), CutTake(max, n, c), Alike(k, tail), CutShort(tail))
    decreases |c.frames|
  {
    if n > |st.plain| {
      if c.frames == [] {
        FillTail(k, max, tail, st.plain);
        assert st == Stream(st.plain, tail);
      } else {
        FillNext(k, max, tail, st, c);
        if |c.plain| + |c.frames[0].text| <= Cap(max) {
          TakesAgree(k, max, tail, n, Fill(k, max, st).1,
                     c.(plain := c.plain + c.frames[0].text, frames := c.frames[1..]));
        }
      }
    }
  }

  /** The byte-level reader does what the frame-level reader does. */
  lemma WireSimulatesFrames(k: Box, max: nat, tail: Bytes)
    requires Sound(k) && max <= MAX_FRAME && Stub(k, tail)
    ensures Simulates(Reader(Channel(Some(k), max)), Frames(max), Alike(k, tail), CutShort(tail))
  {
    var R, excused := Alike(k, tail), CutShort(tail);
    forall n: nat, s: Stream, d: Cut | R(s, d)
      ensures Agree(SecureTake(k, max, n, s), CutTake(max, n, d), R, excused)
    {
      TakesAgree(k, max, tail, n, s, d);
    }
    forall s: Stream, d: Cut | R(s, d)
      ensures Agree(Reader(Channel(Some(k), max)).line(s), Frames(max).line(d), R, excused)
    {
      var na := SecureReader(k, max);
      var nb := (y: Cut) => CutNext(max, y);
      forall x: Stream, y: Cut | R(x, y) ensures Agree(na(x), nb(y), R, excused) {
        TakesAgree(k, max, tail, 1, x, y);
      }
      LinesAgree(na, nb, R, excused, s, d, []);
    }
  }

  /** Frames that carry a stream, against that stream itself. */
  predicate SameStream(c: Cut, st: Stream) {
    !c.refused && st.input == c.plain + Texts(c.frames)
  }

  predicate WasRefused(e: Error, c: Cut) {
    c.refused && e == Fail(Protocol)
  }

  lemma {:induction false} CutTakesAgree(max: nat, n: nat, c: Cut, st: Stream)
    requires SameStream(c, st)
    ensures Agree(CutTake(max, n, c), RawTake(n, st), SameStream, WasRefused)
    decreases |c.frames|
  {
    if n <= |c.plain| {
      assert st.input[..n] == c.plain[..n];
      assert st.input[n..] == c.plain[n..] + Texts(c.frames);
    } else if c.frames != [] && |c.plain| + |c.frames[0].text| <= Cap(max) {
      var d := c.(plain := c.plain + c.frames[0].text, frames := c.frames[1..]);
      assert st.input == d.plain + Texts(d.frames);
      CutTakesAgree(max, n, d, st);
    }
  }

  /** The frame-level reader does what reading the plain stream does, up to refusals. */
  lemma FramesSimulatePlain(max: nat)
    ensures Simulates(Frames(max), Reader(Channel(None, max)), SameStream, WasRefused)
  {
    forall n: nat, c: Cut, st: Stream | SameStream(c, st)
      ensures Agree(CutTake(max, n, c), RawTake(n, st), SameStream, WasRefused)
    {
      CutTakesAgree(max, n, c, st);
    }
    forall c: Cut, st: Stream | SameStream(c, st)
      ensures Agree(Frames(max).line(c), Reader(Channel(None, max)).line(st), SameStream, WasRefused)
    {
      var na := (x: Cut) => CutNext(max, x);
      forall x: Cut, y: Stream | SameStream(x, y) ensures Agree(na(x), RawNext(y), SameStream, WasRefused) {
        CutTakesAgree(max, 1, x, y);
      }
      LinesAgree(na, RawNext, SameStream, WasRefused, c, st, []);
    }
  }
}
