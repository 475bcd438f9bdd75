/**
 Sealed connections and whoever else writes to them (wire.go): every byte that a reader is given
 has come out of a frame that opened under the key of the connection, and a frame that does not
 open ends the reading.  The input here is arbitrary, and so is what the box opens.
 */
module Authenticity {
  import opened Errors
  import opened Text
  import opened Decimal
  import opened Ids
  import opened Streams
  import opened Replies

  /** A frame on the wire: its line, what it carries sealed, and what that is taken to say. */
  datatype Piece = Piece(line: Bytes, sealed: Bytes, text: Bytes)

  function Raw(p: Piece): Bytes {
    p.line + ['\n'] + p.sealed
  }

  function RawOf(ps: seq<Piece>): Bytes {
    if ps == [] then [] else Raw(ps[0]) + RawOf(ps[1..])
  }

  /** What these frames say. */
  function Said(ps: seq<Piece>): Bytes {
    if ps == [] then [] else ps[0].text + Said(ps[1..])
  }

  /** The line announces so many sealed bytes, up to a CR at its end. */
  predicate Announces(line: Bytes, n: nat) {
    Free(line, '\n') && |line| <= MAX_HEADER && Trim(line) == "SEC " + Print(n)
  }

  /** The frame is well-formed, and its text is what the key opens it to. */
  predicate Opens(k: Box, p: Piece) {
    && Announces(p.line, |p.sealed|) && |p.sealed| >= 40
    && k.open(p.sealed[..24], p.sealed[24..]) == Some(p.text)
  }

  predicate AllOpen(k: Box, ps: seq<Piece>) {
    forall i :: 0 <= i < |ps| ==> Opens(k, ps[i])
  }

  lemma AnnouncedFields(line: Bytes, n: nat)
    requires Announces(line, n)
    ensures Words(line) == Ok(["SEC", Print(n)]) && Free(line, '\n') && |line| <= MAX_HEADER
  {
    FrameLineIsFree(n);
    FrameLineFields(n);
  }

  /**
   A frame that has arrived whole, whoever sent it: it is appended exactly if it opens and what
   it opens to fits, and everything else is a protocol error.
   */
  lemma FillExactly(k: Box, max: nat, plain: Bytes, line: Bytes, c: Bytes, rest: Bytes)
    requires Announces(line, |c|) && 40 <= |c| <= max + MAX_HEADER + 41
    ensures var r := Fill(k, max, Stream(plain, line + ['\n'] + (c + rest)));
            match k.open(c[..24], c[24..])
            case None => r.0 == Err(Fail(Protocol))
            case Some(text) =>
              if |plain| + |text| <= max + 8193 then r == (Ok(()), Stream(plain + text, rest))
              else r.0 == Err(Fail(Protocol))
  {
    hide Words, Announces;
    AnnouncedFields(line, |c|);
    FillLine(k, max, plain, line, ["SEC", Print(|c|)], c + rest);
    ParsePrinted(|c|, max + MAX_HEADER + 42);
    assert (c + rest)[..|c|] == c && (c + rest)[|c|..] == rest;
  }

  lemma AnnouncedBy(line: Bytes, n: nat)
    requires Free(line, '\n') && |line| <= MAX_HEADER && Words(line) == Ok(["SEC", Print(n)])
    ensures Announces(line, n)
  {
    AcceptedLines(line, ["SEC", Print(n)]);
    assert ["SEC", Print(n)][1..] == [Print(n)];
    assert Trim(line) == "SEC" + [' '] + Print(n);
  }

  lemma UnsealOpens(k: Box, max: nat, words: seq<Bytes>, st: Stream) returns (c: Bytes, text: Bytes)
    requires Unseal(k, max, words, st).0.Ok?
    ensures |c| >= 40 && k.open(c[..24], c[24..]) == Some(text) && words == ["SEC", Print(|c|)]
    ensures st.input == c + Unseal(k, max, words, st).1.input
    ensures Unseal(k, max, words, st).1.plain == st.plain + text
  {
    hide Print, Canonical;
    var n := Parse(words[1], max + MAX_HEADER + 42).value;
    assert words == ["SEC", Print(n)];
    c := st.input[..n];
    text := k.open(c[..24], c[24..]).value;
  }

  /** And nothing else is ever appended: what fill accepts is one frame, and it opens. */
  lemma FillOpens(k: Box, max: nat, st: Stream) returns (p: Piece)
    requires Fill(k, max, st).0.Ok?
    ensures var t := Fill(k, max, st).1;
            Opens(k, p) && st.input == Raw(p) + t.input && t.plain == st.plain + p.text
  {
    hide Words, Unseal, Print, Announces;
    RawLine(st, []);
    var i := IndexOf(st.input, '\n');
    var line, rest := st.input[..i], st.input[i + 1..];
    assert [] + line == line && st.input == line + ['\n'] + rest;
    var words := Words(line).value;
    var c, text := UnsealOpens(k, max, words, Stream(st.plain, rest));
    AnnouncedBy(line, |c|);
    p := Piece(line, c, text);
    assert line + ['\n'] + (c + Fill(k, max, st).1.input) == Raw(p) + Fill(k, max, st).1.input;
  }

  /** From one stream to another these frames were consumed, and all of them open. */
  predicate Consumes(k: Box, st: Stream, ps: seq<Piece>, t: Stream) {
    AllOpen(k, ps) && st.input == RawOf(ps) + t.input
  }

  lemma {:induction false} SaidConcat(a: seq<Piece>, b: seq<Piece>)
    ensures RawOf(a + b) == RawOf(a) + RawOf(b) && Said(a + b) == Said(a) + Said(b)
  {
    hide Raw;
    if a == [] {
      assert a + b == b;
    } else {
      assert (a + b)[1..] == a[1..] + b;
      SaidConcat(a[1..], b);
    }
  }

  lemma ConsumesOn(k: Box, st: Stream, a: seq<Piece>, s1: Stream, b: seq<Piece>, t: Stream)
    requires Consumes(k, st, a, s1) && Consumes(k, s1, b, t)
    ensures Consumes(k, st, a + b, t)
    ensures st.plain + Said(a) + Said(b) == st.plain + Said(a + b)
  {
    hide Opens, Raw, RawOf, Said;
    SaidConcat(a, b);
    assert RawOf(a) + (RawOf(b) + t.input) == RawOf(a) + RawOf(b) + t.input;
  }

  /** Bytes that are delivered have been waiting or have been opened. */
  lemma {:induction false} TakeOpens(k: Box, max: nat, n: nat, st: Stream) returns (ps: seq<Piece>)
    requires SecureTake(k, max, n, st).0.Ok?
    ensures var (b, t) := SecureTake(k, max, n, st);
            Consumes(k, st, ps, t) && st.plain + Said(ps) == b.value + t.plain && |b.value| == n
    decreases |st.input|
  {
    hide Opens, Fill;
    ps := [];
    if n > |st.plain| {
      var s1 := Fill(k, max, st).1;
      var p := FillOpens(k, max, st);
      var more := TakeOpens(k, max, n, s1);
      ps := [p] + more;
      assert ps[1..] == more;
      assert st.plain + (p.text + Said(more)) == st.plain + p.text + Said(more);
    } else {
      assert st.plain == st.plain[..n] + st.plain[n..];
    }
  }

  /** The plain line reader, one byte further. */
  lemma LineStep(x: Bytes, b: byte, rest: Bytes, buf: Bytes)
    requires x == [b] + rest && |buf| <= MAX_HEADER
    ensures Line(RawNext, Stream([], x), buf) ==
            if b == '\n' then (Words(buf), Stream([], rest))
            else if |buf| == MAX_HEADER then (Err(Fail(Protocol)), Stream([], rest))
            else Line(RawNext, Stream([], rest), buf + [b])
  {
    hide Words;
    assert x[0] == b && x[1..] == rest;
  }

  /** A header that is read is the first line of what was waiting and opened. */
  lemma {:induction false} LineOpens(k: Box, max: nat, st: Stream, buf: Bytes) returns (ps: seq<Piece>)
    requires |buf| <= MAX_HEADER && Line(SecureReader(k, max), st, buf).0.Ok?
    ensures var (p, t) := Line(SecureReader(k, max), st, buf);
            && Consumes(k, st, ps, t)
            && Line(RawNext, Stream([], st.plain + Said(ps)), buf) == (p, Stream([], t.plain))
    decreases MAX_HEADER + 1 - |buf|
  {
    hide SecureTake, Words, Consumes, Said, RawNext;
    ps := TakeOpens(k, max, 1, st);
    var (b, s1) := SecureNext(k, max, st);
    assert SecureTake(k, max, 1, st).0.value == [b.value];
    if b.value == '\n' {
      LineStep(st.plain + Said(ps), b.value, s1.plain, buf);
    } else {
      var more := LineOpens(k, max, s1, buf + [b.value]);
      var t := Line(SecureReader(k, max), st, buf).1;
      ConsumesOn(k, st, ps, s1, more, t);
      assert st.plain + Said(ps) + Said(more) == [b.value] + (s1.plain + Said(more));
      ps := ps + more;
      LineStep(st.plain + Said(ps), b.value, s1.plain + Said(more), buf);
    }
  }

  lemma LineMorePlain(x: Bytes, more: Bytes)
    requires Line(RawNext, Stream([], x), []).0.Ok?
    ensures var (p, t) := Line(RawNext, Stream([], x), []);
            Line(RawNext, Stream([], x + more), []) == (p, Stream([], t.input + more))
  {
    hide Line, RawNext, Words;
    RawLine(Stream([], x), []);
    RawLineMore(Stream([], x), more);
  }

  /**
   So whatever the peer sends, a reply that is read from a sealed connection is the reply that
   an unsealed connection would have read from what the accepted frames open to, and these
   frames are exactly what was consumed.
   */
  lemma DecodeOpens(fl: Floats, max: nat, want: Want, k: Box, st: Stream) returns (ps: seq<Piece>)
    requires Decode(fl, max, want, Reader(Channel(Some(k), max)), st).0.Ok?
    ensures var (g, t) := Decode(fl, max, want, Reader(Channel(Some(k), max)), st);
            && Consumes(k, st, ps, t)
            && Decode(fl, max, want, Reader(Channel(None, max)), Stream([], st.plain + Said(ps)))
               == (g, Stream([], t.plain))
  {
    hide Consumes, Said, SecureTake, Line, Classify;
    ps := LineOpens(k, max, st, []);
    var (p, s1) := Line(SecureReader(k, max), st, []);
    var v := Classify(fl, max, want, p.value);
    if v.NeedBody? {
      var more := TakeOpens(k, max, v.n, s1);
      var (b, t) := SecureTake(k, max, v.n, s1);
      ConsumesOn(k, st, ps, s1, more, t);
      LineMorePlain(st.plain + Said(ps), Said(more));
      var rest := s1.plain + Said(more);
      assert rest[..v.n] == b.value && rest[v.n..] == t.plain;
      ps := ps + more;
    }
  }

  // ---------------------------------------------------------------- forgeries

  /** Bytes in the form of a frame that do not open. */
  predicate Forged(k: Box, max: nat, line: Bytes, c: Bytes) {
    Announces(line, |c|) && 40 <= |c| <= max + MAX_HEADER + 41 && k.open(c[..24], c[24..]) == None
  }

  lemma ForgeryStopsTake(k: Box, max: nat, n: nat, plain: Bytes, line: Bytes, c: Bytes, rest: Bytes)
    requires Forged(k, max, line, c) && n > |plain|
    ensures SecureTake(k, max, n, Stream(plain, line + ['\n'] + (c + rest))).0 == Err(Fail(Protocol))
  {
    hide Fill;
    FillExactly(k, max, plain, line, c, rest);
  }

  lemma {:induction false} ForgeryStopsLine(k: Box, max: nat, plain: Bytes, buf: Bytes,
                                            line: Bytes, c: Bytes, rest: Bytes)
    requires Forged(k, max, line, c) && Free(plain, '\n') && |buf| <= MAX_HEADER
    ensures var st := Stream(plain, line + ['\n'] + (c + rest));
            Line(SecureReader(k, max), st, buf).0 == Err(Fail(Protocol))
    decreases |plain|
  {
    hide Forged, Fill;
    if plain == [] {
      ForgeryStopsTake(k, max, 1, plain, line, c, rest);
    } else if |buf| < MAX_HEADER {
      assert plain[..1] == [plain[0]];
      ForgeryStopsLine(k, max, plain[1..], buf + [plain[0]], line, c, rest);
    }
  }

  /**
   No reply is read past a frame that does not open: while a line is incomplete it ends the
   reading with a protocol error, whatever comes behind it.
   */
  lemma ForgeryIsRefused(fl: Floats, max: nat, want: Want, k: Box, plain: Bytes, line: Bytes, c: Bytes, rest: Bytes)
    requires Forged(k, max, line, c) && Free(plain, '\n')
    ensures var st := Stream(plain, line + ['\n'] + (c + rest));
            Decode(fl, max, want, Reader(Channel(Some(k), max)), st).0 == Err(Fail(Protocol))
  {
    hide Forged;
    ForgeryStopsLine(k, max, plain, [], line, c, rest);
  }
}
