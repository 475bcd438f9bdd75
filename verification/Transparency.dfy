/**
 Reading through SEC frames is reading the plain stream, for any sequence of reads and any
 way of cutting the stream into frames.
 */
module Transparency {
  import opened Errors
  import opened Text
  import opened Streams

  datatype Ask = AskLine | AskBytes(n: nat)

  datatype Reading = Fields(p: seq<Bytes>) | Data(b: Bytes) | Failed(e: Error)

  function One<S>(src: Source<S>, ask: Ask, s: S): (Reading, S) {
    match ask
    case AskLine =>
      var (p, t) := src.line(s);
      (if p.Ok? then Fields(p.value) else Failed(p.error), t)
    case AskBytes(n) =>
      var (b, t) := src.take(n, s);
      (if b.Ok? then Data(b.value) else Failed(b.error), t)
  }

  /** A sequence of header and bytes calls, up to the first that fails. */
  function Serve<S>(src: Source<S>, asks: seq<Ask>, s: S): (r: (seq<Reading>, S))
    ensures |r.0| <= |asks|
  {
    if asks == [] then ([], s) else
    var (a, t) := One(src, asks[0], s);
    if a.Failed? then ([a], t) else
    var (rest, u) := Serve(src, asks[1..], t);
    ([a] + rest, u)
  }

  /** Equal answers, or equal up to an excused failure that ends the first run. */
  ghost predicate RunsAgree<S, T>(x: (seq<Reading>, S), y: (seq<Reading>, T), excused: (Error, S) -> bool) {
    || x.0 == y.0
    || (var n := |x.0|; n > 0 && x.0[n - 1].Failed? && excused(x.0[n - 1].e, x.1) && x.0[..n - 1] <= y.0)
  }

  lemma {:induction false} ServesAgree<S(!new), T(!new)>(
      a: Source<S>, b: Source<T>, R: (S, T) -> bool, excused: (Error, S) -> bool, asks: seq<Ask>, s: S, t: T)
    requires Simulates(a, b, R, excused) && R(s, t)
    ensures RunsAgree(Serve(a, asks, s), Serve(b, asks, t), excused)
  {
    if asks != [] {
      match asks[0] {
        case AskLine => assert Agree(a.line(s), b.line(t), R, excused);
        case AskBytes(n) => assert Agree(a.take(n, s), b.take(n, t), R, excused);
      }
      var (x, s') := One(a, asks[0], s);
      var (y, t') := One(b, asks[0], t);
      if x.Failed? {
      } else {
        ServesAgree(a, b, R, excused, asks[1..], s', t');
        var xs, ys := Serve(a, asks[1..], s'), Serve(b, asks[1..], t');
        var n := |xs.0|;
        if xs.0 != ys.0 {
          assert ([x] + xs.0)[..n] == [x] + xs.0[..n - 1];
        }
      }
    }
  }

  /** The secure connection answers as the reader of whole frames does. */
  lemma SecureIsFramed(k: Box, max: nat, asks: seq<Ask>, plain: Bytes, fs: seq<Frame>)
    requires Sound(k) && max <= MAX_FRAME && ProperNonces(fs)
    ensures Serve(Reader(Channel(Some(k), max)), asks, Stream(plain, Encode(k, fs))).0
         == Serve(Frames(max), asks, Cut(plain, fs, false)).0
  {
    var st, c := Stream(plain, Encode(k, fs)), Cut(plain, fs, false);
    assert Encode(k, fs) + [] == Encode(k, fs);
    WireSimulatesFrames(k, max, []);
    ServesAgree(Reader(Channel(Some(k), max)), Frames(max), Alike(k, []), CutShort([]), asks, st, c);
  }

  /**
   Transparency.  The secure connection answers every sequence of reads as the plain stream
   would, unless a frame is refused for its size; then it has answered like the plain stream
   so far and ends with the protocol error.
   */
  lemma SecureIsTransparent(k: Box, max: nat, asks: seq<Ask>, plain: Bytes, fs: seq<Frame>)
    requires Sound(k) && max <= MAX_FRAME && ProperNonces(fs)
    ensures var secure := Serve(Reader(Channel(Some(k), max)), asks, Stream(plain, Encode(k, fs))).0;
            var open := Serve(Reader(Channel(None, max)), asks, Stream([], plain + Texts(fs))).0;
            || secure == open
            || (&& Serve(Frames(max), asks, Cut(plain, fs, false)).1.refused
                && |secure| > 0 && secure[|secure| - 1] == Failed(Fail(Protocol))
                && secure[..|secure| - 1] <= open)
  {
    var c := Cut(plain, fs, false);
    SecureIsFramed(k, max, asks, plain, fs);
    FramesSimulatePlain(max);
    ServesAgree(Frames(max), Reader(Channel(None, max)), SameStream, WasRefused, asks, c,
        Stream([], plain + Texts(fs)));
  }

  // ---------------------------------------------------------------- when nothing is refused

  function Min(a: int, b: int): int {
    if a < b then a else b
  }

  /** Bytes that come before the i-th frame. */
  function Ahead(c: Cut, i: nat): nat
    requires i <= |c.frames|
  {
    |c.plain| + |Texts(c.frames[..i])|
  }

  /**
   The i-th frame can be appended whenever a request of at most m bytes makes it necessary:
   then fewer than m bytes are waiting, and no more than come before the frame.
   */
  predicate FrameFits(max: nat, m: nat, c: Cut, i: nat)
    requires i < |c.frames|
  {
    Min(m - 1, Ahead(c, i)) + |c.frames[i].text| <= Cap(max)
  }

  predicate Roomy(max: nat, m: nat, c: Cut) {
    !c.refused && forall i :: 0 <= i < |c.frames| ==> FrameFits(max, m, c, i)
  }

  /** The reader after it has appended the first frame. */
  function Pull(c: Cut): Cut
    requires c.frames != []
  {
    c.(plain := c.plain + c.frames[0].text, frames := c.frames[1..])
  }

  lemma PullKeepsAhead(c: Cut, i: nat)
    requires i < |c.frames|
    ensures Ahead(Pull(c), i) == Ahead(c, i + 1) && Pull(c).frames[..i] == c.frames[1..i + 1]
    ensures Ahead(c, i) <= Ahead(c, i + 1) && Ahead(c, 0) == |c.plain|
  {
    assert c.frames[..i + 1][1..] == Pull(c).frames[..i];
    EncodedPrefix(c.frames, i);
  }

  lemma {:induction false} EncodedPrefix(fs: seq<Frame>, i: nat)
    requires i < |fs|
    ensures |Texts(fs[..i + 1])| == |Texts(fs[..i])| + |fs[i].text|
  {
    if i > 0 {
      EncodedPrefix(fs[1..], i - 1);
      assert fs[..i + 1][1..] == fs[1..][..i] && fs[..i][1..] == fs[1..][..i - 1];
    }
  }

  lemma PullStaysRoomy(max: nat, m: nat, c: Cut)
    requires Roomy(max, m, c) && c.frames != []
    ensures Roomy(max, m, Pull(c))
  {
    forall i | 0 <= i < |Pull(c).frames| ensures FrameFits(max, m, Pull(c), i) {
      PullKeepsAhead(c, i);
      assert FrameFits(max, m, c, i + 1);
    }
  }

  lemma {:induction false} TakeStaysRoomy(max: nat, m: nat, n: nat, c: Cut)
    requires Roomy(max, m, c) && n <= m
    ensures Roomy(max, m, CutTake(max, n, c).1)
    decreases |c.frames|
  {
    if n <= |c.plain| {
      forall i | 0 <= i < |c.frames| ensures FrameFits(max, m, c.(plain := c.plain[n..]), i) {
        assert FrameFits(max, m, c, i);
      }
    } else if c.frames != [] {
      assert FrameFits(max, m, c, 0) && c.frames[..0] == [];
      PullStaysRoomy(max, m, c);
      TakeStaysRoomy(max, m, n, Pull(c));
    }
  }

  lemma {:induction false} LineStaysRoomy(max: nat, m: nat, c: Cut, buf: Bytes)
    requires Roomy(max, m, c) && 1 <= m && |buf| <= MAX_HEADER
    ensures Roomy(max, m, Line(d => CutNext(max, d), c, buf).1)
    decreases MAX_HEADER + 1 - |buf|
  {
    TakeStaysRoomy(max, m, 1, c);
    var (b, d) := CutNext(max, c);
    if b.Ok? && b.value != '\n' && |buf| < MAX_HEADER {
      LineStaysRoomy(max, m, d, buf + [b.value]);
    }
  }

  predicate AsksUpTo(m: nat, asks: seq<Ask>) {
    forall i :: 0 <= i < |asks| && asks[i].AskBytes? ==> asks[i].n <= m
  }

  lemma {:induction false} ServeStaysRoomy(max: nat, m: nat, asks: seq<Ask>, c: Cut)
    requires Roomy(max, m, c) && 1 <= m && AsksUpTo(m, asks)
    ensures Roomy(max, m, Serve(Frames(max), asks, c).1)
  {
    hide Roomy;
    if asks != [] {
      match asks[0] {
        case AskLine => LineStaysRoomy(max, m, c, []);
        case AskBytes(n) => TakeStaysRoomy(max, m, n, c);
      }
      var (a, d) := One(Frames(max), asks[0], c);
      if !a.Failed? {
        ServeStaysRoomy(max, m, asks[1..], d);
      }
    }
  }

  // ---------------------------------------------------------------- when something is

  /** All frames before the i-th can be appended. */
  predicate RoomyBelow(max: nat, m: nat, c: Cut, i: nat)
    requires i <= |c.frames|
  {
    !c.refused && forall j :: 0 <= j < i ==> FrameFits(max, m, c, j)
  }

  lemma PullStaysRoomyBelow(max: nat, m: nat, c: Cut, i: nat)
    requires 0 < i <= |c.frames| && RoomyBelow(max, m, c, i)
    ensures RoomyBelow(max, m, Pull(c), i - 1) && Ahead(Pull(c), i - 1) == Ahead(c, i)
  {
    PullKeepsAhead(c, i - 1);
    forall j | 0 <= j < i - 1 ensures FrameFits(max, m, Pull(c), j) {
      PullKeepsAhead(c, j);
      assert FrameFits(max, m, c, j + 1);
    }
  }

  /** Asking for what lies before the i-th frame succeeds and leaves that much less before it. */
  lemma {:induction false} TakeBefore(max: nat, m: nat, n: nat, c: Cut, i: nat) returns (k: nat)
    requires i < |c.frames| && RoomyBelow(max, m, c, i) && n <= m && n <= Ahead(c, i)
    ensures var (r, d) := CutTake(max, n, c);
            && k <= i && r.Ok? && d.frames == c.frames[k..]
            && Ahead(d, i - k) == Ahead(c, i) - n && RoomyBelow(max, m, d, i - k)
    decreases i
  {
    if n <= |c.plain| {
      k := 0;
      forall j | 0 <= j < i ensures FrameFits(max, m, c.(plain := c.plain[n..]), j) {
        assert FrameFits(max, m, c, j);
      }
    } else {
      assert c.frames[..0] == [];
      assert i > 0 && FrameFits(max, m, c, 0);
      PullStaysRoomyBelow(max, m, c, i);
      k := TakeBefore(max, m, n, Pull(c), i - 1);
      assert c.frames[1..][k..] == c.frames[k + 1..];
      k := k + 1;
    }
  }

  /** Asking for more than that reaches the i-th frame, which is refused if it does not fit. */
  lemma {:induction false} TakeReaches(max: nat, m: nat, c: Cut, i: nat)
    requires i < |c.frames| && RoomyBelow(max, m, c, i) && Ahead(c, i) < m && !FrameFits(max, m, c, i)
    ensures var (r, d) := CutTake(max, m, c); r == Err(Fail(Protocol)) && d.refused
    decreases i
  {
    assert c.frames[..0] == [];
    if i > 0 {
      assert FrameFits(max, m, c, 0);
      PullKeepsAhead(c, i - 1);
      PullStaysRoomyBelow(max, m, c, i);
      TakeReaches(max, m, Pull(c), i - 1);
    }
  }

  predicate OnlyBytes(asks: seq<Ask>) {
    forall i :: 0 <= i < |asks| ==> asks[i].AskBytes?
  }

  lemma ServeBytes(max: nat, n: nat, rest: seq<Ask>, c: Cut)
    ensures var (r, d) := CutTake(max, n, c);
            Serve(Frames(max), [AskBytes(n)] + rest, c).0
              == if r.Ok? then [Data(r.value)] + Serve(Frames(max), rest, d).0 else [Failed(r.error)]
  {
    assert ([AskBytes(n)] + rest)[1..] == rest;
  }

  /** If some frame does not fit, these requests meet it when it is too late. */
  lemma {:induction false} Overflow(max: nat, m: nat, c: Cut, i: nat) returns (asks: seq<Ask>)
    requires 1 <= m && i < |c.frames| && RoomyBelow(max, m, c, i) && !FrameFits(max, m, c, i)
    ensures AsksUpTo(m, asks) && OnlyBytes(asks)
    ensures Failed(Fail(Protocol)) in Serve(Frames(max), asks, c).0
    decreases Ahead(c, i)
  {
    hide RoomyBelow, FrameFits, Frames, Serve, CutTake, Ahead;
    if Ahead(c, i) < m {
      TakeReaches(max, m, c, i);
      asks := [AskBytes(m)] + [];
      ServeBytes(max, m, [], c);
    } else {
      var k := TakeBefore(max, m, 1, c, i);
      var d := CutTake(max, 1, c).1;
      assert d.frames[i - k] == c.frames[i];
      MisfitStays(max, m, c, i, d, i - k);
      var rest := Overflow(max, m, d, i - k);
      asks := [AskBytes(1)] + rest;
      ServeBytes(max, 1, rest, c);
    }
  }

  lemma MisfitStays(max: nat, m: nat, c: Cut, i: nat, d: Cut, j: nat)
    requires i < |c.frames| && j < |d.frames| && c.frames[i] == d.frames[j]
    requires m <= Ahead(c, i) == Ahead(d, j) + 1 && !FrameFits(max, m, c, i)
    ensures !FrameFits(max, m, d, j)
  {
  }

  lemma {:induction false} PlainBytesKeepProtocol(max: nat, asks: seq<Ask>, st: Stream)
    requires OnlyBytes(asks)
    ensures Failed(Fail(Protocol)) !in Serve(Reader(Channel(None, max)), asks, st).0
  {
    if asks != [] {
      var (a, t) := One(Reader(Channel(None, max)), asks[0], st);
      PlainBytesKeepProtocol(max, asks[1..], t);
    }
  }

  // ---------------------------------------------------------------- exactly when

  /** The secure connection answers these reads as the plain stream would. */
  predicate SameAnswers(k: Box, max: nat, fs: seq<Frame>, asks: seq<Ask>) {
    Serve(Reader(Channel(Some(k), max)), asks, Stream([], Encode(k, fs))).0
      == Serve(Reader(Channel(None, max)), asks, Stream([], Texts(fs))).0
  }

  /** No frame is longer than what the cap leaves beside up to m - 1 bytes of the frames before it. */
  predicate FramesFit(max: nat, m: nat, fs: seq<Frame>) {
    forall i :: 0 <= i < |fs| ==> Min(m - 1, |Texts(fs[..i])|) + |fs[i].text| <= Cap(max)
  }

  lemma FitMeansRoomy(max: nat, m: nat, fs: seq<Frame>)
    ensures FramesFit(max, m, fs) <==> Roomy(max, m, Cut([], fs, false))
  {
    var c := Cut([], fs, false);
    assert forall i :: 0 <= i < |fs| ==> Ahead(c, i) == |Texts(fs[..i])|;
    assert forall i :: 0 <= i < |fs| ==>
      (FrameFits(max, m, c, i) <==> Min(m - 1, |Texts(fs[..i])|) + |fs[i].text| <= Cap(max));
  }

  /** If every frame fits, no sequence of reads of up to m bytes tells the two apart. */
  lemma FittingIsTransparent(k: Box, max: nat, m: nat, fs: seq<Frame>, asks: seq<Ask>)
    requires Sound(k) && 1 <= m && max <= MAX_FRAME && ProperNonces(fs) && AsksUpTo(m, asks) && FramesFit(max, m, fs)
    ensures SameAnswers(k, max, fs, asks)
  {
    FitMeansRoomy(max, m, fs);
    SecureIsTransparent(k, max, asks, [], fs);
    assert [] + Texts(fs) == Texts(fs);
    ServeStaysRoomy(max, m, asks, Cut([], fs, false));
  }

  lemma {:induction false} FirstMisfit(max: nat, m: nat, c: Cut, n: nat) returns (i: nat)
    requires n <= |c.frames| && !RoomyBelow(max, m, c, n) && !c.refused
    ensures i < n && RoomyBelow(max, m, c, i) && !FrameFits(max, m, c, i)
  {
    if RoomyBelow(max, m, c, n - 1) {
      i := n - 1;
    } else {
      i := FirstMisfit(max, m, c, n - 1);
    }
  }

  /** And if some frame does not, there are such reads that do. */
  lemma MisfitShows(k: Box, max: nat, m: nat, fs: seq<Frame>) returns (asks: seq<Ask>)
    requires Sound(k) && 1 <= m && max <= MAX_FRAME && ProperNonces(fs) && !FramesFit(max, m, fs)
    ensures AsksUpTo(m, asks) && !SameAnswers(k, max, fs, asks)
  {
    hide Roomy, RoomyBelow, FrameFits, FramesFit;
    var c := Cut([], fs, false);
    FitMeansRoomy(max, m, fs);
    var i := FirstMisfit(max, m, c, |fs|) by {
      RoomyBelowAll(max, m, c);
    }
    asks := Overflow(max, m, c, i);
    SecureIsFramed(k, max, asks, [], fs);
    PlainBytesKeepProtocol(max, asks, Stream([], Texts(fs)));
  }

  lemma RoomyBelowAll(max: nat, m: nat, c: Cut)
    ensures Roomy(max, m, c) <==> RoomyBelow(max, m, c, |c.frames|)
  {
  }

  /** The exact condition: a way of cutting is transparent to all reads of up to m bytes iff every frame fits. */
  lemma TransparentIff(k: Box, max: nat, m: nat, fs: seq<Frame>)
    requires Sound(k) && 1 <= m && max <= MAX_FRAME && ProperNonces(fs)
    ensures (forall asks: seq<Ask> :: AsksUpTo(m, asks) ==> SameAnswers(k, max, fs, asks)) <==> FramesFit(max, m, fs)
  {
    hide FramesFit, SameAnswers, AsksUpTo;
    if FramesFit(max, m, fs) {
      forall asks: seq<Ask> | AsksUpTo(m, asks) ensures SameAnswers(k, max, fs, asks) {
        FittingIsTransparent(k, max, m, fs, asks);
      }
    } else {
      var asks := MisfitShows(k, max, m, fs);
    }
  }

  /** A maximal frame behind a single byte: refused on an encrypted connection, read on a plain one. */
  lemma PipelinedFramesAreRefused(k: Box, fs: seq<Frame>)
    requires Sound(k) && ProperNonces(fs) && |fs| == 2 && |fs[0].text| == 1 && |fs[1].text| == Cap(2)
    ensures Serve(Reader(Channel(Some(k), 2)), [AskBytes(2)], Stream([], Encode(k, fs))).0 == [Failed(Fail(Protocol))]
    ensures Serve(Reader(Channel(None, 2)), [AskBytes(2)], Stream([], Texts(fs))).0
         == [Data(fs[0].text + fs[1].text[..1])]
    ensures !FramesFit(2, 2, fs)
  {
    assert fs[..1] == [fs[0]] && Texts([fs[0]]) == fs[0].text by { assert Texts([fs[0]][1..]) == []; }
    SecureIsFramed(k, 2, [AskBytes(2)], [], fs);
    var c := Cut([], fs, false);
    assert CutTake(2, 2, c) == CutTake(2, 2, Pull(c));
    assert fs[1..][0] == fs[1];
    assert Texts(fs) == fs[0].text + Texts(fs[1..]) && Texts(fs[1..]) == fs[1].text + Texts(fs[1..][1..]);
    assert Texts(fs)[..2] == fs[0].text + fs[1].text[..1] by {
      assert Texts(fs[1..])[..1] == fs[1].text[..1];
    }
  }

  lemma {:induction false} TextsAhead(fs: seq<Frame>, i: nat)
    requires i < |fs|
    ensures |Texts(fs[..i])| + |fs[i].text| <= |Texts(fs)|
  {
    if i > 0 {
      TextsAhead(fs[1..], i - 1);
      assert fs[..i][1..] == fs[1..][..i - 1];
    }
  }

  /** A stream that fits in the buffer as a whole fits however it is cut. */
  lemma SmallFits(max: nat, m: nat, fs: seq<Frame>)
    requires |Texts(fs)| <= Cap(max)
    ensures FramesFit(max, m, fs)
  {
    forall i | 0 <= i < |fs| ensures Min(m - 1, |Texts(fs[..i])|) + |fs[i].text| <= Cap(max) {
      TextsAhead(fs, i);
    }
  }

  /**
   Two kinds of peers are never refused: one whose pending stream is no longer than one
   maximal reply, however it is cut; and one that keeps every frame within MAX_HEADER + 2
   bytes, however long the stream.
   */
  lemma NeverRefused(k: Box, max: nat, asks: seq<Ask>, fs: seq<Frame>)
    requires Sound(k) && 1 <= max <= MAX_FRAME && ProperNonces(fs) && AsksUpTo(max, asks)
    requires |Texts(fs)| <= Cap(max) || forall i :: 0 <= i < |fs| ==> |fs[i].text| <= MAX_HEADER + 2
    ensures SameAnswers(k, max, fs, asks)
  {
    if |Texts(fs)| <= Cap(max) {
      SmallFits(max, max, fs);
    }
    FittingIsTransparent(k, max, max, fs, asks);
  }
}
