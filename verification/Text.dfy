/**
 Byte strings as the driver handles them: Go's `string` and `[]byte` are both sequences of
 8-bit values, written here as characters below 256.  The module holds the few operations of
 Go's `strings` package that the wire format rests on, and what makes splitting and joining
 inverse to each other.
 */
module Text {

  type byte = c: char | c as int < 256

  type Bytes = seq<byte>

  /** Position of the first `c` in `s`, or |s| when there is none. */
  function IndexOf(s: Bytes, c: byte): (k: nat)
    ensures k <= |s|
    ensures k < |s| ==> s[k] == c
    ensures forall i :: 0 <= i < k ==> s[i] != c
  {
    if s == [] || s[0] == c then 0 else 1 + IndexOf(s[1..], c)
  }

  predicate Free(s: Bytes, c: byte) {
    forall i :: 0 <= i < |s| ==> s[i] != c
  }

  /** strings.Split on a one-byte separator: never empty, empty pieces kept. */
  function Split(s: Bytes, c: byte): (ps: seq<Bytes>)
    ensures |ps| > 0
    decreases |s|
  {
    var k := IndexOf(s, c);
    if k == |s| then [s] else [s[..k]] + Split(s[k + 1..], c)
  }

  /** strings.Join with a one-byte separator. */
  function Join(ps: seq<Bytes>, c: byte): Bytes
    requires |ps| > 0
  {
    if |ps| == 1 then ps[0] else ps[0] + [c] + Join(ps[1..], c)
  }

  /** strings.ReplaceAll on one-byte patterns. */
  function ReplaceAll(s: Bytes, a: byte, b: byte): (r: Bytes) {
    if s == [] then [] else [if s[0] == a then b else s[0]] + ReplaceAll(s[1..], a, b)
  }

  lemma {:induction false} IndexOfFirst(a: Bytes, c: byte, b: Bytes)
    requires Free(a, c)
    ensures IndexOf(a + [c] + b, c) == |a|
  {
    if a != [] {
      assert (a + [c] + b)[1..] == a[1..] + [c] + b;
      IndexOfFirst(a[1..], c, b);
    }
  }

  lemma IndexOfNone(s: Bytes, c: byte)
    requires Free(s, c)
    ensures IndexOf(s, c) == |s|
  {
  }

  lemma {:induction false} JoinSplit(s: Bytes, c: byte)
    ensures Join(Split(s, c), c) == s
    ensures forall i :: 0 <= i < |Split(s, c)| ==> Free(Split(s, c)[i], c)
    decreases |s|
  {
    var k := IndexOf(s, c);
    if k < |s| {
      JoinSplit(s[k + 1..], c);
      assert s == s[..k] + [c] + s[k + 1..];
      assert Split(s, c)[1..] == Split(s[k + 1..], c);
    }
  }

  lemma SplitFree(s: Bytes, c: byte)
    requires Free(s, c)
    ensures Split(s, c) == [s]
  {
    IndexOfNone(s, c);
  }

  lemma SplitCons(p: Bytes, c: byte, s: Bytes)
    requires Free(p, c)
    ensures Split(p + [c] + s, c) == [p] + Split(s, c)
  {
    IndexOfFirst(p, c, s);
    var t := p + [c] + s;
    assert t[..|p|] == p && t[|p| + 1..] == s;
  }

  lemma {:induction false} SplitJoin(ps: seq<Bytes>, c: byte)
    requires |ps| > 0
    requires forall i :: 0 <= i < |ps| ==> Free(ps[i], c)
    ensures Split(Join(ps, c), c) == ps
  {
    if |ps| == 1 {
      SplitFree(ps[0], c);
    } else {
      SplitCons(ps[0], c, Join(ps[1..], c));
      SplitJoin(ps[1..], c);
    }
  }

  lemma {:induction false} ReplaceInConcat(s: Bytes, t: Bytes, a: byte, b: byte)
    ensures ReplaceAll(s + t, a, b) == ReplaceAll(s, a, b) + ReplaceAll(t, a, b)
  {
    if s == [] {
      assert s + t == t;
    } else {
      assert (s + t)[1..] == s[1..] + t;
      ReplaceInConcat(s[1..], t, a, b);
    }
  }

  lemma {:induction false} ReplaceFree(s: Bytes, a: byte, b: byte)
    requires Free(s, a)
    ensures ReplaceAll(s, a, b) == s
  {
    if s != [] {
      ReplaceFree(s[1..], a, b);
    }
  }

  /** Changing the separator of a joined text is joining with the other separator. */
  lemma {:induction false} ReplaceJoin(ps: seq<Bytes>, a: byte, b: byte)
    requires |ps| > 0
    requires forall i :: 0 <= i < |ps| ==> Free(ps[i], a)
    ensures ReplaceAll(Join(ps, a), a, b) == Join(ps, b)
  {
    ReplaceFree(ps[0], a, b);
    if |ps| > 1 {
      ReplaceInConcat(ps[0] + [a], Join(ps[1..], a), a, b);
      ReplaceInConcat(ps[0], [a], a, b);
      ReplaceJoin(ps[1..], a, b);
    }
  }
}
