/**
 Canonical decimals (id.go): how the driver prints and accepts every number on the wire.
 */
module Decimal {
  import opened Errors
  import opened Text

  const TWO_32 := 0x1_0000_0000
  const TWO_64 := 0x1_0000_0000_0000_0000

  type u32 = n: nat | n < TWO_32
  type u64 = n: nat | n < TWO_64

  /** First value that does not fit in `bits` bits, for the two widths the driver uses. */
  function Limit(bits: nat): nat
    requires bits == 32 || bits == 64
  {
    if bits == 32 then TWO_32 else TWO_64
  }

  predicate IsDigit(b: byte) {
    '0' <= b <= '9'
  }

  function Digit(d: nat): byte
    requires d < 10
  {
    '0' + d as char
  }

  /** fmt's %d of a non-negative number. */
  function Print(n: nat): Bytes {
    if n < 10 then [Digit(n)] else Print(n / 10) + [Digit(n % 10)]
  }

  predicate Digits(s: Bytes) {
    forall i :: 0 <= i < |s| ==> IsDigit(s[i])
  }

  /** What strconv.ParseUint(s, 10, _) computes before it checks the width. */
  function Value(s: Bytes): nat
    requires Digits(s)
  {
    if s == [] then 0 else 10 * Value(s[..|s| - 1]) + (s[|s| - 1] - '0') as nat
  }

  predicate Canonical(s: Bytes) {
    s != [] && Digits(s) && (|s| > 1 ==> s[0] != '0')
  }

  lemma {:induction false} PrintIsCanonical(n: nat)
    ensures Canonical(Print(n)) && Value(Print(n)) == n
    ensures n > 0 ==> Print(n)[0] != '0'
  {
    if n < 10 {
      assert Value([]) == 0;
      assert [Digit(n)][..0] == [];
    } else {
      PrintIsCanonical(n / 10);
      var s := Print(n / 10);
      assert (s + [Digit(n % 10)])[..|s|] == s;
    }
  }

  lemma {:induction false} LeadingDigit(s: Bytes)
    requires Canonical(s) && s[0] != '0'
    ensures Value(s) > 0
  {
    if |s| == 1 {
      assert s[..0] == [];
    } else {
      LeadingDigit(s[..|s| - 1]);
    }
  }

  lemma {:induction false} CanonicalIsPrint(s: Bytes)
    requires Canonical(s)
    ensures Print(Value(s)) == s
  {
    var front, d := s[..|s| - 1], (s[|s| - 1] - '0') as nat;
    assert s == front + [Digit(d)];
    if |s| == 1 {
      assert front == [];
    } else {
      LeadingDigit(front);
      CanonicalIsPrint(front);
      assert Value(s) == 10 * Value(front) + d;
      assert Value(s) / 10 == Value(front) && Value(s) % 10 == d;
    }
  }

  /** Exactly the canonical decimals below the limit are numbers. */
  function Parse(s: Bytes, limit: nat): (r: Result<nat>)
    ensures r.Ok? <==> Canonical(s) && Value(s) < limit
    ensures r.Ok? ==> r.value < limit && s == Print(r.value)
    ensures r.Err? ==> r.error == Fail(Protocol)
  {
    if Canonical(s) && Value(s) < limit then CanonicalIsPrint(s); Ok(Value(s)) else Err(Fail(Protocol))
  }

  /** Parsing and printing are mutual inverses on the numbers that fit. */
  lemma ParseExactly(s: Bytes, n: nat, limit: nat)
    ensures Parse(s, limit) == Ok(n) <==> n < limit && s == Print(n)
  {
    PrintIsCanonical(n);
  }

  lemma ParsePrinted(n: nat, limit: nat)
    ensures Parse(Print(n), limit) == if n < limit then Ok(n) else Err(Fail(Protocol))
  {
    PrintIsCanonical(n);
  }

  /** id.go's uintField: empty and zero-led texts, then non-digits, then the width. */
  method UintField(s: Bytes, bits: nat) returns (r: Result<nat>)
    requires bits == 32 || bits == 64
    ensures r == Parse(s, Limit(bits))
    ensures forall n: nat :: r == Ok(n) <==> n < Limit(bits) && s == Print(n)
  {
    forall n: nat ensures Parse(s, Limit(bits)) == Ok(n) <==> n < Limit(bits) && s == Print(n) {
      ParseExactly(s, n, Limit(bits));
    }
    if s == [] || (|s| > 1 && s[0] == '0') {
      return Err(Fail(Protocol));
    }
    for i := 0 to |s|
      invariant Digits(s[..i])
    {
      if s[i] < '0' || s[i] > '9' {
        return Err(Fail(Protocol));
      }
    }
    assert s[..|s|] == s;
    if Value(s) >= Limit(bits) {
      return Err(Fail(Protocol));
    }
    return Ok(Value(s));
  }

  /** id.go's bounded: the canonical decimals of 0..max, for a max that is a Go int. */
  method Bounded(s: Bytes, max: nat) returns (r: Result<nat>)
    requires max < TWO_64
    ensures r == Parse(s, max + 1)
    ensures forall n: nat :: r == Ok(n) <==> n <= max && s == Print(n)
  {
    forall n: nat ensures Parse(s, max + 1) == Ok(n) <==> n <= max && s == Print(n) {
      ParseExactly(s, n, max + 1);
    }
    var u := UintField(s, 64);
    if u.Err? || u.value > max {
      return Err(Fail(Protocol));
    }
    return Ok(u.value);
  }

  lemma {:induction false} PrintLength(n: nat, limit: nat, k: nat)
    requires k > 0 && n < limit <= Power10(k)
    ensures |Print(n)| <= k
    decreases k
  {
    if n >= 10 {
      PrintLength(n / 10, Power10(k - 1), k - 1);
    }
  }

  function Power10(k: nat): nat {
    if k == 0 then 1 else 10 * Power10(k - 1)
  }

  lemma PrintShort(n: nat)
    requires n < TWO_64
    ensures |Print(n)| <= 20
    ensures n < TWO_32 ==> |Print(n)| <= 10
  {
    assert Power10(5) == 100000;
    assert Power10(10) == 10000000000;
    assert Power10(15) == 1000000000000000;
    assert Power10(20) == 100000000000000000000;
    PrintLength(n, TWO_64, 20);
    if n < TWO_32 {
      PrintLength(n, TWO_32, 10);
    }
  }
}
