/**
 Record identities (id.go).  A 64-bit float is kept as its IEEE 754 bit pattern, so
 finiteness and sign are computed; printing and parsing floats is strconv's business and
 enters as a pair of functions, `Floats`, with the one law that the driver relies on.
 */
module Ids {
  import opened Errors
  import opened Text
  import opened Decimal

  const TWO_52 := 0x10_0000_0000_0000
  const TWO_63 := 0x8000_0000_0000_0000

  type Float = u64

  predicate Finite(f: Float) {
    f / TWO_52 % 2048 != 2047
  }

  /** f > 0 for a finite f: neither of the zeros, and no sign bit. */
  predicate Positive(f: Float) {
    0 < f < TWO_63
  }

  /** strconv.FormatFloat(f, 'g', -1, 64) and strconv.ParseFloat(s, 64); None is any error. */
  datatype Floats = Floats(format: Float -> Bytes, parse: Bytes -> Option<Float>)

  predicate Plain(s: Bytes) {
    forall i :: 0 <= i < |s| ==> 32 < s[i] as int < 127 && s[i] != ':'
  }

  /** A finite float prints as short text without separators, and that text parses back. */
  ghost predicate Faithful(fl: Floats) {
    forall f: Float :: Finite(f) ==>
      var t := fl.format(f);
      0 < |t| <= 32 && Plain(t) && fl.parse(t) == Some(f)
  }

  datatype ID = ID(parent: u64, epoch: u32, number: u32, twrite: Float, period: Float, head: Float) {
    predicate Valid() {
      Finite(twrite) && Finite(period) && Positive(period) && Finite(head)
    }
  }

  function IdFields(fl: Floats, id: ID): (ps: seq<Bytes>) {
    [Print(id.parent), Print(id.epoch), Print(id.number),
     fl.format(id.twrite), fl.format(id.period), fl.format(id.head)]
  }

  /** ID.String. */
  function IdText(fl: Floats, id: ID): Bytes {
    Join(IdFields(fl, id), ':')
  }

  /** The form used in GETID and QRYID requests: strings.ReplaceAll(id.String(), ":", " "). */
  function WireText(fl: Floats, id: ID): Bytes {
    ReplaceAll(IdText(fl, id), ':', ' ')
  }

  function ParseFields(fl: Floats, p: seq<Bytes>): (r: Result<ID>)
    ensures r.Ok? ==> r.value.Valid()
    ensures r.Err? ==> r.error == Fail(Protocol)
  {
    if |p| != 6 then Err(Fail(Protocol)) else
    var a, b, c := Parse(p[0], TWO_64), Parse(p[1], TWO_32), Parse(p[2], TWO_32);
    var t, period, head := fl.parse(p[3]), fl.parse(p[4]), fl.parse(p[5]);
    if a.Err? || b.Err? || c.Err? || t.None? || period.None? || head.None? then Err(Fail(Protocol)) else
    var id := ID(a.value, b.value, c.value, t.value, period.value, head.value);
    if id.Valid() then Ok(id) else Err(Fail(Protocol))
  }

  /** ParseID. */
  function ParseId(fl: Floats, s: Bytes): (r: Result<ID>) {
    var r := ParseFields(fl, Split(s, ':'));
    if r.Err? then Err(Fail(Input)) else r
  }

  /** These six fields spell this identity. */
  predicate Spells(fl: Floats, p: seq<Bytes>, id: ID) {
    && |p| == 6 && p[0] == Print(id.parent) && p[1] == Print(id.epoch) && p[2] == Print(id.number)
    && fl.parse(p[3]) == Some(id.twrite) && fl.parse(p[4]) == Some(id.period) && fl.parse(p[5]) == Some(id.head)
    && Finite(id.twrite) && Finite(id.period) && 0 < id.period < TWO_63 && Finite(id.head)
  }

  /** What is accepted as an identity: six canonical fields in range, finite floats and a positive period. */
  lemma AcceptedFields(fl: Floats, p: seq<Bytes>, id: ID)
    ensures ParseFields(fl, p) == Ok(id) <==> Spells(fl, p, id)
  {
    hide Canonical, Print;
    if |p| == 6 {
      ParseExactly(p[0], id.parent, TWO_64);
      ParseExactly(p[1], id.epoch, TWO_32);
      ParseExactly(p[2], id.number, TWO_32);
    }
  }

  lemma PrintIsPlain(n: nat)
    ensures Plain(Print(n)) && |Print(n)| > 0
  {
    PrintIsCanonical(n);
  }

  lemma FieldsAreSound(fl: Floats, id: ID)
    requires Faithful(fl) && id.Valid()
    ensures ParseFields(fl, IdFields(fl, id)) == Ok(id)
    ensures forall i :: 0 <= i < 6 ==> Plain(IdFields(fl, id)[i]) && 0 < |IdFields(fl, id)[i]| <= 32
  {
    PrintIsPlain(id.parent);
    PrintIsPlain(id.epoch);
    PrintIsPlain(id.number);
    PrintShort(id.parent);
    PrintShort(id.epoch);
    PrintShort(id.number);
    ParseExactly(Print(id.parent), id.parent, TWO_64);
    ParseExactly(Print(id.epoch), id.epoch, TWO_32);
    ParseExactly(Print(id.number), id.number, TWO_32);
  }

  /** The colon form parses back to the very same identity, bit for bit. */
  lemma ColonRoundTrip(fl: Floats, id: ID)
    requires Faithful(fl) && id.Valid()
    ensures ParseId(fl, IdText(fl, id)) == Ok(id)
  {
    FieldsAreSound(fl, id);
    SplitJoin(IdFields(fl, id), ':');
  }

  /** So does the space-separated form that requests carry. */
  lemma WireRoundTrip(fl: Floats, id: ID)
    requires Faithful(fl) && id.Valid()
    ensures WireText(fl, id) == Join(IdFields(fl, id), ' ')
    ensures Split(WireText(fl, id), ' ') == IdFields(fl, id)
    ensures ParseFields(fl, Split(WireText(fl, id), ' ')) == Ok(id)
  {
    FieldsAreSound(fl, id);
    ReplaceJoin(IdFields(fl, id), ':', ' ');
    SplitJoin(IdFields(fl, id), ' ');
  }

  /** Whatever text was accepted, printing and parsing again changes nothing. */
  lemma ReparseIsStable(fl: Floats, s: Bytes, id: ID)
    requires Faithful(fl) && ParseId(fl, s) == Ok(id)
    ensures id.Valid() && ParseId(fl, IdText(fl, id)) == Ok(id)
  {
    ColonRoundTrip(fl, id);
  }

  /** Both printed forms tell valid identities apart. */
  lemma TextIsInjective(fl: Floats, x: ID, y: ID)
    requires Faithful(fl) && x.Valid() && y.Valid()
    ensures IdText(fl, x) == IdText(fl, y) ==> x == y
    ensures WireText(fl, x) == WireText(fl, y) ==> x == y
  {
    ColonRoundTrip(fl, x);
    ColonRoundTrip(fl, y);
    WireRoundTrip(fl, x);
    WireRoundTrip(fl, y);
  }

  lemma {:induction false} JoinOfPlain(ps: seq<Bytes>)
    requires 0 < |ps|
    requires forall i :: 0 <= i < |ps| ==> Plain(ps[i]) && 0 < |ps[i]| <= 32
    ensures 0 < |Join(ps, ' ')| <= 33 * |ps| - 1
    ensures forall i :: 0 <= i < |Join(ps, ' ')| ==> 32 <= Join(ps, ' ')[i] as int < 127
  {
    if |ps| > 1 {
      JoinOfPlain(ps[1..]);
    }
  }

  lemma WireTextIsPrintable(fl: Floats, id: ID)
    requires Faithful(fl) && id.Valid()
    ensures 0 < |WireText(fl, id)| < 198
    ensures forall i :: 0 <= i < |WireText(fl, id)| ==> 32 <= WireText(fl, id)[i] as int < 127
  {
    FieldsAreSound(fl, id);
    WireRoundTrip(fl, id);
    JoinOfPlain(IdFields(fl, id));
  }

  /** ID.MarshalText. */
  function MarshalText(fl: Floats, id: ID): (r: Result<Bytes>)
    ensures if id.Valid() then r.Ok? else r == Err(Fail(Input))
    ensures Faithful(fl) && r.Ok? ==> ParseId(fl, r.value) == Ok(id)
  {
    if !id.Valid() then Err(Fail(Input)) else
    assert Faithful(fl) ==> ParseId(fl, IdText(fl, id)) == Ok(id) by {
      if Faithful(fl) {
        ColonRoundTrip(fl, id);
      }
    }
    Ok(IdText(fl, id))
  }

  /** A Go variable of type ID, which UnmarshalText overwrites. */
  class Cell {
    var id: ID

    constructor (id: ID)
      ensures this.id == id
    {
      this.id := id;
    }

    /** Stores the parsed identity; an unusable text leaves the variable as it was. */
    method UnmarshalText(fl: Floats, b: Bytes) returns (e: Option<Error>)
      modifies this
      ensures e.None? <==> ParseId(fl, b).Ok?
      ensures id == if e.None? then ParseId(fl, b).value else old(id)
      ensures e.Some? ==> e.value == Fail(Input)
      ensures Faithful(fl) ==> forall x: ID :: x.Valid() && MarshalText(fl, x) == Ok(b) ==> e.None? && id == x
    {
      if Faithful(fl) {
        forall x: ID | x.Valid() && MarshalText(fl, x) == Ok(b) ensures ParseId(fl, b) == Ok(x) {
          ColonRoundTrip(fl, x);
        }
      }
      var n := ParseId(fl, b);
      match n
      case Ok(v) =>
        id := v;
        e := None;
      case Err(x) =>
        e := Some(x);
    }
  }
}
