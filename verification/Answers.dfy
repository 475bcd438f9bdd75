/**
 What a server can say, written in the wire format, and what each answer means to each reader:
 a reference for the reply closures of client.go that is stated without their control flow.
 */
module Answers {
  import opened Errors
  import opened Text
  import opened Decimal
  import opened Ids
  import opened Streams
  import opened Replies

  datatype Answer =
    | Inserted(id: ID)
    | Missing
    | Gone
    | Moved(to: ID, node: Option<nat>)
    | Value(owner: nat, data: Bytes, codec: Bytes)
    | Healthy(at: nat, rest: seq<Bytes>)
    | Refused(why: seq<Bytes>)

  function NodeField(node: nat): Bytes {
    "node=" + Print(node)
  }

  /** The words of an answer's line. */
  function Spelled(fl: Floats, a: Answer): (ps: seq<Bytes>)
    ensures |ps| > 0
  {
    match a
    case Inserted(id) => ["ID"] + IdFields(fl, id)
    case Missing => ["MISS"]
    case Gone => ["GONE"]
    case Moved(to, node) => ["FWD"] + IdFields(fl, to) + (if node.Some? then [Print(node.value)] else [])
    case Value(owner, data, codec) => ["VAL", Print(owner), Print(|data|), codec]
    case Healthy(node, rest) => ["OK", NodeField(node)] + rest
    case Refused(why) => ["ERR"] + why
  }

  /** The answer as it is sent. */
  function Written(fl: Floats, a: Answer): Reply {
    Reply(Join(Spelled(fl, a), ' '), if a.Value? then a.data else [])
  }

  predicate AreWords(ps: seq<Bytes>) {
    forall i :: 0 <= i < |ps| ==> Plain(ps[i]) && ps[i] != []
  }

  /** Answers within the wire format. */
  predicate Sayable(fl: Floats, a: Answer) {
    && |Join(Spelled(fl, a), ' ')| <= MAX_HEADER
    && (a.Inserted? ==> a.id.Valid())
    && (a.Moved? ==> a.to.Valid())
    && (a.Value? ==> ValidCodec(a.codec))
    && (a.Healthy? ==> AreWords(a.rest))
    && (a.Refused? ==> AreWords(a.why))
  }

  /** What an answer means to a reader; an answer to some other question is a protocol error. */
  function Meaning(max: nat, want: Want, a: Answer): Result<Got> {
    if a.Refused? then Err(Fail(Server)) else
    match (want, a)
    case (WantId, Inserted(id)) => Ok(Identity(id))
    case (WantStatus(peers), Healthy(node, rest)) =>
      if node < peers then Ok(Status(Join([NodeField(node)] + rest, ' '))) else Err(Fail(Protocol))
    case (WantRecord(_, _), Missing) => Ok(Absent)
    case (WantRecord(_, _), Gone) => Ok(Absent)
    case (WantRecord(peers, last), Moved(to, node)) =>
      if last || (node.Some? && node.value >= peers) then Err(Fail(Protocol)) else Ok(Forward(to, node))
    case (WantRecord(peers, _), Value(owner, data, codec)) =>
      if owner < peers && |data| <= max then Ok(Record(Payload(data, codec))) else Err(Fail(Protocol))
    case _ => Err(Fail(Protocol))
  }

  lemma {:induction false} JoinedIsPrintable(ps: seq<Bytes>)
    requires |ps| > 0 && AreWords(ps)
    ensures Printable(Join(ps, ' ')) && Join(ps, ' ') != []
    ensures forall i :: 0 <= i < |ps| ==> Free(ps[i], ' ')
  {
    if |ps| > 1 {
      JoinedIsPrintable(ps[1..]);
      assert forall i :: 1 <= i < |ps| ==> ps[i] == ps[1..][i - 1];
    }
  }

  lemma JoinedIsWords(ps: seq<Bytes>)
    requires |ps| > 0 && AreWords(ps)
    ensures Words(Join(ps, ' ')) == Ok(ps) && Free(Join(ps, ' '), '\n')
  {
    JoinedIsPrintable(ps);
    SplitJoin(ps, ' ');
    var s := Join(ps, ' ');
    assert 32 <= s[|s| - 1] as int;
    assert Trim(s) == s;
  }

  lemma IdIsWords(fl: Floats, id: ID)
    requires Faithful(fl) && id.Valid()
    ensures |IdFields(fl, id)| == 6 && AreWords(IdFields(fl, id))
  {
    FieldsAreSound(fl, id);
  }

  lemma NodeIsWord(node: nat)
    ensures Plain(NodeField(node)) && NodeField(node)[5..] == Print(node) && "node=" <= NodeField(node)
  {
    PrintIsPlain(node);
  }

  lemma LineIsWords(fl: Floats, a: Answer)
    requires Faithful(fl) && Sayable(fl, a)
    ensures AreWords(Spelled(fl, a))
  {
    hide IdFields, Print, NodeField, Faithful, Join;
    match a
    case Inserted(id) => IdIsWords(fl, id);
    case Moved(to, node) =>
      IdIsWords(fl, to);
      if node.Some? { PrintIsPlain(node.value); }
    case Value(owner, data, _) =>
      PrintIsPlain(owner);
      PrintIsPlain(|data|);
    case Healthy(node, _) =>
      NodeIsWord(node);
    case _ =>
  }

  /** What the reply closures make of the words of an answer. */
  lemma LineIsClassified(fl: Floats, max: nat, want: Want, a: Answer)
    requires Faithful(fl) && Sayable(fl, a) && !want.WantFields?
    ensures var v := Classify(fl, max, want, Spelled(fl, a));
            match v
            case Done(r) => r == Meaning(max, want, a)
            case NeedBody(n, codec) =>
              a.Value? && n == |a.data| && Meaning(max, want, a) == Ok(Record(Payload(a.data, codec)))
  {
    hide IdFields, Print, NodeField, Faithful, Join, ParseFields;
    var p := Spelled(fl, a);
    match a
    case Inserted(id) =>
      IdIsWords(fl, id);
      FieldsAreSound(fl, id);
      assert p[1..] == IdFields(fl, id);
    case Moved(to, node) =>
      IdIsWords(fl, to);
      FieldsAreSound(fl, to);
      assert p[1..7] == IdFields(fl, to);
      if want.WantRecord? && node.Some? { ParsePrinted(node.value, want.peers); }
    case Value(owner, data, _) =>
      if want.WantRecord? {
        ParsePrinted(owner, want.peers);
        ParsePrinted(|data|, max + 1);
      }
    case Healthy(node, rest) =>
      NodeIsWord(node);
      assert p[1..] == [NodeField(node)] + rest;
      if want.WantStatus? { ParsePrinted(node, want.peers); }
    case _ =>
  }

  /** Every answer is a proper reply, and every reader understands exactly what it means. */
  lemma AnswersAreUnderstood(fl: Floats, max: nat, want: Want, a: Answer)
    requires Faithful(fl) && Sayable(fl, a) && !want.WantFields?
    ensures Proper(Written(fl, a))
    ensures Interpret(fl, max, want, Written(fl, a)) == Meaning(max, want, a)
  {
    hide Classify, Meaning, Words, Faithful, IdFields, Join;
    LineIsWords(fl, a);
    JoinedIsWords(Spelled(fl, a));
    LineIsClassified(fl, max, want, a);
  }

  lemma BodiesFollowValues(fl: Floats, max: nat, peers: nat, last: bool, p: seq<Bytes>) returns (owner: nat)
    requires |p| > 0 && Classify(fl, max, WantRecord(peers, last), p).NeedBody?
    ensures var v := Classify(fl, max, WantRecord(peers, last), p);
            owner < peers && v.n <= max && ValidCodec(v.codec) && p == ["VAL", Print(owner), Print(v.n), v.codec]
  {
    hide ValidCodec, Print, Canonical;
    owner := Parse(p[1], peers).value;
    assert p == [p[0], p[1], p[2], p[3]];
  }

  /**
   Conversely a record comes only from a value answer: the line is spelled exactly as that
   answer's, and the record's bytes are the whole body.
   */
  lemma RecordsAreValues(fl: Floats, max: nat, peers: nat, last: bool, rep: Reply, x: Payload) returns (owner: nat)
    requires Proper(rep) && Interpret(fl, max, WantRecord(peers, last), rep) == Ok(Record(x))
    ensures owner < peers && x.data == rep.body && |rep.body| <= max && ValidCodec(x.codec)
    ensures Words(rep.head) == Ok(Spelled(fl, Value(owner, x.data, x.codec)))
  {
    hide Words, ValidCodec, Print, Canonical;
    var p := Words(rep.head).value;
    var v := Classify(fl, max, WantRecord(peers, last), p);
    owner := BodiesFollowValues(fl, max, peers, last, p);
    PrintIsCanonical(v.n);
    PrintIsCanonical(|rep.body|);
  }

  /** A line of these words, with this body behind it, gives this result to this reader. */
  ghost predicate Shows(fl: Floats, max: nat, want: Want, p: seq<Bytes>, body: Bytes, g: Got) {
    match (want, g)
    case (WantId, Identity(id)) => |p| == 7 && p[0] == "ID" && Spells(fl, p[1..], id)
    case (WantStatus(peers), Status(text)) =>
      && |p| >= 2 && p[0] == "OK" && text == Join(p[1..], ' ')
      && exists node: nat :: node < peers && p[1] == NodeField(node)
    case (WantRecord(_, _), Absent) => p == ["MISS"] || p == ["GONE"]
    case (WantRecord(peers, last), Forward(to, node)) =>
      && !last && |p| == (if node.Some? then 8 else 7) && p[0] == "FWD" && Spells(fl, p[1..7], to)
      && (node.Some? ==> node.value < peers && p[7] == Print(node.value))
    case (WantRecord(peers, _), Record(x)) =>
      && |p| == 4 && p[0] == "VAL" && p[2] == Print(|body|) && |body| <= max && x.data == body
      && p[3] == x.codec && x.codec in {"raw", "json", "nif", "bif"}
      && exists owner: nat :: owner < peers && p[1] == Print(owner)
    case _ => false
  }

  lemma StatusIsExact(peers: nat, p: seq<Bytes>, g: Got)
    requires |p| > 0
    ensures ReadStatus(peers, p) == Ok(g) <==>
              && g.Status? && |p| >= 2 && p[0] == "OK" && g.text == Join(p[1..], ' ')
              && exists node: nat :: node < peers && p[1] == NodeField(node)
  {
    hide Print, Canonical, Join;
    if |p| >= 2 {
      if Starts(p[1], "node=") && Parse(p[1][5..], peers).Ok? {
        var node := Parse(p[1][5..], peers).value;
        assert p[1] == "node=" + p[1][5..];
        assert p[1] == NodeField(node);
      }
      if node: nat :| node < peers && p[1] == NodeField(node) {
        NodeIsWord(node);
        ParsePrinted(node, peers);
      }
    }
  }

  lemma ForwardIsExact(fl: Floats, peers: nat, last: bool, p: seq<Bytes>, g: Got)
    requires |p| > 0 && p[0] == "FWD"
    ensures ReadForward(fl, peers, last, p) == Ok(g) <==>
              && g.Forward? && !last && |p| == (if g.node.Some? then 8 else 7) && Spells(fl, p[1..7], g.to)
              && (g.node.Some? ==> g.node.value < peers && p[7] == Print(g.node.value))
  {
    hide Print, Canonical, ParseFields, Spells;
    if |p| >= 7 && g.Forward? {
      AcceptedFields(fl, p[1..7], g.to);
      if |p| == 8 && g.node.Some? {
        ParseExactly(p[7], g.node.value, peers);
      }
    }
  }

  /** The words of a value line, with the body that belongs to it. */
  lemma ValueIsExact(fl: Floats, max: nat, peers: nat, last: bool, p: seq<Bytes>, body: Bytes)
    requires |p| == 4 && p[0] == "VAL" && p[2] == Print(|body|)
    ensures var v := Classify(fl, max, WantRecord(peers, last), p);
            if && |body| <= max && p[3] in {"raw", "json", "nif", "bif"}
               && exists owner: nat :: owner < peers && p[1] == Print(owner)
            then v == NeedBody(|body|, p[3]) else v == Done(Err(Fail(Protocol)))
  {
    hide Print, Canonical;
    ParsePrinted(|body|, max + 1);
    if Parse(p[1], peers).Ok? {
      assert p[1] == Print(Parse(p[1], peers).value);
    }
    if owner: nat :| owner < peers && p[1] == Print(owner) {
      ParsePrinted(owner, peers);
    }
  }

  lemma RecordIsExact(fl: Floats, max: nat, peers: nat, last: bool, rep: Reply, g: Got)
    requires Proper(rep) && |rep.head| <= MAX_HEADER && Words(rep.head).Ok?
    ensures Interpret(fl, max, WantRecord(peers, last), rep) == Ok(g) <==>
              Shows(fl, max, WantRecord(peers, last), Words(rep.head).value, rep.body, g)
  {
    hide Words, Print, Canonical, ParseFields, Spells, ReadForward;
    var p := Words(rep.head).value;
    if p[0] == "FWD" {
      ForwardIsExact(fl, peers, last, p, g);
    } else if |p| == 4 && p[0] == "VAL" {
      ValueIsExact(fl, max, peers, last, p, rep.body);
    } else if |p| == 1 {
      assert p == [p[0]];
    }
  }

  /**
   Which replies are accepted, and as what, is exactly this; so nothing else is, whatever a server
   says.
   */
  lemma RepliesAreExact(fl: Floats, max: nat, want: Want, rep: Reply, g: Got)
    requires Proper(rep) && !want.WantFields?
    ensures Interpret(fl, max, want, rep) == Ok(g) <==>
              && |rep.head| <= MAX_HEADER && Words(rep.head).Ok?
              && Shows(fl, max, want, Words(rep.head).value, rep.body, g)
  {
    hide Words, Print, Canonical, ParseFields, Spells, ReadStatus, ReadForward, Shows;
    if |rep.head| <= MAX_HEADER && Words(rep.head).Ok? {
      match want
      case WantId => IdentityIsExact(fl, max, rep, g);
      case WantStatus(peers) => HealthIsExact(fl, max, peers, rep, g);
      case WantRecord(peers, last) => RecordIsExact(fl, max, peers, last, rep, g);
    }
  }

  lemma IdentityIsExact(fl: Floats, max: nat, rep: Reply, g: Got)
    requires |rep.head| <= MAX_HEADER && Words(rep.head).Ok?
    ensures Interpret(fl, max, WantId, rep) == Ok(g) <==> Shows(fl, max, WantId, Words(rep.head).value, rep.body, g)
  {
    hide Words, ParseFields, Spells;
    var p := Words(rep.head).value;
    if |p| == 7 && g.Identity? {
      AcceptedFields(fl, p[1..], g.id);
    }
  }

  lemma HealthIsExact(fl: Floats, max: nat, peers: nat, rep: Reply, g: Got)
    requires |rep.head| <= MAX_HEADER && Words(rep.head).Ok?
    ensures Interpret(fl, max, WantStatus(peers), rep) == Ok(g) <==>
              Shows(fl, max, WantStatus(peers), Words(rep.head).value, rep.body, g)
  {
    hide Words, ReadStatus, NodeField;
    StatusIsExact(peers, Words(rep.head).value, g);
  }

  /** And of the others exactly the ERR lines are errors of the server. */
  lemma RefusalsAreExact(fl: Floats, max: nat, want: Want, rep: Reply)
    requires !want.WantFields?
    ensures Interpret(fl, max, want, rep) == Err(Fail(Server)) <==>
              |rep.head| <= MAX_HEADER && Words(rep.head).Ok? && Words(rep.head).value[0] == "ERR"
  {
    hide Words, ParseFields, Parse;
    if |rep.head| <= MAX_HEADER && Words(rep.head).Ok? {
      ClassifyOutcomes(fl, max, want, Words(rep.head).value);
    }
  }
}
