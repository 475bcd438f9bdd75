/**
 Following redirects: the chain of places at which a record is looked for, and what a reader
 that may follow at most so many redirects makes of it.
 */
module Redirects {
  import opened Errors
  import opened Ids
  import opened Replies

  datatype Place = Place(node: nat, id: ID)

  /** What the cluster answers at a place; the flag says that no more redirects are allowed. */
  type View = (Place, bool) -> Result<Got>

  /** The same answer where no more redirects are allowed. */
  function Stopped(r: Result<Got>): Result<Got> {
    if r.Ok? && r.value.Forward? then Err(Fail(Protocol)) else r
  }

  /** Properties of every view that comes from interpreting replies as records. */
  ghost predicate RecordView(view: View, peers: nat) {
    forall p: Place ::
      && (view(p, false).Ok? ==> Fits(WantRecord(peers, false), view(p, false).value))
      && view(p, true) == Stopped(view(p, false))
  }

  function Target(p: Place, g: Got): Place
    requires g.Forward?
  {
    Place(if g.node.Some? then g.node.value else p.node, g.to)
  }

  /** One redirect from a place, if the answer there is one. */
  function Hop(view: View, p: Place): Option<Place> {
    var g := view(p, false);
    if g.Ok? && g.value.Forward? then Some(Target(p, g.value)) else None
  }

  /** The k-th place of the chain, if the chain is that long. */
  function Nth(view: View, p: Place, k: nat): Option<Place>
    decreases k
  {
    if k == 0 then Some(p) else
    var q := Nth(view, p, k - 1);
    if q.None? then None else Hop(view, q.value)
  }

  /** The caller's result for an answer that is not a redirect. */
  function Conclude(r: Result<Got>): Result<Option<Payload>> {
    match r
    case Err(e) => Err(e)
    case Ok(Record(x)) => Ok(Some(x))
    case Ok(_) => Ok(None)
  }

  /** The reader: asks, and follows redirects while it has some left. */
  function Follow(view: View, p: Place, left: nat): Result<Option<Payload>>
    decreases left
  {
    var r := view(p, left == 0);
    if r.Ok? && r.value.Forward? && left > 0 then Follow(view, Target(p, r.value), left - 1) else Conclude(r)
  }

  /** Following redirects gives no errors but those of the answers, and the protocol error. */
  lemma {:induction false} FollowErrors(view: View, p: Place, left: nat, allowed: set<Error>)
    requires forall q: Place, last: bool :: view(q, last).Err? ==> view(q, last).error in allowed
    ensures Follow(view, p, left).Err? ==> Follow(view, p, left).error in allowed
    decreases left
  {
    var r := view(p, left == 0);
    if r.Ok? && r.value.Forward? && left > 0 {
      FollowErrors(view, Target(p, r.value), left - 1, allowed);
    }
  }

  /** The places it asks at. */
  function Visits(view: View, p: Place, left: nat): (ps: seq<Place>)
    ensures 1 <= |ps| <= left + 1 && ps[0] == p
    decreases left
  {
    var r := view(p, left == 0);
    [p] + (if r.Ok? && r.value.Forward? && left > 0 then Visits(view, Target(p, r.value), left - 1) else [])
  }

  /** A reader that has asked at `places`, is at `here` and may follow `left` more redirects. */
  predicate Tracks(view: View, start: Place, limit: nat, places: seq<Place>, here: Place, left: nat) {
    && Follow(view, start, limit) == Follow(view, here, left)
    && Visits(view, start, limit) == places + Visits(view, here, left)
  }

  lemma TracksStart(view: View, start: Place, limit: nat)
    ensures Tracks(view, start, limit, [], start, limit)
  {
  }

  lemma TracksForward(view: View, start: Place, limit: nat, places: seq<Place>, here: Place, left: nat)
    requires Tracks(view, start, limit, places, here, left) && left > 0
    requires view(here, false).Ok? && view(here, false).value.Forward?
    ensures Tracks(view, start, limit, places + [here], Target(here, view(here, false).value), left - 1)
  {
  }

  lemma TracksEnd(view: View, start: Place, limit: nat, places: seq<Place>, here: Place, left: nat)
    requires Tracks(view, start, limit, places, here, left)
    requires var r := view(here, left == 0); r.Err? || !r.value.Forward?
    ensures Follow(view, start, limit) == Conclude(view(here, left == 0))
    ensures Visits(view, start, limit) == places + [here]
  {
  }

  lemma {:induction false} NthFromHop(view: View, p: Place, k: nat)
    requires Hop(view, p).Some?
    ensures Nth(view, p, k + 1) == Nth(view, Hop(view, p).value, k)
  {
    if k > 0 {
      NthFromHop(view, p, k - 1);
    }
  }

  lemma {:induction false} ChainsAreClosed(view: View, p: Place, i: nat, k: nat)
    requires i <= k && Nth(view, p, k).Some?
    ensures Nth(view, p, i).Some?
    decreases k
  {
    if i < k {
      ChainsAreClosed(view, p, i, k - 1);
    }
  }

  lemma StepDown(view: View, peers: nat, p: Place, left: nat)
    requires RecordView(view, peers) && left > 0 && Hop(view, p).Some?
    ensures Follow(view, p, left) == Follow(view, Hop(view, p).value, left - 1)
    ensures Visits(view, p, left) == [p] + Visits(view, Hop(view, p).value, left - 1)
  {
  }

  /**
   A chain of at most `limit` redirects is followed to its end: the result is what the last
   place says, and exactly the places of the chain were asked.
   */
  lemma {:induction false} ShortChain(view: View, peers: nat, p: Place, limit: nat, k: nat, q: Place)
    requires RecordView(view, peers) && k <= limit
    requires Nth(view, p, k) == Some(q) && Hop(view, q) == None
    ensures Follow(view, p, limit) == Conclude(view(q, false))
    ensures |Visits(view, p, limit)| == k + 1
    ensures forall i :: 0 <= i <= k ==> Nth(view, p, i) == Some(Visits(view, p, limit)[i])
    decreases limit
  {
    assert view(q, true) == view(q, false);
    if k > 0 {
      ChainsAreClosed(view, p, 1, k);
      assert Nth(view, p, 0) == Some(p);
      var n := Hop(view, p).value;
      NthFromHop(view, p, k - 1);
      ShortChain(view, peers, n, limit - 1, k - 1, q);
      StepDown(view, peers, p, limit);
      var tail := Visits(view, n, limit - 1);
      forall i | 0 <= i <= k ensures Nth(view, p, i) == Some(Visits(view, p, limit)[i]) {
        if i > 0 {
          NthFromHop(view, p, i - 1);
          assert Nth(view, n, i - 1) == Some(tail[i - 1]);
        }
      }
    }
  }

  /** A chain of more than `limit` redirects is a protocol error, after limit + 1 questions. */
  lemma {:induction false} LongChain(view: View, peers: nat, p: Place, limit: nat)
    requires RecordView(view, peers) && Nth(view, p, limit + 1).Some?
    ensures Follow(view, p, limit) == Err(Fail(Protocol))
    ensures |Visits(view, p, limit)| == limit + 1
    decreases limit
  {
    ChainsAreClosed(view, p, 1, limit + 1);
    assert Nth(view, p, 0) == Some(p);
    if limit > 0 {
      NthFromHop(view, p, limit);
      LongChain(view, peers, Hop(view, p).value, limit - 1);
      StepDown(view, peers, p, limit);
    }
  }

  lemma {:induction false} FirstStop(view: View, p: Place, n: nat) returns (k: nat)
    requires Nth(view, p, n) == None
    ensures k < n && Nth(view, p, k).Some? && Hop(view, Nth(view, p, k).value) == None
  {
    if Nth(view, p, n - 1).Some? {
      k := n - 1;
    } else {
      k := FirstStop(view, p, n - 1);
    }
  }

  /**
   So the reader's result depends on one thing only: whether the chain has more than `limit`
   redirects.  If so it is the protocol error, and otherwise what the end of the chain says.
   */
  lemma FollowIsExact(view: View, peers: nat, p: Place, limit: nat) returns (k: nat)
    requires RecordView(view, peers)
    ensures Nth(view, p, limit + 1).Some? ==>
              Follow(view, p, limit) == Err(Fail(Protocol)) && |Visits(view, p, limit)| == limit + 1
    ensures Nth(view, p, limit + 1) == None ==>
              && k <= limit && Nth(view, p, k).Some? && Hop(view, Nth(view, p, k).value) == None
              && Follow(view, p, limit) == Conclude(view(Nth(view, p, k).value, false))
              && |Visits(view, p, limit)| == k + 1
  {
    k := 0;
    if Nth(view, p, limit + 1).Some? {
      LongChain(view, peers, p, limit);
    } else {
      k := FirstStop(view, p, limit + 1);
      ShortChain(view, peers, p, limit, k, Nth(view, p, k).value);
    }
  }

  lemma {:induction false} ChainsRepeat(view: View, p: Place, i: nat, j: nat, k: nat)
    requires i < j && Nth(view, p, j).Some? && Nth(view, p, i) == Nth(view, p, j)
    ensures Nth(view, p, k).Some?
    ensures k > i ==> Nth(view, p, k) == Nth(view, p, k + (j - i))
    decreases k
  {
    if k <= j {
      ChainsAreClosed(view, p, k, j);
    }
    if k > 0 {
      ChainsRepeat(view, p, i, j, k - 1);
      if k == i + 1 {
        assert Nth(view, p, k - 1 + (j - i)) == Nth(view, p, j);
      }
      if k > j {
        ChainsRepeat(view, p, i, j, k - (j - i));
        NthPeriod(view, p, i, j, k - (j - i));
      }
    }
  }

  lemma {:induction false} NthPeriod(view: View, p: Place, i: nat, j: nat, k: nat)
    requires i < j && i < k && Nth(view, p, i) == Nth(view, p, j)
    ensures Nth(view, p, k) == Nth(view, p, k + (j - i))
    decreases k
  {
    if k > i + 1 {
      NthPeriod(view, p, i, j, k - 1);
    }
    assert Nth(view, p, k - 1) == Nth(view, p, k - 1 + (j - i));
  }

  /** So every cycle of redirects is a protocol error. */
  lemma CyclesEnd(view: View, peers: nat, p: Place, limit: nat, i: nat, j: nat)
    requires RecordView(view, peers)
    requires i < j && Nth(view, p, j).Some? && Nth(view, p, i) == Nth(view, p, j)
    ensures Follow(view, p, limit) == Err(Fail(Protocol)) && |Visits(view, p, limit)| == limit + 1
  {
    ChainsRepeat(view, p, i, j, limit + 1);
    LongChain(view, peers, p, limit);
  }

  /**
   Where a redirect leads: to the node that it names, or, if it names none, to the node that sent
   it; and to the identity that it gives.
   */
  lemma {:induction false} VisitsFollow(view: View, p: Place, left: nat, i: nat)
    requires i + 1 < |Visits(view, p, left)|
    ensures var here, there := Visits(view, p, left)[i], Visits(view, p, left)[i + 1];
            var g := view(here, false);
            && g.Ok? && g.value.Forward? && there.id == g.value.to
            && there.node == match g.value.node case Some(n) => n case None => here.node
    decreases left
  {
    var r := view(p, left == 0);
    if i > 0 {
      VisitsFollow(view, Target(p, r.value), left - 1, i - 1);
    }
  }

  /** Every place asked is at a configured peer. */
  lemma {:induction false} VisitsArePeers(view: View, peers: nat, p: Place, left: nat)
    requires RecordView(view, peers) && p.node < peers && p.id.Valid()
    ensures forall i :: 0 <= i < |Visits(view, p, left)| ==>
              Visits(view, p, left)[i].node < peers && Visits(view, p, left)[i].id.Valid()
    decreases left
  {
    if left > 0 && Hop(view, p).Some? {
      VisitsArePeers(view, peers, Hop(view, p).value, left - 1);
      StepDown(view, peers, p, left);
    }
  }
}
