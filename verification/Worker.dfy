/**
 The embedded database (embedded/db.go): callers, a mutex, a rendezvous channel and one worker
 thread that owns the handle, as interleaved steps.  The handle is an abstract store of records;
 each call into the C library is a step of its own and may fail, with whatever that does to the store.
 */
module Worker {

  type Gid = nat
  type Rid = nat            // a record's identity
  type Data = nat           // a payload; what it holds does not matter here
  type Selection = nat
  type Store = map<Rid, Data>

  datatype Cmd =
    | Insert(data: Data)
    | Get(id: Rid)
    | Query(id: Rid, selection: Selection)
    | Update(id: Rid, data: Data)
    | Remove(id: Rid)
    | Close

  datatype Res =
    | Inserted(id: Rid)
    | NoPayload                  // Get's nil payload
    | Payload(data: Data)
    | Done
    | NotFound                   // ErrNotFound
    | Abi                        // ErrABI
    | ErrClosed

  /** The C library: what kouten_query selects, and what a failing call may leave behind. */
  datatype Library = Library(project: (Data, Selection) -> Data, fails: (Store, Cmd, Store) -> bool)

  // ---------------------------------------------------------------- the sequential database

  datatype Db = Db(store: Store, closed: bool)

  /** The record that a command needs, if it needs one. */
  function Needs(cmd: Cmd): set<Rid> {
    match cmd
    case Get(id) => {id}
    case Query(id, _) => {id}
    case Update(id, _) => {id}
    case Remove(id) => {id}
    case _ => {}
  }

  function AbsenceOf(cmd: Cmd): Res {
    if cmd.Get? then NoPayload else NotFound
  }

  /** One operation of a database without concurrency, as its documentation describes it. */
  predicate Sequential(lib: Library, pre: Db, cmd: Cmd, res: Res, post: Db) {
    if pre.closed then post == pre && res == (if cmd == Close then Done else ErrClosed)
    else if cmd == Close then post == pre.(closed := true) && res == Done
    else if res == Abi then lib.fails(pre.store, cmd, post.store) && !post.closed
    else if !(Needs(cmd) <= pre.store.Keys) then post == pre && res == AbsenceOf(cmd)
    else
      match cmd
      case Insert(data) => res.Inserted? && res.id !in pre.store && post == pre.(store := pre.store[res.id := data])
      case Get(id) => res == Payload(pre.store[id]) && post == pre
      case Query(id, sel) => res == Payload(lib.project(pre.store[id], sel)) && post == pre
      case Update(id, data) => res == Done && post == pre.(store := pre.store[id := data])
      case Remove(id) => res == Done && post == pre.(store := pre.store - {id})
      case Close => false
  }

  /** One entry of the history: an operation at its moment of effect. */
  datatype Entry = Entry(g: Gid, cmd: Cmd, res: Res, pre: Db, post: Db)

  /** The database before the i-th entry. */
  function Before(start: Db, h: seq<Entry>, i: nat): Db
    requires i <= |h|
  {
    if i == 0 then start else h[i - 1].post
  }

  function Now(start: Db, h: seq<Entry>): Db {
    Before(start, h, |h|)
  }

  /** Every entry is a sequential operation on the database that the one before it left. */
  predicate Legal(lib: Library, start: Db, h: seq<Entry>) {
    forall i :: 0 <= i < |h| ==>
      h[i].pre == Before(start, h, i) && Sequential(lib, h[i].pre, h[i].cmd, h[i].res, h[i].post)
  }

  // ---------------------------------------------------------------- the concurrent one

  /** A caller; `since` is the length of the history when it was called, `at` its entry in it. */
  datatype Caller =
    | Outside
    | Locking(cmd: Cmd, since: nat)                    // before mu.Lock returns
    | Locked(cmd: Cmd, since: nat)                     // about to look at closed
    | Sending(cmd: Cmd, since: nat)                    // at db.jobs <- job
    | Awaiting(cmd: Cmd, since: nat)                   // at <-done
    | Leaving(cmd: Cmd, since: nat, at: nat, res: Res) // about to unlock and return

  datatype Thread =
    | Receiving                                        // at range db.jobs
    | Checking(g: Gid, cmd: Cmd)                       // about to call kouten_exists
    | Acting(g: Gid, cmd: Cmd)                         // about to make the call proper
    | Exited

  /** A completed call. */
  datatype Call = Call(g: Gid, cmd: Cmd, res: Res, since: nat, at: nat, until: nat)

  datatype State = State(
    store: Store, closes: nat,                         // the handle: its records, and how often it was closed
    owner: set<Gid>, closed: bool,                     // the mutex and the flag it guards
    thread: Thread, callers: map<Gid, Caller>,
    box: map<Gid, Res>,                                // the results in done channels
    history: seq<Entry>, calls: seq<Call>)

  predicate Init(s: State, start: Store) {
    && s.store == start && s.closes == 0 && s.owner == {} && !s.closed && s.thread == Receiving && s.box == map[]
    && s.history == [] && s.calls == []
    && forall g :: g in s.callers ==> s.callers[g] == Outside
  }

  function At(s: State, g: Gid, c: Caller): State {
    s.(callers := s.callers[g := c])
  }

  /** Outside and inside the mutex. */
  predicate Inside(c: Caller) {
    !c.Outside? && !c.Locking?
  }

  predicate CallerStep(s: State, t: State, g: Gid, start: Store)
    requires g in s.callers
  {
    match s.callers[g]
    case Outside => g in t.callers && t.callers[g].Locking? && t == At(s, g, Locking(t.callers[g].cmd, |s.history|))
    case Locking(cmd, since) => s.owner == {} && t == At(s, g, Locked(cmd, since)).(owner := {g})
    case Locked(cmd, since) =>
      if s.closed then
        var res := if cmd == Close then Done else ErrClosed;
        var db := Now(Db(start, false), s.history);
        t == At(s, g, Leaving(cmd, since, |s.history|, res)).(history := s.history + [Entry(g, cmd, res, db, db)])
      else t == At(s, g, Sending(cmd, since))
    case Sending(cmd, since) =>                        // the rendezvous: both sides move
      s.thread == Receiving &&
      t == At(s, g, Awaiting(cmd, since)).(thread := if Needs(cmd) == {} then Acting(g, cmd) else Checking(g, cmd))
    case Awaiting(cmd, since) =>
      g in s.box && |s.history| > 0 &&
      t == At(s, g, Leaving(cmd, since, |s.history| - 1, s.box[g]))
             .(box := s.box - {g}, closed := s.closed || cmd == Close)
    case Leaving(cmd, since, at, res) =>
      t == At(s, g, Outside).(owner := {}, calls := s.calls + [Call(g, cmd, res, since, at, |s.history|)])
  }

  /** The worker's reply to a job, at which the job takes effect. */
  function Answer(s: State, g: Gid, cmd: Cmd, res: Res, store: Store, start: Store): State {
    var pre := Now(Db(start, false), s.history);
    s.(store := store, thread := if cmd == Close then Exited else Receiving, box := s.box[g := res],
       closes := if cmd == Close then s.closes + 1 else s.closes,
       history := s.history + [Entry(g, cmd, res, pre, Db(store, pre.closed || cmd == Close))])
  }

  /** What the library's call proper may answer and leave behind. */
  predicate Act(lib: Library, store: Store, cmd: Cmd, res: Res, after: Store) {
    if cmd == Close then res == Done && after == store
    else if res == Abi then lib.fails(store, cmd, after)
    else
      match cmd
      case Insert(data) => res.Inserted? && res.id !in store && after == store[res.id := data]
      case Get(id) => id in store && res == Payload(store[id]) && after == store
      case Query(id, sel) => id in store && res == Payload(lib.project(store[id], sel)) && after == store
      case Update(id, data) => res == Done && after == store[id := data]
      case Remove(id) => res == Done && after == store - {id}
  }

  ghost predicate ThreadStep(s: State, t: State, lib: Library, start: Store) {
    match s.thread
    case Checking(g, cmd) =>                           // requireRecord, or Get's own switch
      || (exists after: Store :: lib.fails(s.store, cmd, after) && t == Answer(s, g, cmd, Abi, after, start))
      || (if Needs(cmd) <= s.store.Keys then t == s.(thread := Acting(g, cmd))
          else t == Answer(s, g, cmd, AbsenceOf(cmd), s.store, start))
    case Acting(g, cmd) =>
      exists res: Res, after: Store :: Act(lib, s.store, cmd, res, after) && t == Answer(s, g, cmd, res, after, start)
    case _ => false
  }

  ghost predicate Next(s: State, t: State, lib: Library, start: Store) {
    || ThreadStep(s, t, lib, start)
    || exists g: Gid :: g in s.callers && CallerStep(s, t, g, start)
  }

  // ---------------------------------------------------------------- the invariant

  /** A history entry that records this operation of this caller. */
  predicate Records(e: Entry, g: Gid, cmd: Cmd, res: Res) {
    e.g == g && e.cmd == cmd && e.res == res
  }

  /** The history is a legal sequential run that ends in the present state of the handle. */
  predicate HistoryFits(s: State, lib: Library, start: Store) {
    && Legal(lib, Db(start, false), s.history)
    && Now(Db(start, false), s.history) == Db(s.store, s.thread == Exited)
    && s.closes == (if s.thread == Exited then 1 else 0)
  }

  /** The i-th completed call is the i-th entry; it took effect after it was called and before it returned. */
  predicate CallsFit(s: State) {
    && |s.calls| <= |s.history|
    && forall i :: 0 <= i < |s.calls| ==>
         var c := s.calls[i];
         c.since <= c.at == i && c.until == i + 1 && Records(s.history[i], c.g, c.cmd, c.res)
  }

  /** No job is under way: the worker waits for one, unless the database is closed. */
  predicate AtRest(s: State) {
    (s.closed <==> s.thread == Exited) && (s.closed || s.thread == Receiving)
  }

  predicate CallerFits(s: State, g: Gid, c: Caller) {
    match c
    case Outside => true
    case Locking(cmd, since) => since <= |s.history|
    case Locked(cmd, since) => since <= |s.history| == |s.calls| && AtRest(s)
    case Sending(cmd, since) => since <= |s.history| == |s.calls| && s.thread == Receiving && !s.closed
    case Awaiting(cmd, since) =>
      if g in s.box then
        && since <= |s.calls| == |s.history| - 1 && Records(s.history[|s.calls|], g, cmd, s.box[g])
        && s.thread == (if cmd == Close then Exited else Receiving) && !s.closed
      else
        && since <= |s.history| == |s.calls| && !s.closed
        && (s.thread == Acting(g, cmd) || (s.thread == Checking(g, cmd) && Needs(cmd) != {}))
    case Leaving(cmd, since, at, res) =>
      && since <= at == |s.calls| == |s.history| - 1 && Records(s.history[at], g, cmd, res)
      && AtRest(s)
  }

  predicate MutexFits(s: State) {
    && (forall g :: g in s.owner ==> g in s.callers && Inside(s.callers[g]))
    && (forall g :: g in s.callers && Inside(s.callers[g]) ==> s.owner == {g})
    && (s.owner == {} ==> |s.history| == |s.calls| && AtRest(s))
    && (forall g :: g in s.box ==> g in s.callers && s.callers[g].Awaiting?)
  }

  predicate Invariant(s: State, lib: Library, start: Store) {
    && HistoryFits(s, lib, start) && CallsFit(s) && MutexFits(s)
    && (forall g :: g in s.callers ==> CallerFits(s, g, s.callers[g]))
    && (s.thread.Acting? ==> Needs(s.thread.cmd) <= s.store.Keys)
    && (s.thread.Checking? || s.thread.Acting? ==>
          s.thread.g in s.callers && s.callers[s.thread.g].Awaiting? && s.callers[s.thread.g].cmd == s.thread.cmd
          && s.thread.g !in s.box)
  }

  // ---------------------------------------------------------------- it is kept

  lemma LegalGrows(lib: Library, start: Db, h: seq<Entry>, e: Entry)
    requires Legal(lib, start, h) && e.pre == Now(start, h) && Sequential(lib, e.pre, e.cmd, e.res, e.post)
    ensures Legal(lib, start, h + [e]) && Now(start, h + [e]) == e.post
  {
    hide Sequential;
    var all := h + [e];
    forall i | 0 <= i < |all|
      ensures all[i].pre == Before(start, all, i) && Sequential(lib, all[i].pre, all[i].cmd, all[i].res, all[i].post)
    {
      assert Before(start, all, i) == Before(start, h, i);
      assert i < |h| ==> all[i] == h[i];
    }
  }

  /** The owner of the mutex moves while everybody else stays outside it. */
  lemma OthersStay(s: State, t: State, g: Gid)
    requires MutexFits(s) && g in s.callers && Inside(s.callers[g])
    requires g in t.callers && t.callers == s.callers[g := t.callers[g]]
    ensures forall h :: h in t.callers && h != g ==>
              h in s.callers && t.callers[h] == s.callers[h] && !Inside(s.callers[h])
  {
  }

  /** A step of the owner: it is enough to look at the owner. */
  lemma OwnerMoves(s: State, t: State, g: Gid)
    requires MutexFits(s) && (forall h :: h in s.callers ==> CallerFits(s, h, s.callers[h]))
    requires g in s.callers && Inside(s.callers[g]) && g in t.callers && t.callers == s.callers[g := t.callers[g]]
    requires |s.history| <= |t.history|
    requires CallerFits(t, g, t.callers[g])
    ensures forall h :: h in t.callers ==> CallerFits(t, h, t.callers[h])
  {
    OthersStay(s, t, g);
    forall h | h in t.callers ensures CallerFits(t, h, t.callers[h]) {
      if h != g {
        assert CallerFits(s, h, s.callers[h]);
      }
    }
  }

  /** A job takes effect, exactly as one sequential operation. */
  lemma AnswerIsSafe(s: State, t: State, g: Gid, cmd: Cmd, res: Res, store: Store, lib: Library, start: Store)
    requires Invariant(s, lib, start) && (s.thread == Checking(g, cmd) || s.thread == Acting(g, cmd))
    requires t == Answer(s, g, cmd, res, store, start)
    requires Sequential(lib, Db(s.store, false), cmd, res, Db(store, cmd == Close))
    ensures Invariant(t, lib, start)
  {
    hide Sequential, Legal;
    var pre := Db(s.store, false);
    var e := Entry(g, cmd, res, pre, Db(store, cmd == Close));
    assert t.history == s.history + [e];
    LegalGrows(lib, Db(start, false), s.history, e);
    assert CallerFits(s, g, s.callers[g]);
    OwnerMoves(s, t, g);
  }

  /** The worker found the record. */
  lemma CheckIsSafe(s: State, t: State, g: Gid, cmd: Cmd, lib: Library, start: Store)
    requires Invariant(s, lib, start) && s.thread == Checking(g, cmd) && Needs(cmd) <= s.store.Keys
    requires t == s.(thread := Acting(g, cmd))
    ensures Invariant(t, lib, start)
  {
    hide Sequential, Legal;
    assert CallerFits(s, g, s.callers[g]);
    assert t.callers == s.callers[g := t.callers[g]];
    OwnerMoves(s, t, g);
  }

  /** The check and the call proper do together what one sequential operation does. */
  lemma ActIsSequential(lib: Library, store: Store, cmd: Cmd, res: Res, after: Store)
    requires Needs(cmd) <= store.Keys && Act(lib, store, cmd, res, after)
    ensures Sequential(lib, Db(store, false), cmd, res, Db(after, cmd == Close))
  {
  }

  lemma ThreadIsSafe(s: State, t: State, lib: Library, start: Store)
    requires Invariant(s, lib, start) && ThreadStep(s, t, lib, start)
    ensures Invariant(t, lib, start)
  {
    hide Legal, Act;
    var g, cmd := s.thread.g, s.thread.cmd;
    assert CallerFits(s, g, s.callers[g]);
    if s.thread.Checking? && t == s.(thread := Acting(g, cmd)) {
      CheckIsSafe(s, t, g, cmd, lib, start);
    } else if s.thread.Checking? {
      if after: Store :| lib.fails(s.store, cmd, after) && t == Answer(s, g, cmd, Abi, after, start) {
        AnswerIsSafe(s, t, g, cmd, Abi, after, lib, start);
      } else {
        AnswerIsSafe(s, t, g, cmd, AbsenceOf(cmd), s.store, lib, start);
      }
    } else {
      var res: Res, after: Store :| Act(lib, s.store, cmd, res, after) && t == Answer(s, g, cmd, res, after, start);
      ActIsSequential(lib, s.store, cmd, res, after);
      AnswerIsSafe(s, t, g, cmd, res, after, lib, start);
    }
  }

  lemma CallingIsSafe(s: State, t: State, g: Gid, lib: Library, start: Store)
    requires Invariant(s, lib, start) && g in s.callers && s.callers[g].Outside? && CallerStep(s, t, g, start)
    ensures Invariant(t, lib, start)
  {
    hide Legal;
    forall h | h in t.callers ensures CallerFits(t, h, t.callers[h]) {
      assert h != g ==> CallerFits(s, h, s.callers[h]);
    }
  }

  lemma LockingIsSafe(s: State, t: State, g: Gid, lib: Library, start: Store)
    requires Invariant(s, lib, start) && g in s.callers && s.callers[g].Locking? && CallerStep(s, t, g, start)
    ensures Invariant(t, lib, start)
  {
    hide Legal;
    assert CallerFits(s, g, s.callers[g]);
    forall h | h in t.callers && h != g ensures !Inside(t.callers[h]) && CallerFits(t, h, t.callers[h]) {
      assert CallerFits(s, h, s.callers[h]);
    }
  }

  /** Finding the database closed: the call takes effect there and then. */
  lemma RefusalIsSafe(s: State, t: State, g: Gid, lib: Library, start: Store)
    requires Invariant(s, lib, start) && g in s.callers && s.callers[g].Locked? && s.closed
    requires CallerStep(s, t, g, start)
    ensures Invariant(t, lib, start)
  {
    hide Legal;
    assert CallerFits(s, g, s.callers[g]);
    var db := Now(Db(start, false), s.history);
    LegalGrows(lib, Db(start, false), s.history, Entry(g, s.callers[g].cmd, t.callers[g].res, db, db));
    OwnerMoves(s, t, g);
  }

  lemma ProceedingIsSafe(s: State, t: State, g: Gid, lib: Library, start: Store)
    requires Invariant(s, lib, start) && g in s.callers && s.callers[g].Locked? && !s.closed
    requires CallerStep(s, t, g, start)
    ensures Invariant(t, lib, start)
  {
    hide Legal;
    assert CallerFits(s, g, s.callers[g]);
    OwnerMoves(s, t, g);
  }

  lemma SendingIsSafe(s: State, t: State, g: Gid, lib: Library, start: Store)
    requires Invariant(s, lib, start) && g in s.callers && s.callers[g].Sending? && CallerStep(s, t, g, start)
    ensures Invariant(t, lib, start)
  {
    hide Legal;
    assert CallerFits(s, g, s.callers[g]);
    OwnerMoves(s, t, g);
  }

  lemma AwaitingIsSafe(s: State, t: State, g: Gid, lib: Library, start: Store)
    requires Invariant(s, lib, start) && g in s.callers && s.callers[g].Awaiting? && CallerStep(s, t, g, start)
    ensures Invariant(t, lib, start)
  {
    hide Legal;
    assert CallerFits(s, g, s.callers[g]);
    OwnerMoves(s, t, g);
  }

  lemma LeavingIsSafe(s: State, t: State, g: Gid, lib: Library, start: Store)
    requires Invariant(s, lib, start) && g in s.callers && s.callers[g].Leaving? && CallerStep(s, t, g, start)
    ensures Invariant(t, lib, start)
  {
    hide Legal;
    assert CallerFits(s, g, s.callers[g]);
    OwnerMoves(s, t, g);
    forall h | h in t.callers ensures !Inside(t.callers[h]) {
      OthersStay(s, t, g);
    }
  }

  lemma CallerIsSafe(s: State, t: State, g: Gid, lib: Library, start: Store)
    requires Invariant(s, lib, start) && g in s.callers && CallerStep(s, t, g, start)
    ensures Invariant(t, lib, start)
  {
    hide Invariant, CallerStep;
    match s.callers[g]
    case Outside => CallingIsSafe(s, t, g, lib, start);
    case Locking(_, _) => LockingIsSafe(s, t, g, lib, start);
    case Locked(_, _) =>
      if s.closed {
        RefusalIsSafe(s, t, g, lib, start);
      } else {
        ProceedingIsSafe(s, t, g, lib, start);
      }
    case Sending(_, _) => SendingIsSafe(s, t, g, lib, start);
    case Awaiting(_, _) => AwaitingIsSafe(s, t, g, lib, start);
    case Leaving(_, _, _, _) => LeavingIsSafe(s, t, g, lib, start);
  }

  lemma InvariantIsKept(s: State, t: State, lib: Library, start: Store)
    requires Invariant(s, lib, start) && Next(s, t, lib, start)
    ensures Invariant(t, lib, start)
  {
    if ThreadStep(s, t, lib, start) {
      ThreadIsSafe(s, t, lib, start);
    } else {
      var g: Gid :| g in s.callers && CallerStep(s, t, g, start);
      CallerIsSafe(s, t, g, lib, start);
    }
  }

  // ---------------------------------------------------------------- what follows for every run

  ghost predicate IsRun(run: seq<State>, lib: Library, start: Store) {
    && |run| > 0 && Init(run[0], start)
    && forall i :: 0 <= i < |run| - 1 ==> Next(run[i], run[i + 1], lib, start)
  }

  lemma {:induction false} RunKeepsInvariant(run: seq<State>, lib: Library, start: Store, n: nat)
    requires IsRun(run, lib, start) && n < |run|
    ensures Invariant(run[n], lib, start)
  {
    if n > 0 {
      RunKeepsInvariant(run, lib, start, n - 1);
      InvariantIsKept(run[n - 1], run[n], lib, start);
    }
  }

  /**
   Linearizability: the completed calls, in the order in which they left the mutex, are the
   beginning of a legal sequential run that ends in the store the handle now holds.  Each
   call is one entry of it, with its own command and result, and took effect between its
   invocation and its return.  At most one more call has taken effect without returning yet.
   */
  lemma Linearizable(run: seq<State>, lib: Library, start: Store, n: nat)
    requires IsRun(run, lib, start) && n < |run|
    ensures Legal(lib, Db(start, false), run[n].history)
    ensures Now(Db(start, false), run[n].history).store == run[n].store
    ensures |run[n].calls| <= |run[n].history| <= |run[n].calls| + 1
    ensures forall i :: 0 <= i < |run[n].calls| ==>
              var c := run[n].calls[i];
              Records(run[n].history[i], c.g, c.cmd, c.res) && c.since <= c.at == i < c.until
  {
    RunKeepsInvariant(run, lib, start, n);
    var s := run[n];
    if s.owner != {} {
      var g :| g in s.owner;
      assert CallerFits(s, g, s.callers[g]);
    }
  }

  /** What a caller does, once it is outside, counts from `since` on. */
  predicate Later(s: State, g: Gid, since: nat, done: nat) {
    && g in s.callers && since <= |s.history| && done <= |s.calls|
    && (!s.callers[g].Outside? ==> since <= s.callers[g].since)
    && (forall j :: done <= j < |s.calls| && s.calls[j].g == g ==> since <= s.calls[j].since)
  }

  /** What a job's taking effect leaves alone. */
  lemma AnswerFrame(s: State, t: State, g: Gid, cmd: Cmd, res: Res, store: Store, start: Store)
    requires t == Answer(s, g, cmd, res, store, start) && (s.thread.Checking? || s.thread.Acting?)
    ensures SameButForThread(s, t)
  {
  }

  predicate SameButForThread(s: State, t: State) {
    && t.callers == s.callers && t.calls == s.calls && t.owner == s.owner && t.closed == s.closed
    && |s.history| <= |t.history| && t.thread != s.thread
  }

  /** What a step of the worker leaves alone. */
  lemma ThreadFrame(s: State, t: State, lib: Library, start: Store)
    requires ThreadStep(s, t, lib, start)
    ensures SameButForThread(s, t)
  {
    hide Act, Answer, SameButForThread;
    var g, cmd := s.thread.g, s.thread.cmd;
    if s.thread.Acting? {
      var res: Res, after: Store :| Act(lib, s.store, cmd, res, after) && t == Answer(s, g, cmd, res, after, start);
      AnswerFrame(s, t, g, cmd, res, after, start);
    } else if after: Store :| lib.fails(s.store, cmd, after) && t == Answer(s, g, cmd, Abi, after, start) {
      AnswerFrame(s, t, g, cmd, Abi, after, start);
    } else if Needs(cmd) <= s.store.Keys {
      FoundFrame(s, t);
    } else {
      AnswerFrame(s, t, g, cmd, AbsenceOf(cmd), s.store, start);
    }
  }

  lemma FoundFrame(s: State, t: State)
    requires s.thread.Checking? && t == s.(thread := Acting(s.thread.g, s.thread.cmd))
    ensures SameButForThread(s, t)
  {
  }

  /** What a caller's step leaves alone; only leaving the mutex completes a call. */
  lemma CallerFrame(s: State, t: State, h: Gid, start: Store)
    requires h in s.callers && CallerStep(s, t, h, start)
    ensures h in t.callers && t.callers == s.callers[h := t.callers[h]]
    ensures t.store == s.store && t.closes == s.closes && |s.history| <= |t.history| && (s.closed ==> t.closed)
    ensures s.thread != Receiving ==> t.thread == s.thread
    ensures !t.callers[h].Outside? ==>
              t.callers[h].since == if s.callers[h].Outside? then |s.history| else s.callers[h].since
    ensures s.calls <= t.calls
    ensures s.calls == t.calls || (!s.callers[h].Outside? && |t.calls| == |s.calls| + 1
              && t.calls[|s.calls|].g == h && t.calls[|s.calls|].since == s.callers[h].since)
  {
  }

  lemma LaterIsKept(s: State, t: State, lib: Library, start: Store, g: Gid, since: nat, done: nat)
    requires Next(s, t, lib, start) && Later(s, g, since, done)
    ensures Later(t, g, since, done) && s.calls <= t.calls
  {
    hide ThreadStep, CallerStep;
    if ThreadStep(s, t, lib, start) {
      ThreadFrame(s, t, lib, start);
    } else {
      var h: Gid :| h in s.callers && CallerStep(s, t, h, start);
      CallerFrame(s, t, h, start);
    }
  }

  /**
   Real time: a call made after another had returned takes effect after it.  Here m is any state
   in which g is between calls; what had returned by then comes first.
   */
  lemma {:induction false} RealTime(run: seq<State>, lib: Library, start: Store, m: nat, n: nat, g: Gid)
    requires IsRun(run, lib, start) && m <= n < |run| && g in run[m].callers && run[m].callers[g].Outside?
    ensures run[m].calls <= run[n].calls
    ensures Later(run[n], g, |run[m].history|, |run[m].calls|)
    ensures forall i, j :: 0 <= i < |run[m].calls| <= j < |run[n].calls| && run[n].calls[j].g == g ==>
              run[n].calls[i].at < run[n].calls[j].since <= run[n].calls[j].at
    decreases n
  {
    hide Next, Legal;
    RunKeepsInvariant(run, lib, start, n);
    RunKeepsInvariant(run, lib, start, m);
    if m < n {
      RealTime(run, lib, start, m, n - 1, g);
      LaterIsKept(run[n - 1], run[n], lib, start, g, |run[m].history|, |run[m].calls|);
    }
  }

  /**
   Check then act: at the moment at which a call takes effect it reports an absent record if and
   only if the record is absent from the store that the call found, unless the library failed or
   the database was closed; and then it changes nothing.
   */
  lemma AbsenceIsExact(run: seq<State>, lib: Library, start: Store, n: nat, i: nat)
    requires IsRun(run, lib, start) && n < |run| && i < |run[n].history|
    requires var e := run[n].history[i]; !e.pre.closed && e.res != Abi
    ensures var e := run[n].history[i];
            && (e.cmd.Get? ==> (e.res == NoPayload <==> e.cmd.id !in e.pre.store))
            && (e.cmd.Query? || e.cmd.Update? || e.cmd.Remove? ==>
                  (e.res == NotFound <==> e.cmd.id !in e.pre.store))
            && (e.res == NoPayload || e.res == NotFound ==> e.post == e.pre)
  {
    RunKeepsInvariant(run, lib, start, n);
    assert Sequential(lib, run[n].history[i].pre, run[n].history[i].cmd, run[n].history[i].res, run[n].history[i].post);
  }

  /** What a call that succeeded has done, looked at record by record. */
  lemma SuccessIsExact(run: seq<State>, lib: Library, start: Store, n: nat, i: nat)
    requires IsRun(run, lib, start) && n < |run| && i < |run[n].history|
    requires var e := run[n].history[i]; !e.pre.closed && e.res !in {Abi, NoPayload, NotFound}
    ensures var e := run[n].history[i];
            var before, after := e.pre.store, e.post.store;
            && e.post.closed == (e.cmd == Close)
            && (e.cmd.Insert? ==> e.res.Inserted? && e.res.id !in before && Holds(after, e.res.id, e.cmd.data))
            && (e.cmd.Get? ==> e.res.Payload? && Holds(before, e.cmd.id, e.res.data))
            && (e.cmd.Query? ==>
                  e.cmd.id in before && e.res == Payload(lib.project(before[e.cmd.id], e.cmd.selection)))
            && (e.cmd.Update? ==> e.res == Done && e.cmd.id in before && Holds(after, e.cmd.id, e.cmd.data))
            && (e.cmd.Remove? ==> e.res == Done && e.cmd.id in before && e.cmd.id !in after)
            && (e.cmd.Close? ==> e.res == Done)
            && forall id :: !Writes(e, id) ==>
                 (id in after <==> id in before) && (id in after ==> after[id] == before[id])
  {
    RunKeepsInvariant(run, lib, start, n);
    assert Sequential(lib, run[n].history[i].pre, run[n].history[i].cmd, run[n].history[i].res, run[n].history[i].post);
  }

  predicate Holds(store: Store, id: Rid, data: Data) {
    id in store && store[id] == data
  }

  /** The call inserts, updates or removes this record. */
  predicate Writes(e: Entry, id: Rid) {
    match e.cmd
    case Insert(_) => e.res == Inserted(id)
    case Update(x, _) => x == id
    case Remove(x) => x == id
    case _ => false
  }

  /** No call between these two wrote the record, and none failed in the library. */
  predicate Untouched(h: seq<Entry>, i: nat, j: nat, id: Rid)
    requires i <= j <= |h|
  {
    forall k :: i <= k < j ==> !Writes(h[k], id) && h[k].res != Abi
  }

  lemma {:induction false} RecordStays(lib: Library, start: Db, h: seq<Entry>, i: nat, j: nat, id: Rid)
    requires Legal(lib, start, h) && i < j < |h| && Untouched(h, i + 1, j, id)
    ensures var before, after := h[i].post.store, h[j].pre.store;
            (id in after <==> id in before) && (id in after ==> after[id] == before[id])
    decreases j
  {
    hide Sequential, Writes;
    assert h[j].pre == h[j - 1].post;
    if i + 1 < j {
      RecordStays(lib, start, h, i, j - 1, id);
      EntryFrame(lib, h[j - 1], id);
    }
  }

  lemma EntryFrame(lib: Library, e: Entry, id: Rid)
    requires Sequential(lib, e.pre, e.cmd, e.res, e.post) && !Writes(e, id) && e.res != Abi
    ensures id in e.post.store <==> id in e.pre.store
    ensures id in e.post.store ==> e.post.store[id] == e.pre.store[id]
  {
  }

  lemma WriteEffect(lib: Library, e: Entry, id: Rid)
    requires Sequential(lib, e.pre, e.cmd, e.res, e.post) && Writes(e, id) && e.res in {Inserted(id), Done}
    requires !e.pre.closed
    ensures match e.cmd
            case Insert(data) => Holds(e.post.store, id, data)
            case Update(_, data) => Holds(e.post.store, id, data)
            case Remove(_) => id !in e.post.store
            case _ => false
  {
  }

  lemma GetEffect(lib: Library, e: Entry, id: Rid)
    requires Sequential(lib, e.pre, e.cmd, e.res, e.post) && e.cmd == Get(id) && e.res !in {Abi, ErrClosed}
    ensures e.res == if id in e.pre.store then Payload(e.pre.store[id]) else NoPayload
  {
  }

  /**
   Reads see the last write: after an insertion or an update that succeeded a Get of that record
   gives its data, and after a removal none, until it is written again.
   */
  lemma ReadsSeeTheLastWrite(run: seq<State>, lib: Library, start: Store, n: nat, i: nat, j: nat, id: Rid)
    requires IsRun(run, lib, start) && n < |run| && i < j < |run[n].history|
    requires var h := run[n].history;
             && Writes(h[i], id) && h[i].res in {Inserted(id), Done} && !h[i].pre.closed
             && Untouched(h, i + 1, j, id) && h[j].cmd == Get(id) && h[j].res !in {Abi, ErrClosed}
    ensures var h := run[n].history;
            h[j].res == match h[i].cmd
                        case Insert(data) => Payload(data)
                        case Update(_, data) => Payload(data)
                        case _ => NoPayload
  {
    hide IsRun, Sequential, Writes, Untouched;
    RunKeepsInvariant(run, lib, start, n);
    var h := run[n].history;
    RecordStays(lib, Db(start, false), h, i, j, id);
    WriteEffect(lib, h[i], id);
    GetEffect(lib, h[j], id);
  }

  /** Nothing slips in between: whenever the call proper is about to be made, its record is still there. */
  lemma ActingFindsItsRecord(run: seq<State>, lib: Library, start: Store, n: nat)
    requires IsRun(run, lib, start) && n < |run| && run[n].thread.Acting?
    ensures var cmd := run[n].thread.cmd;
            cmd.Get? || cmd.Query? || cmd.Update? || cmd.Remove? ==> cmd.id in run[n].store
  {
    RunKeepsInvariant(run, lib, start, n);
  }

  /** The handle is closed at most once, and just when the worker ends; nobody is left at the channel. */
  lemma ClosedOnce(run: seq<State>, lib: Library, start: Store, n: nat)
    requires IsRun(run, lib, start) && n < |run|
    ensures run[n].closes == if run[n].thread == Exited then 1 else 0
    ensures run[n].closed ==> run[n].thread == Exited
    ensures run[n].thread == Exited ==>
              forall g :: g in run[n].callers ==>
                !run[n].callers[g].Sending? && (run[n].callers[g].Awaiting? ==> g in run[n].box)
  {
    RunKeepsInvariant(run, lib, start, n);
    var s := run[n];
    forall g | g in s.callers && Inside(s.callers[g]) ensures CallerFits(s, g, s.callers[g]) && s.owner == {g} {
    }
    if s.owner != {} {
      var g :| g in s.owner;
      assert CallerFits(s, g, s.callers[g]);
    }
  }

  lemma ClosedEntry(lib: Library, e: Entry)
    requires Sequential(lib, e.pre, e.cmd, e.res, e.post)
    ensures e.pre.closed ==> e.post == e.pre && e.res == if e.cmd == Close then Done else ErrClosed
    ensures e.cmd == Close ==> e.post.closed
  {
  }

  lemma {:induction false} ClosedStays(lib: Library, start: Db, h: seq<Entry>, i: nat, j: nat)
    requires Legal(lib, start, h) && i <= j <= |h| && Before(start, h, i).closed
    ensures Before(start, h, j) == Before(start, h, i)
    decreases j
  {
    hide Sequential;
    if i < j {
      ClosedStays(lib, start, h, i, j - 1);
      ClosedEntry(lib, h[j - 1]);
    }
  }

  /** Close closes: once it has taken effect the handle is closed, and every operation after it is refused. */
  lemma CloseRefusesTheRest(run: seq<State>, lib: Library, start: Store, n: nat, i: nat, j: nat)
    requires IsRun(run, lib, start) && n < |run| && i < |run[n].history| && run[n].history[i].cmd == Close
    ensures run[n].closes == 1
    ensures i < j < |run[n].history| ==>
              run[n].history[j].res == if run[n].history[j].cmd == Close then Done else ErrClosed
  {
    hide Sequential;
    RunKeepsInvariant(run, lib, start, n);
    var h := run[n].history;
    ClosedEntry(lib, h[i]);
    ClosedStays(lib, Db(start, false), h, i + 1, |h|);
    if i < j < |h| {
      ClosedStays(lib, Db(start, false), h, i + 1, j);
      ClosedEntry(lib, h[j]);
    }
  }

  /** After the handle is closed nothing runs on it: the worker stays gone and the store as it is. */
  lemma {:induction false} NothingAfterClose(run: seq<State>, lib: Library, start: Store, m: nat, n: nat)
    requires IsRun(run, lib, start) && m <= n < |run| && run[m].thread == Exited
    ensures run[n].thread == Exited && run[n].store == run[m].store && run[n].closes == 1
    ensures run[m].closed ==> run[n].closed
    decreases n
  {
    hide CallerStep;
    ClosedOnce(run, lib, start, n);
    if m < n {
      NothingAfterClose(run, lib, start, m, n - 1);
      assert Next(run[n - 1], run[n], lib, start);
      var h: Gid :| h in run[n - 1].callers && CallerStep(run[n - 1], run[n], h, start);
      CallerFrame(run[n - 1], run[n], h, start);
    }
  }

  // ---------------------------------------------------------------- progress

  /** How many steps the owner of the mutex is away from leaving it. */
  function Rank(s: State, g: Gid): nat
    requires g in s.callers
  {
    match s.callers[g]
    case Locked(_, _) => 5
    case Sending(_, _) => 4
    case Awaiting(_, _) => if g in s.box then 1 else if s.thread.Acting? then 2 else 3
    case Leaving(_, _, _, _) => 0
    case _ => 6
  }

  /** The step that the owner's call is waiting for: its own, or the worker's. */
  ghost predicate Advances(s: State, t: State, g: Gid, lib: Library, start: Store)
    requires g in s.callers
  {
    CallerStep(s, t, g, start) || (s.callers[g].Awaiting? && g !in s.box && ThreadStep(s, t, lib, start))
  }

  lemma FreshId(used: set<Rid>) returns (id: Rid)
    ensures id !in used
  {
    id := Above(used);
    id := id + 1;
  }

  lemma {:induction false} Above(used: set<Rid>) returns (y: Rid)
    ensures forall x :: x in used ==> x <= y
  {
    y := 0;
    if used != {} {
      var x :| x in used;
      var z := Above(used - {x});
      y := if x > z then x else z;
      assert forall w :: w in used ==> w == x || w in used - {x};
    }
  }

  /** A call that finds its record can succeed. */
  lemma CanSucceed(lib: Library, store: Store, cmd: Cmd) returns (res: Res, after: Store)
    requires Needs(cmd) <= store.Keys
    ensures res != Abi && Act(lib, store, cmd, res, after)
  {
    match cmd
    case Insert(data) =>
      var id := FreshId(store.Keys);
      res, after := Inserted(id), store[id := data];
    case Get(id) => res, after := Payload(store[id]), store;
    case Query(id, sel) => res, after := Payload(lib.project(store[id], sel)), store;
    case Update(id, data) => res, after := Done, store[id := data];
    case Remove(id) => res, after := Done, store - {id};
    case Close => res, after := Done, store;
  }

  /** A worker that has a job can move, even if the library never fails. */
  lemma WorkerMove(s: State, lib: Library, start: Store) returns (t: State)
    requires s.thread.Checking? || (s.thread.Acting? && Needs(s.thread.cmd) <= s.store.Keys)
    ensures ThreadStep(s, t, lib, start)
  {
    var g, cmd := s.thread.g, s.thread.cmd;
    if s.thread.Acting? {
      var res, after := CanSucceed(lib, s.store, cmd);
      t := Answer(s, g, cmd, res, after, start);
    } else {
      t := if Needs(cmd) <= s.store.Keys then s.(thread := Acting(g, cmd))
           else Answer(s, g, cmd, AbsenceOf(cmd), s.store, start);
    }
  }

  /** Nobody inside the mutex is ever stuck: a caller that waits has a worker that can move. */
  lemma OwnerCanMove(run: seq<State>, lib: Library, start: Store, n: nat, g: Gid) returns (t: State)
    requires IsRun(run, lib, start) && n < |run| && g in run[n].callers && Inside(run[n].callers[g])
    ensures Advances(run[n], t, g, lib, start)
  {
    hide Legal, HistoryFits, CallsFit;
    RunKeepsInvariant(run, lib, start, n);
    var s := run[n];
    assert CallerFits(s, g, s.callers[g]);
    match s.callers[g]
    case Locked(cmd, since) =>
      var res := if cmd == Close then Done else ErrClosed;
      var db := Now(Db(start, false), s.history);
      var e := Entry(g, cmd, res, db, db);
      t := if s.closed then At(s, g, Leaving(cmd, since, |s.history|, res)).(history := s.history + [e])
           else At(s, g, Sending(cmd, since));
    case Sending(cmd, since) =>
      t := At(s, g, Awaiting(cmd, since)).(thread := if Needs(cmd) == {} then Acting(g, cmd) else Checking(g, cmd));
    case Awaiting(cmd, since) =>
      if g in s.box {
        t := At(s, g, Leaving(cmd, since, |s.history| - 1, s.box[g]))
               .(box := s.box - {g}, closed := s.closed || cmd == Close);
      } else {
        t := WorkerMove(s, lib, start);
      }
    case Leaving(cmd, since, at, res) =>
      t := At(s, g, Outside).(owner := {}, calls := s.calls + [Call(g, cmd, res, since, at, |s.history|)]);
  }

  lemma ThreadAdvances(s: State, t: State, lib: Library, start: Store, g: Gid)
    requires Invariant(s, lib, start) && ThreadStep(s, t, lib, start) && g in s.callers && Inside(s.callers[g])
    ensures t.callers == s.callers && Advances(s, t, g, lib, start) && Rank(t, g) < Rank(s, g)
  {
    hide Legal, HistoryFits, CallsFit, Act;
    ThreadFrame(s, t, lib, start);
    assert CallerFits(s, g, s.callers[g]);
  }

  lemma OwnStepAdvances(s: State, t: State, start: Store, g: Gid)
    requires g in s.callers && Inside(s.callers[g]) && CallerStep(s, t, g, start)
    ensures g in t.callers && (t.owner == {} || (Inside(t.callers[g]) && Rank(t, g) < Rank(s, g)))
  {
  }

  /** And no other step delays it: after at most six such steps the mutex is free again. */
  lemma OwnerAdvances(run: seq<State>, lib: Library, start: Store, n: nat, g: Gid)
    requires IsRun(run, lib, start) && n + 1 < |run| && g in run[n].callers && Inside(run[n].callers[g])
    ensures g in run[n + 1].callers
    ensures Advances(run[n], run[n + 1], g, lib, start) ==>
              run[n + 1].owner == {} || (Inside(run[n + 1].callers[g]) && Rank(run[n + 1], g) < Rank(run[n], g))
    ensures !Advances(run[n], run[n + 1], g, lib, start) ==>
              && run[n + 1].callers[g] == run[n].callers[g] && run[n + 1].owner == run[n].owner
              && Rank(run[n + 1], g) == Rank(run[n], g)
  {
    hide HistoryFits, CallsFit, ThreadStep;
    RunKeepsInvariant(run, lib, start, n);
    var s, t := run[n], run[n + 1];
    if ThreadStep(s, t, lib, start) {
      ThreadAdvances(s, t, lib, start, g);
    } else {
      var h: Gid :| h in s.callers && CallerStep(s, t, h, start);
      if h == g {
        OwnStepAdvances(s, t, start, g);
      } else {
        assert CallerFits(s, g, s.callers[g]);
      }
    }
  }

  // ---------------------------------------------------------------- an example

  /** A run goes on. */
  lemma Then(lib: Library, start: Store, run: seq<State>, t: State, g: Gid) returns (longer: seq<State>)
    requires IsRun(run, lib, start)
    requires var s := run[|run| - 1]; ThreadStep(s, t, lib, start) || (g in s.callers && CallerStep(s, t, g, start))
    ensures longer == run + [t] && IsRun(longer, lib, start)
  {
    hide ThreadStep, CallerStep;
    longer := run + [t];
    forall i | 0 <= i < |run| ensures Next(longer[i], longer[i + 1], lib, start) {
      assert i < |run| - 1 ==> longer[i] == run[i] && longer[i + 1] == run[i + 1];
    }
  }

  /** A caller has entered the mutex with a command, and the worker thread has taken it. */
  function Taken(cmd: Cmd): State {
    var s0 := State(map[], 0, {}, false, Receiving, map[0 := Outside], map[], [], []);
    var s2 := At(At(s0, 0, Locking(cmd, 0)), 0, Locked(cmd, 0)).(owner := {0});
    At(At(s2, 0, Sending(cmd, 0)), 0, Awaiting(cmd, 0)).(thread := Checking(0, cmd))
  }

  lemma RunToTaken(lib: Library, cmd: Cmd) returns (run: seq<State>)
    requires cmd.Get?
    ensures IsRun(run, lib, map[]) && |run| == 5 && run[4] == Taken(cmd)
  {
    var start: Store := map[];
    var s0 := State(start, 0, {}, false, Receiving, map[0 := Outside], map[], [], []);
    var s1 := At(s0, 0, Locking(cmd, 0));
    var s2 := At(s1, 0, Locked(cmd, 0)).(owner := {0});
    var s3 := At(s2, 0, Sending(cmd, 0));
    run := [s0];
    assert IsRun(run, lib, start);
    hide IsRun;
    run := Then(lib, start, run, s1, 0);
    run := Then(lib, start, run, s2, 0);
    run := Then(lib, start, run, s3, 0);
    run := Then(lib, start, run, Taken(cmd), 0);
  }

  /** A call for an absent record, from its invocation to its return. */
  lemma AbsentRecord(lib: Library, id: Rid) returns (run: seq<State>)
    ensures IsRun(run, lib, map[]) && |run| == 8
    ensures run[7].calls == [Call(0, Get(id), NoPayload, 0, 0, 1)] && run[7].owner == {}
  {
    hide IsRun;
    var cmd, start: Store := Get(id), map[];
    var s4 := Taken(cmd);
    var s5 := Answer(s4, 0, cmd, NoPayload, start, start);
    var s6 := At(s5, 0, Leaving(cmd, 0, 0, NoPayload)).(box := s5.box - {0}, closed := false);
    var s7 := At(s6, 0, Outside).(owner := {}, calls := [Call(0, cmd, NoPayload, 0, 0, 1)]);
    run := RunToTaken(lib, cmd);
    run := Then(lib, start, run, s5, 0);
    run := Then(lib, start, run, s6, 0);
    run := Then(lib, start, run, s7, 0);
  }
}
