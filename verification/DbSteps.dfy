/** INSERT and SELECT running at once.  Every thread goes through its operation in
    small steps, any interleaving of which may happen; a read-write lock decides which
    steps can be taken. */
module DbSteps {
  import opened Options
  import opened Text
  import opened DbModel
  import opened DataFile

  // ---------------------------------------------------------------- states

  /** The shared memory and the data file. */
  datatype Engine = Engine(file: string, slots: seq<Record>, count: nat, nextId: int, index: map<int, nat>)

  /** The request of an insertion that was accepted, its row, and the row's position. */
  datatype Job = Job(q: Request, since: nat, r: Record, pos: nat)

  /** Where a thread stands.  since counts the insertions that were complete when the
      operation was called. */
  datatype Pc =
    | Idle
    // db_insert_internal
    | WantWrite(q: Request, since: nat)
    | Checking(q: Request, since: nat)
    | Reserving(job: Job)
    | Appending(job: Job)
    | Storing(job: Job)
    | Counting(job: Job)
    | Numbering(job: Job)
    | Indexing(job: Job)
    | LeavingWrite(q: Request, since: nat, outcome: Outcome)
    | InsertDone(q: Request, since: nat, at: nat, outcome: Outcome)
    // db_select_projected
    | WantRead(filter: Filter, since: nat)
    | Looking(filter: Filter, since: nat)
    | Scanning(filter: Filter, since: nat, i: nat, found: seq<Record>)
    | LeavingRead(filter: Filter, since: nat, found: seq<Record>)
    | SelectDone(filter: Filter, since: nat, found: seq<Record>, at: nat)

  /** done lists the insertions in the order in which they completed. */
  datatype State = State(e: Engine, done: seq<Request>, writer: Option<nat>, readers: set<nat>, pcs: seq<Pc>)

  predicate InWrite(pc: Pc) {
    pc.Checking? || pc.Reserving? || pc.Appending? || pc.Storing? || pc.Counting? || pc.Numbering? || pc.Indexing?
    || pc.LeavingWrite?
  }

  predicate InRead(pc: Pc) {
    pc.Looking? || pc.Scanning? || pc.LeavingRead?
  }

  // ---------------------------------------------------------------- steps

  function Doubled(capacity: nat, needed: nat): (c: nat)
    requires capacity > 0
    ensures c >= needed && c >= capacity
    decreases needed - capacity
  {
    if capacity >= needed then capacity else Doubled(2 * capacity, needed)
  }

  /** db_reserve_records: new slots hold nothing yet. */
  function Reserved(slots: seq<Record>, needed: nat): seq<Record> {
    if needed <= |slots| then slots
    else
      var capacity := Doubled(if |slots| == 0 then 64 else |slots|, needed);
      slots + seq(capacity - |slots|, _ => Record(0, "", 0))
  }

  /** A store outside the array would be lost; the invariant rules it out. */
  function StoredAt(slots: seq<Record>, i: nat, r: Record): seq<Record> {
    if i < |slots| then slots[i := r] else slots
  }

  function Check(e: Engine, q: Request, since: nat): Pc {
    if (q.hasId && q.id <= 0) || q.age < 0 || !NameIsValid(q.name) then LeavingWrite(q, since, BadValue)
    else if q.hasId && q.id in e.index then LeavingWrite(q, since, DuplicateId)
    else Reserving(Job(q, since, Record(if q.hasId then q.id else e.nextId, Clip(q.name), q.age), e.count))
  }

  function Look(e: Engine, filter: Filter, since: nat): Pc {
    if filter.ById? then
      LeavingRead(filter, since,
                  if filter.id in e.index && e.index[filter.id] < e.count && e.index[filter.id] < |e.slots|
                  then [e.slots[e.index[filter.id]]] else [])
    else Scanning(filter, since, 0, [])
  }

  function Scanned(e: Engine, filter: Filter, since: nat, i: nat, found: seq<Record>): Pc {
    if i < e.count && i < |e.slots| then
      Scanning(filter, since, i + 1, if Matches(e.slots[i], filter) then found + [e.slots[i]] else found)
    else LeavingRead(filter, since, found)
  }

  /** What a step inside the lock does to the engine, and where it leads. */
  function EngineStep(e: Engine, pc: Pc): (Engine, Pc) {
    match pc
    case Checking(q, since) => (e, Check(e, q, since))
    case Reserving(job) => (e.(slots := Reserved(e.slots, e.count + 1)), Appending(job))
    case Appending(job) => (e.(file := e.file + Line(job.r)), Storing(job))
    case Storing(job) => (e.(slots := StoredAt(e.slots, job.pos, job.r)), Counting(job))
    case Counting(job) => (e.(count := e.count + 1), Numbering(job))
    case Numbering(job) =>
      (if job.r.id >= e.nextId && job.r.id < INT_MAX then e.(nextId := job.r.id + 1) else e, Indexing(job))
    case Indexing(job) => (e.(index := e.index[job.r.id := job.pos]), LeavingWrite(job.q, job.since, Inserted(job.r)))
    case Looking(filter, since) => (e, Look(e, filter, since))
    case Scanning(filter, since, i, found) => (e, Scanned(e, filter, since, i, found))
    case _ => (e, pc)
  }

  predicate CanMove(s: State, t: nat) {
    && t < |s.pcs|
    && match s.pcs[t]
       case Idle => false
       case InsertDone(_, _, _, _) => false
       case SelectDone(_, _, _, _) => false
       case WantWrite(_, _) => s.writer == None && s.readers == {}
       case WantRead(_, _) => s.writer == None
       case _ => true
  }

  /** The next step of a thread inside its operation. */
  function Move(s: State, t: nat): State
    requires CanMove(s, t)
  {
    match s.pcs[t]
    case WantWrite(q, since) => s.(writer := Some(t), pcs := s.pcs[t := Checking(q, since)])
    case WantRead(filter, since) => s.(readers := s.readers + {t}, pcs := s.pcs[t := Looking(filter, since)])
    case LeavingWrite(q, since, o) =>
      s.(writer := None, done := s.done + [q], pcs := s.pcs[t := InsertDone(q, since, |s.done|, o)])
    case LeavingRead(filter, since, found) =>
      s.(readers := s.readers - {t}, pcs := s.pcs[t := SelectDone(filter, since, found, |s.done|)])
    case pc =>
      var (e, next) := EngineStep(s.e, pc);
      s.(e := e, pcs := s.pcs[t := next])
  }

  datatype Event = CallInsert(t: nat, q: Request) | CallSelect(t: nat, filter: Filter) | Step(t: nat)

  predicate Enabled(s: State, ev: Event) {
    match ev
    case CallInsert(t, q) => t < |s.pcs| && Resting(s.pcs[t]) && IsRequest(q)
    case CallSelect(t, _) => t < |s.pcs| && Resting(s.pcs[t])
    case Step(t) => CanMove(s, t)
  }

  predicate Resting(pc: Pc) {
    pc.Idle? || pc.InsertDone? || pc.SelectDone?
  }

  function Do(s: State, ev: Event): State
    requires Enabled(s, ev)
  {
    match ev
    case CallInsert(t, q) => s.(pcs := s.pcs[t := WantWrite(q, |s.done|)])
    case CallSelect(t, filter) => s.(pcs := s.pcs[t := WantRead(filter, |s.done|)])
    case Step(t) => Move(s, t)
  }

  // ---------------------------------------------------------------- the invariant

  /** The engine is the one of this store: array, counter, index and file agree. */
  predicate Settled(e: Engine, st: Store) {
    && AreRows(st.rows)
    && e.count == |st.rows| <= |e.slots|
    && e.slots[..e.count] == st.rows
    && e.file == st.file
    && e.nextId == NextId(st.rows)
    && e.index == LastIndex(st.rows)
  }

  /** The insertion was accepted by a table with these rows. */
  predicate Accepted(job: Job, st: Store, done: seq<Request>) {
    && IsRequest(job.q)
    && job.since <= |done|
    && job.pos == |st.rows|
    && Decide(st.rows, job.q.hasId, job.q.id, job.q.name, job.q.age) == Inserted(job.r)
  }

  /** What the engine looks like while the writer stands at pc: how much of the
      insertion has happened. */
  predicate Halfway(e: Engine, st: Store, pc: Pc) {
    match pc
    case Checking(_, _) => Settled(e, st)
    case Reserving(job) => Settled(e, st)
    case Appending(job) => Settled(e, st) && e.count < |e.slots|
    case Storing(job) => Settled(e, st.(file := st.file + Line(job.r))) && e.count < |e.slots|
    case Counting(job) =>
      Settled(e, st.(file := st.file + Line(job.r))) && e.count < |e.slots| && e.slots[e.count] == job.r
    case Numbering(job) =>
      && AreRows(st.rows)
      && e.count == |st.rows| + 1 <= |e.slots|
      && e.slots[..e.count] == st.rows + [job.r]
      && e.file == st.file + Line(job.r)
      && e.nextId == NextId(st.rows)
      && e.index == LastIndex(st.rows)
    case Indexing(job) =>
      && AreRows(st.rows)
      && e.count == |st.rows| + 1 <= |e.slots|
      && e.slots[..e.count] == st.rows + [job.r]
      && e.file == st.file + Line(job.r)
      && e.nextId == NextId(st.rows + [job.r])
      && e.index == LastIndex(st.rows)
    case LeavingWrite(q, _, o) =>
      Settled(e, Commit(st, q))
    case _ => true
  }

  /** What holds of a thread, whatever the others do. */
  predicate ThreadOk(st0: Store, done: seq<Request>, pc: Pc) {
    var st := RunFrom(st0, done);
    match pc
    case Idle => true
    case WantWrite(q, since) => IsRequest(q) && since <= |done|
    case Checking(q, since) => IsRequest(q) && since <= |done|
    case Reserving(job) => Accepted(job, st, done)
    case Appending(job) => Accepted(job, st, done)
    case Storing(job) => Accepted(job, st, done)
    case Counting(job) => Accepted(job, st, done)
    case Numbering(job) => Accepted(job, st, done)
    case Indexing(job) => Accepted(job, st, done)
    case LeavingWrite(q, since, o) =>
      IsRequest(q) && since <= |done| && o == Decide(st.rows, q.hasId, q.id, q.name, q.age)
    case InsertDone(q, since, at, o) => InsertAnswered(st0, done, q, since, at, o)
    case WantRead(_, since) => since <= |done|
    case Looking(_, since) => since <= |done|
    case Scanning(filter, since, i, found) =>
      since <= |done| && !filter.ById? && i <= |st.rows| && found == Scan(st.rows[..i], filter)
    case LeavingRead(filter, since, found) => since <= |done| && found == Selected(st.rows, filter)
    case SelectDone(filter, since, found, at) => SelectAnswered(st0, done, filter, since, found, at)
  }

  /** The insertion is the one at position at among the completed ones, it completed
      after it was called, and it was decided on the table that the ones before it left. */
  predicate InsertAnswered(st0: Store, done: seq<Request>, q: Request, since: nat, at: nat, o: Outcome) {
    && since <= at < |done|
    && done[at] == q
    && o == Decide(RunFrom(st0, done[..at]).rows, q.hasId, q.id, q.name, q.age)
  }

  /** The select saw the table after the first at completed insertions; all that were
      complete at its call are among them, and none completed after its return. */
  predicate SelectAnswered(st0: Store, done: seq<Request>, filter: Filter, since: nat, found: seq<Record>, at: nat) {
    since <= at <= |done| && found == Selected(RunFrom(st0, done[..at]).rows, filter)
  }

  predicate LockOk(s: State) {
    && (forall t :: 0 <= t < |s.pcs| ==> (InWrite(s.pcs[t]) <==> s.writer == Some(t)))
    && (forall t :: 0 <= t < |s.pcs| ==> (InRead(s.pcs[t]) <==> t in s.readers))
    && (s.writer.Some? ==> s.writer.value < |s.pcs| && s.readers == {})
    && (forall t <- s.readers :: t < |s.pcs|)
  }

  predicate EngineOk(s: State, st0: Store) {
    var st := RunFrom(st0, s.done);
    if s.writer.Some? && s.writer.value < |s.pcs| then Halfway(s.e, st, s.pcs[s.writer.value]) else Settled(s.e, st)
  }

  predicate ThreadsOk(s: State, st0: Store) {
    forall t :: 0 <= t < |s.pcs| ==> ThreadOk(st0, s.done, s.pcs[t])
  }

  predicate Inv(s: State, st0: Store) {
    && AreRows(st0.rows)
    && AreRequests(s.done)
    && LockOk(s)
    && EngineOk(s, st0)
    && ThreadsOk(s, st0)
  }

  // ---------------------------------------------------------------- the steps of the writer

  lemma {:induction false} CheckDecides(e: Engine, st: Store, q: Request, since: nat, done: seq<Request>)
    requires Settled(e, st) && IsRequest(q) && since <= |done|
    ensures var pc, o := Check(e, q, since), Decide(st.rows, q.hasId, q.id, q.name, q.age);
      && (o.Inserted? ==> pc.Reserving? && Accepted(pc.job, st, done) && pc.job.q == q && pc.job.since == since)
      && (!o.Inserted? ==> pc == LeavingWrite(q, since, o) && Commit(st, q) == st)
  {
    hide NextId, LastIndex, NameIsValid, AreRows, HasId;
    LastIndexIs(st.rows, q.id);
  }

  lemma {:induction false} ReservedFits(slots: seq<Record>, needed: nat)
    ensures |Reserved(slots, needed)| >= needed && slots <= Reserved(slots, needed)
  {
  }

  lemma {:induction false} AcceptedRow(job: Job, st: Store, done: seq<Request>)
    requires Accepted(job, st, done) && AreRows(st.rows)
    ensures Commit(st, job.q) == Store(st.rows + [job.r], st.file + Line(job.r))
    ensures AreRows(st.rows + [job.r]) && job.pos == |st.rows|
    ensures NextId(st.rows + [job.r])
      == if job.r.id >= NextId(st.rows) && job.r.id < INT_MAX then job.r.id + 1 else NextId(st.rows)
    ensures LastIndex(st.rows + [job.r]) == LastIndex(st.rows)[job.r.id := job.pos]
  {
    hide NextId, LastIndex, Line;
    InsertedIsRow(st.rows, job.q);
    NextIdStep(st.rows, job.r);
  }

  predicate HasJob(pc: Pc) {
    pc.Reserving? || pc.Appending? || pc.Storing? || pc.Counting? || pc.Numbering? || pc.Indexing?
  }

  /** One step of an accepted insertion brings the engine to the next stage. */
  lemma {:induction false} JobStep(e: Engine, st: Store, pc: Pc, done: seq<Request>)
    requires HasJob(pc) && Accepted(pc.job, st, done) && Halfway(e, st, pc)
    ensures var (e', next) := EngineStep(e, pc);
      && Halfway(e', st, next)
      && (next == LeavingWrite(pc.job.q, pc.job.since, Inserted(pc.job.r)) || (HasJob(next) && next.job == pc.job))
  {
    hide NextId, LastIndex, Line, AreRows, Accepted, Commit, Reserved;
    AcceptedRow(pc.job, st, done);
    ReservedFits(e.slots, e.count + 1);
  }

  // ---------------------------------------------------------------- the steps of a reader

  lemma {:induction false} LookFinds(e: Engine, st: Store, filter: Filter, since: nat, done: seq<Request>)
    requires Settled(e, st) && since <= |done|
    ensures var pc := Look(e, filter, since);
      && (filter.ById? ==> pc == LeavingRead(filter, since, Selected(st.rows, filter)))
      && (!filter.ById? ==> pc == Scanning(filter, since, 0, []) && Scan(st.rows[..0], filter) == [])
  {
    hide NextId, LastIndex, AreRows;
    if filter.ById? {
      LastIndexIs(st.rows, filter.id);
    }
  }

  lemma {:induction false} ScanOn(e: Engine, st: Store, filter: Filter, since: nat, i: nat)
    requires Settled(e, st) && i <= |st.rows| && !filter.ById?
    ensures var pc := Scanned(e, filter, since, i, Scan(st.rows[..i], filter));
      && (i < |st.rows| ==> pc == Scanning(filter, since, i + 1, Scan(st.rows[..i + 1], filter)))
      && (i == |st.rows| ==> pc == LeavingRead(filter, since, Selected(st.rows, filter)))
  {
    hide NextId, LastIndex, AreRows;
    if i < |st.rows| {
      assert st.rows[..i + 1][..i] == st.rows[..i];
      assert e.slots[..e.count][i] == e.slots[i];
    } else {
      assert st.rows[..i] == st.rows;
    }
  }

  // ---------------------------------------------------------------- every step keeps the invariant

  /** Completed insertions stay completed, and the tables before them stay the same. */
  lemma {:induction false} OutsideKept(st0: Store, done: seq<Request>, q: Request, pc: Pc)
    requires ThreadOk(st0, done, pc) && !InWrite(pc) && !InRead(pc)
    ensures ThreadOk(st0, done + [q], pc)
  {
    hide Decide, Selected, RunFrom;
    var more := done + [q];
    match pc
    case InsertDone(q', since, at, o) =>
      assert more[..at] == done[..at] && more[at] == done[at];
    case SelectDone(filter, since, found, at) =>
      assert more[..at] == done[..at];
    case _ =>
  }

  lemma {:induction false} LockKept(s: State, ev: Event)
    requires LockOk(s) && Enabled(s, ev)
    ensures LockOk(Do(s, ev))
  {
    hide Check, Look, Scanned, StoredAt, Reserved, Line;
    if ev.Step? {
      StepSides(s.e, s.pcs[ev.t]);
    }
    hide EngineStep;
  }

  /** A step inside the lock stays inside it. */
  lemma {:induction false} StepSides(e: Engine, pc: Pc)
    ensures InWrite(EngineStep(e, pc).1) == InWrite(pc) && InRead(EngineStep(e, pc).1) == InRead(pc)
  {
    hide NameIsValid, Line, Reserved, StoredAt;
  }

  lemma {:induction false} CallKept(s: State, ev: Event, st0: Store)
    requires Inv(s, st0) && Enabled(s, ev) && !ev.Step?
    ensures Inv(Do(s, ev), st0)
  {
    LockKept(s, ev);
    hide ThreadOk, Halfway, Settled, AreRows, AreRequests, RunFrom;
    var s' := Do(s, ev);
    CalledOk(st0, s, ev);
    assert forall t :: 0 <= t < |s.pcs| && t != ev.t ==> s'.pcs[t] == s.pcs[t];
  }

  lemma {:induction false} CalledOk(st0: Store, s: State, ev: Event)
    requires Enabled(s, ev) && !ev.Step?
    ensures ThreadOk(st0, s.done, Do(s, ev).pcs[ev.t])
  {
  }

  /** A step by a thread inside the write lock, other than its last one. */
  lemma {:induction false} WriteStep(s: State, t: nat, st0: Store)
    requires Inv(s, st0) && CanMove(s, t) && InWrite(s.pcs[t]) && !s.pcs[t].LeavingWrite?
    ensures EngineOk(Move(s, t), st0) && ThreadOk(st0, s.done, Move(s, t).pcs[t])
  {
    hide RunFrom, AreRequests, Decide, NextId, LastIndex, AreRows, Line, Reserved, Commit, ThreadsOk;
    assert ThreadOk(st0, s.done, s.pcs[t]) by { ThreadIs(s, st0, t); }
    var st := RunFrom(st0, s.done);
    var pc := s.pcs[t];
    if pc.Checking? {
      CheckDecides(s.e, st, pc.q, pc.since, s.done);
    } else {
      JobStep(s.e, st, pc, s.done);
      hide Halfway;
      JobDecided(pc.job, st, s.done);
    }
  }

  lemma {:induction false} JobDecided(job: Job, st: Store, done: seq<Request>)
    requires Accepted(job, st, done)
    ensures IsRequest(job.q) && job.since <= |done|
    ensures Decide(st.rows, job.q.hasId, job.q.id, job.q.name, job.q.age) == Inserted(job.r)
  {
  }

  lemma {:induction false} ThreadIs(s: State, st0: Store, t: nat)
    requires ThreadsOk(s, st0) && t < |s.pcs|
    ensures ThreadOk(st0, s.done, s.pcs[t])
  {
  }

  lemma {:induction false} RunOneMore(st0: Store, done: seq<Request>, q: Request)
    ensures RunFrom(st0, done + [q]) == Commit(RunFrom(st0, done), q)
  {
    var more := done + [q];
    assert more[..|more| - 1] == done && more[|more| - 1] == q;
  }

  /** The writer leaves: its insertion is complete, and the engine is that of the table
      after it. */
  lemma {:induction false} WriteEnds(s: State, t: nat, st0: Store)
    requires Inv(s, st0) && CanMove(s, t) && s.pcs[t].LeavingWrite?
    ensures EngineOk(Move(s, t), st0) && ThreadsOk(Move(s, t), st0) && AreRequests(Move(s, t).done)
  {
    hide RunFrom, Decide, Commit, Settled;
    var pc, s' := s.pcs[t], Move(s, t);
    ThreadIs(s, st0, t);
    RunOneMore(st0, s.done, pc.q);
    forall u | 0 <= u < |s.pcs| ensures ThreadOk(st0, s'.done, s'.pcs[u]) {
      if u == t {
        assert s'.done[..|s.done|] == s.done;
      } else {
        ThreadIs(s, st0, u);
        OutsideKept(st0, s.done, pc.q, s.pcs[u]);
      }
    }
  }

  /** A thread enters the lock, or a reader takes a step or leaves; the engine does not
      change. */
  lemma {:induction false} QuietStep(s: State, t: nat, st0: Store)
    requires Inv(s, st0) && CanMove(s, t) && !InWrite(s.pcs[t])
    ensures Move(s, t).e == s.e && Move(s, t).done == s.done
    ensures EngineOk(Move(s, t), st0) && ThreadOk(st0, s.done, Move(s, t).pcs[t])
  {
    hide RunFrom, AreRequests, Decide, Scan, Selected, Look, Scanned, ThreadsOk;
    ThreadIs(s, st0, t);
    var st := RunFrom(st0, s.done);
    var pc := s.pcs[t];
    match pc
    case Looking(filter, since) =>
      LookFinds(s.e, st, filter, since, s.done);
    case Scanning(filter, since, i, found) =>
      ScanOn(s.e, st, filter, since, i);
    case LeavingRead(_, _, _) =>
      assert s.done[..|s.done|] == s.done;
    case _ =>
  }

  lemma {:induction false} OthersKept(s: State, t: nat, st0: Store, s': State)
    requires ThreadsOk(s, st0) && t < |s.pcs| && s'.done == s.done
    requires |s'.pcs| == |s.pcs| && s'.pcs == s.pcs[t := s'.pcs[t]]
    requires ThreadOk(st0, s.done, s'.pcs[t])
    ensures ThreadsOk(s', st0)
  {
    hide ThreadOk;
  }

  lemma {:induction false} MoveShape(s: State, t: nat)
    requires CanMove(s, t)
    ensures var s' := Move(s, t);
      |s'.pcs| == |s.pcs| && s'.pcs == s.pcs[t := s'.pcs[t]] && (!s.pcs[t].LeavingWrite? ==> s'.done == s.done)
  {
    hide EngineStep;
  }

  /** Every step of every thread keeps the invariant. */
  lemma {:induction false} EventKept(s: State, ev: Event, st0: Store)
    requires Inv(s, st0) && Enabled(s, ev)
    ensures Inv(Do(s, ev), st0)
  {
    if ev.Step? {
      LockKept(s, ev);
      MoveShape(s, ev.t);
      if s.pcs[ev.t].LeavingWrite? {
        WriteEnds(s, ev.t, st0);
      } else {
        if InWrite(s.pcs[ev.t]) {
          WriteStep(s, ev.t, st0);
        } else {
          QuietStep(s, ev.t, st0);
        }
        OthersKept(s, ev.t, st0, Move(s, ev.t));
      }
      hide Move, EngineOk, ThreadsOk, LockOk;
    } else {
      CallKept(s, ev, st0);
    }
  }

  // ---------------------------------------------------------------- whole runs

  predicate Runs(s: State, evs: seq<Event>)
    decreases |evs|
  {
    evs == [] || (Enabled(s, evs[0]) && Runs(Do(s, evs[0]), evs[1..]))
  }

  function Reached(s: State, evs: seq<Event>): State
    requires Runs(s, evs)
    decreases |evs|
  {
    if evs == [] then s else Reached(Do(s, evs[0]), evs[1..])
  }

  lemma {:induction false} RunKept(s: State, evs: seq<Event>, st0: Store)
    requires Inv(s, st0) && Runs(s, evs)
    ensures Inv(Reached(s, evs), st0)
    decreases |evs|
  {
    hide Inv, Do, Enabled;
    if evs != [] {
      EventKept(s, evs[0], st0);
      RunKept(Do(s, evs[0]), evs[1..], st0);
    }
  }

  /** A loaded engine and threads that do nothing yet. */
  predicate Start(s: State, st0: Store) {
    && Settled(s.e, st0)
    && s.done == [] && s.writer == None && s.readers == {}
    && forall t :: 0 <= t < |s.pcs| ==> s.pcs[t] == Idle
  }

  /** In every run of every number of threads: each select that has returned found
      exactly the rows of the table after some of the completed insertions, namely a
      prefix of them that holds all that were complete when it was called; each insertion
      that has returned was decided on the table before it; and whenever no writer is
      inside, array, counter, index and file are those of the table after all of them. */
  lemma {:induction false} Linearizable(s: State, evs: seq<Event>, st0: Store, t: nat)
    requires Start(s, st0) && Runs(s, evs) && t < |Reached(s, evs).pcs|
    ensures var s' := Reached(s, evs);
      && (s'.writer == None ==> Settled(s'.e, RunFrom(st0, s'.done)))
      && (s'.pcs[t].SelectDone? ==>
            (var pc := s'.pcs[t]; SelectAnswered(st0, s'.done, pc.filter, pc.since, pc.found, pc.at)))
      && (s'.pcs[t].InsertDone? ==>
            (var pc := s'.pcs[t]; InsertAnswered(st0, s'.done, pc.q, pc.since, pc.at, pc.outcome)))
  {
    StartOk(s, st0);
    RunKept(s, evs, st0);
    hide Runs, Reached, Settled, SelectAnswered, InsertAnswered, RunFrom, LockOk;
    ThreadIs(Reached(s, evs), st0, t);
  }

  /** Selects share the lock: without a writer inside, any caller of a select can enter,
      and the selects that are inside stay there. */
  lemma {:induction false} ReadersShare(s: State, t: nat)
    requires LockOk(s) && t < |s.pcs| && s.pcs[t].WantRead? && s.writer == None
    ensures CanMove(s, t)
    ensures InRead(Move(s, t).pcs[t])
    ensures forall u :: 0 <= u < |s.pcs| && InRead(s.pcs[u]) ==> Move(s, t).pcs[u] == s.pcs[u]
  {
  }

  // ---------------------------------------------------------------- calls and returns

  /** The operation that a thread runs or ran last, and when it was called. */
  datatype Task = NoTask | Inserting(q: Request, since: nat) | Selecting(filter: Filter, since: nat)

  function TaskOf(pc: Pc): Task {
    match pc
    case Idle => NoTask
    case WantWrite(q, since) => Inserting(q, since)
    case Checking(q, since) => Inserting(q, since)
    case Reserving(job) => Inserting(job.q, job.since)
    case Appending(job) => Inserting(job.q, job.since)
    case Storing(job) => Inserting(job.q, job.since)
    case Counting(job) => Inserting(job.q, job.since)
    case Numbering(job) => Inserting(job.q, job.since)
    case Indexing(job) => Inserting(job.q, job.since)
    case LeavingWrite(q, since, _) => Inserting(q, since)
    case InsertDone(q, since, _, _) => Inserting(q, since)
    case WantRead(filter, since) => Selecting(filter, since)
    case Looking(filter, since) => Selecting(filter, since)
    case Scanning(filter, since, _, _) => Selecting(filter, since)
    case LeavingRead(filter, since, _) => Selecting(filter, since)
    case SelectDone(filter, since, _, _) => Selecting(filter, since)
  }

  predicate Calls(ev: Event, t: nat) {
    !ev.Step? && ev.t == t
  }

  lemma {:induction false} EngineKeepsTask(e: Engine, pc: Pc)
    ensures TaskOf(EngineStep(e, pc).1) == TaskOf(pc)
  {
    hide NameIsValid, Line, Reserved, StoredAt;
  }

  lemma {:induction false} EventKeepsTask(s: State, ev: Event, t: nat)
    requires Enabled(s, ev) && t < |s.pcs| && !Calls(ev, t)
    ensures |Do(s, ev).pcs| == |s.pcs| && TaskOf(Do(s, ev).pcs[t]) == TaskOf(s.pcs[t])
    ensures s.done <= Do(s, ev).done
  {
    if ev.Step? {
      EngineKeepsTask(s.e, s.pcs[ev.t]);
    }
    hide EngineStep;
  }

  lemma {:induction false} RunKeepsTask(s: State, evs: seq<Event>, t: nat)
    requires Runs(s, evs) && t < |s.pcs| && forall i :: 0 <= i < |evs| ==> !Calls(evs[i], t)
    ensures |Reached(s, evs).pcs| == |s.pcs| && TaskOf(Reached(s, evs).pcs[t]) == TaskOf(s.pcs[t])
    ensures s.done <= Reached(s, evs).done
    decreases |evs|
  {
    hide Enabled, Do, TaskOf;
    if evs != [] {
      EventKeepsTask(s, evs[0], t);
      RunKeepsTask(Do(s, evs[0]), evs[1..], t);
    }
  }

  lemma {:induction false} CallMade(s: State, call: Event, t: nat)
    requires Enabled(s, call) && Calls(call, t)
    ensures t < |s.pcs| == |Do(s, call).pcs| && Do(s, call).done == s.done
    ensures call.CallInsert? ==> TaskOf(Do(s, call).pcs[t]) == Inserting(call.q, |s.done|)
    ensures call.CallSelect? ==> TaskOf(Do(s, call).pcs[t]) == Selecting(call.filter, |s.done|)
  {
  }

  /** Real time: when a call made in state s has returned at the end of a further run, the
      insertions that were complete at the call are the first since ones, and the answer is
      that of a point between them and the insertions complete at the end. */
  lemma {:induction false} RealTime(s: State, call: Event, evs: seq<Event>, st0: Store, t: nat)
    requires Inv(s, st0) && Enabled(s, call) && Calls(call, t) && Runs(Do(s, call), evs)
    requires forall i :: 0 <= i < |evs| ==> !Calls(evs[i], t)
    ensures var s' := Reached(Do(s, call), evs);
      && t < |s'.pcs| && s.done <= s'.done
      && (s'.pcs[t].SelectDone? ==>
            exists at :: |s.done| <= at <= |s'.done| && call.CallSelect?
              && s'.pcs[t].found == Selected(RunFrom(st0, s'.done[..at]).rows, call.filter))
      && (s'.pcs[t].InsertDone? ==>
            exists at :: |s.done| <= at < |s'.done| && call.CallInsert? && s'.done[at] == call.q
              && s'.pcs[t].outcome
                == Decide(RunFrom(st0, s'.done[..at]).rows, call.q.hasId, call.q.id, call.q.name, call.q.age))
  {
    hide Inv, Enabled, Do, Runs, Reached, Selected, Decide, RunFrom;
    CallMade(s, call, t);
    RunKeepsTask(Do(s, call), evs, t);
    EventKept(s, call, st0);
    RunKept(Do(s, call), evs, st0);
    var s' := Reached(Do(s, call), evs);
    InvThread(s', st0, t);
    var pc := s'.pcs[t];
    if pc.SelectDone? {
      assert |s.done| <= pc.at <= |s'.done|;
    } else if pc.InsertDone? {
      assert |s.done| <= pc.at < |s'.done|;
    }
  }

  lemma {:induction false} InvThread(s: State, st0: Store, t: nat)
    requires Inv(s, st0) && t < |s.pcs|
    ensures ThreadOk(st0, s.done, s.pcs[t])
  {
    hide ThreadOk, EngineOk, LockOk;
  }

  /** What a select found, also by id through the index, is a plain scan of that table,
      as long as the counter had not reached INT_MAX by then. */
  lemma {:induction false} SelectIsScan(st0: Store, done: seq<Request>, filter: Filter, since: nat,
                                        found: seq<Record>, at: nat)
    requires SelectAnswered(st0, done, filter, since, found, at)
    requires AreRows(st0.rows) && UniqueIds(st0.rows) && AreRequests(done)
    requires NextId(RunFrom(st0, done[..at]).rows) < INT_MAX
    ensures found == Scan(RunFrom(st0, done[..at]).rows, filter)
  {
    RunKeepsUnique(st0, done[..at]);
    if filter.ById? {
      IndexIsScan(RunFrom(st0, done[..at]).rows, filter.id);
    }
  }

  lemma {:induction false} StartOk(s: State, st0: Store)
    requires Start(s, st0)
    ensures Inv(s, st0)
  {
    assert RunFrom(st0, s.done) == st0;
  }

  /** Somebody can always go on: the lock never leaves every caller waiting. */
  lemma {:induction false} NoDeadlock(s: State, st0: Store, t: nat)
    requires Inv(s, st0) && t < |s.pcs| && !Resting(s.pcs[t])
    ensures exists u :: 0 <= u < |s.pcs| && CanMove(s, u)
  {
    hide EngineOk, ThreadsOk, AreRequests;
    if s.writer.Some? {
      assert CanMove(s, s.writer.value);
    } else if s.readers != {} {
      var u :| u in s.readers;
      assert CanMove(s, u);
    } else {
      assert CanMove(s, t);
    }
  }
}
