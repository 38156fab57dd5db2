/** SQL texts running at once: threads whose operations are texts, on the engine that
    module DbSteps interleaves, answer like the naive interpreter run on the texts in
    the order in which their insertions completed. */
module SqlSteps {
  import opened Options
  import opened Text
  import S = Sql
  import opened SqlNames
  import opened DbModel
  import opened DataFile
  import opened TableJson
  import opened Db
  import D = DbSteps
  import opened Server

  // ---------------------------------------------------------------- texts as operations

  datatype Operation = Insertion(q: Request) | Selection(filter: Filter)

  function OperationOf(stmt: S.Statement): Operation {
    match stmt
    case InsertWithId(id, name, age) => Insertion(Request(true, id, name, age))
    case InsertNext(name, age) => Insertion(Request(false, 0, name, age))
    case Select(_, filter) => Selection(ToFilter(filter))
  }

  /** The text is a statement that does this operation. */
  predicate Does(sql: string, op: Operation) {
    S.Parse(sql).Some? && OperationOf(S.Parse(sql).value) == op
  }

  /** The operation that a thread is in, or has finished last. */
  function Current(pc: D.Pc): Option<Operation> {
    match pc
    case Idle => None
    case WantWrite(q, _) => Some(Insertion(q))
    case Checking(q, _) => Some(Insertion(q))
    case Reserving(job) => Some(Insertion(job.q))
    case Appending(job) => Some(Insertion(job.q))
    case Storing(job) => Some(Insertion(job.q))
    case Counting(job) => Some(Insertion(job.q))
    case Numbering(job) => Some(Insertion(job.q))
    case Indexing(job) => Some(Insertion(job.q))
    case LeavingWrite(q, _, _) => Some(Insertion(q))
    case InsertDone(q, _, _, _) => Some(Insertion(q))
    case WantRead(filter, _) => Some(Selection(filter))
    case Looking(filter, _) => Some(Selection(filter))
    case Scanning(filter, _, _, _) => Some(Selection(filter))
    case LeavingRead(filter, _, _) => Some(Selection(filter))
    case SelectDone(filter, _, _, _) => Some(Selection(filter))
  }

  /** The text of every thread, and the texts of the completed insertions in order. */
  datatype World = World(s: D.State, texts: seq<string>, log: seq<string>)

  datatype Event = Ask(t: nat, sql: string) | Go(t: nat)

  /** A text that does not parse never reaches the engine, so only the others are events. */
  predicate Enabled(w: World, ev: Event) {
    && |w.texts| == |w.s.pcs|
    && match ev
       case Ask(t, sql) => t < |w.s.pcs| && D.Resting(w.s.pcs[t]) && IsCString(sql) && S.Parse(sql).Some?
       case Go(t) => D.CanMove(w.s, t)
  }

  function Call(t: nat, op: Operation): D.Event {
    match op
    case Insertion(q) => D.CallInsert(t, q)
    case Selection(filter) => D.CallSelect(t, filter)
  }

  lemma {:induction false} CallEnabled(w: World, t: nat, sql: string)
    requires Enabled(w, Ask(t, sql))
    ensures D.Enabled(w.s, Call(t, OperationOf(S.Parse(sql).value)))
  {
    hide S.Parse, S.WellFormed, PlainName, OperationOf;
    ParsedPlain(sql);
    OperationFits(S.Parse(sql).value);
  }

  lemma {:induction false} OperationFits(stmt: S.Statement)
    requires S.WellFormed(stmt) && PlainName(stmt)
    ensures OperationOf(stmt).Insertion? ==> IsRequest(OperationOf(stmt).q)
  {
  }

  function Do(w: World, ev: Event): World
    requires Enabled(w, ev)
  {
    match ev
    case Ask(t, sql) =>
      CallEnabled(w, t, sql);
      World(D.Do(w.s, Call(t, OperationOf(S.Parse(sql).value))), w.texts[t := sql], w.log)
    case Go(t) =>
      World(D.Do(w.s, D.Step(t)), w.texts, if w.s.pcs[t].LeavingWrite? then w.log + [w.texts[t]] else w.log)
  }

  // ---------------------------------------------------------------- texts and operations stay together

  predicate ThreadLinked(pc: D.Pc, sql: string, log: seq<string>) {
    && (Current(pc).Some? ==> Does(sql, Current(pc).value))
    && (pc.InsertDone? ==> pc.at < |log| && log[pc.at] == sql)
  }

  predicate LogLinked(log: seq<string>, done: seq<Request>) {
    |log| == |done| && forall i :: 0 <= i < |log| ==> Does(log[i], Insertion(done[i]))
  }

  predicate Linked(w: World) {
    && |w.texts| == |w.s.pcs|
    && LogLinked(w.log, w.s.done)
    && forall t :: 0 <= t < |w.texts| ==> ThreadLinked(w.s.pcs[t], w.texts[t], w.log)
  }

  /** A step stays in its operation. */
  lemma {:induction false} MoveStays(s: D.State, t: nat)
    requires D.CanMove(s, t)
    ensures var s' := D.Do(s, D.Step(t));
      && t < |s.pcs| == |s'.pcs| && s'.pcs == s.pcs[t := s'.pcs[t]]
      && Current(s'.pcs[t]) == Current(s.pcs[t])
      && (if s.pcs[t].LeavingWrite? then
            s'.done == s.done + [s.pcs[t].q] && s'.pcs[t].InsertDone? && s'.pcs[t].at == |s.done|
          else s'.done == s.done && !s'.pcs[t].InsertDone?)
  {
    D.MoveShape(s, t);
    EngineStays(s.e, s.pcs[t]);
    hide D.EngineStep;
  }

  lemma {:induction false} EngineStays(e: D.Engine, pc: D.Pc)
    ensures var next := D.EngineStep(e, pc).1;
      Current(next) == Current(pc) && (next.InsertDone? ==> pc.InsertDone?)
  {
    hide NameIsValid, Line, D.Reserved, D.StoredAt;
  }

  lemma {:induction false} GoKeepsLinked(w: World, t: nat)
    requires Linked(w) && Enabled(w, Go(t))
    ensures Linked(Do(w, Go(t)))
  {
    hide Does, Current, D.Do, D.CanMove;
    MoveStays(w.s, t);
    var w' := Do(w, Go(t));
    forall u | 0 <= u < |w.texts| ensures ThreadLinked(w'.s.pcs[u], w'.texts[u], w'.log) {
      assert ThreadLinked(w.s.pcs[u], w.texts[u], w.log);
    }
    if w.s.pcs[t].LeavingWrite? {
      assert ThreadLinked(w.s.pcs[t], w.texts[t], w.log);
      LeavingCurrent(w.s.pcs[t]);
    }
  }

  lemma {:induction false} LeavingCurrent(pc: D.Pc)
    requires pc.LeavingWrite?
    ensures Current(pc) == Some(Insertion(pc.q))
  {
  }

  lemma {:induction false} AskKeepsLinked(w: World, t: nat, sql: string)
    requires Linked(w) && Enabled(w, Ask(t, sql))
    ensures Linked(Do(w, Ask(t, sql)))
  {
    hide S.Parse;
    CallEnabled(w, t, sql);
    var w' := Do(w, Ask(t, sql));
    forall u | 0 <= u < |w.texts| ensures ThreadLinked(w'.s.pcs[u], w'.texts[u], w'.log) {
      assert ThreadLinked(w.s.pcs[u], w.texts[u], w.log);
    }
  }

  /** Every event of the world is one of the engine, so its invariant holds as well. */
  lemma {:induction false} EventKeeps(w: World, ev: Event, st0: Store)
    requires Linked(w) && D.Inv(w.s, st0) && Enabled(w, ev)
    ensures Linked(Do(w, ev)) && D.Inv(Do(w, ev).s, st0)
  {
    hide Linked, D.Inv, D.Do, D.Enabled, S.Parse;
    match ev
    case Ask(t, sql) =>
      CallEnabled(w, t, sql);
      AskKeepsLinked(w, t, sql);
      D.EventKept(w.s, Call(t, OperationOf(S.Parse(sql).value)), st0);
    case Go(t) =>
      GoKeepsLinked(w, t);
      StepEnabled(w.s, t);
      D.EventKept(w.s, D.Step(t), st0);
  }

  lemma {:induction false} StepEnabled(s: D.State, t: nat)
    requires D.CanMove(s, t)
    ensures D.Enabled(s, D.Step(t))
  {
  }

  // ---------------------------------------------------------------- runs

  predicate Runs(w: World, evs: seq<Event>)
    decreases |evs|
  {
    evs == [] || (Enabled(w, evs[0]) && Runs(Do(w, evs[0]), evs[1..]))
  }

  function Reached(w: World, evs: seq<Event>): World
    requires Runs(w, evs)
    decreases |evs|
  {
    if evs == [] then w else Reached(Do(w, evs[0]), evs[1..])
  }

  lemma {:induction false} RunKeeps(w: World, evs: seq<Event>, st0: Store)
    requires Linked(w) && D.Inv(w.s, st0) && Runs(w, evs)
    ensures Linked(Reached(w, evs)) && D.Inv(Reached(w, evs).s, st0)
    decreases |evs|
  {
    hide Linked, D.Inv, Do, Enabled;
    if evs != [] {
      EventKeeps(w, evs[0], st0);
      RunKeeps(Do(w, evs[0]), evs[1..], st0);
    }
  }

  // ---------------------------------------------------------------- the naive interpreter

  lemma {:induction false} InsertedRows(rows: seq<Record>, file: string, sql: string, q: Request)
    requires Does(sql, Insertion(q))
    ensures RowsAfter(rows, sql) == Commit(Store(rows, file), q).rows
  {
    hide S.Parse, Decide, Line;
  }

  /** The rows after some completed insertions are those of the interpreter after their
      texts. */
  lemma {:induction false} TableIsNaive(st0: Store, done: seq<Request>, log: seq<string>)
    requires AreRows(st0.rows) && AreRequests(done) && LogLinked(log, done)
    ensures RunFrom(st0, done).rows == NaiveRun(st0.rows, log).1
  {
    if done != [] {
      var last := |done| - 1;
      TableIsNaive(st0, done[..last], log[..last]);
      RunAreRows(st0, done[..last]);
      var before := RunFrom(st0, done[..last]);
      assert Does(log[last], Insertion(done[last]));
      hide Does, Decide, Line, Naive, RowsAfter, AreRows, Commit;
      InsertedRows(before.rows, before.file, log[last], done[last]);
      SameRows(before.rows, log[last]);
    }
  }

  lemma {:induction false} LinkedPrefix(log: seq<string>, done: seq<Request>, k: nat)
    requires LogLinked(log, done) && k <= |log|
    ensures LogLinked(log[..k], done[..k])
  {
    hide Does;
  }

  /** The reply of a thread that has finished its text. */
  function ReplyAt(pc: D.Pc, sql: string): Reply
    requires pc.InsertDone? || pc.SelectDone?
  {
    match pc
    case InsertDone(_, _, _, o) => ReplyOf(Answered(o))
    case SelectDone(_, _, found, _) =>
      var stmt := S.Parse(sql);
      if stmt.Some? && stmt.value.Select? then Rows(RowsText(found, ToColumns(stmt.value.columns))) else BadSql
  }

  lemma {:induction false} InsertReply(rows: seq<Record>, pc: D.Pc, sql: string)
    requires AreRows(rows) && pc.InsertDone? && Does(sql, Insertion(pc.q))
    requires pc.outcome == Decide(rows, pc.q.hasId, pc.q.id, pc.q.name, pc.q.age)
    ensures ReplyAt(pc, sql) == Naive(rows, sql).0
  {
    SameReply(rows, sql);
    hide S.Parse, Decide, Naive, RowsText, Once, AreRows;
  }

  lemma {:induction false} SelectReply(rows: seq<Record>, pc: D.Pc, sql: string)
    requires AreRows(rows) && pc.SelectDone? && Does(sql, Selection(pc.filter))
    requires pc.found == Selected(rows, pc.filter)
    ensures ReplyAt(pc, sql) == Naive(rows, sql).0 <==> !AsksAmbiguousId(rows, sql)
  {
    SameReply(rows, sql);
    hide S.Parse, Selected, Naive, RowsText, Once, AreRows, AsksAmbiguousId;
  }

  predicate Start(w: World, st0: Store) {
    D.Start(w.s, st0) && w.log == [] && |w.texts| == |w.s.pcs|
  }

  lemma {:induction false} StartLinked(w: World, st0: Store)
    requires Start(w, st0)
    ensures Linked(w) && D.Inv(w.s, st0)
  {
    D.StartOk(w.s, st0);
    hide D.Inv, D.Settled, Does;
  }

  /** What has become of a thread's text when it is finished: of an insertion, that it is
      in the log and was answered as the interpreter answers it after the texts before it;
      of a select, that it was answered so after some prefix of the log that holds all
      insertions complete at its call, unless it asks for an id stored twice there. */
  predicate AnsweredInOrder(w: World, st0: Store, t: nat)
    requires t < |w.s.pcs| == |w.texts|
  {
    var pc, sql := w.s.pcs[t], w.texts[t];
    && (pc.InsertDone? ==>
          && pc.since <= pc.at < |w.log| && w.log[pc.at] == sql
          && ReplyAt(pc, sql) == Naive(NaiveRun(st0.rows, w.log[..pc.at]).1, sql).0)
    && (pc.SelectDone? ==>
          && pc.since <= pc.at <= |w.log|
          && var before := NaiveRun(st0.rows, w.log[..pc.at]).1;
             ReplyAt(pc, sql) == Naive(before, sql).0 <==> !AsksAmbiguousId(before, sql))
  }

  lemma {:induction false} TableAt(w: World, st0: Store, k: nat)
    requires LogLinked(w.log, w.s.done) && AreRows(st0.rows) && AreRequests(w.s.done) && k <= |w.log|
    ensures |w.log| == |w.s.done|
    ensures RunFrom(st0, w.s.done[..k]).rows == NaiveRun(st0.rows, w.log[..k]).1
    ensures AreRows(RunFrom(st0, w.s.done[..k]).rows)
  {
    hide Does, RunFrom, NaiveRun, IsRow;
    LinkedPrefix(w.log, w.s.done, k);
    assert AreRequests(w.s.done[..k]);
    TableIsNaive(st0, w.s.done[..k], w.log[..k]);
    RunAreRows(st0, w.s.done[..k]);
  }

  lemma {:induction false} LinkedParts(w: World, t: nat)
    requires Linked(w) && t < |w.s.pcs|
    ensures |w.texts| == |w.s.pcs| && LogLinked(w.log, w.s.done) && |w.log| == |w.s.done|
    ensures ThreadLinked(w.s.pcs[t], w.texts[t], w.log)
  {
    hide Does;
  }

  lemma {:induction false} InsertParts(st0: Store, done: seq<Request>, pc: D.Pc, sql: string, log: seq<string>)
    requires pc.InsertDone? && D.ThreadOk(st0, done, pc) && ThreadLinked(pc, sql, log) && |log| == |done|
    ensures pc.since <= pc.at < |log| && log[pc.at] == sql && Does(sql, Insertion(pc.q))
    ensures pc.outcome == Decide(RunFrom(st0, done[..pc.at]).rows, pc.q.hasId, pc.q.id, pc.q.name, pc.q.age)
  {
    hide Decide, RunFrom, Does;
  }

  lemma {:induction false} SelectParts(st0: Store, done: seq<Request>, pc: D.Pc, sql: string, log: seq<string>)
    requires pc.SelectDone? && D.ThreadOk(st0, done, pc) && ThreadLinked(pc, sql, log) && |log| == |done|
    ensures pc.since <= pc.at <= |log| && Does(sql, Selection(pc.filter))
    ensures pc.found == Selected(RunFrom(st0, done[..pc.at]).rows, pc.filter)
  {
    hide Selected, RunFrom, Does;
  }

  lemma {:induction false} DoneIsAnswered(w: World, st0: Store, t: nat)
    requires Linked(w) && AreRows(st0.rows) && AreRequests(w.s.done) && t < |w.s.pcs|
    requires D.ThreadOk(st0, w.s.done, w.s.pcs[t])
    ensures |w.s.pcs| == |w.texts| && AnsweredInOrder(w, st0, t)
  {
    hide Linked, LogLinked, ThreadLinked, D.ThreadOk, Decide, Selected, RunFrom, NaiveRun, Naive, ReplyAt;
    hide AsksAmbiguousId, AreRows, AreRequests, Does;
    LinkedParts(w, t);
    var pc, sql, done := w.s.pcs[t], w.texts[t], w.s.done;
    if pc.InsertDone? {
      InsertParts(st0, done, pc, sql, w.log);
      TableAt(w, st0, pc.at);
      InsertReply(RunFrom(st0, done[..pc.at]).rows, pc, sql);
    } else if pc.SelectDone? {
      SelectParts(st0, done, pc, sql, w.log);
      TableAt(w, st0, pc.at);
      SelectReply(RunFrom(st0, done[..pc.at]).rows, pc, sql);
    }
  }

  /** In every run of texts on any number of threads, every finished text was answered by
      the naive interpreter's rules in the order of completed insertions, and whenever no
      writer is inside, the engine holds the interpreter's rows. */
  lemma {:induction false} TextsLinearize(w: World, evs: seq<Event>, st0: Store, t: nat)
    requires Start(w, st0) && Runs(w, evs) && t < |Reached(w, evs).s.pcs|
    ensures var w' := Reached(w, evs);
      && |w'.texts| == |w'.s.pcs|
      && AnsweredInOrder(w', st0, t)
      && (w'.s.writer == None ==>
            D.Settled(w'.s.e, RunFrom(st0, w'.s.done))
            && RunFrom(st0, w'.s.done).rows == NaiveRun(st0.rows, w'.log).1)
  {
    hide Start, Runs, Reached, RunFrom, NaiveRun, AnsweredInOrder, D.Settled, D.LockOk, AreRows, LogLinked, D.ThreadOk;
    StartLinked(w, st0);
    RunKeeps(w, evs, st0);
    var w' := Reached(w, evs);
    D.ThreadIs(w'.s, st0, t);
    DoneIsAnswered(w', st0, t);
    TableIsNaive(st0, w'.s.done, w'.log);
  }

  predicate Asks(ev: Event, t: nat) {
    ev.Ask? && ev.t == t
  }

  lemma {:induction false} EventKeepsText(w: World, ev: Event, t: nat)
    requires Enabled(w, ev) && t < |w.s.pcs| && !Asks(ev, t)
    ensures var w' := Do(w, ev);
      && t < |w'.s.pcs| && |w'.texts| == |w.texts| && w'.texts[t] == w.texts[t]
      && D.TaskOf(w'.s.pcs[t]) == D.TaskOf(w.s.pcs[t]) && w.log <= w'.log
  {
    hide D.Do, D.Enabled, D.TaskOf, D.CanMove, S.Parse, OperationOf;
    match ev
    case Ask(u, sql) =>
      CallEnabled(w, u, sql);
      D.EventKeepsTask(w.s, Call(u, OperationOf(S.Parse(sql).value)), t);
    case Go(u) =>
      StepEnabled(w.s, u);
      D.EventKeepsTask(w.s, D.Step(u), t);
  }

  lemma {:induction false} RunKeepsText(w: World, evs: seq<Event>, t: nat)
    requires Runs(w, evs) && t < |w.s.pcs| == |w.texts| && forall i :: 0 <= i < |evs| ==> !Asks(evs[i], t)
    ensures var w' := Reached(w, evs);
      && t < |w'.s.pcs| && |w'.texts| == |w.texts| && w'.texts[t] == w.texts[t]
      && D.TaskOf(w'.s.pcs[t]) == D.TaskOf(w.s.pcs[t]) && w.log <= w'.log
    decreases |evs|
  {
    hide Enabled, Do, D.TaskOf;
    if evs != [] {
      EventKeepsText(w, evs[0], t);
      LengthsKept(w, evs[0]);
      RunKeepsText(Do(w, evs[0]), evs[1..], t);
    }
  }

  lemma {:induction false} LengthsKept(w: World, ev: Event)
    requires Enabled(w, ev)
    ensures |Do(w, ev).s.pcs| == |w.s.pcs| && |Do(w, ev).texts| == |w.texts|
  {
    hide S.Parse, OperationOf, D.EngineStep;
    if ev.Ask? {
      CallEnabled(w, ev.t, ev.sql);
    }
  }

  lemma {:induction false} AskMade(w: World, t: nat, sql: string)
    requires Enabled(w, Ask(t, sql))
    ensures var w' := Do(w, Ask(t, sql));
      && t < |w'.s.pcs| == |w'.texts| && w'.texts[t] == sql && w'.log == w.log
      && D.TaskOf(w'.s.pcs[t]) != D.NoTask && D.TaskOf(w'.s.pcs[t]).since == |w.s.done|
  {
    hide S.Parse, OperationOf;
    CallEnabled(w, t, sql);
    D.CallMade(w.s, Call(t, OperationOf(S.Parse(sql).value)), t);
  }

  lemma {:induction false} DoneSince(pc: D.Pc)
    requires pc.InsertDone? || pc.SelectDone?
    ensures D.TaskOf(pc) != D.NoTask && D.TaskOf(pc).since == pc.since
  {
  }

  /** Real time: the reply to a text is that of the interpreter after some of the inserts
      in the log, all that were complete when the text was asked among them, and none that
      was not complete at the end. */
  lemma {:induction false} TextRealTime(w: World, t: nat, sql: string, evs: seq<Event>, st0: Store)
    requires Linked(w) && D.Inv(w.s, st0) && Enabled(w, Ask(t, sql)) && Runs(Do(w, Ask(t, sql)), evs)
    requires forall i :: 0 <= i < |evs| ==> !Asks(evs[i], t)
    ensures var w' := Reached(Do(w, Ask(t, sql)), evs);
      && t < |w'.s.pcs| && w.log <= w'.log
      && (var pc := w'.s.pcs[t];
          pc.InsertDone? || pc.SelectDone? ==>
            && |w.log| <= pc.at <= |w'.log|
            && (pc.InsertDone? ==> pc.at < |w'.log| && w'.log[pc.at] == sql)
            && var before := NaiveRun(st0.rows, w'.log[..pc.at]).1;
               ReplyAt(pc, sql) == Naive(before, sql).0 <==> !(pc.SelectDone? && AsksAmbiguousId(before, sql)))
  {
    hide Linked, D.Inv, Enabled, Do, Runs, Reached, NaiveRun, Naive, ReplyAt, AsksAmbiguousId, D.TaskOf, D.ThreadOk;
    AskMade(w, t, sql);
    RunKeepsText(Do(w, Ask(t, sql)), evs, t);
    EventKeeps(w, Ask(t, sql), st0);
    RunKeeps(Do(w, Ask(t, sql)), evs, st0);
    var w' := Reached(Do(w, Ask(t, sql)), evs);
    D.InvThread(w'.s, st0, t);
    InvRows(w'.s, st0);
    LogLength(w);
    DoneIsAnswered(w', st0, t);
    var pc := w'.s.pcs[t];
    if pc.InsertDone? || pc.SelectDone? {
      DoneSince(pc);
    }
  }

  lemma {:induction false} InvRows(s: D.State, st0: Store)
    requires D.Inv(s, st0)
    ensures AreRows(st0.rows) && AreRequests(s.done)
  {
    hide D.ThreadsOk, D.EngineOk, D.LockOk;
  }

  lemma {:induction false} LogLength(w: World)
    requires Linked(w)
    ensures |w.log| == |w.s.done|
  {
    hide ThreadLinked, Does;
  }

  /** In particular, while ids are unique, every finished text has the interpreter's reply. */
  lemma {:induction false} TextsAnsweredExactly(w: World, st0: Store, t: nat)
    requires t < |w.s.pcs| == |w.texts| && AnsweredInOrder(w, st0, t)
    requires var pc := w.s.pcs[t]; pc.SelectDone? ==> UniqueIds(NaiveRun(st0.rows, w.log[..pc.at]).1)
    ensures var pc, sql := w.s.pcs[t], w.texts[t];
      pc.InsertDone? || pc.SelectDone? ==> ReplyAt(pc, sql) == Naive(NaiveRun(st0.rows, w.log[..pc.at]).1, sql).0
  {
    hide NaiveRun, Naive, ReplyAt, AsksAmbiguousId, UniqueIds;
    var pc, sql := w.s.pcs[t], w.texts[t];
    if pc.SelectDone? {
      UniqueIsOnce(NaiveRun(st0.rows, w.log[..pc.at]).1, sql);
    }
  }
}
