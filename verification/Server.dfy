/** From the text of a statement to the table: the engine behind the parser answers
    like an interpreter that only keeps a list of rows. */
module Server {
  import opened Options
  import opened Text
  import opened Json
  import S = Sql
  import SqlParser
  import opened SqlNames
  import SqlBody
  import opened DbModel
  import opened DataFile
  import opened TableJson
  import opened Db

  // ---------------------------------------------------------------- statements for the engine

  function ToColumn(c: S.Column): DbColumn {
    match c
    case Id => ColumnId
    case Name => ColumnName
    case Age => ColumnAge
  }

  function ToColumns(cols: seq<S.Column>): seq<DbColumn> {
    if cols == [] then [ColumnId, ColumnName, ColumnAge]
    else seq(|cols|, i requires 0 <= i < |cols| => ToColumn(cols[i]))
  }

  function ToFilter(w: S.Where): Filter {
    match w
    case Everything => All
    case WhereId(id) => ById(id)
    case WhereName(name) => ByName(name)
  }

  /** What the engine does with a statement: its answer. */
  function EngineAnswer(rows: seq<Record>, stmt: S.Statement): DbResult {
    match stmt
    case InsertWithId(id, name, age) => Answered(Decide(rows, true, id, name, age))
    case InsertNext(name, age) => Answered(Decide(rows, false, 0, name, age))
    case Select(cols, filter) =>
      var found := Selected(rows, ToFilter(filter));
      Answer(RowsText(found, ToColumns(cols)), |found|, filter.WhereId?)
  }

  function EngineRows(rows: seq<Record>, stmt: S.Statement): seq<Record> {
    match stmt
    case InsertWithId(id, name, age) => After(rows, Decide(rows, true, id, name, age))
    case InsertNext(name, age) => After(rows, Decide(rows, false, 0, name, age))
    case Select(_, _) => rows
  }

  method ExecuteStatement(db: DbEngine, stmt: S.Statement) returns (result: DbResult)
    requires db.Valid() && S.WellFormed(stmt) && PlainName(stmt)
    modifies db.Repr()
    ensures db.Valid() && forall o <- db.Repr() :: o in old(db.Repr()) || fresh(o)
    ensures result == EngineAnswer(old(db.Rows()), stmt)
    ensures db.Rows() == EngineRows(old(db.Rows()), stmt)
    ensures old(db.Durable()) ==> db.Durable()
  {
    hide Decide, Answered, Selected, RowsText, AreRows, FileHolds, NextId, LastIndex;
    match stmt
    case InsertWithId(id, name, age) =>
      result := db.InsertWithId(id, name, age);
    case InsertNext(name, age) =>
      result := db.Insert(name, age);
    case Select(cols, where) =>
      db.RowsApart();
      var filter := ToFilter(where);
      var p := ProjectionFor(cols);
      result := db.SelectProjected(filter, p);
  }

  /** The projection that execute_statement builds for a list of columns. */
  method ProjectionFor(cols: seq<S.Column>) returns (p: Projection)
    ensures ColumnsOf(p) == ToColumns(cols)
  {
    p := Projection(false, false, false, []);
    if cols == [] {
      p := p.(includeId := true, includeName := true, includeAge := true);
    } else {
      var i := 0;
      while i < |cols|
        invariant 0 <= i <= |cols| && |p.columns| == i
        invariant forall j :: 0 <= j < i ==> p.columns[j] == ToColumn(cols[j])
      {
        match cols[i] {
          case Id => p := p.(includeId := true, columns := p.columns + [ColumnId]);
          case Name => p := p.(includeName := true, columns := p.columns + [ColumnName]);
          case Age => p := p.(includeAge := true, columns := p.columns + [ColumnAge]);
        }
        i := i + 1;
      }
    }
  }

  // ---------------------------------------------------------------- a query

  datatype Reply = BadBody | BadSql | Refused(why: Outcome) | Rows(json: string)

  const SQL_MAX_LEN := 4096

  function ReplyOf(r: DbResult): Reply {
    if r.Answer? then Rows(r.json) else Refused(r.why)
  }

  function EngineReply(rows: seq<Record>, sql: string): Reply {
    var stmt := S.Parse(sql);
    if stmt.None? then BadSql else ReplyOf(EngineAnswer(rows, stmt.value))
  }

  function RowsAfter(rows: seq<Record>, sql: string): seq<Record> {
    var stmt := S.Parse(sql);
    if stmt.None? then rows else EngineRows(rows, stmt.value)
  }

  lemma {:induction false} ReplyCases(rows: seq<Record>, sql: string)
    ensures S.Parse(sql).None? ==> EngineReply(rows, sql) == BadSql && RowsAfter(rows, sql) == rows
    ensures S.Parse(sql).Some? ==>
      (var stmt := S.Parse(sql).value;
       EngineReply(rows, sql) == ReplyOf(EngineAnswer(rows, stmt)) && RowsAfter(rows, sql) == EngineRows(rows, stmt))
  {
  }

  /** handle_query from the statement on. */
  method HandleSql(db: DbEngine, sql: string) returns (reply: Reply)
    requires db.Valid() && IsCString(sql)
    modifies db.Repr()
    ensures db.Valid() && forall o <- db.Repr() :: o in old(db.Repr()) || fresh(o)
    ensures reply == EngineReply(old(db.Rows()), sql)
    ensures db.Rows() == RowsAfter(old(db.Rows()), sql)
    ensures old(db.Durable()) ==> db.Durable()
  {
    hide *;
    db.RowsApart();
    ghost var rows := db.Rows();
    ReplyCases(rows, sql);
    var ok, stmt := SqlParser.SqlParse(sql);
    if !ok {
      return BadSql;
    }
    ParsedPlain(sql);
    var result := ExecuteStatement(db, stmt);
    reply := ReplyOf(result);
  }

  /** handle_query: the statement in a request body. */
  function BodyReply(rows: seq<Record>, body: string): Reply {
    var sql := SqlBody.Extract(UpToNul(body), SQL_MAX_LEN);
    if sql.None? then BadBody else EngineReply(rows, sql.value)
  }

  function RowsAfterBody(rows: seq<Record>, body: string): seq<Record> {
    var sql := SqlBody.Extract(UpToNul(body), SQL_MAX_LEN);
    if sql.None? then rows else RowsAfter(rows, sql.value)
  }

  method HandleQuery(db: DbEngine, body: string) returns (reply: Reply)
    requires db.Valid()
    modifies db.Repr()
    ensures db.Valid() && forall o <- db.Repr() :: o in old(db.Repr()) || fresh(o)
    ensures reply == BodyReply(old(db.Rows()), body)
    ensures db.Rows() == RowsAfterBody(old(db.Rows()), body)
    ensures old(db.Durable()) ==> db.Durable()
  {
    hide *;
    db.RowsApart();
    ghost var rows := db.Rows();
    BodyCases(rows, body);
    var text := UpToNul(body);
    NoNul(body);
    var sqlOut := new char[SQL_MAX_LEN];
    var ok, len := SqlBody.ExtractSql(text, sqlOut);
    if !ok {
      return BadBody;
    }
    SqlBody.ExtractedPlain(text, SQL_MAX_LEN);
    reply := HandleSql(db, sqlOut[..len]);
  }

  lemma {:induction false} BodyCases(rows: seq<Record>, body: string)
    ensures SQL_MAX_LEN == 4096
    ensures var sql := SqlBody.Extract(UpToNul(body), SQL_MAX_LEN);
      && (sql.None? ==> BodyReply(rows, body) == BadBody && RowsAfterBody(rows, body) == rows)
      && (sql.Some? ==> BodyReply(rows, body) == EngineReply(rows, sql.value)
                        && RowsAfterBody(rows, body) == RowsAfter(rows, sql.value))
  {
  }

  /** From a statement through its text, the escaper, the request body, the extractor
      and the parser back to the engine: a client that sends the printed statement gets
      the answer to that statement, if the text fits and the extractor can carry it. */
  lemma {:induction false} StatementArrives(rows: seq<Record>, stmt: S.Statement)
    requires S.WellFormed(stmt)
    ensures var text := S.Print(stmt);
      BodyReply(rows, SqlBody.Wrapped(text)) ==
        if SqlBody.AllCarried(text) && |text| < SQL_MAX_LEN then ReplyOf(EngineAnswer(rows, stmt)) else BadBody
  {
    hide *;
    var text := S.Print(stmt);
    var body := SqlBody.Wrapped(text);
    SqlBody.WrappedPlain(text);
    UpToNulWhole(body);
    BodyCases(rows, body);
    SqlBody.ExtractWrapped(text, SQL_MAX_LEN);
    S.PrintParse(stmt);
    ReplyCases(rows, text);
  }

  // ---------------------------------------------------------------- the naive interpreter

  /** The largest stored id below INT_MAX, or 0. */
  function Largest(rows: seq<Record>): int {
    if rows == [] then 0
    else
      var before, id := Largest(rows[..|rows| - 1]), rows[|rows| - 1].id;
      if id < INT_MAX && id > before then id else before
  }

  /** The reference: a table is a list of rows and nothing else.  A select looks at all
      rows, with a test and columns of its own. */
  predicate Wanted(r: Record, w: S.Where) {
    match w
    case Everything => true
    case WhereId(id) => r.id == id
    case WhereName(name) => r.name == name
  }

  function NaiveFind(rows: seq<Record>, w: S.Where): seq<Record> {
    if rows == [] then []
    else
      var before, r := NaiveFind(rows[..|rows| - 1], w), rows[|rows| - 1];
      if Wanted(r, w) then before + [r] else before
  }

  function NaiveMember(r: Record, c: S.Column): Member {
    match c
    case Id => Member("id", JNumber(r.id))
    case Name => Member("name", JString(r.name))
    case Age => Member("age", JNumber(r.age))
  }

  function NaiveRow(r: Record, cols: seq<S.Column>): Json {
    JObject(seq(|cols|, j requires 0 <= j < |cols| => NaiveMember(r, cols[j])))
  }

  function NaiveText(rows: seq<Record>, cols: seq<S.Column>): string {
    var asked := if cols == [] then [S.Id, S.Name, S.Age] else cols;
    Show(JArray(seq(|rows|, i requires 0 <= i < |rows| => NaiveRow(rows[i], asked))))
  }

  /** An insert looks through all rows for its id, or takes the id after the largest one. */
  function NaiveAdd(rows: seq<Record>, r: Record): (Reply, seq<Record>) {
    if r.name == "" || ',' in r.name || '\n' in r.name || '\r' in r.name then (Refused(BadValue), rows)
    else (Rows(NaiveText([r], [])), rows + [r])
  }

  function Naive(rows: seq<Record>, sql: string): (Reply, seq<Record>) {
    match S.Parse(sql)
    case None => (BadSql, rows)
    case Some(InsertWithId(id, name, age)) =>
      var added := NaiveAdd(rows, Record(id, name, age));
      if added.0.Rows? && HasId(rows, id) then (Refused(DuplicateId), rows) else added
    case Some(InsertNext(name, age)) =>
      NaiveAdd(rows, Record(Largest(rows) + 1, name, age))
    case Some(Select(cols, filter)) =>
      (Rows(NaiveText(NaiveFind(rows, filter), cols)), rows)
  }

  /** The counter that the engine keeps is the id after the largest one. */
  lemma {:induction false} CounterIsLargest(rows: seq<Record>)
    requires AreRows(rows)
    ensures NextId(rows) == Largest(rows) + 1
  {
    if rows != [] {
      CounterIsLargest(rows[..|rows| - 1]);
    }
  }

  lemma {:induction false} NaiveAddIs(rows: seq<Record>, r: Record)
    ensures NameIsValid(r.name) <==> !(r.name == "" || ',' in r.name || '\n' in r.name || '\r' in r.name)
  {
  }

  /** Every accepted or refused statement leaves the engine and the interpreter with the
      same rows. */
  lemma {:induction false} SameRows(rows: seq<Record>, sql: string)
    requires AreRows(rows)
    ensures RowsAfter(rows, sql) == Naive(rows, sql).1
  {
    hide RowsText, NaiveText, Scan, NaiveFind, Selected, NextId, LastIndex, Largest, NameIsValid, HasId, S.Parse;
    CounterIsLargest(rows);
    var stmt := S.Parse(sql);
    if stmt.Some? && stmt.value.InsertWithId? {
      NaiveAddIs(rows, Record(stmt.value.id, stmt.value.name, stmt.value.age));
    } else if stmt.Some? && stmt.value.InsertNext? {
      NaiveAddIs(rows, Record(NextId(rows), stmt.value.name, stmt.value.age));
    }
  }

  /** The answers are the same too, except to WHERE id = n when n is stored twice: there,
      and only there, the index answers with one row where the interpreter finds more. */
  predicate AsksAmbiguousId(rows: seq<Record>, sql: string) {
    match S.Parse(sql)
    case Some(Select(_, WhereId(id))) => !Once(rows, id)
    case _ => false
  }

  lemma {:induction false} SameReply(rows: seq<Record>, sql: string)
    requires AreRows(rows)
    ensures EngineReply(rows, sql) == Naive(rows, sql).0 <==> !AsksAmbiguousId(rows, sql)
  {
    hide RowsText, NaiveText, Scan, NaiveFind, Selected, NextId, LastIndex, Largest, NameIsValid, HasId, Once;
    hide S.Parse, ColumnsOf, ToColumns;
    CounterIsLargest(rows);
    match S.Parse(sql)
    case None =>
    case Some(InsertWithId(id, name, age)) =>
      NaiveAnswer(Record(id, name, age));
      NaiveAddIs(rows, Record(id, name, age));
    case Some(InsertNext(name, age)) =>
      NaiveAnswer(Record(NextId(rows), name, age));
      NaiveAddIs(rows, Record(NextId(rows), name, age));
    case Some(Select(cols, filter)) =>
      SameSelection(rows, filter, cols);
  }

  /** The columns of the engine and those of the interpreter write the same text. */
  lemma {:induction false} NaiveTextIs(rows: seq<Record>, cols: seq<S.Column>)
    ensures RowsText(rows, ToColumns(cols)) == NaiveText(rows, cols)
  {
    var asked := if cols == [] then [S.Id, S.Name, S.Age] else cols;
    var list := seq(|rows|, i requires 0 <= i < |rows| => NaiveRow(rows[i], asked));
    forall i | 0 <= i < |rows| ensures RowJson(rows[i], ToColumns(cols)) == NaiveRow(rows[i], asked) {
      NaiveRowIs(rows[i], asked, ToColumns(cols));
    }
    hide RowJson, NaiveRow, Show, ToColumns;
    assert RowList(rows, ToColumns(cols)) == list;
  }

  lemma {:induction false} NaiveRowIs(r: Record, asked: seq<S.Column>, cols: seq<DbColumn>)
    requires |cols| == |asked| && forall j :: 0 <= j < |asked| ==> cols[j] == ToColumn(asked[j])
    ensures RowJson(r, cols) == NaiveRow(r, asked)
  {
    var ms := seq(|asked|, j requires 0 <= j < |asked| => NaiveMember(r, asked[j]));
    assert Fields(r, cols) == ms;
  }

  lemma {:induction false} NaiveAnswer(r: Record)
    ensures RowsText([r], ColumnsOf(ALL_COLUMNS)) == NaiveText([r], [])
  {
    NaiveTextIs([r], []);
    assert ColumnsOf(ALL_COLUMNS) == ToColumns([]);
    hide RowsText, NaiveText, ColumnsOf;
  }

  /** The scan of the engine and the interpreter's own search find the same rows. */
  lemma {:induction false} NaiveFindIs(rows: seq<Record>, w: S.Where)
    ensures Scan(rows, ToFilter(w)) == NaiveFind(rows, w)
  {
    if rows != [] {
      NaiveFindIs(rows[..|rows| - 1], w);
    }
  }

  lemma {:induction false} SameSelection(rows: seq<Record>, filter: S.Where, cols: seq<S.Column>)
    ensures RowsText(Selected(rows, ToFilter(filter)), ToColumns(cols)) == NaiveText(NaiveFind(rows, filter), cols)
      <==> !(filter.WhereId? && !Once(rows, filter.id))
  {
    hide RowsText, NaiveText, ToColumns, NaiveFind;
    NaiveFindIs(rows, filter);
    NaiveTextIs(NaiveFind(rows, filter), cols);
    if filter.WhereId? {
      IndexIsScan(rows, filter.id);
      if !Once(rows, filter.id) {
        ScanTwice(rows, filter.id);
      }
      TextDecidesRows(Selected(rows, ById(filter.id)), Scan(rows, ById(filter.id)), ToColumns(cols));
    }
  }

  // ---------------------------------------------------------------- histories

  function EngineRun(rows: seq<Record>, sqls: seq<string>): (r: (seq<Reply>, seq<Record>))
    ensures |r.0| == |sqls|
  {
    if sqls == [] then ([], rows)
    else
      var last := |sqls| - 1;
      var before := EngineRun(rows, sqls[..last]);
      (before.0 + [EngineReply(before.1, sqls[last])], RowsAfter(before.1, sqls[last]))
  }

  function NaiveRun(rows: seq<Record>, sqls: seq<string>): (r: (seq<Reply>, seq<Record>))
    ensures |r.0| == |sqls|
  {
    if sqls == [] then ([], rows)
    else
      var last := |sqls| - 1;
      var before := NaiveRun(rows, sqls[..last]);
      var step := Naive(before.1, sqls[last]);
      (before.0 + [step.0], step.1)
  }

  predicate AreTexts(sqls: seq<string>) {
    forall i :: 0 <= i < |sqls| ==> IsCString(sqls[i])
  }

  lemma {:induction false} StepKeepsRows(rows: seq<Record>, sql: string)
    requires AreRows(rows) && IsCString(sql)
    ensures AreRows(RowsAfter(rows, sql)) && rows <= RowsAfter(rows, sql)
  {
    var stmt := S.Parse(sql);
    if stmt.Some? {
      ParsedPlain(sql);
      hide S.Parse, NextId, IsRow;
      match stmt.value
      case InsertWithId(id, name, age) => DecidedIsRow(rows, true, id, name, age);
      case InsertNext(name, age) => DecidedIsRow(rows, false, 0, name, age);
      case Select(_, _) =>
    }
  }

  lemma {:induction false} RunKeepsRows(rows: seq<Record>, sqls: seq<string>)
    requires AreRows(rows) && AreTexts(sqls)
    ensures AreRows(EngineRun(rows, sqls).1) && rows <= EngineRun(rows, sqls).1
    decreases |sqls|
  {
    if sqls != [] {
      var last := |sqls| - 1;
      RunKeepsRows(rows, sqls[..last]);
      StepKeepsRows(EngineRun(rows, sqls[..last]).1, sqls[last]);
    }
  }

  predicate Ambiguous(rows: seq<Record>, sqls: seq<string>) {
    exists i :: 0 <= i < |sqls| && AsksAmbiguousId(EngineRun(rows, sqls[..i]).1, sqls[i])
  }

  lemma {:induction false} AmbiguousStep(rows: seq<Record>, sqls: seq<string>)
    requires sqls != []
    ensures var last := |sqls| - 1;
      Ambiguous(rows, sqls) <==>
        (Ambiguous(rows, sqls[..last]) || AsksAmbiguousId(EngineRun(rows, sqls[..last]).1, sqls[last]))
  {
    hide AsksAmbiguousId, EngineRun;
    var last := |sqls| - 1;
    assert forall i :: 0 <= i < last ==> sqls[..last][..i] == sqls[..i] && sqls[..last][i] == sqls[i];
  }

  /** Every history of texts, from every table: the engine and the interpreter hold the
      same rows at the end, and they gave the same replies all along if and only if no
      statement asked for an id that was stored twice at that moment. */
  lemma {:induction false} History(rows: seq<Record>, sqls: seq<string>)
    requires AreRows(rows) && AreTexts(sqls)
    ensures EngineRun(rows, sqls).1 == NaiveRun(rows, sqls).1
    ensures EngineRun(rows, sqls).0 == NaiveRun(rows, sqls).0 <==> !Ambiguous(rows, sqls)
    decreases |sqls|
  {
    if sqls != [] {
      var last := |sqls| - 1;
      var init, sql := sqls[..last], sqls[last];
      History(rows, init);
      RunKeepsRows(rows, init);
      AmbiguousStep(rows, sqls);
      var e, n := EngineRun(rows, init), NaiveRun(rows, init);
      SameRows(e.1, sql);
      SameReply(e.1, sql);
      hide EngineReply, Naive, RowsAfter, AsksAmbiguousId, Ambiguous, AreRows;
      SameEnds(e.0, n.0, EngineReply(e.1, sql), Naive(n.1, sql).0);
    }
  }

  lemma {:induction false} SameEnds<T>(a: seq<T>, b: seq<T>, x: T, y: T)
    requires |a| == |b|
    ensures a + [x] == b + [y] <==> a == b && x == y
  {
    if a + [x] == b + [y] {
      assert (a + [x])[..|a|] == a && (b + [y])[..|b|] == b;
      assert (a + [x])[|a|] == x && (b + [y])[|b|] == y;
    }
  }

  lemma {:induction false} StepKeepsUnique(rows: seq<Record>, sql: string)
    requires AreRows(rows) && UniqueIds(rows) && NextId(rows) < INT_MAX
    ensures UniqueIds(RowsAfter(rows, sql))
  {
    var stmt := S.Parse(sql);
    hide S.Parse, NextId, NameIsValid, HasId, UniqueIds;
    if stmt.Some? {
      match stmt.value
      case InsertWithId(id, name, age) =>
        if Decide(rows, true, id, name, age).Inserted? {
          InsertKeepsUnique(rows, true, id, name, age);
        }
      case InsertNext(name, age) =>
        if Decide(rows, false, 0, name, age).Inserted? {
          InsertKeepsUnique(rows, false, 0, name, age);
        }
      case Select(_, _) =>
    }
  }

  /** As long as the counter has not reached INT_MAX, a history that starts with
      unique ids is answered throughout as the interpreter answers it. */
  lemma {:induction false} HistoryBelowIntMax(rows: seq<Record>, sqls: seq<string>)
    requires AreRows(rows) && AreTexts(sqls) && UniqueIds(rows)
    requires NextId(EngineRun(rows, sqls).1) < INT_MAX
    ensures EngineRun(rows, sqls) == NaiveRun(rows, sqls) && UniqueIds(EngineRun(rows, sqls).1)
  {
    NeverAmbiguous(rows, sqls);
    History(rows, sqls);
  }

  lemma {:induction false} NeverAmbiguous(rows: seq<Record>, sqls: seq<string>)
    requires AreRows(rows) && AreTexts(sqls) && UniqueIds(rows)
    requires NextId(EngineRun(rows, sqls).1) < INT_MAX
    ensures UniqueIds(EngineRun(rows, sqls).1) && !Ambiguous(rows, sqls)
    decreases |sqls|
  {
    if sqls != [] {
      var last := |sqls| - 1;
      var init, sql := sqls[..last], sqls[last];
      RunKeepsRows(rows, init);
      var before := EngineRun(rows, init).1;
      StepKeepsRows(before, sql);
      hide RowsAfter, NextId, AreRows, Ambiguous;
      CounterGrows(before, RowsAfter(before, sql));
      NeverAmbiguous(rows, init);
      StepKeepsUnique(before, sql);
      UniqueIsOnce(before, sql);
      AmbiguousStep(rows, sqls);
    }
  }

  lemma {:induction false} CounterGrows(rows: seq<Record>, more: seq<Record>)
    requires rows <= more
    ensures NextId(rows) <= NextId(more)
  {
    assert more == rows + more[|rows|..];
    NextIdMonotone(rows, more[|rows|..]);
  }

  lemma {:induction false} UniqueIsOnce(rows: seq<Record>, sql: string)
    requires UniqueIds(rows)
    ensures !AsksAmbiguousId(rows, sql)
  {
    hide S.Parse;
    assert forall id :: Once(rows, id);
  }

  // ---------------------------------------------------------------- a history that differs

  /** Two explicit inserts up to INT_MAX, an automatic one, and a question for INT_MAX. */
  function Exhausting(i: nat): (stmt: S.Statement)
    ensures S.WellFormed(stmt)
  {
    if i == 0 then S.InsertWithId(INT_MAX - 1, "a", 0)
    else if i == 1 then S.InsertWithId(INT_MAX, "b", 0)
    else if i == 2 then S.InsertNext("c", 0)
    else S.Select([], S.WhereId(INT_MAX))
  }

  function ExhaustingTexts(n: nat): (sqls: seq<string>)
    ensures |sqls| == n
  {
    if n == 0 then [] else ExhaustingTexts(n - 1) + [S.Print(Exhausting(n - 1))]
  }

  lemma {:induction false} PrintedStep(rows: seq<Record>, stmt: S.Statement)
    requires S.WellFormed(stmt)
    ensures RowsAfter(rows, S.Print(stmt)) == EngineRows(rows, stmt)
    ensures AsksAmbiguousId(rows, S.Print(stmt)) <==>
      stmt.Select? && stmt.filter.WhereId? && !Once(rows, stmt.filter.id)
  {
    hide S.Parse, S.Print, EngineRows, Once;
    S.PrintParse(stmt);
  }

  lemma {:induction false} TextsStep(n: nat)
    ensures EngineRun([], ExhaustingTexts(n + 1)).1
      == RowsAfter(EngineRun([], ExhaustingTexts(n)).1, S.Print(Exhausting(n)))
  {
    hide RowsAfter, S.Print, Exhausting;
    var more := ExhaustingTexts(n + 1);
    assert more[..|more| - 1] == ExhaustingTexts(n) && more[|more| - 1] == S.Print(Exhausting(n));
  }

  lemma {:induction false} ExhaustingSteps()
    ensures var r, t, u := Record(INT_MAX - 1, "a", 0), Record(INT_MAX, "b", 0), Record(INT_MAX, "c", 0);
      && EngineRows([], Exhausting(0)) == [r]
      && EngineRows([r], Exhausting(1)) == [r, t]
      && EngineRows([r, t], Exhausting(2)) == [r, t, u]
  {
    hide Decide, S.WellFormed;
    var r, t, u := Record(INT_MAX - 1, "a", 0), Record(INT_MAX, "b", 0), Record(INT_MAX, "c", 0);
    FirstDecisions();
    ExhaustedCounter();
    assert [] + [r] == [r] && [r] + [t] == [r, t] && [r, t] + [u] == [r, t, u];
  }

  lemma {:induction false} ExhaustingRows()
    ensures EngineRun([], ExhaustingTexts(3)).1
      == [Record(INT_MAX - 1, "a", 0), Record(INT_MAX, "b", 0), Record(INT_MAX, "c", 0)]
  {
    hide *;
    var r, t := Record(INT_MAX - 1, "a", 0), Record(INT_MAX, "b", 0);
    ExhaustingSteps();
    NoTexts();
    TextsStep(0);
    TextsStep(1);
    TextsStep(2);
    PrintedStep([], Exhausting(0));
    PrintedStep([r], Exhausting(1));
    PrintedStep([r, t], Exhausting(2));
  }

  lemma {:induction false} NoTexts()
    ensures EngineRun([], ExhaustingTexts(0)).1 == []
  {
  }

  /** From the empty table, four statements whose last answer is one row where the
      interpreter finds two. */
  lemma {:induction false} AmbiguousHistory()
    ensures Ambiguous([], ExhaustingTexts(4))
    ensures EngineReply(EngineRun([], ExhaustingTexts(3)).1, ExhaustingTexts(4)[3])
      != Naive(EngineRun([], ExhaustingTexts(3)).1, ExhaustingTexts(4)[3]).0
  {
    hide *;
    var rows, sqls := EngineRun([], ExhaustingTexts(3)).1, ExhaustingTexts(4);
    ExhaustingRows();
    LastQuestion();
    LastText();
    PrintedStep(rows, Exhausting(3));
    StoredTwice();
    ExhaustingAreRows();
    AmbiguousAt([], sqls, 3);
    SameReply(rows, sqls[3]);
  }

  lemma {:induction false} AmbiguousAt(rows: seq<Record>, sqls: seq<string>, i: nat)
    requires i < |sqls| && AsksAmbiguousId(EngineRun(rows, sqls[..i]).1, sqls[i])
    ensures Ambiguous(rows, sqls)
  {
  }

  lemma {:induction false} LastText()
    ensures ExhaustingTexts(4)[..3] == ExhaustingTexts(3) && ExhaustingTexts(4)[3] == S.Print(Exhausting(3))
  {
    hide S.Print, Exhausting;
    var three := ExhaustingTexts(3);
    assert ExhaustingTexts(4) == three + [S.Print(Exhausting(3))];
  }

  lemma {:induction false} StoredTwice()
    ensures !Once([Record(INT_MAX - 1, "a", 0), Record(INT_MAX, "b", 0), Record(INT_MAX, "c", 0)], INT_MAX)
  {
    var rows := [Record(INT_MAX - 1, "a", 0), Record(INT_MAX, "b", 0), Record(INT_MAX, "c", 0)];
    assert rows[1].id == rows[2].id == INT_MAX;
  }

  lemma {:induction false} LastQuestion()
    ensures Exhausting(3) == S.Select([], S.WhereId(INT_MAX))
  {
  }

  lemma {:induction false} ExhaustingAreRows()
    ensures AreRows([Record(INT_MAX - 1, "a", 0), Record(INT_MAX, "b", 0), Record(INT_MAX, "c", 0)])
  {
    assert NameIsValid("a") && NameIsValid("b") && NameIsValid("c");
  }
}
