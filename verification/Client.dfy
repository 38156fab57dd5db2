/** One connection from its bytes to its reply: the request reader, the routes, the
    extractor, the parser and the engine together. */
module Client {
  import opened Options
  import opened Text
  import S = Sql
  import J = Json
  import SqlBody
  import B = BodyTexts
  import R = RequestReader
  import W = RequestText
  import opened DbModel
  import opened Db
  import opened Server

  datatype Response =
    | BadRequest(why: R.Rejection)
    | Healthy
    | Replied(reply: Reply)
    | MethodNotAllowed
    | NotFound

  /** The routes of handle_client; a body is looked at for queries alone. */
  function Routed(rows: seq<Record>, verb: string, path: string, body: string): Response {
    if SameNoCase(verb, "GET") && path == "/health" then Healthy
    else if SameNoCase(verb, "POST") && path == "/query" then Replied(BodyReply(rows, body))
    else if path == "/query" || path == "/health" then MethodNotAllowed
    else NotFound
  }

  function RowsAfterRequest(rows: seq<Record>, verb: string, path: string, body: string): seq<Record> {
    if SameNoCase(verb, "POST") && path == "/query" then RowsAfterBody(rows, body) else rows
  }

  /** The routes word by word: verbs in any letter case, paths exactly. */
  lemma {:induction false} Routes(rows: seq<Record>, verb: string, path: string, body: string)
    ensures var response, after := Routed(rows, verb, path, body), RowsAfterRequest(rows, verb, path, body);
      && (Recased(verb, "GET") && path == "/health" ==> response == Healthy && after == rows)
      && (Recased(verb, "POST") && path == "/query" ==>
            response == Replied(BodyReply(rows, body)) && after == RowsAfterBody(rows, body))
      && (!Recased(verb, "GET") && path == "/health" ==> response == MethodNotAllowed && after == rows)
      && (!Recased(verb, "POST") && path == "/query" ==> response == MethodNotAllowed && after == rows)
      && (path != "/health" && path != "/query" ==> response == NotFound && after == rows)
  {
    hide BodyReply, RowsAfterBody, SameNoCase, Recased;
    RecasedIff(verb, "GET");
    RecasedIff(verb, "POST");
    assert "/health" != "/query";
  }

  function Answered(rows: seq<Record>, o: R.Outcome): Response {
    if o.Rejected? then BadRequest(o.why) else Routed(rows, o.verb, o.path, o.body)
  }

  function RowsAfterAnswer(rows: seq<Record>, o: R.Outcome): seq<Record> {
    if o.Rejected? then rows else RowsAfterRequest(rows, o.verb, o.path, o.body)
  }

  /** Rows change only when a POST to /query was accepted. */
  lemma {:induction false} OnlyQueriesWrite(rows: seq<Record>, o: R.Outcome)
    ensures RowsAfterAnswer(rows, o) != rows ==> o.Accepted? && Recased(o.verb, "POST") && o.path == "/query"
  {
    hide RowsAfterBody, SameNoCase, Recased;
    if o.Accepted? {
      RecasedIff(o.verb, "POST");
    }
  }

  /** handle_client. */
  method HandleClient(db: DbEngine, conn: R.Connection, limits: R.Limits)
    returns (response: Response, ghost o: R.Outcome)
    requires db.Valid() && conn !in db.Repr()
    modifies conn, db.Repr()
    ensures db.Valid()
    ensures var s := old(conn.Stream());
      exists seen :: R.StoppedAt(s, seen, limits) && o == R.Answer(s, seen, conn.broken, limits)
    ensures response == Answered(old(db.Rows()), o)
    ensures db.Rows() == RowsAfterAnswer(old(db.Rows()), o)
    ensures db.Rows() != old(db.Rows()) ==> o.Accepted? && Recased(o.verb, "POST") && o.path == "/query"
    ensures old(db.Durable()) ==> db.Durable()
  {
    hide DbEngine.Valid, DbEngine.Rows, DbEngine.Repr, DbEngine.Durable, BodyReply, RowsAfterBody, SameNoCase;
    hide R.StoppedAt, R.Answer, R.SteadyStream, Recased;
    db.RowsApart();
    ghost var rows := db.Rows();
    var outcome, seen := R.ReadRequest(conn, limits);
    o := outcome;
    OnlyQueriesWrite(rows, o);
    if outcome.Rejected? {
      return BadRequest(outcome.why), o;
    }
    if SameNoCase(outcome.verb, "GET") && outcome.path == "/health" {
      response := Healthy;
    } else if SameNoCase(outcome.verb, "POST") && outcome.path == "/query" {
      var reply := HandleQuery(db, outcome.body);
      response := Replied(reply);
    } else if outcome.path == "/query" || outcome.path == "/health" {
      response := MethodNotAllowed;
    } else {
      response := NotFound;
    }
  }

  // ---------------------------------------------------------------- queries from end to end

  /** The body of a query: an object with white space wherever JSON allows it before the
      value, the escaped text, and anything after its closing quote. */
  function QueryBody(gaps: (string, string, string, string), sql: string, post: string): string {
    B.ObjectText(gaps, J.Escape(sql), post)
  }

  lemma {:induction false} BodyPlain(gaps: (string, string, string, string), sql: string, post: string)
    requires B.AreGaps(gaps) && NUL !in post
    ensures NUL !in QueryBody(gaps, sql, post)
  {
    hide J.Escape;
    SpacePlainText(gaps.0);
    SpacePlainText(gaps.1);
    SpacePlainText(gaps.2);
    SpacePlainText(gaps.3);
    assert NUL !in J.Escape(sql);
    assert NUL !in "{" && NUL !in "\"sql\"" && NUL !in ":" && NUL !in "\"";
    hide AllSpace;
  }

  lemma {:induction false} SpacePlainText(w: string)
    requires AllSpace(w)
    ensures NUL !in w
  {
  }

  /** A text that a client escapes into such a body gets its own reply if and only if the
      extractor can carry it. */
  lemma {:induction false} TextArrives(rows: seq<Record>, gaps: (string, string, string, string), sql: string,
                                       post: string)
    requires B.AreGaps(gaps) && NUL !in post
    ensures BodyReply(rows, QueryBody(gaps, sql, post)) ==
      if SqlBody.AllCarried(sql) && |sql| < 4096 then EngineReply(rows, sql) else BadBody
    ensures RowsAfterBody(rows, QueryBody(gaps, sql, post)) ==
      if SqlBody.AllCarried(sql) && |sql| < 4096 then RowsAfter(rows, sql) else rows
  {
    hide *;
    var body := QueryBody(gaps, sql, post);
    BodyIs(gaps, sql, post);
    BodyPlain(gaps, sql, post);
    UpToNulWhole(body);
    BodyCases(rows, body);
    B.ExtractEscaped(gaps, sql, post, SQL_MAX_LEN);
  }

  lemma {:induction false} BodyIs(gaps: (string, string, string, string), sql: string, post: string)
    ensures QueryBody(gaps, sql, post) == B.ObjectText(gaps, J.Escape(sql), post)
  {
  }

  /** The bytes of a POST to /query with this body. */
  function QueryHead(version: string, f: W.Fields, body: string): string {
    W.HeadText(W.HeadLines(W.RequestLine("POST", "/query", version), f, Decimal(|body|)))
  }

  lemma {:induction false} QueryWords()
    ensures W.IsWord("POST", 7) && W.IsWord("/query", 127) && W.IsWord("GET", 7) && W.IsWord("/health", 127)
    ensures Recased("POST", "POST") && Recased("GET", "GET")
  {
  }

  /** From the stream to the reply and to the rows: any text that a client escaped, wrapped
      and sent, with any other header fields, in any pieces, gets its own reply if and only
      if it fits and can be carried. */
  lemma {:induction false} QueryAnswered(rows: seq<Record>, gaps: (string, string, string, string), sql: string,
                                         post: string, version: string, f: W.Fields, extra: string,
                                         seen: nat, broken: bool, limits: R.Limits)
    requires B.AreGaps(gaps) && NUL !in post && W.IsRequest("POST", "/query", version, f)
    requires |QueryBody(gaps, sql, post)| <= limits.body <= R.ULONG_MAX
    requires |QueryHead(version, f, QueryBody(gaps, sql, post))| + |QueryBody(gaps, sql, post)| <= limits.request
    requires var body := QueryBody(gaps, sql, post);
      R.StoppedAt(QueryHead(version, f, body) + (body + extra), seen, limits)
    ensures var body := QueryBody(gaps, sql, post);
      var o := R.Answer(QueryHead(version, f, body) + (body + extra), seen, broken, limits);
      var carried := SqlBody.AllCarried(sql) && |sql| < 4096;
      && Answered(rows, o) == Replied(if carried then EngineReply(rows, sql) else BadBody)
      && RowsAfterAnswer(rows, o) == if carried then RowsAfter(rows, sql) else rows
  {
    hide *;
    var body := QueryBody(gaps, sql, post);
    HeadIs(version, f, body);
    W.RequestArrives("POST", "/query", version, f, body, extra, seen, broken, limits);
    QueryWords();
    Routes(rows, "POST", "/query", body);
    AcceptedIsRouted(rows, "POST", "/query", body);
    TextArrives(rows, gaps, sql, post);
  }

  lemma {:induction false} HeadIs(version: string, f: W.Fields, body: string)
    ensures QueryHead(version, f, body)
      == W.HeadText(W.HeadLines(W.RequestLine("POST", "/query", version), f, Decimal(|body|)))
  {
  }

  lemma {:induction false} AcceptedIsRouted(rows: seq<Record>, verb: string, path: string, body: string)
    ensures Answered(rows, R.Accepted(verb, path, body)) == Routed(rows, verb, path, body)
    ensures RowsAfterAnswer(rows, R.Accepted(verb, path, body)) == RowsAfterRequest(rows, verb, path, body)
  {
  }

  /** A printed statement that is sent so is answered as that statement. */
  lemma {:induction false} StatementAnswered(rows: seq<Record>, gaps: (string, string, string, string),
                                             stmt: S.Statement, post: string)
    requires S.WellFormed(stmt) && B.AreGaps(gaps) && NUL !in post
    requires SqlBody.AllCarried(S.Print(stmt)) && |S.Print(stmt)| < 4096
    ensures BodyReply(rows, QueryBody(gaps, S.Print(stmt), post)) == ReplyOf(EngineAnswer(rows, stmt))
    ensures RowsAfterBody(rows, QueryBody(gaps, S.Print(stmt), post)) == EngineRows(rows, stmt)
  {
    hide *;
    TextArrives(rows, gaps, S.Print(stmt), post);
    S.PrintParse(stmt);
    ReplyCases(rows, S.Print(stmt));
  }

  /** A GET for /health, with any fields but a length, is answered however it arrives, and
      changes nothing. */
  lemma {:induction false} HealthAnswered(rows: seq<Record>, version: string, fields: seq<string>, more: string,
                                          seen: nat, broken: bool, limits: R.Limits)
    requires '\r' !in version && NUL !in version && W.PlainFields(fields)
    requires |W.HeadText([W.RequestLine("GET", "/health", version)] + fields)| <= limits.request
    requires R.StoppedAt(W.HeadText([W.RequestLine("GET", "/health", version)] + fields) + more, seen, limits)
    ensures var s := W.HeadText([W.RequestLine("GET", "/health", version)] + fields) + more;
      var o := R.Answer(s, seen, broken, limits);
      Answered(rows, o) == Healthy && RowsAfterAnswer(rows, o) == rows
  {
    hide *;
    QueryWords();
    W.NoLengthOutcome("GET", "/health", version, fields, more, seen, broken, limits);
    Routes(rows, "GET", "/health", "");
    AcceptedIsRouted(rows, "GET", "/health", "");
  }
}
