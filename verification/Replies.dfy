/** What the replies say: to a client that reads them with a JSON reader, and byte by
    byte. */
module Replies {
  import opened Options
  import opened Text
  import opened Json
  import S = Sql
  import opened DbModel
  import opened TableJson
  import opened Db
  import opened Server

  // ---------------------------------------------------------------- selects

  /** A member for a column: its name, and the value that this row has under that name. */
  predicate Keyed(m: Member, r: Record, c: S.Column) {
    && m.key == S.ColumnWord(c)
    && (m.key == "id" ==> m.value == JNumber(r.id))
    && (m.key == "name" ==> m.value == JString(r.name))
    && (m.key == "age" ==> m.value == JNumber(r.age))
  }

  /** An object with the asked columns in their order. */
  predicate Shows(v: Json, r: Record, asked: seq<S.Column>) {
    v.JObject? && |v.members| == |asked| && forall j :: 0 <= j < |asked| ==> Keyed(v.members[j], r, asked[j])
  }

  /** Position i is one that the condition asks for; an id asks for its last row. */
  predicate Asked(rows: seq<Record>, w: S.Where, i: nat) {
    && i < |rows|
    && match w
       case Everything => true
       case WhereId(id) => rows[i].id == id && forall k :: i < k < |rows| ==> rows[k].id != id
       case WhereName(name) => rows[i].name == name
  }

  /** The reply to a select, read as JSON, is a list of objects: one for each position that
      the condition asks for, in ascending order, with the columns that were asked for. */
  lemma {:induction false} SelectReads(rows: seq<Record>, sql: string, cols: seq<S.Column>, w: S.Where)
    returns (ps: seq<nat>, items: seq<Json>)
    requires S.Parse(sql) == Some(S.Select(cols, w))
    ensures Ascending(ps) && forall i: nat :: i in ps <==> Asked(rows, w, i)
    ensures EngineReply(rows, sql).Rows?
    ensures ReadValue(EngineReply(rows, sql).json) == Some((JArray(items), ""))
    ensures |items| == |ps|
    ensures var asked := if cols == [] then [S.Id, S.Name, S.Age] else cols;
      forall k :: 0 <= k < |ps| ==> ps[k] < |rows| && Shows(items[k], rows[ps[k]], asked)
  {
    hide RowsText, Selected, ReadValue, S.Parse, RowJson, ToColumns, Shows;
    ps := SelectedAt(rows, ToFilter(w));
    var found := Selected(rows, ToFilter(w));
    ReadRows(found, ToColumns(cols));
    items := RowList(found, ToColumns(cols));
    var asked := if cols == [] then [S.Id, S.Name, S.Age] else cols;
    forall k | 0 <= k < |ps| ensures ps[k] < |rows| && Shows(items[k], rows[ps[k]], asked) {
      RowShows(found[k], cols);
    }
  }

  lemma {:induction false} RowShows(r: Record, cols: seq<S.Column>)
    ensures Shows(RowJson(r, ToColumns(cols)), r, if cols == [] then [S.Id, S.Name, S.Age] else cols)
  {
    var asked := if cols == [] then [S.Id, S.Name, S.Age] else cols;
    var ms := Fields(r, ToColumns(cols));
    forall j | 0 <= j < |asked| ensures ms[j] == Field(r, ToColumn(asked[j])) {
    }
    forall c: S.Column ensures Keyed(Field(r, ToColumn(c)), r, c) {
    }
  }

  // ---------------------------------------------------------------- inserts

  /** The reply to an insert and the rows after it.  A name that is empty or holds a comma
      or a line break is refused, and so is an id that some row has; otherwise the row is
      appended and the reply, read as JSON, is that row.  An automatic id is the counter. */
  lemma {:induction false} InsertReads(rows: seq<Record>, sql: string, stmt: S.Statement)
    requires AreRows(rows) && S.Parse(sql) == Some(stmt) && !stmt.Select?
    ensures var id, name := if stmt.InsertWithId? then stmt.id else NextId(rows), stmt.name;
      var bad := name == "" || ',' in name || '\n' in name || '\r' in name;
      var taken := stmt.InsertWithId? && exists i :: 0 <= i < |rows| && rows[i].id == id;
      var reply, after := EngineReply(rows, sql), RowsAfter(rows, sql);
      && (bad ==> reply == Refused(BadValue) && after == rows)
      && (!bad && taken ==> reply == Refused(DuplicateId) && after == rows)
      && (!bad && !taken ==>
            && after == rows + [Record(id, name, stmt.age)]
            && reply.Rows?
            && ReadValue(reply.json) == Some((JArray([JObject([
                 Member("id", JNumber(id)), Member("name", JString(name)), Member("age", JNumber(stmt.age))])]), "")))
  {
    assert S.WellFormed(stmt);
    var hasId, id := stmt.InsertWithId?, if stmt.InsertWithId? then stmt.id else 0;
    assert |stmt.name| <= 127 && stmt.age >= 0 && (hasId ==> id > 0);
    hide RowsText, ReadValue, S.Parse, NextId, Decide, ColumnsOf, S.WellFormed;
    DecideIs(rows, hasId, id, stmt.name, stmt.age);
    if Decide(rows, hasId, id, stmt.name, stmt.age).Inserted? {
      OneRowRead(Decide(rows, hasId, id, stmt.name, stmt.age).row);
    }
  }

  lemma {:induction false} OneRowRead(r: Record)
    ensures ReadValue(RowsText([r], ColumnsOf(ALL_COLUMNS))) == Some((JArray([JObject([
      Member("id", JNumber(r.id)), Member("name", JString(r.name)), Member("age", JNumber(r.age))])]), ""))
  {
    ReadRows([r], ColumnsOf(ALL_COLUMNS));
    hide RowsText, ReadValue;
    var cols := ColumnsOf(ALL_COLUMNS);
    assert cols == [ColumnId, ColumnName, ColumnAge];
    assert Fields(r, cols)
      == [Member("id", JNumber(r.id)), Member("name", JString(r.name)), Member("age", JNumber(r.age))];
    assert RowList([r], cols) == [RowJson(r, cols)];
  }

  // ---------------------------------------------------------------- byte by byte

  /** The text of one row in all its columns. */
  lemma {:induction false} RowText(r: Record)
    requires r.id >= 0 && r.age >= 0
    ensures RowsText([r], ColumnsOf(ALL_COLUMNS))
      == "[{\"id\":" + Decimal(r.id) + ",\"name\":\"" + Escape(r.name) + "\",\"age\":" + Decimal(r.age) + "}]"
  {
    var id, name, age := Member("id", JNumber(r.id)), Member("name", JString(r.name)), Member("age", JNumber(r.age));
    AllFields(r);
    OneRow(r, ColumnsOf(ALL_COLUMNS));
    FieldText(r, ColumnId);
    FieldText(r, ColumnName);
    FieldText(r, ColumnAge);
    ThreeMembers(id, name, age);
    assert ShowInt(r.id) == Decimal(r.id) && ShowInt(r.age) == Decimal(r.age);
    hide Decimal, Escape, RowsText, ShowMembers, ShowMember, ColumnsOf, RowJson, Fields, ShowInt;
    assert Show(id.value) == Decimal(r.id) && Show(age.value) == Decimal(r.age);
    assert Show(name.value) == "\"" + Escape(r.name) + "\"";
    Pieces(Decimal(r.id), Escape(r.name), Decimal(r.age));
  }

  lemma {:induction false} AllFields(r: Record)
    ensures RowJson(r, ColumnsOf(ALL_COLUMNS))
      == JObject([Field(r, ColumnId), Field(r, ColumnName), Field(r, ColumnAge)])
  {
    var cols := ColumnsOf(ALL_COLUMNS);
    assert cols == [ColumnId, ColumnName, ColumnAge];
    assert Fields(r, cols) == [Field(r, ColumnId), Field(r, ColumnName), Field(r, ColumnAge)];
  }

  lemma {:induction false} ThreeMembers(a: Member, b: Member, c: Member)
    ensures Show(JObject([a, b, c])) == "{" + (ShowMember(a) + "," + (ShowMember(b) + "," + ShowMember(c))) + "}"
  {
    hide ShowMember;
    assert [a, b, c][1..] == [b, c] && [b, c][1..] == [c];
    assert ShowMembers([c]) == ShowMember(c);
    assert ShowMembers([b, c]) == ShowMember(b) + "," + ShowMembers([c]);
    assert ShowMembers([a, b, c]) == ShowMember(a) + "," + ShowMembers([b, c]);
  }

  lemma {:induction false} Pieces(id: string, name: string, age: string)
    ensures var first, second, third := "\"id\":" + id, "\"name\":" + ("\"" + name + "\""), "\"age\":" + age;
      "[" + ("{" + (first + "," + (second + "," + third)) + "}") + "]"
      == "[{\"id\":" + id + ",\"name\":\"" + name + "\",\"age\":" + age + "}]"
  {
  }

  /** One more row: a comma after the rows before it, if there are any, and its object. */
  lemma {:induction false} OneMoreRow(rows: seq<Record>, r: Record, cols: seq<DbColumn>)
    ensures |RowsText(rows, cols)| >= 2
    ensures var t := RowsText(rows, cols);
      RowsText(rows + [r], cols)
      == t[..|t| - 1] + (if rows == [] then "" else ",") + RowsText([r], cols)[1..]
  {
    TextOfList(rows, cols);
    TextOfList(rows + [r], cols);
    OneRow(r, cols);
    ItemsOneMore(rows, r, cols);
    hide RowsText, RowList, ShowItems, RowJson, Show;
    var body, row := ShowItems(RowList(rows, cols)), Show(RowJson(r, cols));
    var comma := if rows == [] then "" else ",";
    assert ("[" + body + "]")[..|body| + 1] == "[" + body;
    assert ("[" + row + "]")[1..] == row + "]";
    assert "[" + (body + comma + row) + "]" == "[" + body + comma + (row + "]");
  }
}
