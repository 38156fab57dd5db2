/** The rows of a result as JSON values. */
module TableJson {
  import opened Options
  import opened Text
  import opened Json
  import opened DbModel

  const ALL_COLUMNS := Projection(true, true, true, [])

  /** The columns that a projection asks for, in order; one that asks for nothing
      gets them all. */
  function ColumnsOf(p: Projection): (cols: seq<DbColumn>)
    ensures cols != []
  {
    if p.columns != [] then p.columns
    else
      var cols := FlaggedColumns(p);
      if cols == [] then [ColumnId, ColumnName, ColumnAge] else cols
  }

  function FlaggedColumns(p: Projection): seq<DbColumn> {
    (if p.includeId then [ColumnId] else [])
    + (if p.includeName then [ColumnName] else [])
    + (if p.includeAge then [ColumnAge] else [])
  }

  function Rank(c: DbColumn): nat {
    match c
    case ColumnId => 1
    case ColumnName => 2
    case ColumnAge => 3
  }

  /** Without a list the flags decide: id before name before age, and all three when no
      flag is set. */
  lemma {:induction false} FlagsDecide(p: Projection)
    requires p.columns == []
    ensures var cols, none := ColumnsOf(p), !p.includeId && !p.includeName && !p.includeAge;
      && (forall i, j :: 0 <= i < j < |cols| ==> Rank(cols[i]) < Rank(cols[j]))
      && (ColumnId in cols <==> p.includeId || none)
      && (ColumnName in cols <==> p.includeName || none)
      && (ColumnAge in cols <==> p.includeAge || none)
  {
  }

  /** The columns that append_record_json writes. */
  function RecordColumns(p: Projection): seq<DbColumn> {
    if p.columns != [] then p.columns else FlaggedColumns(p)
  }

  function Field(r: Record, c: DbColumn): Member {
    match c
    case ColumnId => Member("id", JNumber(r.id))
    case ColumnName => Member("name", JString(r.name))
    case ColumnAge => Member("age", JNumber(r.age))
  }

  function Fields(r: Record, cols: seq<DbColumn>): seq<Member> {
    seq(|cols|, i requires 0 <= i < |cols| => Field(r, cols[i]))
  }

  function RowJson(r: Record, cols: seq<DbColumn>): Json {
    JObject(Fields(r, cols))
  }

  function RowList(rows: seq<Record>, cols: seq<DbColumn>): seq<Json> {
    seq(|rows|, i requires 0 <= i < |rows| => RowJson(rows[i], cols))
  }

  /** The text of a result. */
  function RowsText(rows: seq<Record>, cols: seq<DbColumn>): string {
    Show(JArray(RowList(rows, cols)))
  }

  // ---------------------------------------------------------------- reading a result

  /** A JSON reader finds in the text of a result exactly the projected rows, in order
      and with their columns in order, whatever bytes the names hold. */
  lemma {:induction false} ReadRows(rows: seq<Record>, cols: seq<DbColumn>)
    ensures ReadValue(RowsText(rows, cols)) == Some((JArray(RowList(rows, cols)), ""))
  {
    hide *;
    ReadAll(JArray(RowList(rows, cols)));
    TextOfRows(rows, cols);
  }

  lemma {:induction false} TextOfRows(rows: seq<Record>, cols: seq<DbColumn>)
    ensures RowsText(rows, cols) == Show(JArray(RowList(rows, cols)))
  {
  }

  lemma {:induction false} ReadAll(v: Json)
    ensures ReadValue(Show(v)) == Some((v, ""))
  {
    assert Closed("");
    hide *;
    ReadShown(v, "");
    assert Show(v) + "" == Show(v);
  }

  predicate SameColumn(r: Record, s: Record, c: DbColumn) {
    match c
    case ColumnId => r.id == s.id
    case ColumnName => r.name == s.name
    case ColumnAge => r.age == s.age
  }

  predicate SameProjection(a: seq<Record>, b: seq<Record>, cols: seq<DbColumn>) {
    |a| == |b| && forall i, c :: 0 <= i < |a| && c in cols ==> SameColumn(a[i], b[i], c)
  }

  /** Two results have the same text if and only if they hold equally many rows that
      agree on every selected column, position by position. */
  lemma {:induction false} TextDecidesRows(a: seq<Record>, b: seq<Record>, cols: seq<DbColumn>)
    ensures RowsText(a, cols) == RowsText(b, cols) <==> SameProjection(a, b, cols)
  {
    ReadRows(a, cols);
    ReadRows(b, cols);
    hide Show, ReadValue;
    if RowsText(a, cols) == RowsText(b, cols) {
      assert RowList(a, cols) == RowList(b, cols);
      forall i, c | 0 <= i < |a| && c in cols ensures SameColumn(a[i], b[i], c) {
        assert RowList(a, cols)[i] == RowList(b, cols)[i];
        var j :| 0 <= j < |cols| && cols[j] == c;
        assert Fields(a[i], cols)[j] == Fields(b[i], cols)[j];
      }
    }
    if SameProjection(a, b, cols) {
      forall i | 0 <= i < |a| ensures RowList(a, cols)[i] == RowList(b, cols)[i] {
        forall j | 0 <= j < |cols| ensures SameColumn(a[i], b[i], cols[j]) {
          assert cols[j] in cols;
        }
        assert Fields(a[i], cols) == Fields(b[i], cols);
      }
      assert RowList(a, cols) == RowList(b, cols);
    }
  }

  // ---------------------------------------------------------------- one item more

  lemma {:induction false} ShowOneMore(items: seq<Json>, v: Json)
    ensures ShowItems(items + [v]) == (if items == [] then Show(v) else ShowItems(items) + "," + Show(v))
  {
    hide Show;
    var all := items + [v];
    if items != [] {
      assert all[0] == items[0] && all[1..] == items[1..] + [v];
      ShowOneMore(items[1..], v);
      if |items| > 1 {
        MoveComma(Show(items[0]), ShowItems(items[1..]), Show(v));
      } else {
        assert all == [items[0], v];
      }
    }
  }

  lemma {:induction false} MoveComma(first: string, others: string, last: string)
    ensures first + "," + (others + "," + last) == first + "," + others + "," + last
  {
  }

  lemma {:induction false} ShowOneMoreMember(ms: seq<Member>, m: Member)
    ensures ShowMembers(ms + [m]) == (if ms == [] then ShowMember(m) else ShowMembers(ms) + "," + ShowMember(m))
  {
    hide ShowMember;
    var all := ms + [m];
    if ms != [] {
      assert all[0] == ms[0] && all[1..] == ms[1..] + [m];
      ShowOneMoreMember(ms[1..], m);
      if |ms| > 1 {
        MoveComma(ShowMember(ms[0]), ShowMembers(ms[1..]), ShowMember(m));
      } else {
        assert all == [ms[0], m];
      }
    }
  }

  lemma {:induction false} FieldsOneMore(r: Record, cols: seq<DbColumn>, c: DbColumn)
    ensures Fields(r, cols + [c]) == Fields(r, cols) + [Field(r, c)]
    ensures cols == [] <==> Fields(r, cols) == []
  {
    hide Field;
  }

  lemma {:induction false} RowListOneMore(rows: seq<Record>, r: Record, cols: seq<DbColumn>)
    ensures RowList(rows + [r], cols) == RowList(rows, cols) + [RowJson(r, cols)]
    ensures rows == [] <==> RowList(rows, cols) == []
  {
  }

  // ---------------------------------------------------------------- the row printer

  lemma {:induction false} EscapePlain(s: string)
    requires forall i :: 0 <= i < |s| ==> 'a' <= s[i] <= 'z' && s[i] != '\\'
    ensures Escape(s) == s
  {
    if s != "" {
      EscapePlain(s[1..]);
      assert [s[0]] + s[1..] == s;
    }
  }

  /** The text that append_record_field_json writes before a value. */
  function Label(c: DbColumn): string {
    match c
    case ColumnId => "\"id\":"
    case ColumnName => "\"name\":"
    case ColumnAge => "\"age\":"
  }

  function Key(c: DbColumn): string {
    match c
    case ColumnId => "id"
    case ColumnName => "name"
    case ColumnAge => "age"
  }

  lemma {:induction false} LabelIsKey(c: DbColumn)
    ensures Quoted(Key(c)) + ":" == Label(c)
  {
    EscapePlain(Key(c));
    hide Escape;
    var k := Key(c);
    assert Quoted(k) + ":" == "\"" + k + "\":";
  }

  lemma {:induction false} FieldText(r: Record, c: DbColumn)
    ensures ShowMember(Field(r, c)) == Label(c) + Show(Field(r, c).value)
  {
    LabelIsKey(c);
    hide Label, Quoted, Show;
  }

  method AppendField(b: JsonBuilder, r: Record, c: DbColumn, needComma: bool)
    requires b.Valid()
    modifies b, b.data
    ensures b.Valid() && (b.data == old(b.data) || fresh(b.data))
    ensures b.Contents() == old(b.Contents()) + (if needComma then "," else "") + ShowMember(Field(r, c))
  {
    FieldText(r, c);
    ShowField(r, c);
    hide *;
    ghost var start := b.Contents() + if needComma then "," else "";
    if needComma {
      b.Append(",");
    }
    assert b.Contents() == start;
    match c
    case ColumnId =>
      b.Append("\"id\":");
      b.AppendFormatted(ShowInt(r.id));
    case ColumnName =>
      b.Append("\"name\":");
      b.AppendString(r.name);
    case ColumnAge =>
      b.Append("\"age\":");
      b.AppendFormatted(ShowInt(r.age));
  }

  lemma {:induction false} ShowField(r: Record, c: DbColumn)
    ensures c == ColumnId ==> Label(c) == "\"id\":" && Show(Field(r, c).value) == ShowInt(r.id)
    ensures c == ColumnName ==> Label(c) == "\"name\":" && Show(Field(r, c).value) == Quoted(r.name)
    ensures c == ColumnAge ==> Label(c) == "\"age\":" && Show(Field(r, c).value) == ShowInt(r.age)
  {
    hide ShowInt, Quoted;
  }

  lemma {:induction false} MembersOneMore(r: Record, cols: seq<DbColumn>, c: DbColumn)
    ensures ShowMembers(Fields(r, cols + [c]))
      == ShowMembers(Fields(r, cols)) + (if cols != [] then "," else "") + ShowMember(Field(r, c))
  {
    hide *;
    FieldsOneMore(r, cols, c);
    ShowOneMoreMember(Fields(r, cols), Field(r, c));
    if cols == [] {
      NoMembers(r);
      assert "" + "" + ShowMember(Field(r, c)) == ShowMember(Field(r, c));
    }
  }

  /** One of the flags: the column after those in done, if it is asked for. */
  method AppendFlag(b: JsonBuilder, r: Record, asked: bool, c: DbColumn, needComma: bool, ghost done: seq<DbColumn>,
                    ghost start: string)
    returns (needComma': bool)
    requires b.Valid() && needComma == (done != []) && b.Contents() == start + ShowMembers(Fields(r, done))
    modifies b, b.data
    ensures b.Valid() && (b.data == old(b.data) || fresh(b.data))
    ensures var cols := done + if asked then [c] else [];
      needComma' == (cols != []) && b.Contents() == start + ShowMembers(Fields(r, cols))
  {
    hide ShowMember, ShowMembers, Fields, Field, Escape;
    needComma' := needComma;
    if asked {
      MembersOneMore(r, done, c);
      AppendField(b, r, c, needComma);
      needComma' := true;
    } else {
      assert done + [] == done;
    }
  }

  /** The columns that the flags ask for, when no list of columns is given. */
  method AppendFlagged(b: JsonBuilder, r: Record, p: Projection)
    requires b.Valid()
    modifies b, b.data
    ensures b.Valid() && (b.data == old(b.data) || fresh(b.data))
    ensures b.Contents() == old(b.Contents()) + ShowMembers(Fields(r, FlaggedColumns(p)))
  {
    hide ShowMember, ShowMembers, Fields, Field, FlaggedColumns, Escape;
    ghost var was := b.Contents();
    ghost var cols: seq<DbColumn> := [];
    NoMembers(r);
    var needComma := AppendFlag(b, r, p.includeId, ColumnId, false, cols, was);
    cols := cols + if p.includeId then [ColumnId] else [];
    needComma := AppendFlag(b, r, p.includeName, ColumnName, needComma, cols, was);
    cols := cols + if p.includeName then [ColumnName] else [];
    needComma := AppendFlag(b, r, p.includeAge, ColumnAge, needComma, cols, was);
    cols := cols + if p.includeAge then [ColumnAge] else [];
    FlaggedAre(p, cols);
  }

  lemma {:induction false} NoMembers(r: Record)
    ensures ShowMembers(Fields(r, [])) == ""
  {
  }

  lemma {:induction false} FlaggedAre(p: Projection, cols: seq<DbColumn>)
    requires cols == (if p.includeId then [ColumnId] else []) + (if p.includeName then [ColumnName] else [])
      + (if p.includeAge then [ColumnAge] else [])
    ensures cols == FlaggedColumns(p)
  {
  }

  lemma {:induction false} RecordText(r: Record, cols: seq<DbColumn>)
    ensures Show(RowJson(r, cols)) == "{" + ShowMembers(Fields(r, cols)) + "}"
  {
    hide Fields;
  }

  /** The fields of a list of columns. */
  method AppendColumns(b: JsonBuilder, r: Record, cols: seq<DbColumn>)
    requires b.Valid()
    modifies b, b.data
    ensures b.Valid() && (b.data == old(b.data) || fresh(b.data))
    ensures b.Contents() == old(b.Contents()) + ShowMembers(Fields(r, cols))
  {
    hide ShowMember, ShowMembers, Fields, Field, Escape;
    ghost var was := b.Contents();
    NoMembers(r);
    var i := 0;
    while i < |cols|
      invariant 0 <= i <= |cols|
      invariant b.Valid() && (b.data == old(b.data) || fresh(b.data))
      invariant b.Contents() == was + ShowMembers(Fields(r, cols[..i]))
    {
      MembersOneMore(r, cols[..i], cols[i]);
      assert cols[..i + 1] == cols[..i] + [cols[i]];
      AppendField(b, r, cols[i], i > 0);
      i := i + 1;
    }
    assert cols[..|cols|] == cols;
  }

  /** append_record_json. */
  method AppendRecord(b: JsonBuilder, r: Record, p: Projection)
    requires b.Valid()
    modifies b, b.data
    ensures b.Valid() && (b.data == old(b.data) || fresh(b.data))
    ensures b.Contents() == old(b.Contents()) + Show(RowJson(r, RecordColumns(p)))
  {
    hide ShowMember, ShowMembers, Fields, Field, FlaggedColumns, RowJson, Show, Escape;
    RecordText(r, RecordColumns(p));
    b.Append("{");
    if |p.columns| > 0 {
      AppendColumns(b, r, p.columns);
    } else {
      AppendFlagged(b, r, p);
    }
    b.Append("}");
  }
}
