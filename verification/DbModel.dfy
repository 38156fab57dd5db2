/** The users table as a list of rows: what an insertion decides, what a select
    returns, and what the data file says. */
module DbModel {
  import opened Options
  import opened Text
  import opened Json

  const NAME_SIZE := 128

  datatype Record = Record(id: int, name: string, age: int)

  datatype DbColumn = ColumnId | ColumnName | ColumnAge

  datatype Filter = All | ById(id: int) | ByName(name: string)

  datatype Projection = Projection(includeId: bool, includeName: bool, includeAge: bool, columns: seq<DbColumn>)

  // ---------------------------------------------------------------- rows

  predicate NameIsValid(name: string) {
    name != "" && forall i :: 0 <= i < |name| ==> name[i] != ',' && name[i] != '\n' && name[i] != '\r'
  }

  predicate IsRow(r: Record) {
    1 <= r.id <= INT_MAX && 0 <= r.age <= INT_MAX && NameIsValid(r.name) && |r.name| < NAME_SIZE && IsCString(r.name)
  }

  predicate AreRows(rows: seq<Record>) {
    forall i :: 0 <= i < |rows| ==> IsRow(rows[i])
  }

  predicate HasId(rows: seq<Record>, id: int) {
    exists i :: 0 <= i < |rows| && rows[i].id == id
  }

  predicate UniqueIds(rows: seq<Record>) {
    forall i, j :: 0 <= i < j < |rows| ==> rows[i].id != rows[j].id
  }

  /** The counter after the rows were stored in order; it never passes INT_MAX. */
  function NextId(rows: seq<Record>): (n: int)
    ensures 1 <= n
    ensures n <= INT_MAX
  {
    if rows == [] then 1
    else
      var n, id := NextId(rows[..|rows| - 1]), rows[|rows| - 1].id;
      if id >= n && id < INT_MAX then id + 1 else n
  }

  /** The last position of every id. */
  function LastIndex(rows: seq<Record>): map<int, nat> {
    if rows == [] then map[]
    else LastIndex(rows[..|rows| - 1])[rows[|rows| - 1].id := |rows| - 1]
  }

  lemma {:induction false} LastIndexIs(rows: seq<Record>, id: int)
    ensures id in LastIndex(rows) <==> HasId(rows, id)
    ensures id in LastIndex(rows) ==>
      var p := LastIndex(rows)[id];
      p < |rows| && rows[p].id == id && forall j :: p < j < |rows| ==> rows[j].id != id
  {
    if rows != [] {
      var n := |rows| - 1;
      LastIndexIs(rows[..n], id);
      if rows[n].id == id {
        assert HasId(rows, id);
      } else if HasId(rows, id) {
        var i :| 0 <= i < |rows| && rows[i].id == id;
        assert rows[..n][i].id == id;
      }
      if HasId(rows[..n], id) {
        var i :| 0 <= i < n && rows[..n][i].id == id;
        assert rows[i].id == id;
      }
    }
  }

  // ---------------------------------------------------------------- insertion

  datatype Outcome = Inserted(row: Record) | BadValue | DuplicateId

  function Clip(name: string): string {
    if |name| < NAME_SIZE then name else name[..NAME_SIZE - 1]
  }

  /** What db_insert_internal decides about a table with these rows. */
  function Decide(rows: seq<Record>, hasId: bool, id: int, name: string, age: int): Outcome {
    if (hasId && id <= 0) || age < 0 || !NameIsValid(name) then BadValue
    else if hasId && HasId(rows, id) then DuplicateId
    else Inserted(Record(if hasId then id else NextId(rows), Clip(name), age))
  }

  /** The values that an insertion refuses, and the row that it stores otherwise. */
  lemma {:induction false} DecideIs(rows: seq<Record>, hasId: bool, id: int, name: string, age: int)
    ensures var o := Decide(rows, hasId, id, name, age);
      var bad := (hasId && id <= 0) || age < 0 || name == "" || ',' in name || '\n' in name || '\r' in name;
      && (o == BadValue <==> bad)
      && (o == DuplicateId <==> !bad && hasId && exists i :: 0 <= i < |rows| && rows[i].id == id)
      && (o.Inserted? ==>
            && o.row.id == (if hasId then id else NextId(rows)) && o.row.age == age
            && o.row.name <= name && |o.row.name| == if |name| <= 127 then |name| else 127)
  {
    hide NextId;
    ValidIs(name);
  }

  lemma {:induction false} ValidIs(name: string)
    ensures NameIsValid(name) <==> name != "" && ',' !in name && '\n' !in name && '\r' !in name
  {
  }

  function After(rows: seq<Record>, o: Outcome): seq<Record> {
    if o.Inserted? then rows + [o.row] else rows
  }

  predicate IsInt(n: int) {
    -INT_MAX - 1 <= n <= INT_MAX
  }

  lemma {:induction false} DecidedIsRow(rows: seq<Record>, hasId: bool, id: int, name: string, age: int)
    requires AreRows(rows) && IsInt(id) && IsInt(age) && IsCString(name)
    ensures AreRows(After(rows, Decide(rows, hasId, id, name, age)))
  {
  }

  lemma {:induction false} NextIdStep(rows: seq<Record>, r: Record)
    ensures NextId(rows + [r]) == if r.id >= NextId(rows) && r.id < INT_MAX then r.id + 1 else NextId(rows)
    ensures LastIndex(rows + [r]) == LastIndex(rows)[r.id := |rows|]
  {
    assert (rows + [r])[..|rows|] == rows;
  }

  /** Every stored id lies below the counter, except for INT_MAX itself. */
  lemma {:induction false} IdsBelowCounter(rows: seq<Record>, i: nat)
    requires AreRows(rows) && i < |rows|
    ensures rows[i].id < NextId(rows) || rows[i].id == INT_MAX
  {
    var n := |rows| - 1;
    if i < n {
      assert rows[..n][i] == rows[i];
      IdsBelowCounter(rows[..n], i);
    }
  }

  /** The counter is 1, or one more than an id that is stored. */
  lemma {:induction false} CounterFollows(rows: seq<Record>)
    requires AreRows(rows)
    ensures NextId(rows) == 1
      || exists i :: 0 <= i < |rows| && rows[i].id == NextId(rows) - 1 && rows[i].id < 2147483647
  {
    if rows != [] {
      var n := |rows| - 1;
      CounterFollows(rows[..n]);
      if NextId(rows) == NextId(rows[..n]) {
        if NextId(rows) != 1 {
          var i :| 0 <= i < n && rows[..n][i].id == NextId(rows) - 1 && rows[..n][i].id < 2147483647;
          assert rows[i].id == NextId(rows) - 1;
        }
      } else {
        assert rows[n].id == NextId(rows) - 1;
      }
    }
  }

  /** An automatic id is taken already exactly when the counter has reached
      INT_MAX and INT_MAX is stored. */
  lemma {:induction false} AutoIdTaken(rows: seq<Record>)
    requires AreRows(rows)
    ensures HasId(rows, NextId(rows)) <==> NextId(rows) == INT_MAX && HasId(rows, INT_MAX)
  {
    if HasId(rows, NextId(rows)) {
      var i :| 0 <= i < |rows| && rows[i].id == NextId(rows);
      IdsBelowCounter(rows, i);
    }
  }

  /** Insertions keep the ids unique, except for an automatic id after the counter
      is exhausted; there it happens if and only if INT_MAX is stored already. */
  lemma {:induction false} InsertKeepsUnique(rows: seq<Record>, hasId: bool, id: int, name: string, age: int)
    requires AreRows(rows) && UniqueIds(rows)
    requires Decide(rows, hasId, id, name, age).Inserted?
    ensures UniqueIds(After(rows, Decide(rows, hasId, id, name, age)))
      <==> hasId || NextId(rows) < INT_MAX || !HasId(rows, INT_MAX)
  {
    var r := Decide(rows, hasId, id, name, age).row;
    AutoIdTaken(rows);
    var after := rows + [r];
    assert after[|rows|] == r;
    assert forall i :: 0 <= i < |rows| ==> after[i] == rows[i];
    if HasId(rows, r.id) {
      var i :| 0 <= i < |rows| && rows[i].id == r.id;
      assert after[i].id == after[|rows|].id;
    }
  }

  /** Such a table: the next automatic insert repeats the id of the second row.  The
      run ExhaustingRun of module DataFile reaches it. */
  lemma {:induction false} ExhaustedCounter()
    ensures var rows := [Record(INT_MAX - 1, "a", 0), Record(INT_MAX, "b", 0)];
      AreRows(rows) && UniqueIds(rows) && Decide(rows, false, 0, "c", 0) == Inserted(Record(INT_MAX, "c", 0))
  {
    var r, s := Record(INT_MAX - 1, "a", 0), Record(INT_MAX, "b", 0);
    TwoRows(r, s);
    hide NextId;
    assert IsRow(r) && IsRow(s) && NameIsValid("c") && Clip("c") == "c";
  }

  lemma {:induction false} TwoRows(r: Record, s: Record)
    ensures r.id == INT_MAX - 1 && s.id == INT_MAX ==> NextId([r, s]) == INT_MAX
  {
    hide NextId;
    NextIdStep([], r);
    NextIdStep([r], s);
    assert [] + [r] == [r] && [r] + [s] == [r, s];
    NextOfNothing();
  }

  lemma {:induction false} NextOfNothing()
    ensures NextId([]) == 1
  {
  }

  /** Automatic ids grow strictly while the counter is below INT_MAX. */
  lemma {:induction false} AutoIdsGrow(rows: seq<Record>, r: Record, more: seq<Record>)
    requires NextId(rows) < INT_MAX && r.id == NextId(rows)
    ensures NextId(rows) < NextId(rows + [r] + more)
  {
    NextIdStep(rows, r);
    NextIdMonotone(rows + [r], more);
  }

  lemma {:induction false} NextIdMonotone(rows: seq<Record>, more: seq<Record>)
    ensures NextId(rows) <= NextId(rows + more)
    decreases |more|
  {
    if more == [] {
      assert rows + more == rows;
    } else {
      var n := |more| - 1;
      NextIdMonotone(rows, more[..n]);
      NextIdStep(rows + more[..n], more[n]);
      assert rows + more[..n] + [more[n]] == rows + more;
    }
  }

  // ---------------------------------------------------------------- selection

  /** The linear scan. */
  function Scan(rows: seq<Record>, filter: Filter): seq<Record> {
    if rows == [] then []
    else
      var before, r := Scan(rows[..|rows| - 1], filter), rows[|rows| - 1];
      if Matches(r, filter) then before + [r] else before
  }

  predicate Matches(r: Record, filter: Filter) {
    match filter
    case All => true
    case ById(id) => r.id == id
    case ByName(name) => r.name == name
  }

  /** What the engine returns: for an id it asks the index instead of scanning. */
  function Selected(rows: seq<Record>, filter: Filter): seq<Record> {
    if filter.ById? then
      LastIndexIs(rows, filter.id);
      if filter.id in LastIndex(rows) then [rows[LastIndex(rows)[filter.id]]] else []
    else Scan(rows, filter)
  }

  lemma {:induction false} ScanAbsent(rows: seq<Record>, id: int)
    requires !HasId(rows, id)
    ensures Scan(rows, ById(id)) == []
  {
    if rows != [] {
      var n := |rows| - 1;
      assert rows[n].id != id;
      forall i | 0 <= i < n ensures rows[..n][i].id != id {
        assert rows[i].id != id;
      }
      ScanAbsent(rows[..n], id);
    }
  }

  lemma {:induction false} ScanPresent(rows: seq<Record>, id: int)
    requires HasId(rows, id)
    ensures Scan(rows, ById(id)) != []
  {
    var n := |rows| - 1;
    if rows[n].id != id {
      var i :| 0 <= i < |rows| && rows[i].id == id;
      assert rows[..n][i].id == id;
      ScanPresent(rows[..n], id);
    }
  }

  lemma {:induction false} ScanAll(rows: seq<Record>)
    ensures Scan(rows, All) == rows
  {
    if rows != [] {
      ScanAll(rows[..|rows| - 1]);
    }
  }

  predicate Once(rows: seq<Record>, id: int) {
    forall i, j :: 0 <= i < j < |rows| && rows[i].id == id ==> rows[j].id != id
  }

  /** The index answers like the scan if and only if the id is stored at most once. */
  lemma {:induction false} IndexIsScan(rows: seq<Record>, id: int)
    ensures Selected(rows, ById(id)) == Scan(rows, ById(id)) <==> Once(rows, id)
  {
    LastIndexIs(rows, id);
    if !HasId(rows, id) {
      ScanAbsent(rows, id);
    } else {
      var n := |rows| - 1;
      if rows[n].id == id {
        LastOnce(rows, id);
        if HasId(rows[..n], id) {
          ScanPresent(rows[..n], id);
        } else {
          ScanAbsent(rows[..n], id);
        }
      } else {
        var i :| 0 <= i < |rows| && rows[i].id == id;
        assert rows[..n][i].id == id;
        IndexIsScan(rows[..n], id);
        LastIndexIs(rows[..n], id);
        OncePrefix(rows, id);
      }
    }
  }

  /** An id that is stored more than once has more than one row in the scan. */
  lemma {:induction false} ScanTwice(rows: seq<Record>, id: int)
    requires !Once(rows, id)
    ensures |Scan(rows, ById(id))| >= 2
  {
    var n := |rows| - 1;
    if rows[n].id == id {
      LastOnce(rows, id);
      ScanPresent(rows[..n], id);
    } else {
      OncePrefix(rows, id);
      ScanTwice(rows[..n], id);
    }
  }

  lemma {:induction false} LastOnce(rows: seq<Record>, id: int)
    requires rows != [] && rows[|rows| - 1].id == id
    ensures Once(rows, id) <==> !HasId(rows[..|rows| - 1], id)
  {
    var n := |rows| - 1;
    if HasId(rows[..n], id) {
      var i :| 0 <= i < n && rows[..n][i].id == id;
      assert rows[i].id == id && rows[n].id == id;
    } else {
      forall i | 0 <= i < n ensures rows[i].id != id {
        assert rows[..n][i].id != id;
      }
    }
  }

  lemma {:induction false} OncePrefix(rows: seq<Record>, id: int)
    requires rows != [] && rows[|rows| - 1].id != id
    ensures Once(rows, id) <==> Once(rows[..|rows| - 1], id)
  {
    var n := |rows| - 1;
    assert forall i :: 0 <= i < n ==> rows[..n][i] == rows[i];
  }

  predicate Ascending(ps: seq<nat>) {
    forall i, j :: 0 <= i < j < |ps| ==> ps[i] < ps[j]
  }

  /** The rows at these positions. */
  function RowsAt(rows: seq<Record>, ps: seq<nat>): seq<Record>
    requires forall j :: 0 <= j < |ps| ==> ps[j] < |rows|
  {
    seq(|ps|, j requires 0 <= j < |ps| => rows[ps[j]])
  }

  lemma {:induction false} ScanPositions(rows: seq<Record>, filter: Filter) returns (ps: seq<nat>)
    ensures Ascending(ps) && forall j :: 0 <= j < |ps| ==> ps[j] < |rows|
    ensures forall i: nat :: i in ps <==> i < |rows| && Matches(rows[i], filter)
    ensures Scan(rows, filter) == RowsAt(rows, ps)
  {
    ps := [];
    if rows != [] {
      hide Matches;
      var n := |rows| - 1;
      var before := ScanPositions(rows[..n], filter);
      assert RowsAt(rows[..n], before) == RowsAt(rows, before);
      ps := before;
      if Matches(rows[n], filter) {
        ps := before + [n];
        assert RowsAt(rows, ps) == RowsAt(rows, before) + [rows[n]];
      }
    }
  }

  /** A select lists the rows at a strictly ascending list of positions: for a name all
      positions with that name, without a condition all, and for an id the last one. */
  lemma {:induction false} SelectedAt(rows: seq<Record>, filter: Filter) returns (ps: seq<nat>)
    ensures Ascending(ps) && forall j :: 0 <= j < |ps| ==> ps[j] < |rows|
    ensures Selected(rows, filter) == RowsAt(rows, ps)
    ensures filter.All? ==> forall i: nat :: i in ps <==> i < |rows|
    ensures filter.ByName? ==> forall i: nat :: i in ps <==> i < |rows| && rows[i].name == filter.name
    ensures filter.ById? ==> forall i: nat ::
      i in ps <==> i < |rows| && rows[i].id == filter.id && forall k :: i < k < |rows| ==> rows[k].id != filter.id
  {
    if filter.ById? {
      hide LastIndex;
      LastIndexIs(rows, filter.id);
      ps := if filter.id in LastIndex(rows) then [LastIndex(rows)[filter.id]] else [];
      assert RowsAt(rows, ps) == Selected(rows, filter);
    } else {
      hide Scan;
      ps := ScanPositions(rows, filter);
    }
  }

  // ---------------------------------------------------------------- the data file

  /** The line that an insertion appends. */
  function Line(r: Record): string {
    ShowInt(r.id) + ("," + (r.name + ("," + (ShowInt(r.age) + "\n"))))
  }

  function Lines(rows: seq<Record>): string {
    if rows == [] then "" else Lines(rows[..|rows| - 1]) + Line(rows[|rows| - 1])
  }

  /** What one fgets with a buffer of 512 bytes reads: up to 511 bytes, to the end of
      the line at most. */
  function GetLine(s: string, size: nat): (r: (string, string))
    requires size >= 1
    ensures r.0 + r.1 == s && (s != "" ==> r.0 != "")
  {
    if s == "" then ("", "")
    else if s[0] == '\n' || size == 1 then
      assert [s[0]] + s[1..] == s;
      ([s[0]], s[1..])
    else
      var (line, rest) := GetLine(s[1..], size - 1);
      assert [s[0]] + s[1..] == s;
      ([s[0]] + line, rest)
  }

  const LINE_ROOM := 511

  /** sscanf's %127[^,]: up to size bytes other than a comma. */
  function TakeField(s: string, size: nat): (r: (string, string))
    ensures r.0 + r.1 == s && |r.0| <= size
  {
    if s == "" || s[0] == ',' || size == 0 then ("", s)
    else
      var (field, rest) := TakeField(s[1..], size - 1);
      assert [s[0]] + s[1..] == s;
      ([s[0]] + field, rest)
  }

  /** sscanf(line, "%d,%127[^,],%d"). */
  function ScanLine(line: string): Option<Record> {
    var id := ReadInteger(line);
    if id.None? || id.value.1 == "" || id.value.1[0] != ',' then None
    else
      var (name, rest) := TakeField(id.value.1[1..], NAME_SIZE - 1);
      if name == "" || rest == "" || rest[0] != ',' then None
      else
        var age := ReadInteger(rest[1..]);
        if age.None? then None else Some(Record(id.value.0, name, age.value.0))
  }

  datatype LoadResult = Loaded(rows: seq<Record>) | Malformed | Invalid | OutOfRange

  /** One line of db_init: skipped, refused, or stored. */
  function LoadLine(line: string, rows: seq<Record>): LoadResult {
    var text := UpToNul(line);
    if text == "" || text[0] == '\n' then Loaded(rows)
    else
      var r := ScanLine(text);
      if r.None? then Malformed
      else if r.value.id > INT_MAX || r.value.age > INT_MAX then OutOfRange
      else if r.value.id <= 0 || r.value.age < 0 || !NameIsValid(r.value.name) then Invalid
      else if r.value.id == INT_MAX then OutOfRange
      else Loaded(rows + [r.value])
  }

  function Load(file: string, rows: seq<Record>): LoadResult
    decreases |file|
  {
    if file == "" then Loaded(rows)
    else
      var (line, rest) := GetLine(file, LINE_ROOM);
      assert |line| + |rest| == |file|;
      var r := LoadLine(line, rows);
      if r.Loaded? then Load(rest, r.rows) else r
  }

  /** Files that end with the end of a line. */
  predicate Complete(file: string) {
    file == "" || file[|file| - 1] == '\n'
  }

  lemma {:induction false} TakeFieldOver(field: string, rest: string, size: nat)
    requires |field| <= size && (forall i :: 0 <= i < |field| ==> field[i] != ',') && rest != "" && rest[0] == ','
    ensures TakeField(field + rest, size) == (field, rest)
  {
    if field == "" {
      assert field + rest == rest;
    } else {
      assert (field + rest)[1..] == field[1..] + rest;
      TakeFieldOver(field[1..], rest, size - 1);
      assert [field[0]] + field[1..] == field;
    }
  }

  lemma {:induction false} AfterComma(s: string)
    ensures ("," + s)[1..] == s && ("," + s)[0] == ',' && !IsDigit(',')
  {
  }

  lemma {:induction false} ScanParts(line: string, id: int, rest: string, name: string, rest': string,
                                     age: int, end: string)
    requires ReadInteger(line) == Some((id, "," + rest)) && TakeField(rest, NAME_SIZE - 1) == (name, "," + rest')
    requires name != "" && ReadInteger(rest') == Some((age, end))
    ensures ScanLine(line) == Some(Record(id, name, age))
  {
    hide ReadInteger, TakeField;
    AfterComma(rest);
    AfterComma(rest');
  }

  /** sscanf reads a printed line back. */
  lemma {:induction false} ScanPrinted(r: Record)
    requires IsRow(r)
    ensures ScanLine(Line(r)) == Some(r)
  {
    var age := Decimal(r.age) + "\n";
    var rest := r.name + ("," + age);
    assert !IsDigit('\n') && "\n"[0] == '\n';
    AfterComma(rest);
    AfterComma(age);
    assert ShowInt(r.id) == Decimal(r.id) && ShowInt(r.age) == Decimal(r.age);
    hide Decimal, ReadInteger, TakeField, ScanLine, AllSpace;
    assert AllSpace("") by { NoSpace(); }
    ReadDecimal("", r.id, "," + rest);
    assert "" + (Decimal(r.id) + ("," + rest)) == Line(r);
    TakeFieldOver(r.name, "," + age, NAME_SIZE - 1);
    ReadDecimal("", r.age, "\n");
    assert "" + age == age;
    ScanParts(Line(r), r.id, rest, r.name, age, r.age, "\n");
  }

  lemma {:induction false} NoSpace()
    ensures AllSpace("")
  {
  }
}
