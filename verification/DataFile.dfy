/** Reading the data file back: the file that insertions wrote loads as the table
    that they left. */
module DataFile {
  import opened Options
  import opened Text
  import opened Json
  import opened DbModel

  // ---------------------------------------------------------------- lines

  /** A buffer that is large enough receives the whole line. */
  lemma {:induction false} GetLineOver(text: string, rest: string, size: nat)
    requires '\n' !in text && |text| < size
    ensures GetLine(text + ("\n" + rest), size) == (text + "\n", rest)
  {
    if text == "" {
      assert text + ("\n" + rest) == "\n" + rest;
      assert ("\n" + rest)[1..] == rest;
      assert ['\n'] == text + "\n";
    } else {
      var s := text + ("\n" + rest);
      assert s[1..] == text[1..] + ("\n" + rest);
      GetLineOver(text[1..], rest, size - 1);
      assert [text[0]] + (text[1..] + "\n") == text + "\n";
    }
  }

  /** What follows a complete file does not change how its first line is read. */
  lemma {:induction false} GetLineBefore(s: string, more: string, size: nat)
    requires s != "" && Complete(s) && size >= 1
    ensures var (line, rest) := GetLine(s, size);
      GetLine(s + more, size) == (line, rest + more) && Complete(rest)
  {
    var t := s + more;
    assert t[0] == s[0] && t[1..] == s[1..] + more;
    if s[0] != '\n' && size != 1 {
      assert |s| > 1;
      GetLineBefore(s[1..], more, size - 1);
    }
  }

  // ---------------------------------------------------------------- one record

  /** The text of a line before its newline. */
  function Body(r: Record): string
    requires IsRow(r)
  {
    Decimal(r.id) + "," + r.name + "," + Decimal(r.age)
  }

  lemma {:induction false} DigitsArePlain(s: string)
    requires AllDigits(s)
    ensures '\n' !in s && NUL !in s
  {
  }

  /** Every line fits the buffer of fgets, and only its end is a newline. */
  lemma {:induction false} LineFits(r: Record)
    requires IsRow(r)
    ensures Line(r) == Body(r) + "\n" && |Line(r)| <= 150
    ensures Line(r) == Decimal(r.id) + "," + r.name + "," + Decimal(r.age) + "\n"
    ensures '\n' !in Body(r) && NUL !in Body(r) && Body(r) != "" && IsDigit(Body(r)[0])
  {
    assert TenTo(10) == 10000000000 by {
      assert TenTo(5) == 100000;
      assert TenTo(6) == 1000000 && TenTo(7) == 10000000 && TenTo(8) == 100000000;
    }
    DecimalLength(r.id, 10);
    DecimalLength(r.age, 10);
    assert ShowInt(r.id) == Decimal(r.id) && ShowInt(r.age) == Decimal(r.age);
    hide Decimal, TenTo;
    var id, age := Decimal(r.id), Decimal(r.age);
    DigitsArePlain(id);
    DigitsArePlain(age);
    assert Body(r)[0] == id[0] && IsDigit(id[0]);
    assert id + ("," + (r.name + ("," + (age + "\n")))) == id + "," + r.name + "," + age + "\n";
  }

  /** db_init stores the record that a line was written for, unless its id is INT_MAX,
      for which the counter would overflow. */
  lemma {:induction false} LoadWritten(r: Record, rows: seq<Record>)
    requires IsRow(r)
    ensures LoadLine(Line(r), rows) == if r.id == INT_MAX then OutOfRange else Loaded(rows + [r])
  {
    hide *;
    LineFits(r);
    ScanPrinted(r);
    PlainLine(Line(r), Body(r));
    LoadScanned(Line(r), r, rows);
  }

  lemma {:induction false} PlainLine(line: string, body: string)
    requires line == body + "\n" && NUL !in body && body != "" && IsDigit(body[0])
    ensures UpToNul(line) == line && line != "" && line[0] != '\n'
  {
    hide UpToNul;
    assert line[0] == body[0];
    UpToNulWhole(line);
  }

  lemma {:induction false} LoadScanned(line: string, r: Record, rows: seq<Record>)
    requires UpToNul(line) == line && line != "" && line[0] != '\n' && ScanLine(line) == Some(r) && IsRow(r)
    ensures LoadLine(line, rows) == if r.id == INT_MAX then OutOfRange else Loaded(rows + [r])
  {
    hide UpToNul, ScanLine;
  }

  // ---------------------------------------------------------------- any line

  /** fgets with 512 bytes: up to and with the first newline, but no more than 511 bytes,
      and only as little as the file still has. */
  lemma {:induction false} GetLineIs(s: string)
    ensures var (line, rest) := GetLine(s, LINE_ROOM);
      && line + rest == s && |line| <= 511
      && (forall i :: 0 <= i < |line| - 1 ==> line[i] != '\n')
      && (rest != "" ==> |line| == 511 || (line != "" && line[|line| - 1] == '\n'))
  {
    GetLineUpTo(s, LINE_ROOM);
  }

  lemma {:induction false} GetLineUpTo(s: string, size: nat)
    requires size >= 1
    ensures var (line, rest) := GetLine(s, size);
      && |line| <= size
      && (forall i :: 0 <= i < |line| - 1 ==> line[i] != '\n')
      && (rest != "" ==> |line| == size || (line != "" && line[|line| - 1] == '\n'))
  {
    if s != "" && s[0] != '\n' && size != 1 {
      GetLineUpTo(s[1..], size - 1);
    }
  }

  lemma {:induction false} FieldPlain(s: string, size: nat)
    ensures ',' !in TakeField(s, size).0
  {
    if s != "" && s[0] != ',' && size != 0 {
      FieldPlain(s[1..], size - 1);
    }
  }

  /** A line of three fields: numbers after any white space, a name of 1 to 127 bytes without
      a comma, and anything behind the last number. */
  predicate LineParts(line: string, r: Record, w: string, id: string, w': string, age: string, junk: string) {
    && line == w + (id + ("," + (r.name + ("," + (w' + (age + junk))))))
    && AllSpace(w) && IntText(id, r.id)
    && 1 <= |r.name| <= 127 && ',' !in r.name
    && AllSpace(w') && IntText(age, r.age) && (junk != "" ==> !IsDigit(junk[0]))
  }

  lemma {:induction false} ScanSplit(line: string)
    returns (w: string, id: string, w': string, age: string, junk: string)
    requires ScanLine(line).Some?
    ensures LineParts(line, ScanLine(line).value, w, id, w', age, junk)
  {
    hide ReadInteger, TakeField, IntText, AllSpace;
    var after := ReadInteger(line).value.1;
    w, id := IntegerSplit(line);
    FieldPlain(after[1..], NAME_SIZE - 1);
    var (name, rest) := TakeField(after[1..], NAME_SIZE - 1);
    w', age := IntegerSplit(rest[1..]);
    junk := ReadInteger(rest[1..]).value.1;
    assert rest == "," + rest[1..] && after == "," + (name + rest);
  }

  lemma {:induction false} ScanJoined(line: string, r: Record, w: string, id: string, w': string, age: string,
                                      junk: string)
    requires LineParts(line, r, w, id, w', age, junk)
    ensures ScanLine(line) == Some(r)
  {
    hide ReadInteger, TakeField, IntText, AllSpace, ScanLine;
    var rest' := w' + (age + junk);
    var rest := r.name + ("," + rest');
    AfterComma(rest);
    AfterComma(rest');
    IntegerRead(line, r.id, w, id, "," + rest);
    TakeFieldOver(r.name, "," + rest', NAME_SIZE - 1);
    IntegerRead(rest', r.age, w', age, junk);
    ScanParts(line, r.id, rest, r.name, rest', r.age, junk);
  }

  /** sscanf accepts a line if and only if it has these parts. */
  lemma {:induction false} ScanIff(line: string, r: Record)
    ensures ScanLine(line) == Some(r) <==> exists w, id, w', age, junk :: LineParts(line, r, w, id, w', age, junk)
  {
    hide ScanLine, LineParts;
    if ScanLine(line) == Some(r) {
      var w, id, w', age, junk := ScanSplit(line);
    }
    if exists w, id, w', age, junk :: LineParts(line, r, w, id, w', age, junk) {
      var w, id, w', age, junk :| LineParts(line, r, w, id, w', age, junk);
      ScanJoined(line, r, w, id, w', age, junk);
    }
  }

  /** What db_init does with a line of three fields: the record is stored, or its values
      are refused. */
  lemma {:induction false} LineLoads(line: string, rows: seq<Record>, r: Record, w: string, id: string, w': string,
                                     age: string, junk: string)
    requires LineParts(line, r, w, id, w', age, junk) && NUL !in line && line[0] != '\n'
    ensures LoadLine(line, rows) ==
      if r.id > 2147483647 || r.age > 2147483647 then OutOfRange
      else if r.id <= 0 || r.age < 0 || '\n' in r.name || '\r' in r.name then Invalid
      else if r.id == 2147483647 then OutOfRange
      else Loaded(rows + [r])
  {
    hide ScanLine, UpToNul;
    ScanJoined(line, r, w, id, w', age, junk);
    UpToNulWhole(line);
    ValidIs(r.name);
    hide LineParts, NameIsValid;
  }

  /** Empty lines are skipped, and every other line without these parts is malformed. */
  lemma {:induction false} LineMalformed(line: string, rows: seq<Record>)
    requires NUL !in line
    ensures line == "" || line[0] == '\n' ==> LoadLine(line, rows) == Loaded(rows)
    ensures LoadLine(line, rows) == Malformed <==>
      && line != "" && line[0] != '\n'
      && forall r, w, id, w', age, junk :: !LineParts(line, r, w, id, w', age, junk)
  {
    hide ScanLine, UpToNul, LineParts, NameIsValid;
    UpToNulWhole(line);
    if ScanLine(line).Some? {
      var w, id, w', age, junk := ScanSplit(line);
    } else {
      forall r, w, id, w', age, junk ensures !LineParts(line, r, w, id, w', age, junk) {
        ScanIff(line, r);
      }
    }
  }

  // ---------------------------------------------------------------- whole files

  /** Loading a file that goes on after a complete part loads that part first. */
  lemma {:induction false} LoadConcat(file: string, more: string, rows: seq<Record>)
    requires Complete(file)
    ensures Load(file + more, rows) ==
      (var r := Load(file, rows); if r.Loaded? then Load(more, r.rows) else r)
    decreases |file|
  {
    if file == "" {
      assert file + more == more;
    } else {
      hide GetLine, LoadLine;
      GetLineBefore(file, more, LINE_ROOM);
      var (line, rest) := GetLine(file, LINE_ROOM);
      assert |line| + |rest| == |file|;
      var r := LoadLine(line, rows);
      if r.Loaded? {
        LoadConcat(rest, more, r.rows);
      }
    }
  }

  lemma {:induction false} LoadOneLine(r: Record, rows: seq<Record>)
    requires IsRow(r)
    ensures Load(Line(r), rows) == if r.id == INT_MAX then OutOfRange else Loaded(rows + [r])
    ensures Line(r) != "" && Complete(Line(r))
  {
    LineFits(r);
    LoadWritten(r, rows);
    hide Line, Body, LoadLine, GetLine;
    assert Body(r) + ("\n" + "") == Line(r);
    GetLineOver(Body(r), "", LINE_ROOM);
  }

  lemma {:induction false} CompleteConcat(a: string, b: string)
    requires b != "" && Complete(b)
    ensures Complete(a + b)
  {
    assert (a + b)[|a + b| - 1] == b[|b| - 1];
  }

  /** Appending the line of a new row to a file that loads as the table makes a file
      that loads as the table with that row, exactly when the id is not INT_MAX. */
  lemma {:induction false} AppendedLine(file: string, rows: seq<Record>, r: Record)
    requires Complete(file) && Load(file, []) == Loaded(rows) && IsRow(r)
    ensures Complete(file + Line(r))
    ensures Load(file + Line(r), []) == Loaded(rows + [r]) <==> r.id < INT_MAX
  {
    hide *;
    LoadConcat(file, Line(r), []);
    LoadOneLine(r, rows);
    CompleteConcat(file, Line(r));
    BelowMax(r);
  }

  lemma {:induction false} BelowMax(r: Record)
    requires IsRow(r)
    ensures r.id < INT_MAX <==> r.id != INT_MAX
  {
  }

  predicate BelowIntMax(rows: seq<Record>) {
    forall i :: 0 <= i < |rows| ==> rows[i].id < INT_MAX
  }

  // ---------------------------------------------------------------- what loading accepts

  /** Every record that db_init stores is a row. */
  lemma {:induction false} ScannedRow(line: string)
    requires ScanLine(UpToNul(line)).Some?
    requires var r := ScanLine(UpToNul(line)).value;
      1 <= r.id <= INT_MAX && 0 <= r.age <= INT_MAX && NameIsValid(r.name)
    ensures IsRow(ScanLine(UpToNul(line)).value)
  {
    hide ReadInteger, TakeField, UpToNul;
    NoNul(line);
    var text := UpToNul(line);
    RestOfCString(text);
    var rest := ReadInteger(text).value.1;
    var (name, after) := TakeField(rest[1..], NAME_SIZE - 1);
    forall c <- name ensures c in rest {
      assert c in name + after;
    }
  }

  // ---------------------------------------------------------------- runs of insertions

  /** The file agrees with the table: it loads as the table, or not at all when an id
      is INT_MAX. */
  predicate FileHolds(file: string, rows: seq<Record>) {
    && Complete(file)
    && AreRows(rows)
    && Load(file, []) == if BelowIntMax(rows) then Loaded(rows) else OutOfRange
  }

  lemma {:induction false} FileStep(file: string, rows: seq<Record>, r: Record)
    requires FileHolds(file, rows) && IsRow(r)
    ensures FileHolds(file + Line(r), rows + [r])
  {
    hide Load, Line, IsRow, Complete, BelowIntMax;
    LoadConcat(file, Line(r), []);
    LoadOneLine(r, rows);
    CompleteConcat(file, Line(r));
    BelowMax(r);
    BelowMore(rows, r);
  }

  lemma {:induction false} BelowMore(rows: seq<Record>, r: Record)
    ensures BelowIntMax(rows + [r]) <==> BelowIntMax(rows) && r.id < INT_MAX
  {
    assert (rows + [r])[|rows|] == r;
    assert forall i :: 0 <= i < |rows| ==> (rows + [r])[i] == rows[i];
  }

  lemma {:induction false} LinesHold(rows: seq<Record>)
    requires AreRows(rows)
    ensures FileHolds(Lines(rows), rows)
  {
    hide FileHolds, Line, IsRow;
    if rows == [] {
      NothingHolds();
    } else {
      var n := |rows| - 1;
      LinesHold(rows[..n]);
      FileStep(Lines(rows[..n]), rows[..n], rows[n]);
      assert rows[..n] + [rows[n]] == rows;
    }
  }

  lemma {:induction false} NothingHolds()
    ensures FileHolds("", [])
  {
  }

  /** The file of a table loads as that table if and only if no id is INT_MAX. */
  lemma {:induction false} Reload(rows: seq<Record>)
    requires AreRows(rows)
    ensures Complete(Lines(rows))
    ensures Load(Lines(rows), []) == Loaded(rows) <==> BelowIntMax(rows)
    ensures Load(Lines(rows), []).Loaded? <==> BelowIntMax(rows)
  {
    hide Load, Lines, AreRows;
    LinesHold(rows);
  }

  datatype Request = Request(hasId: bool, id: int, name: string, age: int)

  predicate IsRequest(q: Request) {
    IsInt(q.id) && IsInt(q.age) && IsCString(q.name)
  }

  datatype Store = Store(rows: seq<Record>, file: string)

  /** One insertion: the row and its line are added together, or nothing changes. */
  function Commit(st: Store, q: Request): Store {
    var o := Decide(st.rows, q.hasId, q.id, q.name, q.age);
    if o.Inserted? then Store(st.rows + [o.row], st.file + Line(o.row)) else st
  }

  lemma {:induction false} InsertedIsRow(rows: seq<Record>, q: Request)
    requires AreRows(rows) && IsRequest(q)
    ensures var o := Decide(rows, q.hasId, q.id, q.name, q.age); o.Inserted? ==> IsRow(o.row)
  {
  }

  predicate AreRequests(qs: seq<Request>) {
    forall i :: 0 <= i < |qs| ==> IsRequest(qs[i])
  }

  function RunFrom(st: Store, qs: seq<Request>): Store {
    if qs == [] then st else Commit(RunFrom(st, qs[..|qs| - 1]), qs[|qs| - 1])
  }

  lemma {:induction false} RunAreRows(st: Store, qs: seq<Request>)
    requires AreRows(st.rows) && AreRequests(qs)
    ensures AreRows(RunFrom(st, qs).rows)
  {
    if qs != [] {
      var last := |qs| - 1;
      RunAreRows(st, qs[..last]);
      DecidedIsRow(RunFrom(st, qs[..last]).rows, qs[last].hasId, qs[last].id, qs[last].name, qs[last].age);
    }
  }

  /** After every run of insertions, accepted and rejected, from every file that loads,
      the new file loads as the new table if and only if no id is INT_MAX; the counter
      and the index of a table depend on its rows alone, so they come back too. */
  lemma {:induction false} RunReloads(st: Store, qs: seq<Request>)
    requires FileHolds(st.file, st.rows) && AreRequests(qs)
    ensures var end := RunFrom(st, qs);
      && FileHolds(end.file, end.rows)
      && (Load(end.file, []) == Loaded(end.rows) <==> BelowIntMax(end.rows))
    decreases |qs|
  {
    if qs != [] {
      var last := |qs| - 1;
      RunReloads(st, qs[..last]);
      RunAreRows(st, qs[..last]);
      var before, q := RunFrom(st, qs[..last]), qs[last];
      InsertedIsRow(before.rows, q);
      var o := Decide(before.rows, q.hasId, q.id, q.name, q.age);
      hide Decide, Load, Line, IsRow, AreRows, BelowIntMax;
      if o.Inserted? {
        FileStep(before.file, before.rows, o.row);
      }
    }
  }

  /** The rows of a run only ever grow. */
  lemma {:induction false} RunGrows(st: Store, qs: seq<Request>)
    requires AreRows(st.rows) && AreRequests(qs)
    ensures var end := RunFrom(st, qs); st.rows <= end.rows && NextId(st.rows) <= NextId(end.rows)
  {
    hide NextId, Line, IsRow, Decide;
    RunExtends(st, qs);
    var end := RunFrom(st, qs).rows;
    assert end == st.rows + end[|st.rows|..];
    NextIdMonotone(st.rows, end[|st.rows|..]);
  }

  lemma {:induction false} RunExtends(st: Store, qs: seq<Request>)
    ensures st.rows <= RunFrom(st, qs).rows
  {
    hide Decide, Line;
    if qs != [] {
      RunExtends(st, qs[..|qs| - 1]);
    }
  }

  /** No run repeats an id while its counter has not reached INT_MAX. */
  lemma {:induction false} RunKeepsUnique(st: Store, qs: seq<Request>)
    requires AreRows(st.rows) && AreRequests(qs) && UniqueIds(st.rows)
    requires NextId(RunFrom(st, qs).rows) < INT_MAX
    ensures UniqueIds(RunFrom(st, qs).rows)
    decreases |qs|
  {
    if qs != [] {
      var last := |qs| - 1;
      var before, q := RunFrom(st, qs[..last]), qs[last];
      var end := RunFrom(st, qs);
      assert end.rows == before.rows + end.rows[|before.rows|..];
      NextIdMonotone(before.rows, end.rows[|before.rows|..]);
      RunKeepsUnique(st, qs[..last]);
      RunAreRows(st, qs[..last]);
      if Decide(before.rows, q.hasId, q.id, q.name, q.age).Inserted? {
        InsertKeepsUnique(before.rows, q.hasId, q.id, q.name, q.age);
      }
    }
  }

  // ---------------------------------------------------------------- a run that fails

  /** Two explicit insertions up to INT_MAX, then an automatic one. */
  const EXHAUSTING := [Request(true, INT_MAX - 1, "a", 0), Request(true, INT_MAX, "b", 0), Request(false, 0, "c", 0)]

  lemma {:induction false} FirstDecisions()
    ensures var r, t := Record(INT_MAX - 1, "a", 0), Record(INT_MAX, "b", 0);
      Decide([], true, r.id, "a", 0) == Inserted(r) && Decide([r], true, t.id, "b", 0) == Inserted(t)
  {
    hide NextId;
    assert NameIsValid("a") && NameIsValid("b");
  }

  lemma {:induction false} RunTwo(st: Store, q: Request, q': Request)
    ensures RunFrom(st, [q, q']) == Commit(Commit(st, q), q')
  {
    hide Commit;
    assert [q, q'][..1] == [q] && [q][..0] == [];
    assert RunFrom(st, [q]) == Commit(RunFrom(st, []), q);
  }

  lemma {:induction false} ExhaustingTwo()
    ensures RunFrom(Store([], ""), EXHAUSTING[..2]).rows
      == [Record(INT_MAX - 1, "a", 0), Record(INT_MAX, "b", 0)]
    ensures AreRequests(EXHAUSTING)
  {
    hide Line, NextId, Decide, RunFrom;
    var r, t := Record(INT_MAX - 1, "a", 0), Record(INT_MAX, "b", 0);
    FirstDecisions();
    RunTwo(Store([], ""), EXHAUSTING[0], EXHAUSTING[1]);
    assert EXHAUSTING[..2] == [EXHAUSTING[0], EXHAUSTING[1]];
    assert [] + [r] == [r] && [r] + [t] == [r, t];
  }

  /** From an empty file: the third insertion is accepted with an id that is stored
      already, and the file that this run wrote does not load. */
  lemma {:induction false} ExhaustingRun()
    ensures var end := RunFrom(Store([], ""), EXHAUSTING);
      && end.rows == [Record(INT_MAX - 1, "a", 0), Record(INT_MAX, "b", 0), Record(INT_MAX, "c", 0)]
      && !UniqueIds(end.rows) && !BelowIntMax(end.rows)
      && Load(end.file, []) == OutOfRange
  {
    hide Line, NextId, Load;
    ExhaustingTwo();
    ExhaustedCounter();
    var two := RunFrom(Store([], ""), EXHAUSTING[..2]);
    assert EXHAUSTING[..|EXHAUSTING| - 1] == EXHAUSTING[..2];
    var end := RunFrom(Store([], ""), EXHAUSTING);
    assert end.rows == two.rows + [Record(INT_MAX, "c", 0)];
    assert end.rows[1].id == end.rows[2].id == INT_MAX;
    NothingHolds();
    RunReloads(Store([], ""), EXHAUSTING);
  }
}
