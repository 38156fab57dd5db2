/** The parser takes the names of a statement out of its text, so a text without NUL
    gives names without NUL. */
module SqlNames {
  import opened Text
  import opened Sql

  predicate PlainName(stmt: Statement) {
    match stmt
    case InsertWithId(_, name, _) => IsCString(name)
    case InsertNext(name, _) => IsCString(name)
    case Select(_, WhereName(name)) => IsCString(name)
    case Select(_, _) => true
  }

  lemma {:induction false} PlainParts(a: string, b: string, s: string)
    requires a + b == s && IsCString(s)
    ensures IsCString(a) && IsCString(b)
  {
    assert forall c <- a :: c in a + b;
    assert forall c <- b :: c in a + b;
  }

  lemma {:induction false} WordPlain(s: string, size: nat)
    requires IsCString(s) && ReadWord(s, size).Some?
    ensures IsCString(ReadWord(s, size).value.1)
  {
    SpacePlain(s);
    var (w, rest) := TakeWord(SkipSpace(s));
    PlainParts(w, rest, SkipSpace(s));
  }

  lemma {:induction false} KeywordPlain(s: string, keyword: string)
    requires IsCString(s) && ExpectKeyword(s, keyword).Some?
    ensures IsCString(ExpectKeyword(s, keyword).value)
  {
    hide SameNoCase, ReadWord;
    WordPlain(s, 64);
  }

  lemma {:induction false} IntPlain(s: string)
    requires IsCString(s) && ParseInt(s).Some?
    ensures IsCString(ParseInt(s).value.1)
  {
    hide ReadInteger;
    SpacePlain(s);
    RestOfCString(SkipSpace(s));
  }

  lemma {:induction false} StringPlain(s: string, size: nat)
    requires IsCString(s) && ParseString(s, size).Some?
    ensures IsCString(ParseString(s, size).value.0) && IsCString(ParseString(s, size).value.1)
  {
    SpacePlain(s);
    var cur := SkipSpace(s);
    var (lit, rest) := TakeLiteral(cur[1..]);
    PlainParts(lit, rest, cur[1..]);
  }

  lemma {:induction false} ColumnsPlain(s: string, acc: seq<Column>)
    requires IsCString(s) && ParseColumnList(s, acc).Some?
    ensures IsCString(ParseColumnList(s, acc).value.1)
    decreases MAX_COLUMNS - |acc|
  {
    hide ReadWord, ColumnNamed, NoRepeats;
    WordPlain(s, 32);
    var r := ParseColumn(s);
    var cols, rest := acc + [r.value.0], r.value.1;
    SpacePlain(rest);
    var cur := SkipSpace(rest);
    if At(cur, ',') {
      ColumnsPlain(cur[1..], cols);
    }
  }

  lemma {:induction false} WithIdPlain(s: string)
    requires IsCString(s) && ParseValuesWithId(s).Some?
    ensures PlainName(ParseValuesWithId(s).value)
  {
    hide ExpectSymbol, ParseInt, ParseString, AtStatementEnd, WellFormed;
    SymbolPlain(s, '(');
    var a := ExpectSymbol(s, '(').value;
    IntPlain(a);
    var id := ParseInt(a).value.1;
    SymbolPlain(id, ',');
    StringPlain(ExpectSymbol(id, ',').value, NAME_MAX);
  }

  lemma {:induction false} NameAgePlain(s: string)
    requires IsCString(s) && ParseNameAgeValues(s).Some?
    ensures PlainName(ParseNameAgeValues(s).value)
  {
    hide ReadWord, ExpectKeyword, ParseInt, ParseString, AtStatementEnd, WellFormed, SameNoCase;
    WordPlain(s, 32);
    var col1 := ReadWord(s, 32).value.1;
    WordPlain(col1, 32);
    var col2 := ReadWord(col1, 32).value.1;
    KeywordPlain(col2, "VALUES");
    StringPlain(ExpectKeyword(col2, "VALUES").value, NAME_MAX);
  }

  lemma {:induction false} InsertPlain(s: string)
    requires IsCString(s) && ParseInsert(s).Some?
    ensures PlainName(ParseInsert(s).value)
  {
    hide ReadWord, ExpectKeyword, ParseValuesWithId, ParseNameAgeValues, WellFormed, SameNoCase;
    KeywordPlain(s, "INSERT");
    var insert := ExpectKeyword(s, "INSERT").value;
    KeywordPlain(insert, "INTO");
    var into := ExpectKeyword(insert, "INTO").value;
    WordPlain(into, 32);
    var table := ReadWord(into, 32).value.1;
    if ExpectKeyword(table, "VALUES").Some? {
      KeywordPlain(table, "VALUES");
      WithIdPlain(ExpectKeyword(table, "VALUES").value);
    } else {
      NameAgePlain(table);
    }
  }

  lemma {:induction false} FilterPlain(s: string)
    requires IsCString(s) && ParseFilter(s).Some? && ParseFilter(s).value.WhereName?
    ensures IsCString(ParseFilter(s).value.name)
  {
    hide ReadWord, ExpectKeyword, ExpectSymbol, ParseInt, ParseString, AtStatementEnd, SameNoCase;
    KeywordPlain(s, "WHERE");
    var where := ExpectKeyword(s, "WHERE").value;
    WordPlain(where, 32);
    var column := ReadWord(where, 32).value.1;
    SymbolPlain(column, '=');
    StringPlain(ExpectSymbol(column, '=').value, NAME_MAX);
  }

  lemma {:induction false} SelectPlain(s: string)
    requires IsCString(s) && ParseSelect(s).Some?
    ensures PlainName(ParseSelect(s).value)
  {
    hide ReadWord, ExpectKeyword, ParseColumnList, ParseFilter, WellFormed, SameNoCase;
    KeywordPlain(s, "SELECT");
    var select := ExpectKeyword(s, "SELECT").value;
    SpacePlain(select);
    if !At(SkipSpace(select), '*') {
      ColumnsPlain(select, []);
    }
    var columns := ParseSelectColumns(select).value.1;
    KeywordPlain(columns, "FROM");
    var from := ExpectKeyword(columns, "FROM").value;
    WordPlain(from, 32);
    var table := ReadWord(from, 32).value.1;
    if ParseFilter(table).value.WhereName? {
      FilterPlain(table);
    }
  }

  /** The names of a parsed statement are C strings, as the text was. */
  lemma {:induction false} ParsedPlain(sql: string)
    requires IsCString(sql) && Parse(sql).Some?
    ensures PlainName(Parse(sql).value)
  {
    hide ParseInsert, ParseSelect, Begins, PlainName, WellFormed;
    SpacePlain(sql);
    var s := SkipSpace(sql);
    if Begins(s, "INSERT") {
      InsertPlain(s);
    } else {
      SelectPlain(s);
    }
  }
}
