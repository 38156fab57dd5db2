/** The parser as it runs: a cursor that every reader moves over the text.  Each
    method is proved to do what the function of the same purpose in Sql says. */
module SqlParser {
  import opened Options
  import opened Text
  import opened Sql

  lemma {:induction false} LongWord(s: string, n: nat)
    requires n <= |s| && forall i :: 0 <= i < n ==> IsWordChar(s[i])
    ensures n <= |TakeWord(s).0|
  {
    if n > 0 {
      assert forall i :: 0 <= i < n - 1 ==> s[1..][i] == s[i + 1];
      LongWord(s[1..], n - 1);
    }
  }

  /** The copy loop of read_word, from the first character of the word on. */
  method CopyWord(s: string, p: nat, size: nat) returns (ok: bool, out: string, q: nat)
    requires p <= |s| && 1 <= size
    ensures p <= q <= |s|
    ensures ok <==> |TakeWord(s[p..]).0| + 1 <= size
    ensures ok ==> TakeWord(s[p..]) == (out, s[q..])
  {
    hide TakeWord;
    q := p;
    out := "";
    while q < |s| && IsWordChar(s[q])
      invariant p <= q <= |s| && |out| < size && out == s[p..q]
      invariant forall i :: p <= i < q ==> IsWordChar(s[i])
    {
      if |out| + 1 >= size {
        assert forall i :: 0 <= i < q + 1 - p ==> s[p..][i] == s[p + i];
        LongWord(s[p..], q + 1 - p);
        return false, "", p;
      }
      out := out + [s[q]];
      q := q + 1;
    }
    assert s[p..] == out + s[q..];
    TakeWordOver(out, s[q..]);
    return true, out, q;
  }

  method ReadWordAt(s: string, p: nat, size: nat) returns (ok: bool, out: string, q: nat)
    requires p <= |s| && 1 <= size
    ensures p <= q <= |s|
    ensures ok <==> ReadWord(s[p..], size).Some?
    ensures ok ==> ReadWord(s[p..], size) == Some((out, s[q..]))
    ensures !ok ==> q == p
  {
    hide TakeWord, SkipSpace;
    var cur := SkipSpaceAt(s, p);
    if cur == |s| || !(IsAlpha(s[cur]) || s[cur] == '_') {
      return false, "", p;
    }
    ok, out, q := CopyWord(s, cur, size);
    if !ok {
      q := p;
    }
  }

  lemma {:induction false} LongLiteral(s: string, n: nat)
    requires n <= |s| && forall i :: 0 <= i < n ==> s[i] != '\''
    ensures n <= |TakeLiteral(s).0|
  {
    if n > 0 {
      assert forall i :: 0 <= i < n - 1 ==> s[1..][i] == s[i + 1];
      LongLiteral(s[1..], n - 1);
    }
  }

  lemma {:induction false} TakeLiteralAt(w: string, rest: string)
    requires '\'' !in w && (rest != "" ==> rest[0] == '\'')
    ensures TakeLiteral(w + rest) == (w, rest)
  {
    if rest != "" {
      TakeLiteralOver(w, rest[1..]);
      assert "'" + rest[1..] == rest;
    } else if w != "" {
      TakeLiteralAt(w[1..], rest);
      assert (w + rest)[1..] == w[1..] + rest;
      assert [w[0]] + w[1..] == w;
    }
  }

  /** The copy loop of parse_string_literal, from behind the opening quote on. */
  method CopyLiteral(s: string, p: nat, size: nat) returns (ok: bool, out: string, q: nat)
    requires p <= |s| && 1 <= size
    ensures p <= q <= |s|
    ensures ok <==> |TakeLiteral(s[p..]).0| + 1 <= size
    ensures ok ==> TakeLiteral(s[p..]) == (out, s[q..])
  {
    hide TakeLiteral;
    q := p;
    out := "";
    while q < |s| && s[q] != '\''
      invariant p <= q <= |s| && |out| < size && out == s[p..q] && '\'' !in out
    {
      if |out| + 1 >= size {
        assert forall i :: 0 <= i < q - p ==> s[p..][i] == out[i];
        LongLiteral(s[p..], q + 1 - p);
        return false, "", p;
      }
      out := out + [s[q]];
      q := q + 1;
    }
    assert s[p..] == out + s[q..];
    TakeLiteralAt(out, s[q..]);
    return true, out, q;
  }

  method ParseStringAt(s: string, p: nat, size: nat) returns (ok: bool, out: string, q: nat)
    requires p <= |s| && 1 <= size
    ensures p <= q <= |s|
    ensures ok <==> ParseString(s[p..], size).Some?
    ensures ok ==> ParseString(s[p..], size) == Some((out, s[q..]))
  {
    hide TakeLiteral, SkipSpace;
    var cur := SkipSpaceAt(s, p);
    if cur == |s| || s[cur] != '\'' {
      return false, "", p;
    }
    assert s[cur..][1..] == s[cur + 1..];
    ok, out, q := CopyLiteral(s, cur + 1, size);
    if !ok || q == |s| {
      return false, "", p;
    }
    assert s[q..][1..] == s[q + 1..];
    q := q + 1;
  }

  /** strtol: white space, a sign, digits with the value built up from the left. */
  method ReadIntegerAt(s: string, p: nat) returns (ok: bool, value: int, q: nat)
    requires p <= |s|
    ensures p <= q <= |s|
    ensures ok <==> ReadInteger(s[p..]).Some?
    ensures ok ==> ReadInteger(s[p..]) == Some((value, s[q..]))
  {
    hide TakeDigits, SkipSpace, Value, ReadInteger;
    IntegerParts(s[p..]);
    var cur := SkipSpaceAt(s, p);
    var negative := cur < |s| && s[cur] == '-';
    if negative || (cur < |s| && s[cur] == '+') {
      assert s[cur..][1..] == s[cur + 1..];
      cur := cur + 1;
    }
    value, q := CopyDigits(s, cur);
    if q == cur {
      return false, 0, p;
    }
    if negative {
      value := -value;
    }
    return true, value, q;
  }

  lemma {:induction false} EmptyValue()
    ensures Value("") == 0
  {
  }

  lemma {:induction false} MoreDigits(d: string, c: char)
    requires AllDigits(d) && IsDigit(c)
    ensures AllDigits(d + [c]) && Value(d + [c]) == 10 * Value(d) + (c as int - '0' as int)
  {
    assert (d + [c])[..|d|] == d;
  }

  method CopyDigits(s: string, p: nat) returns (value: nat, q: nat)
    requires p <= |s|
    ensures p <= q <= |s| && TakeDigits(s[p..]) == (s[p..q], s[q..]) && value == Value(s[p..q])
  {
    hide TakeDigits, Value;
    q := p;
    value := 0;
    assert Value(s[p..p]) == 0 by { EmptyValue(); assert s[p..p] == ""; }
    while q < |s| && IsDigit(s[q])
      invariant p <= q <= |s| && AllDigits(s[p..q]) && value == Value(s[p..q])
    {
      MoreDigits(s[p..q], s[q]);
      assert s[p..q] + [s[q]] == s[p..q + 1];
      value := 10 * value + (s[q] as int - '0' as int);
      q := q + 1;
    }
    assert s[p..] == s[p..q] + s[q..];
    TakeDigitsOver(s[p..q], s[q..]);
  }

  method ParseIntAt(s: string, p: nat) returns (ok: bool, value: int, q: nat)
    requires p <= |s|
    ensures p <= q <= |s|
    ensures ok <==> ParseInt(s[p..]).Some?
    ensures ok ==> ParseInt(s[p..]) == Some((value, s[q..]))
  {
    hide SkipSpace, ReadInteger;
    var cur := SkipSpaceAt(s, p);
    if cur == |s| {
      return false, 0, p;
    }
    ok, value, q := ReadIntegerAt(s, cur);
    if !ok || value < 0 || value > INT_MAX {
      return false, 0, p;
    }
  }

  method ExpectKeywordAt(s: string, p: nat, keyword: string) returns (ok: bool, q: nat)
    requires p <= |s|
    ensures p <= q <= |s|
    ensures ok <==> ExpectKeyword(s[p..], keyword).Some?
    ensures ok ==> ExpectKeyword(s[p..], keyword) == Some(s[q..])
  {
    hide ReadWord, SameNoCase;
    var found, word, next := ReadWordAt(s, p, 64);
    return found && SameNoCase(word, keyword), next;
  }

  method AtStatementEndAt(s: string, p: nat) returns (ok: bool)
    requires p <= |s|
    ensures ok <==> AtStatementEnd(s[p..])
  {
    hide SkipSpace;
    var cur := SkipSpaceAt(s, p);
    if cur < |s| && s[cur] == ';' {
      assert s[cur..][1..] == s[cur + 1..];
      cur := SkipSpaceAt(s, cur + 1);
    }
    return cur == |s|;
  }

  method ParseColumnAt(s: string, p: nat) returns (ok: bool, column: Column, q: nat)
    requires p <= |s|
    ensures p <= q <= |s|
    ensures ok <==> ParseColumn(s[p..]).Some?
    ensures ok ==> ParseColumn(s[p..]) == Some((column, s[q..]))
  {
    hide ReadWord, SameNoCase;
    var found, word, next := ReadWordAt(s, p, 32);
    if found && SameNoCase(word, "id") {
      return true, Id, next;
    }
    if found && SameNoCase(word, "name") {
      return true, Name, next;
    }
    if found && SameNoCase(word, "age") {
      return true, Age, next;
    }
    return false, Id, p;
  }

  method ColumnAlreadySelected(cols: seq<Column>, column: Column) returns (found: bool)
    ensures found <==> column in cols
  {
    var i := 0;
    while i < |cols|
      invariant 0 <= i <= |cols| && column !in cols[..i]
    {
      if cols[i] == column {
        return true;
      }
      i := i + 1;
    }
    return false;
  }

  /** The loop over the column list. */
  method ParseColumnListAt(s: string, p: nat) returns (ok: bool, cols: seq<Column>, q: nat)
    requires p <= |s|
    ensures p <= q <= |s|
    ensures ok <==> ParseColumnList(s[p..], []).Some?
    ensures ok ==> ParseColumnList(s[p..], []) == Some((cols, s[q..]))
  {
    hide SkipSpace, ParseColumn;
    q := p;
    cols := [];
    while true
      invariant p <= q <= |s| && |cols| <= MAX_COLUMNS
      invariant ParseColumnList(s[q..], cols) == ParseColumnList(s[p..], [])
      decreases MAX_COLUMNS - |cols|
    {
      if |cols| >= MAX_COLUMNS {
        return false, [], p;
      }
      var found, column, next := ParseColumnAt(s, q);
      if !found {
        return false, [], p;
      }
      var twice := ColumnAlreadySelected(cols, column);
      if twice {
        return false, [], p;
      }
      ListStep(s[q..], cols, column, s[next..]);
      cols := cols + [column];
      q := next;
      var cur := SkipSpaceAt(s, q);
      if cur == |s| || s[cur] != ',' {
        return true, cols, q;
      }
      assert s[cur..][1..] == s[cur + 1..];
      q := cur + 1;
    }
  }

  method ParseSelectColumnsAt(s: string, p: nat) returns (ok: bool, cols: seq<Column>, q: nat)
    requires p <= |s|
    ensures p <= q <= |s|
    ensures ok <==> ParseSelectColumns(s[p..]).Some?
    ensures ok ==> ParseSelectColumns(s[p..]) == Some((cols, s[q..]))
  {
    hide SkipSpace, ParseColumnList;
    var cur := SkipSpaceAt(s, p);
    if cur < |s| && s[cur] == '*' {
      assert s[cur..][1..] == s[cur + 1..];
      return true, [], cur + 1;
    }
    ok, cols, q := ParseColumnListAt(s, p);
  }

  method ParseValuesWithIdAt(s: string, start: nat) returns (ok: bool, stmt: Statement)
    requires start <= |s|
    ensures ok <==> ParseValuesWithId(s[start..]).Some?
    ensures ok ==> ParseValuesWithId(s[start..]) == Some(stmt)
  {
    hide ExpectSymbol, ParseInt, ParseString, AtStatementEnd, WellFormed;
    stmt := Select([], Everything);
    var p := start;
    ok, p := ExpectSymbolAt(s, p, '(');
    if !ok { return false, stmt; }
    var id, name, age;
    ok, id, p := ParseIntAt(s, p);
    if !ok || id <= 0 { return false, stmt; }
    ok, p := ExpectSymbolAt(s, p, ',');
    if !ok { return false, stmt; }
    ok, name, p := ParseStringAt(s, p, NAME_MAX);
    if !ok { return false, stmt; }
    ok, p := ExpectSymbolAt(s, p, ',');
    if !ok { return false, stmt; }
    ok, age, p := ParseIntAt(s, p);
    if !ok { return false, stmt; }
    ok, p := ExpectSymbolAt(s, p, ')');
    if !ok { return false, stmt; }
    ok := AtStatementEndAt(s, p);
    if !ok { return false, stmt; }
    return true, InsertWithId(id, name, age);
  }

  method ParseNameAgeValuesAt(s: string, start: nat) returns (ok: bool, stmt: Statement)
    requires start <= |s|
    ensures ok <==> ParseNameAgeValues(s[start..]).Some?
    ensures ok ==> ParseNameAgeValues(s[start..]) == Some(stmt)
  {
    hide ReadWord, ExpectKeyword, ParseInt, ParseString, AtStatementEnd, WellFormed, SameNoCase;
    stmt := Select([], Everything);
    var p := start;
    var col1, col2, name, age;
    ok, col1, p := ReadWordAt(s, p, 32);
    if !ok { return false, stmt; }
    ok, col2, p := ReadWordAt(s, p, 32);
    if !ok || !SameNoCase(col1, "name") || !SameNoCase(col2, "age") { return false, stmt; }
    ok, p := ExpectKeywordAt(s, p, "VALUES");
    if !ok { return false, stmt; }
    ok, name, p := ParseStringAt(s, p, NAME_MAX);
    if !ok { return false, stmt; }
    ok, age, p := ParseIntAt(s, p);
    if !ok { return false, stmt; }
    ok := AtStatementEndAt(s, p);
    if !ok { return false, stmt; }
    return true, InsertNext(name, age);
  }

  method ParseInsertAt(s: string, start: nat) returns (ok: bool, stmt: Statement)
    requires start <= |s|
    ensures ok <==> ParseInsert(s[start..]).Some?
    ensures ok ==> ParseInsert(s[start..]) == Some(stmt)
  {
    hide ReadWord, ExpectKeyword, ParseValuesWithId, ParseNameAgeValues, WellFormed, SameNoCase;
    stmt := Select([], Everything);
    var p := start;
    var table;
    ok, p := ExpectKeywordAt(s, p, "INSERT");
    if !ok { return false, stmt; }
    ok, p := ExpectKeywordAt(s, p, "INTO");
    if !ok { return false, stmt; }
    ok, table, p := ReadWordAt(s, p, 32);
    if !ok || !SameNoCase(table, "users") { return false, stmt; }
    var afterTable := p;
    ok, p := ExpectKeywordAt(s, p, "VALUES");
    if ok {
      ok, stmt := ParseValuesWithIdAt(s, p);
      return;
    }
    p := afterTable;
    ok, stmt := ParseNameAgeValuesAt(s, p);
  }

  method ParseFilterAt(s: string, start: nat) returns (ok: bool, filter: Where)
    requires start <= |s|
    ensures ok <==> ParseFilter(s[start..]).Some?
    ensures ok ==> ParseFilter(s[start..]) == Some(filter)
  {
    hide ReadWord, ExpectKeyword, ExpectSymbol, ParseInt, ParseString, AtStatementEnd, SameNoCase;
    filter := Everything;
    var p := start;
    ok := AtStatementEndAt(s, p);
    if ok { return; }
    ok, p := ExpectKeywordAt(s, p, "WHERE");
    if !ok { return; }
    var column;
    ok, column, p := ReadWordAt(s, p, 32);
    if !ok { return; }
    ok, p := ExpectSymbolAt(s, p, '=');
    if !ok { return; }
    if SameNoCase(column, "id") {
      var id;
      ok, id, p := ParseIntAt(s, p);
      if !ok { return; }
      filter := WhereId(id);
    } else if SameNoCase(column, "name") {
      var name;
      ok, name, p := ParseStringAt(s, p, NAME_MAX);
      if !ok { return; }
      filter := WhereName(name);
    } else {
      return false, filter;
    }
    ok := AtStatementEndAt(s, p);
  }

  method ParseSelectAt(s: string, start: nat) returns (ok: bool, stmt: Statement)
    requires start <= |s|
    ensures ok <==> ParseSelect(s[start..]).Some?
    ensures ok ==> ParseSelect(s[start..]) == Some(stmt)
  {
    hide ReadWord, ExpectKeyword, ParseSelectColumns, ParseFilter, WellFormed, SameNoCase;
    stmt := Select([], Everything);
    var p := start;
    var cols, table, filter;
    ok, p := ExpectKeywordAt(s, p, "SELECT");
    if !ok { return false, stmt; }
    ok, cols, p := ParseSelectColumnsAt(s, p);
    if !ok { return false, stmt; }
    ok, p := ExpectKeywordAt(s, p, "FROM");
    if !ok { return false, stmt; }
    ok, table, p := ReadWordAt(s, p, 32);
    if !ok || !SameNoCase(table, "users") { return false, stmt; }
    ok, filter := ParseFilterAt(s, p);
    stmt := Select(cols, filter);
  }

  /** sql_parse: the whole parser refines the function whose round trips are proved. */
  method SqlParse(s: string) returns (ok: bool, stmt: Statement)
    ensures ok <==> Parse(s).Some?
    ensures ok ==> Parse(s) == Some(stmt)
  {
    hide SkipSpace, ParseInsert, ParseSelect, WellFormed, SameNoCase;
    assert s[0..] == s;
    var p := SkipSpaceAt(s, 0);
    stmt := Select([], Everything);
    if p == |s| {
      return false, stmt;
    }
    assert |s[p..]| >= 6 ==> s[p..][..6] == s[p..p + 6];
    if p + 6 <= |s| && SameNoCase(s[p..p + 6], "INSERT") {
      ok, stmt := ParseInsertAt(s, p);
    } else if p + 6 <= |s| && SameNoCase(s[p..p + 6], "SELECT") {
      ok, stmt := ParseSelectAt(s, p);
    } else {
      ok := false;
    }
  }
}
