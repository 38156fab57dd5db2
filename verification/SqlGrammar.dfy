/** The other direction: every text that the parser accepts is a rendering of the
    statement that it gives. */
module SqlGrammar {
  import opened Options
  import opened Text
  import opened Sql

  // ---------------------------------------------------------------- what was read

  predicate IsPiece(p: Piece, t: Token) {
    AllSpace(p.space) && SameToken(p.token, t) && (p.token.Word? ==> StartsWord(p.token.text))
  }

  /** Every piece is a way to write its token, and words stand apart. */
  predicate ArePieces(ps: seq<Piece>, ts: seq<Token>) {
    && |ps| == |ts|
    && (forall i :: 0 <= i < |ps| ==> IsPiece(ps[i], ts[i]))
    && (forall i :: 0 < i < |ps| && ps[i - 1].token.Word? && ps[i].token.Word? ==> ps[i].space != "")
  }

  /** A reader took the pieces ps off s, for the tokens ts. */
  predicate Took(s: string, ps: seq<Piece>, ts: seq<Token>, rest: string) {
    && s == Join(ps) + rest
    && ArePieces(ps, ts)
    && (ps != [] && ps[|ps| - 1].token.Word? ==> NoWordHead(rest))
  }

  lemma {:induction false} JoinConcat(a: seq<Piece>, b: seq<Piece>)
    ensures Join(a + b) == Join(a) + Join(b)
  {
    hide Written;
    if a == [] {
      assert a + b == b && "" + Join(b) == Join(b);
    } else {
      JoinConcat(a[1..], b);
      assert (a + b)[0] == a[0] && (a + b)[1..] == a[1..] + b;
      Regroup(a[0].space, Written(a[0].token), Join(a[1..]), Join(b));
    }
  }

  lemma {:induction false} Regroup(x: string, y: string, z: string, w: string)
    ensures x + (y + z) + w == x + (y + (z + w))
  {
  }

  lemma {:induction false} TookNothing(s: string)
    ensures Took(s, [], [], s)
  {
    assert "" + s == s;
  }

  /** What was taken in two parts was taken as a whole. */
  lemma {:induction false} TookBoth(s: string, ps: seq<Piece>, ts: seq<Token>, mid: string,
                                    ps': seq<Piece>, ts': seq<Token>, rest: string)
    requires Took(s, ps, ts, mid) && Took(mid, ps', ts', rest)
    ensures Took(s, ps + ps', ts + ts', rest)
  {
    hide Join, Ending, ArePieces, NoWordHead;
    TookParts(s, ps, ts, mid);
    TookParts(mid, ps', ts', rest);
    JoinConcat(ps, ps');
    Associate(Join(ps), Join(ps'), rest);
    if ps != [] && ps' != [] && ps[|ps| - 1].token.Word? && ps'[0].token.Word? {
      SpaceBetween(ps', ts', mid, rest);
    }
    PiecesBoth(ps, ts, ps', ts');
    LastOf(ps, ps');
    if ps' == [] {
      JoinNothing(rest);
    }
  }

  lemma {:induction false} TookParts(s: string, ps: seq<Piece>, ts: seq<Token>, rest: string)
    requires Took(s, ps, ts, rest)
    ensures s == Join(ps) + rest && ArePieces(ps, ts) && |ps| == |ts|
    ensures ps != [] && ps[|ps| - 1].token.Word? ==> NoWordHead(rest)
  {
  }

  lemma {:induction false} Associate(a: string, b: string, c: string)
    ensures a + (b + c) == a + b + c
  {
  }

  lemma {:induction false} LastOf<T>(a: seq<T>, b: seq<T>)
    ensures b == [] ==> a + b == a
    ensures b != [] ==> (a + b)[|a + b| - 1] == b[|b| - 1]
  {
  }

  lemma {:induction false} JoinNothing(rest: string)
    ensures Join([]) + rest == rest
  {
  }

  lemma {:induction false} SpaceBetween(ps: seq<Piece>, ts: seq<Token>, mid: string, rest: string)
    requires Took(mid, ps, ts, rest) && ps != [] && ps[0].token.Word? && NoWordHead(mid)
    ensures ps[0].space != ""
  {
    var w := ps[0].token.text;
    assert IsPiece(ps[0], ts[0]);
    Regroup(ps[0].space, w, Join(ps[1..]), rest);
    WordShows(ps[0].space, w, Join(ps[1..]) + rest);
  }

  lemma {:induction false} WordShows(space: string, w: string, rest: string)
    requires StartsWord(w)
    ensures space == "" ==> !NoWordHead(space + (w + rest))
  {
    assert (w + rest)[0] == w[0] && "" + (w + rest) == w + rest;
  }

  lemma {:induction false} PiecesBoth(ps: seq<Piece>, ts: seq<Token>, ps': seq<Piece>, ts': seq<Token>)
    requires ArePieces(ps, ts) && ArePieces(ps', ts')
    requires ps != [] && ps' != [] && ps[|ps| - 1].token.Word? && ps'[0].token.Word? ==> ps'[0].space != ""
    ensures ArePieces(ps + ps', ts + ts')
  {
    hide IsPiece;
    var all := ps + ps';
    forall i | 0 <= i < |all| ensures IsPiece(all[i], (ts + ts')[i]) {
      if i >= |ps| {
        assert all[i] == ps'[i - |ps|] && (ts + ts')[i] == ts'[i - |ps|];
      }
    }
    forall i | 0 < i < |all| && all[i - 1].token.Word? && all[i].token.Word? ensures all[i].space != "" {
      if i > |ps| {
        assert all[i] == ps'[i - |ps|] && all[i - 1] == ps'[i - 1 - |ps|];
      }
    }
  }

  // ---------------------------------------------------------------- one token

  lemma {:induction false} OnePiece(s: string, p: Piece, t: Token, rest: string)
    requires IsPiece(p, t) && s == p.space + (Written(p.token) + rest) && (p.token.Word? ==> NoWordHead(rest))
    ensures Took(s, [p], [t], rest)
  {
    assert [p][1..] == [];
    assert Join([p]) == p.space + (Written(p.token) + "");
    assert Join([p]) + rest == p.space + (Written(p.token) + rest);
  }

  lemma {:induction false} Skipped(s: string) returns (space: string)
    ensures AllSpace(space) && s == space + SkipSpace(s)
  {
    hide SkipSpace, AllSpace;
    var cur := SkipSpace(s);
    space := s[..|s| - |cur|];
  }

  lemma {:induction false} TookWord(s: string, size: nat, word: string) returns (p: Piece)
    requires ReadWord(s, size).Some? && SameNoCase(ReadWord(s, size).value.0, word)
    ensures Took(s, [p], [Word(word)], ReadWord(s, size).value.1)
  {
    var space := Skipped(s);
    var (w, rest) := TakeWord(SkipSpace(s));
    p := Piece(space, Word(w));
    assert w == "" ==> rest == SkipSpace(s);
    assert w[0] == SkipSpace(s)[0];
    hide TakeWord, SkipSpace, SameNoCase, Took;
    OnePiece(s, p, Word(word), rest);
  }

  lemma {:induction false} TookKeyword(s: string, keyword: string) returns (p: Piece)
    requires ExpectKeyword(s, keyword).Some?
    ensures Took(s, [p], [Word(keyword)], ExpectKeyword(s, keyword).value)
  {
    hide ReadWord, SameNoCase, Took;
    p := TookWord(s, 64, keyword);
  }

  lemma {:induction false} TookSymbol(s: string, c: char) returns (p: Piece)
    requires ExpectSymbol(s, c).Some?
    ensures Took(s, [p], [Symbol(c)], ExpectSymbol(s, c).value)
  {
    hide SkipSpace, Took;
    var space := Skipped(s);
    var cur := SkipSpace(s);
    p := Piece(space, Symbol(c));
    assert cur == [c] + cur[1..];
    OnePiece(s, p, Symbol(c), cur[1..]);
  }

  lemma {:induction false} DigitsText(t: string, n: nat, rest: string) returns (text: string)
    requires ReadInteger(t) == Some((n, rest)) && SkipSpace(t) == t
    ensures IsIntegerText(text, n) && t == text + rest
  {
    hide ReadInteger, TakeDigits, SkipSpace, Value, AllDigits;
    IntegerParts(t);
    var (d, r) := TakeDigits(AfterSign(t));
    text := (if AfterSign(t) == t then "" else [t[0]]) + d;
    FirstDigit(d);
    WithSign(t, d, r);
  }

  lemma {:induction false} FirstDigit(d: string)
    requires AllDigits(d) && d != ""
    ensures d[0] != '-' && d[0] != '+'
  {
    assert IsDigit(d[0]);
  }

  lemma {:induction false} WithSign(t: string, d: string, rest: string)
    requires d != "" && d[0] != '-' && d[0] != '+' && d + rest == AfterSign(t)
    ensures var text := (if AfterSign(t) == t then "" else [t[0]]) + d;
      text + rest == t && AfterSign(text) == d && text != "" && (text[0] == '-' <==> t[0] == '-')
  {
    if AfterSign(t) == t {
      assert "" + d == d && t[0] == d[0];
    } else {
      assert t == [t[0]] + AfterSign(t);
      assert [t[0]] + d + rest == [t[0]] + (d + rest);
    }
  }

  lemma {:induction false} IntParts(s: string)
    requires ParseInt(s).Some?
    ensures var cur := SkipSpace(s); SkipSpace(cur) == cur && ReadInteger(cur) == ParseInt(s)
    ensures ParseInt(s).value.0 >= 0
  {
    hide SkipSpace, ReadInteger;
    SkipTwice(s);
  }

  lemma {:induction false} TookInt(s: string) returns (p: Piece)
    requires ParseInt(s).Some?
    ensures ParseInt(s).value.0 >= 0
    ensures Took(s, [p], [Number(ParseInt(s).value.0)], ParseInt(s).value.1)
  {
    hide ReadInteger, SkipSpace, IsIntegerText, ParseInt, Took, AllSpace;
    IntParts(s);
    var space := Skipped(s);
    var n, rest := ParseInt(s).value.0, ParseInt(s).value.1;
    var text := DigitsText(SkipSpace(s), n, rest);
    p := Piece(space, Digits(text));
    OnePiece(s, p, Number(n), rest);
  }

  lemma {:induction false} LiteralText(cur: string, lit: string, after: string)
    requires cur != "" && cur[0] == '\'' && after != "" && after[0] == '\'' && lit + after == cur[1..]
    ensures cur == "'" + lit + "'" + after[1..]
  {
    assert cur == "'" + cur[1..] && after == "'" + after[1..];
    assert "'" + (lit + ("'" + after[1..])) == "'" + lit + "'" + after[1..];
  }

  lemma {:induction false} TookString(s: string) returns (p: Piece)
    requires ParseString(s, NAME_MAX).Some?
    ensures Took(s, [p], [Literal(ParseString(s, NAME_MAX).value.0)], ParseString(s, NAME_MAX).value.1)
  {
    hide TakeLiteral, SkipSpace, Took;
    var space := Skipped(s);
    var cur := SkipSpace(s);
    var (lit, after) := TakeLiteral(cur[1..]);
    p := Piece(space, Literal(lit));
    LiteralText(cur, lit, after);
    OnePiece(s, p, Literal(lit), after[1..]);
  }

  lemma {:induction false} SpaceAlone(space: string)
    requires AllSpace(space)
    ensures Ending(space)
  {
  }

  lemma {:induction false} SpaceSemicolon(space: string, more: string)
    requires AllSpace(space) && AllSpace(more)
    ensures Ending(space + ([';'] + more))
  {
    hide AllSpace;
    var s := space + ([';'] + more);
    assert s[|space|] == ';' && s[..|space|] == space && s[|space| + 1..] == more;
  }

  lemma {:induction false} TookEnd(s: string)
    requires AtStatementEnd(s)
    ensures Ending(s)
  {
    hide SkipSpace, AllSpace, Ending;
    var space := Skipped(s);
    var cur := SkipSpace(s);
    if At(cur, ';') {
      var more := Skipped(cur[1..]);
      assert more + "" == more && cur == [';'] + cur[1..];
      SpaceSemicolon(space, more);
    } else {
      assert space + "" == space;
      SpaceAlone(space);
    }
  }

  lemma {:induction false} Then(s: string, ps: seq<Piece>, ts: seq<Token>, mid: string,
                                p: Piece, t: Token, rest: string)
    returns (ps': seq<Piece>, ts': seq<Token>)
    requires Took(s, ps, ts, mid) && Took(mid, [p], [t], rest)
    ensures ps' == ps + [p] && ts' == ts + [t] && Took(s, ps', ts', rest)
  {
    hide Took;
    TookBoth(s, ps, ts, mid, [p], [t], rest);
    ps', ts' := ps + [p], ts + [t];
  }

  // ---------------------------------------------------------------- statements

  lemma {:induction false} TookValuesWithId(s: string) returns (ps: seq<Piece>, tail: string)
    requires ParseValuesWithId(s).Some?
    ensures var stmt := ParseValuesWithId(s).value;
      && stmt.InsertWithId? && stmt.id >= 0 && stmt.age >= 0 && Ending(tail)
      && Took(s, ps, [Symbol('('), Number(stmt.id), Symbol(','), Literal(stmt.name), Symbol(','), Number(stmt.age),
                      Symbol(')')], tail)
  {
    hide ExpectSymbol, ParseInt, ParseString, AtStatementEnd, Took, Ending, WellFormed;
    var a := ExpectSymbol(s, '(').value;
    var id := ParseInt(a).value;
    var b := ExpectSymbol(id.1, ',').value;
    var name := ParseString(b, NAME_MAX).value;
    var c := ExpectSymbol(name.1, ',').value;
    var age := ParseInt(c).value;
    tail := ExpectSymbol(age.1, ')').value;
    var ts;
    var p := TookSymbol(s, '(');
    ps, ts := [p], [Symbol('(')];
    p := TookInt(a);
    ps, ts := Then(s, ps, ts, a, p, Number(id.0), id.1);
    p := TookSymbol(id.1, ',');
    ps, ts := Then(s, ps, ts, id.1, p, Symbol(','), b);
    p := TookString(b);
    ps, ts := Then(s, ps, ts, b, p, Literal(name.0), name.1);
    p := TookSymbol(name.1, ',');
    ps, ts := Then(s, ps, ts, name.1, p, Symbol(','), c);
    p := TookInt(c);
    ps, ts := Then(s, ps, ts, c, p, Number(age.0), age.1);
    p := TookSymbol(age.1, ')');
    ps, ts := Then(s, ps, ts, age.1, p, Symbol(')'), tail);
    TookEnd(tail);
    assert ts == [Symbol('('), Number(id.0), Symbol(','), Literal(name.0), Symbol(','), Number(age.0), Symbol(')')];
  }

  lemma {:induction false} TookNameAgeValues(s: string) returns (ps: seq<Piece>, tail: string)
    requires ParseNameAgeValues(s).Some?
    ensures var stmt := ParseNameAgeValues(s).value;
      && stmt.InsertNext? && stmt.age >= 0 && Ending(tail)
      && Took(s, ps, [Word("name"), Word("age"), Word("VALUES"), Literal(stmt.name), Number(stmt.age)], tail)
  {
    hide ReadWord, ExpectKeyword, ParseInt, ParseString, AtStatementEnd, Took, Ending, WellFormed, SameNoCase;
    var a := ReadWord(s, 32).value.1;
    var b := ReadWord(a, 32).value.1;
    var c := ExpectKeyword(b, "VALUES").value;
    var name := ParseString(c, NAME_MAX).value;
    var age := ParseInt(name.1).value;
    tail := age.1;
    var ts;
    var p := TookWord(s, 32, "name");
    ps, ts := [p], [Word("name")];
    p := TookWord(a, 32, "age");
    ps, ts := Then(s, ps, ts, a, p, Word("age"), b);
    p := TookKeyword(b, "VALUES");
    ps, ts := Then(s, ps, ts, b, p, Word("VALUES"), c);
    p := TookString(c);
    ps, ts := Then(s, ps, ts, c, p, Literal(name.0), name.1);
    p := TookInt(name.1);
    ps, ts := Then(s, ps, ts, name.1, p, Number(age.0), tail);
    TookEnd(tail);
    assert ts == [Word("name"), Word("age"), Word("VALUES"), Literal(name.0), Number(age.0)];
  }

  lemma {:induction false} TookInsert(s: string) returns (ps: seq<Piece>, tail: string)
    requires ParseInsert(s).Some?
    ensures Ending(tail) && !ParseInsert(s).value.Select? && Took(s, ps, Tokens(ParseInsert(s).value), tail)
  {
    hide ReadWord, ExpectKeyword, ParseValuesWithId, ParseNameAgeValues, Took, Ending, WellFormed, SameNoCase;
    var a := ExpectKeyword(s, "INSERT").value;
    var b := ExpectKeyword(a, "INTO").value;
    var c := ReadWord(b, 32).value.1;
    var ts;
    var p := TookKeyword(s, "INSERT");
    ps, ts := [p], [Word("INSERT")];
    p := TookKeyword(a, "INTO");
    ps, ts := Then(s, ps, ts, a, p, Word("INTO"), b);
    p := TookWord(b, 32, "users");
    ps, ts := Then(s, ps, ts, b, p, Word("users"), c);
    var more;
    if ExpectKeyword(c, "VALUES").Some? {
      var d := ExpectKeyword(c, "VALUES").value;
      p := TookKeyword(c, "VALUES");
      ps, ts := Then(s, ps, ts, c, p, Word("VALUES"), d);
      more, tail := TookValuesWithId(d);
      var stmt := ParseValuesWithId(d).value;
      var ts' := [Symbol('('), Number(stmt.id), Symbol(','), Literal(stmt.name), Symbol(','), Number(stmt.age),
                  Symbol(')')];
      TookBoth(s, ps, ts, d, more, ts', tail);
      assert ts + ts' == Tokens(stmt);
    } else {
      more, tail := TookNameAgeValues(c);
      var stmt := ParseNameAgeValues(c).value;
      var ts' := [Word("name"), Word("age"), Word("VALUES"), Literal(stmt.name), Number(stmt.age)];
      TookBoth(s, ps, ts, c, more, ts', tail);
      assert ts + ts' == Tokens(stmt);
    }
    ps := ps + more;
  }

  lemma {:induction false} TookFilter(s: string) returns (ps: seq<Piece>, tail: string)
    requires ParseFilter(s).Some?
    ensures Ending(tail) && Took(s, ps, FilterTokens(ParseFilter(s).value), tail)
  {
    hide ReadWord, ExpectKeyword, ExpectSymbol, ParseInt, ParseString, AtStatementEnd, Took, Ending, SameNoCase;
    if AtStatementEnd(s) {
      TookEnd(s);
      TookNothing(s);
      return [], s;
    }
    var a := ExpectKeyword(s, "WHERE").value;
    var column := ReadWord(a, 32).value;
    var b := ExpectSymbol(column.1, '=').value;
    var ts;
    var p := TookKeyword(s, "WHERE");
    ps, ts := [p], [Word("WHERE")];
    if SameNoCase(column.0, "id") {
      p := TookWord(a, 32, "id");
      ps, ts := Then(s, ps, ts, a, p, Word("id"), column.1);
      p := TookSymbol(column.1, '=');
      ps, ts := Then(s, ps, ts, column.1, p, Symbol('='), b);
      var id := ParseInt(b).value;
      p := TookInt(b);
      ps, ts := Then(s, ps, ts, b, p, Number(id.0), id.1);
      tail := id.1;
      assert ts == FilterTokens(WhereId(id.0));
    } else {
      p := TookWord(a, 32, "name");
      ps, ts := Then(s, ps, ts, a, p, Word("name"), column.1);
      p := TookSymbol(column.1, '=');
      ps, ts := Then(s, ps, ts, column.1, p, Symbol('='), b);
      var name := ParseString(b, NAME_MAX).value;
      p := TookString(b);
      ps, ts := Then(s, ps, ts, b, p, Literal(name.0), name.1);
      tail := name.1;
      assert ts == FilterTokens(WhereName(name.0));
    }
    TookEnd(tail);
  }

  lemma {:induction false} TookColumn(s: string) returns (p: Piece)
    requires ParseColumn(s).Some?
    ensures Took(s, [p], [Word(ColumnWord(ParseColumn(s).value.0))], ParseColumn(s).value.1)
  {
    hide ReadWord, SameNoCase, Took;
    p := TookWord(s, 32, ColumnWord(ParseColumn(s).value.0));
  }

  lemma {:induction false} TookComma(s: string) returns (p: Piece)
    requires At(SkipSpace(s), ',')
    ensures Took(s, [p], [Symbol(',')], SkipSpace(s)[1..])
  {
    hide Took;
    p := TookSymbol(s, ',');
  }

  /** The list of columns that was read after those in acc. */
  lemma {:induction false} TookColumns(s: string, acc: seq<Column>) returns (cols: seq<Column>, ps: seq<Piece>)
    requires ParseColumnList(s, acc).Some?
    ensures cols != [] && ParseColumnList(s, acc).value.0 == acc + cols
    ensures Took(s, ps, ColumnTokens(cols), ParseColumnList(s, acc).value.1)
    decreases MAX_COLUMNS - |acc|
  {
    hide ParseColumn, SkipSpace, Took, NoRepeats;
    var c, rest := ParseColumn(s).value.0, ParseColumn(s).value.1;
    var p := TookColumn(s);
    var cur := SkipSpace(rest);
    ListStep(s, acc, c, rest);
    if At(cur, ',') {
      var others, more := TookColumns(cur[1..], acc + [c]);
      var comma := TookComma(rest);
      var ts;
      ps, ts := Then(s, [p], [Word(ColumnWord(c))], rest, comma, Symbol(','), cur[1..]);
      cols := [c] + others;
      TookBoth(s, ps, ts, cur[1..], more, ColumnTokens(others), ParseColumnList(s, acc).value.1);
      assert cols[1..] == others && ts + ColumnTokens(others) == ColumnTokens(cols);
      assert acc + [c] + others == acc + cols;
      ps := ps + more;
    } else {
      cols, ps := [c], [p];
    }
  }

  lemma {:induction false} TookSelectColumns(s: string) returns (ps: seq<Piece>)
    requires ParseSelectColumns(s).Some?
    ensures var cols := ParseSelectColumns(s).value.0;
      Took(s, ps, if cols == [] then [Symbol('*')] else ColumnTokens(cols), ParseSelectColumns(s).value.1)
  {
    hide ParseColumnList, SkipSpace, Took, NoRepeats, ColumnTokens;
    var p;
    if At(SkipSpace(s), '*') {
      p := TookSymbol(s, '*');
      ps := [p];
    } else {
      var cols;
      cols, ps := TookColumns(s, []);
      assert [] + cols == cols;
    }
  }

  lemma {:induction false} TookSelect(s: string) returns (ps: seq<Piece>, tail: string)
    requires ParseSelect(s).Some?
    ensures Ending(tail) && ParseSelect(s).value.Select? && Took(s, ps, Tokens(ParseSelect(s).value), tail)
  {
    hide ReadWord, ExpectKeyword, ParseSelectColumns, ParseFilter, Took, Ending, WellFormed, SameNoCase;
    hide ColumnTokens, FilterTokens;
    var a := ExpectKeyword(s, "SELECT").value;
    var columns := ParseSelectColumns(a).value;
    var b := columns.1;
    var c := ExpectKeyword(b, "FROM").value;
    var d := ReadWord(c, 32).value.1;
    var list := if columns.0 == [] then [Symbol('*')] else ColumnTokens(columns.0);
    var p := TookKeyword(s, "SELECT");
    var more := TookSelectColumns(a);
    TookBoth(s, [p], [Word("SELECT")], a, more, list, b);
    var ts;
    ps, ts := [p] + more, [Word("SELECT")] + list;
    p := TookKeyword(b, "FROM");
    ps, ts := Then(s, ps, ts, b, p, Word("FROM"), c);
    p := TookWord(c, 32, "users");
    ps, ts := Then(s, ps, ts, c, p, Word("users"), d);
    more, tail := TookFilter(d);
    var filter := ParseFilter(d).value;
    TookBoth(s, ps, ts, d, more, FilterTokens(filter), tail);
    assert ts == [Word("SELECT")] + list + [Word("FROM"), Word("users")];
    ps := ps + more;
  }

  // ---------------------------------------------------------------- exactly the renderings

  predicate IsRendering(sql: string, stmt: Statement, ps: seq<Piece>, tail: string)
    requires WellFormed(stmt)
  {
    Renders(ps, Tokens(stmt)) && Ending(tail) && sql == Join(ps) + tail
  }

  lemma {:induction false} TookRenders(sql: string, ps: seq<Piece>, ts: seq<Token>, tail: string)
    requires Took(sql, ps, ts, tail)
    ensures Renders(ps, ts) && sql == Join(ps) + tail
  {
  }

  lemma {:induction false} Accepted(sql: string) returns (ps: seq<Piece>, tail: string)
    requires Parse(sql).Some?
    ensures IsRendering(sql, Parse(sql).value, ps, tail)
  {
    hide ParseInsert, ParseSelect, Took, Tokens, Begins, WellFormed, Renders, Ending;
    var s := SkipSpace(sql);
    SkippedStatement(sql);
    if Begins(s, "INSERT") {
      ps, tail := TookInsert(sql);
    } else {
      ps, tail := TookSelect(sql);
    }
    TookRenders(sql, ps, Tokens(Parse(sql).value), tail);
  }

  /** The parser accepts a text with a statement as its result if and only if the text
      is a rendering of that statement. */
  lemma {:induction false} AcceptedIff(sql: string, stmt: Statement)
    requires WellFormed(stmt)
    ensures Parse(sql) == Some(stmt) <==> exists ps, tail :: IsRendering(sql, stmt, ps, tail)
  {
    hide Parse, Tokens, Renders, Ending, WellFormed;
    if Parse(sql) == Some(stmt) {
      var ps, tail := Accepted(sql);
    }
    if exists ps, tail :: IsRendering(sql, stmt, ps, tail) {
      var ps, tail :| IsRendering(sql, stmt, ps, tail);
      RoundTrip(stmt, ps, tail);
    }
  }

  /** So no text has two readings, and a text is rejected exactly when it renders no
      statement. */
  lemma {:induction false} RejectedIff(sql: string)
    ensures Parse(sql).None? <==> forall stmt, ps, tail | WellFormed(stmt) :: !IsRendering(sql, stmt, ps, tail)
  {
    hide Parse, IsRendering, WellFormed;
    if Parse(sql).Some? {
      var ps, tail := Accepted(sql);
    } else {
      forall stmt, ps, tail | WellFormed(stmt) ensures !IsRendering(sql, stmt, ps, tail) {
        AcceptedIff(sql, stmt);
      }
    }
  }
}
