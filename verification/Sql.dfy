/** The SQL grammar.  Each reader is a function from the rest of the text to what it
    finds and what is left; every way to write a statement is proved to be read back. */
module Sql {
  import opened Options
  import opened Text

  const NAME_MAX := 128
  const MAX_COLUMNS := 3

  datatype Column = Id | Name | Age

  datatype Where = Everything | WhereId(id: int) | WhereName(name: string)

  /** Select([], w) is SELECT *. */
  datatype Statement =
    | InsertWithId(id: int, name: string, age: int)
    | InsertNext(name: string, age: int)
    | Select(columns: seq<Column>, filter: Where)

  // ---------------------------------------------------------------- well formed statements

  predicate IsName(name: string) {
    |name| < NAME_MAX && '\'' !in name
  }

  predicate NoRepeats(cols: seq<Column>) {
    forall i, j :: 0 <= i < j < |cols| ==> cols[i] != cols[j]
  }

  predicate IsFilter(filter: Where) {
    match filter
    case Everything => true
    case WhereId(id) => 0 <= id <= INT_MAX
    case WhereName(name) => IsName(name)
  }

  predicate WellFormed(stmt: Statement) {
    match stmt
    case InsertWithId(id, name, age) => 1 <= id <= INT_MAX && IsName(name) && 0 <= age <= INT_MAX
    case InsertNext(name, age) => IsName(name) && 0 <= age <= INT_MAX
    case Select(columns, filter) => NoRepeats(columns) && IsFilter(filter)
  }

  // ---------------------------------------------------------------- readers

  function TakeWord(s: string): (r: (string, string))
    ensures r.0 + r.1 == s && (forall i :: 0 <= i < |r.0| ==> IsWordChar(r.0[i]))
    ensures r.1 != "" ==> !IsWordChar(r.1[0])
  {
    if s != "" && IsWordChar(s[0]) then
      var (w, rest) := TakeWord(s[1..]);
      assert [s[0]] + s[1..] == s;
      ([s[0]] + w, rest)
    else ("", s)
  }

  predicate StartsWord(s: string) {
    s != "" && (IsAlpha(s[0]) || s[0] == '_')
  }

  /** A word that fits a buffer of the given size, and the rest. */
  function ReadWord(s: string, size: nat): Option<(string, string)> {
    var cur := SkipSpace(s);
    if !StartsWord(cur) then None
    else
      var (w, rest) := TakeWord(cur);
      if |w| + 1 > size then None else Some((w, rest))
  }

  function ExpectKeyword(s: string, keyword: string): Option<string> {
    var r := ReadWord(s, 64);
    if r.Some? && SameNoCase(r.value.0, keyword) then Some(r.value.1) else None
  }

  function ParseInt(s: string): (r: Option<(int, string)>)
    ensures r.Some? ==> 0 <= r.value.0 <= INT_MAX
  {
    var cur := SkipSpace(s);
    if cur == "" then None
    else
      var r := ReadInteger(cur);
      if r.None? || r.value.0 < 0 || r.value.0 > INT_MAX then None else r
  }

  function TakeLiteral(s: string): (r: (string, string))
    ensures r.0 + r.1 == s && '\'' !in r.0 && (r.1 != "" ==> r.1[0] == '\'')
  {
    if s != "" && s[0] != '\'' then
      var (w, rest) := TakeLiteral(s[1..]);
      assert [s[0]] + s[1..] == s;
      assert [s[0]] + w + rest == [s[0]] + (w + rest);
      ([s[0]] + w, rest)
    else ("", s)
  }

  function ParseString(s: string, size: nat): (r: Option<(string, string)>)
    ensures r.Some? ==> |r.value.0| < size && '\'' !in r.value.0
  {
    var cur := SkipSpace(s);
    if cur == "" || cur[0] != '\'' then None
    else
      var (lit, rest) := TakeLiteral(cur[1..]);
      if |lit| + 1 > size || rest == "" then None else Some((lit, rest[1..]))
  }

  function ColumnNamed(word: string): Option<Column> {
    if SameNoCase(word, "id") then Some(Id)
    else if SameNoCase(word, "name") then Some(Name)
    else if SameNoCase(word, "age") then Some(Age)
    else None
  }

  function ParseColumn(s: string): Option<(Column, string)> {
    var r := ReadWord(s, 32);
    if r.None? then None
    else
      var c := ColumnNamed(r.value.0);
      if c.None? then None else Some((c.value, r.value.1))
  }

  predicate At(s: string, c: char) {
    s != "" && s[0] == c
  }

  lemma {:induction false} ExtendNoRepeats(acc: seq<Column>, c: Column)
    requires c !in acc
    ensures NoRepeats(acc) ==> NoRepeats(acc + [c])
  {
  }

  /** The column list from here on, after the columns in acc. */
  function ParseColumnList(s: string, acc: seq<Column>): (r: Option<(seq<Column>, string)>)
    ensures r.Some? && NoRepeats(acc) ==> r.value.0 != [] && NoRepeats(r.value.0)
    decreases MAX_COLUMNS - |acc|
  {
    if |acc| >= MAX_COLUMNS then None
    else
      var r := ParseColumn(s);
      if r.None? || r.value.0 in acc then None
      else
        var cols, rest := acc + [r.value.0], r.value.1;
        ExtendNoRepeats(acc, r.value.0);
        var cur := SkipSpace(rest);
        if At(cur, ',') then ParseColumnList(cur[1..], cols) else Some((cols, rest))
  }

  function ParseSelectColumns(s: string): (r: Option<(seq<Column>, string)>)
    ensures r.Some? ==> NoRepeats(r.value.0)
  {
    var cur := SkipSpace(s);
    if At(cur, '*') then Some(([], cur[1..])) else ParseColumnList(s, [])
  }

  predicate AtStatementEnd(s: string) {
    var cur := SkipSpace(s);
    if At(cur, ';') then SkipSpace(cur[1..]) == "" else cur == ""
  }

  // ---------------------------------------------------------------- statements

  function ParseValuesWithId(s: string): (r: Option<Statement>)
    ensures r.Some? ==> WellFormed(r.value)
  {
    var a := ExpectSymbol(s, '(');
    if a.None? then None else
    var id := ParseInt(a.value);
    if id.None? || id.value.0 <= 0 then None else
    var b := ExpectSymbol(id.value.1, ',');
    if b.None? then None else
    var name := ParseString(b.value, NAME_MAX);
    if name.None? then None else
    var c := ExpectSymbol(name.value.1, ',');
    if c.None? then None else
    var age := ParseInt(c.value);
    if age.None? then None else
    var d := ExpectSymbol(age.value.1, ')');
    if d.None? || !AtStatementEnd(d.value) then None
    else Some(InsertWithId(id.value.0, name.value.0, age.value.0))
  }

  function ParseNameAgeValues(s: string): (r: Option<Statement>)
    ensures r.Some? ==> WellFormed(r.value)
  {
    var col1 := ReadWord(s, 32);
    if col1.None? then None else
    var col2 := ReadWord(col1.value.1, 32);
    if col2.None? || !SameNoCase(col1.value.0, "name") || !SameNoCase(col2.value.0, "age") then None else
    var values := ExpectKeyword(col2.value.1, "VALUES");
    if values.None? then None else
    var name := ParseString(values.value, NAME_MAX);
    if name.None? then None else
    var age := ParseInt(name.value.1);
    if age.None? || !AtStatementEnd(age.value.1) then None
    else Some(InsertNext(name.value.0, age.value.0))
  }

  function ParseInsert(s: string): (r: Option<Statement>)
    ensures r.Some? ==> WellFormed(r.value)
  {
    var insert := ExpectKeyword(s, "INSERT");
    if insert.None? then None else
    var into := ExpectKeyword(insert.value, "INTO");
    if into.None? then None else
    var table := ReadWord(into.value, 32);
    if table.None? || !SameNoCase(table.value.0, "users") then None else
    var values := ExpectKeyword(table.value.1, "VALUES");
    if values.Some? then ParseValuesWithId(values.value) else ParseNameAgeValues(table.value.1)
  }

  function ParseFilter(s: string): (r: Option<Where>)
    ensures r.Some? ==> IsFilter(r.value)
  {
    if AtStatementEnd(s) then Some(Everything) else
    var where := ExpectKeyword(s, "WHERE");
    if where.None? then None else
    var column := ReadWord(where.value, 32);
    if column.None? then None else
    var eq := ExpectSymbol(column.value.1, '=');
    if eq.None? then None
    else if SameNoCase(column.value.0, "id") then
      var id := ParseInt(eq.value);
      if id.None? || !AtStatementEnd(id.value.1) then None else Some(WhereId(id.value.0))
    else if SameNoCase(column.value.0, "name") then
      var name := ParseString(eq.value, NAME_MAX);
      if name.None? || !AtStatementEnd(name.value.1) then None else Some(WhereName(name.value.0))
    else None
  }

  function ParseSelect(s: string): (r: Option<Statement>)
    ensures r.Some? ==> WellFormed(r.value)
  {
    var select := ExpectKeyword(s, "SELECT");
    if select.None? then None else
    var columns := ParseSelectColumns(select.value);
    if columns.None? then None else
    var from := ExpectKeyword(columns.value.1, "FROM");
    if from.None? then None else
    var table := ReadWord(from.value, 32);
    if table.None? || !SameNoCase(table.value.0, "users") then None else
    var filter := ParseFilter(table.value.1);
    if filter.None? then None else Some(Select(columns.value.0, filter.value))
  }

  predicate Begins(s: string, keyword: string) {
    |keyword| <= |s| && SameNoCase(s[..|keyword|], keyword)
  }

  function Parse(sql: string): (r: Option<Statement>)
    ensures r.Some? ==> WellFormed(r.value)
  {
    var s := SkipSpace(sql);
    if s == "" then None
    else if Begins(s, "INSERT") then ParseInsert(s)
    else if Begins(s, "SELECT") then ParseSelect(s)
    else None
  }

  // ---------------------------------------------------------------- renderings

  /** The grammar has numbers; a text has the digits of a number. */
  datatype Token = Word(text: string) | Symbol(c: char) | Number(n: nat) | Literal(text: string) | Digits(text: string)

  /** A token as it is written, after some white space. */
  datatype Piece = Piece(space: string, token: Token)

  function Written(t: Token): string {
    match t
    case Word(text) => text
    case Symbol(c) => [c]
    case Number(n) => Decimal(n)
    case Literal(text) => "'" + text + "'"
    case Digits(text) => text
  }

  function Join(ps: seq<Piece>): string {
    if ps == [] then "" else ps[0].space + (Written(ps[0].token) + Join(ps[1..]))
  }

  function ColumnWord(c: Column): string {
    match c
    case Id => "id"
    case Name => "name"
    case Age => "age"
  }

  function ColumnTokens(cols: seq<Column>): seq<Token> {
    if cols == [] then []
    else if |cols| == 1 then [Word(ColumnWord(cols[0]))]
    else [Word(ColumnWord(cols[0])), Symbol(',')] + ColumnTokens(cols[1..])
  }

  function FilterTokens(filter: Where): seq<Token>
    requires IsFilter(filter)
  {
    match filter
    case Everything => []
    case WhereId(id) => [Word("WHERE"), Word("id"), Symbol('='), Number(id)]
    case WhereName(name) => [Word("WHERE"), Word("name"), Symbol('='), Literal(name)]
  }

  /** The tokens of a statement in the order of the grammar. */
  function Tokens(stmt: Statement): seq<Token>
    requires WellFormed(stmt)
  {
    match stmt
    case InsertWithId(id, name, age) =>
      [Word("INSERT"), Word("INTO"), Word("users"), Word("VALUES"), Symbol('('), Number(id), Symbol(','),
       Literal(name), Symbol(','), Number(age), Symbol(')')]
    case InsertNext(name, age) =>
      [Word("INSERT"), Word("INTO"), Word("users"), Word("name"), Word("age"), Word("VALUES"),
       Literal(name), Number(age)]
    case Select(columns, filter) =>
      [Word("SELECT")] + (if columns == [] then [Symbol('*')] else ColumnTokens(columns))
      + [Word("FROM"), Word("users")] + FilterTokens(filter)
  }

  /** Digits with the value n, leading zeros and a sign allowed; minus zero is zero. */
  predicate IsIntegerText(text: string, n: nat) {
    var d := AfterSign(text);
    d != "" && AllDigits(d) && Value(d) == n && (text[0] == '-' ==> n == 0)
  }

  /** A token as it may be written: words in any letter case, numbers in any digits. */
  predicate SameToken(a: Token, b: Token) {
    if a.Word? && b.Word? then SameNoCase(a.text, b.text)
    else if a.Digits? && b.Number? then IsIntegerText(a.text, b.n)
    else a == b
  }

  /** Any white space before each token, and some between two words. */
  predicate Renders(ps: seq<Piece>, ts: seq<Token>) {
    && |ps| == |ts|
    && (forall i :: 0 <= i < |ps| ==> AllSpace(ps[i].space) && SameToken(ps[i].token, ts[i]))
    && (forall i :: 0 < i < |ps| && ps[i - 1].token.Word? && ps[i].token.Word? ==> ps[i].space != "")
  }

  /** The end of a statement: white space with at most one semicolon in it. */
  predicate Ending(tail: string) {
    AllSpace(tail) || exists i :: 0 <= i < |tail| && tail[i] == ';' && AllSpace(tail[..i]) && AllSpace(tail[i + 1..])
  }

  function Rest(ps: seq<Piece>, k: nat, tail: string): string
    requires k <= |ps|
  {
    Join(ps[k..]) + tail
  }

  lemma {:induction false} RestAt(ps: seq<Piece>, k: nat, tail: string)
    requires k < |ps|
    ensures Rest(ps, k, tail) == ps[k].space + (Written(ps[k].token) + Rest(ps, k + 1, tail))
  {
    assert ps[k..][1..] == ps[k + 1..];
    var a, b, c := ps[k].space, Written(ps[k].token), Join(ps[k + 1..]);
    assert Join(ps[k..]) == a + (b + c);
    assert a + (b + c) + tail == a + (b + (c + tail));
  }

  predicate IsWord(w: string) {
    StartsWord(w) && |w| < 32 && forall i :: 0 <= i < |w| ==> IsWordChar(w[i])
  }

  predicate IsSymbol(c: char) {
    c in "(),=*"
  }

  predicate IsToken(t: Token) {
    match t
    case Word(text) => IsWord(text)
    case Symbol(c) => IsSymbol(c)
    case Number(n) => n <= INT_MAX
    case Literal(text) => IsName(text)
    case Digits(_) => false
  }

  predicate MayFollow(a: Token, b: Token) {
    (b.Number? ==> !a.Word? && !a.Number?) && (a.Number? ==> b.Symbol?)
  }

  /** What the grammar needs of a token list to be readable again. */
  predicate Lexical(ts: seq<Token>) {
    && (forall i :: 0 <= i < |ts| ==> IsToken(ts[i]))
    && (forall i :: 0 < i < |ts| ==> MayFollow(ts[i - 1], ts[i]))
  }

  predicate Rendered(ps: seq<Piece>, ts: seq<Token>, tail: string) {
    Renders(ps, ts) && Lexical(ts) && Ending(tail)
  }

  predicate NoWordHead(s: string) {
    s != "" ==> !IsWordChar(s[0])
  }

  lemma {:induction false} EndingHead(tail: string)
    requires Ending(tail)
    ensures NoWordHead(tail)
  {
    if !AllSpace(tail) {
      var i :| 0 <= i < |tail| && tail[i] == ';' && AllSpace(tail[..i]) && AllSpace(tail[i + 1..]);
      assert i > 0 ==> tail[0] == tail[..i][0];
    }
  }

  /** Nothing that follows a word or a number can be read as part of it. */
  lemma {:induction false} HeadAfter(ps: seq<Piece>, ts: seq<Token>, k: nat, tail: string)
    requires Rendered(ps, ts, tail) && k < |ps| && (ts[k].Word? || ts[k].Number?)
    ensures NoWordHead(Rest(ps, k + 1, tail))
  {
    if k + 1 == |ps| {
      EndingHead(tail);
      assert Rest(ps, k + 1, tail) == tail;
    } else {
      RestAt(ps, k + 1, tail);
      var p := ps[k + 1];
      assert SameToken(p.token, ts[k + 1]) && SameToken(ps[k].token, ts[k]);
      assert Written(p.token) != "" || p.space != "";
      if p.space != "" {
        assert Rest(ps, k + 1, tail)[0] == p.space[0];
      } else {
        assert !ts[k + 1].Word?;
        assert Rest(ps, k + 1, tail)[0] == Written(p.token)[0];
      }
    }
  }

  // ---------------------------------------------------------------- reading one token

  lemma {:induction false} TakeWordOver(w: string, rest: string)
    requires (forall i :: 0 <= i < |w| ==> IsWordChar(w[i])) && NoWordHead(rest)
    ensures TakeWord(w + rest) == (w, rest)
  {
    if w == "" {
      assert w + rest == rest;
    } else {
      assert (w + rest)[1..] == w[1..] + rest;
      TakeWordOver(w[1..], rest);
      assert [w[0]] + w[1..] == w;
    }
  }

  lemma {:induction false} NotSkipped(s: string)
    requires s != "" && !IsSpace(s[0])
    ensures SkipSpace(s) == s
  {
  }

  lemma {:induction false} SkipTo(w: string, s: string)
    requires AllSpace(w) && s != "" && !IsSpace(s[0])
    ensures SkipSpace(w + s) == s
  {
    SkipSpaceOver(w, s);
    NotSkipped(s);
  }

  lemma {:induction false} SameWord(a: string, b: string)
    requires SameNoCase(a, b) && IsWord(b)
    ensures IsWord(a)
  {
    forall i | 0 <= i < |a|
      ensures IsWordChar(a[i]) && (IsAlpha(b[i]) || b[i] == '_' ==> IsAlpha(a[i]) || a[i] == '_')
    {
      assert Lower(a[i]) == Lower(b[i]);
    }
  }

  lemma {:induction false} WordStep(ps: seq<Piece>, ts: seq<Token>, k: nat, tail: string, size: nat)
    requires Rendered(ps, ts, tail) && k < |ps| && ts[k].Word? && 32 <= size
    ensures ps[k].token.Word? && SameNoCase(ps[k].token.text, ts[k].text)
    ensures ReadWord(Rest(ps, k, tail), size) == Some((ps[k].token.text, Rest(ps, k + 1, tail)))
  {
    assert SameToken(ps[k].token, ts[k]) && AllSpace(ps[k].space) && IsWord(ts[k].text);
    RestAt(ps, k, tail);
    HeadAfter(ps, ts, k, tail);
    hide Rendered, Rest, Lexical, Renders, SameNoCase;
    var w, rest := ps[k].token.text, Rest(ps, k + 1, tail);
    SameWord(w, ts[k].text);
    SkipTo(ps[k].space, w + rest);
    TakeWordOver(w, rest);
  }

  lemma {:induction false} SameTransfer(a: string, b: string, c: string)
    requires SameNoCase(a, b)
    ensures SameNoCase(a, c) <==> SameNoCase(b, c)
  {
    if |a| == |c| {
      assert forall i :: 0 <= i < |a| ==> (Lower(a[i]) == Lower(c[i]) <==> Lower(b[i]) == Lower(c[i]));
    }
  }

  lemma {:induction false} KeywordStep(ps: seq<Piece>, ts: seq<Token>, k: nat, tail: string, keyword: string)
    requires Rendered(ps, ts, tail) && k < |ps| && ts[k].Word?
    ensures ts[k].text == keyword ==> ExpectKeyword(Rest(ps, k, tail), keyword) == Some(Rest(ps, k + 1, tail))
    ensures |ts[k].text| != |keyword| ==> ExpectKeyword(Rest(ps, k, tail), keyword) == None
  {
    WordStep(ps, ts, k, tail, 64);
    hide Rendered, Rest, ReadWord;
  }

  lemma {:induction false} SymbolStep(ps: seq<Piece>, ts: seq<Token>, k: nat, tail: string)
    requires Rendered(ps, ts, tail) && k < |ps| && ts[k].Symbol?
    ensures SkipSpace(Rest(ps, k, tail)) == [ts[k].c] + Rest(ps, k + 1, tail)
    ensures ExpectSymbol(Rest(ps, k, tail), ts[k].c) == Some(Rest(ps, k + 1, tail))
  {
    assert SameToken(ps[k].token, ts[k]) && AllSpace(ps[k].space) && IsSymbol(ts[k].c);
    RestAt(ps, k, tail);
    hide Rendered, Rest;
    SkipTo(ps[k].space, [ts[k].c] + Rest(ps, k + 1, tail));
  }

  lemma {:induction false} ParseIntOver(w: string, n: nat, rest: string)
    requires AllSpace(w) && n <= INT_MAX && NoWordHead(rest)
    ensures ParseInt(w + (Decimal(n) + rest)) == Some((n as int, rest))
  {
    var t := Decimal(n) + rest;
    assert t[0] == Decimal(n)[0] && IsDigit(t[0]);
    assert rest != "" ==> !IsDigit(rest[0]);
    hide *;
    SkipDigits(w, t);
    ReadDecimal("", n, rest);
    assert "" + t == t;
    ParseIntIs(w + t, t, n, rest);
  }

  lemma {:induction false} SkipDigits(w: string, t: string)
    requires AllSpace(w) && t != "" && IsDigit(t[0])
    ensures SkipSpace(w + t) == t && AllSpace("")
  {
    SkipTo(w, t);
  }

  lemma {:induction false} ParseIntIs(s: string, t: string, n: nat, rest: string)
    requires SkipSpace(s) == t && t != "" && ReadInteger(t) == Some((n as int, rest)) && n <= INT_MAX
    ensures ParseInt(s) == Some((n as int, rest))
  {
  }

  lemma {:induction false} SignOver(text: string, n: nat, rest: string)
    requires IsIntegerText(text, n)
    ensures text != "" && !IsSpace(text[0]) && (text + rest)[0] == text[0]
    ensures AfterSign(text + rest) == AfterSign(text) + rest
    ensures Signed(text + rest, AfterSign(text)) == n
  {
    hide Value;
    assert IsDigit(AfterSign(text)[0]);
  }

  lemma {:induction false} ParseDigitsOver(w: string, text: string, n: nat, rest: string)
    requires AllSpace(w) && n <= INT_MAX && IsIntegerText(text, n) && NoWordHead(rest)
    ensures ParseInt(w + (text + rest)) == Some((n as int, rest))
  {
    var t := text + rest;
    assert rest != "" ==> !IsDigit(rest[0]);
    SignOver(text, n, rest);
    assert AllDigits(AfterSign(text)) && AfterSign(text) != "";
    hide *;
    SkipTo(w, t);
    NotSkipped(t);
    TakeDigitsOver(AfterSign(text), rest);
    IntegerParts(t);
    ParseIntIs(w + t, t, n, rest);
  }

  lemma {:induction false} NumberStep(ps: seq<Piece>, ts: seq<Token>, k: nat, tail: string)
    requires Rendered(ps, ts, tail) && k < |ps| && ts[k].Number?
    ensures ParseInt(Rest(ps, k, tail)) == Some((ts[k].n as int, Rest(ps, k + 1, tail)))
  {
    assert SameToken(ps[k].token, ts[k]) && AllSpace(ps[k].space) && IsToken(ts[k]);
    RestAt(ps, k, tail);
    HeadAfter(ps, ts, k, tail);
    hide Rendered, Rest, ParseInt;
    if ps[k].token.Digits? {
      ParseDigitsOver(ps[k].space, ps[k].token.text, ts[k].n, Rest(ps, k + 1, tail));
    } else {
      ParseIntOver(ps[k].space, ts[k].n, Rest(ps, k + 1, tail));
    }
  }

  lemma {:induction false} TakeLiteralOver(w: string, rest: string)
    requires '\'' !in w
    ensures TakeLiteral(w + ("'" + rest)) == (w, "'" + rest)
  {
    var q := "'" + rest;
    if w == "" {
      assert w + q == q;
    } else {
      assert (w + q)[1..] == w[1..] + q;
      TakeLiteralOver(w[1..], rest);
      assert [w[0]] + w[1..] == w;
    }
  }

  lemma {:induction false} QuotedText(lit: string, rest: string)
    ensures var t := "'" + lit + "'" + rest;
      t != "" && t[0] == '\'' && !IsSpace(t[0]) && t[1..] == lit + ("'" + rest) && ("'" + rest)[1..] == rest
  {
  }

  lemma {:induction false} ParseStringIs(s: string, t: string, lit: string, rest: string)
    requires SkipSpace(s) == t && t != "" && t[0] == '\'' && t[1..] == lit + ("'" + rest)
    requires TakeLiteral(lit + ("'" + rest)) == (lit, "'" + rest) && IsName(lit) && ("'" + rest)[1..] == rest
    ensures ParseString(s, NAME_MAX) == Some((lit, rest))
  {
    hide TakeLiteral, SkipSpace;
  }

  lemma {:induction false} ParseStringOver(w: string, lit: string, rest: string)
    requires AllSpace(w) && IsName(lit)
    ensures ParseString(w + ("'" + lit + "'" + rest), NAME_MAX) == Some((lit, rest))
  {
    var t := "'" + lit + "'" + rest;
    QuotedText(lit, rest);
    TakeLiteralOver(lit, rest);
    hide *;
    SkipTo(w, t);
    ParseStringIs(w + t, t, lit, rest);
  }

  lemma {:induction false} LiteralStep(ps: seq<Piece>, ts: seq<Token>, k: nat, tail: string)
    requires Rendered(ps, ts, tail) && k < |ps| && ts[k].Literal?
    ensures ParseString(Rest(ps, k, tail), NAME_MAX) == Some((ts[k].text, Rest(ps, k + 1, tail)))
  {
    assert SameToken(ps[k].token, ts[k]) && AllSpace(ps[k].space) && IsToken(ts[k]);
    RestAt(ps, k, tail);
    hide Rendered, Rest, ParseString;
    ParseStringOver(ps[k].space, ts[k].text, Rest(ps, k + 1, tail));
  }

  lemma {:induction false} SpaceOnly(w: string)
    requires AllSpace(w)
    ensures SkipSpace(w) == ""
  {
    SkipSpaceOver(w, "");
    assert w + "" == w;
  }

  lemma {:induction false} SemicolonEnd(w: string, v: string)
    requires AllSpace(w) && AllSpace(v)
    ensures AtStatementEnd(w + ([';'] + v))
  {
    SkipTo(w, [';'] + v);
    SpaceOnly(v);
    hide SkipSpace, AllSpace;
    assert ([';'] + v)[1..] == v;
  }

  lemma {:induction false} EndStep(tail: string)
    requires Ending(tail)
    ensures AtStatementEnd(tail)
  {
    hide SkipSpace, AllSpace, AtStatementEnd;
    if AllSpace(tail) {
      SpaceEnd(tail);
    } else {
      var i :| 0 <= i < |tail| && tail[i] == ';' && AllSpace(tail[..i]) && AllSpace(tail[i + 1..]);
      SemicolonEnd(tail[..i], tail[i + 1..]);
      assert tail == tail[..i] + ([';'] + tail[i + 1..]);
    }
  }

  lemma {:induction false} SpaceEnd(w: string)
    requires AllSpace(w)
    ensures AtStatementEnd(w)
  {
    SpaceOnly(w);
  }

  // ---------------------------------------------------------------- whole statements

  lemma {:induction false} RestEnd(ps: seq<Piece>, tail: string)
    ensures Rest(ps, |ps|, tail) == tail
  {
  }

  lemma {:induction false} ReadValuesWithId(ps: seq<Piece>, ts: seq<Token>, k: nat, tail: string,
                                            id: nat, name: string, age: nat)
    requires Rendered(ps, ts, tail) && |ts| == |ps| == k + 7 && id >= 1
    requires ts[k] == Symbol('(') && ts[k + 1] == Number(id) && ts[k + 2] == Symbol(',')
    requires ts[k + 3] == Literal(name) && ts[k + 4] == Symbol(',')
    requires ts[k + 5] == Number(age) && ts[k + 6] == Symbol(')')
    ensures ParseValuesWithId(Rest(ps, k, tail)) == Some(InsertWithId(id, name, age))
  {
    hide Rendered, Rest, ExpectSymbol, ParseInt, ParseString, AtStatementEnd, SkipSpace;
    SymbolStep(ps, ts, k, tail);
    NumberStep(ps, ts, k + 1, tail);
    SymbolStep(ps, ts, k + 2, tail);
    LiteralStep(ps, ts, k + 3, tail);
    SymbolStep(ps, ts, k + 4, tail);
    NumberStep(ps, ts, k + 5, tail);
    SymbolStep(ps, ts, k + 6, tail);
    RestEnd(ps, tail);
    RenderedEnding(ps, ts, tail);
    EndStep(tail);
  }

  lemma {:induction false} RenderedEnding(ps: seq<Piece>, ts: seq<Token>, tail: string)
    requires Rendered(ps, ts, tail)
    ensures Ending(tail) && |ps| == |ts|
  {
  }

  lemma {:induction false} ReadNameAgeValues(ps: seq<Piece>, ts: seq<Token>, k: nat, tail: string,
                                             name: string, age: nat)
    requires Rendered(ps, ts, tail) && |ts| == |ps| == k + 5
    requires ts[k] == Word("name") && ts[k + 1] == Word("age") && ts[k + 2] == Word("VALUES")
    requires ts[k + 3] == Literal(name) && ts[k + 4] == Number(age)
    ensures ParseNameAgeValues(Rest(ps, k, tail)) == Some(InsertNext(name, age))
  {
    hide Rendered, Rest, ExpectKeyword, ReadWord, ParseInt, ParseString, AtStatementEnd, SameNoCase;
    WordStep(ps, ts, k, tail, 32);
    WordStep(ps, ts, k + 1, tail, 32);
    KeywordStep(ps, ts, k + 2, tail, "VALUES");
    LiteralStep(ps, ts, k + 3, tail);
    NumberStep(ps, ts, k + 4, tail);
    RestEnd(ps, tail);
    RenderedEnding(ps, ts, tail);
    EndStep(tail);
  }

  lemma {:induction false} ReadInsert(ps: seq<Piece>, ts: seq<Token>, tail: string)
    requires Rendered(ps, ts, tail) && 4 <= |ts| == |ps|
    requires ts[0] == Word("INSERT") && ts[1] == Word("INTO") && ts[2] == Word("users") && ts[3].Word?
    ensures ts[3].text == "VALUES" ==> ParseInsert(Rest(ps, 0, tail)) == ParseValuesWithId(Rest(ps, 4, tail))
    ensures |ts[3].text| != 6 ==> ParseInsert(Rest(ps, 0, tail)) == ParseNameAgeValues(Rest(ps, 3, tail))
  {
    hide Rendered, Rest, ExpectKeyword, ReadWord, ParseNameAgeValues, ParseValuesWithId, SameNoCase;
    KeywordStep(ps, ts, 0, tail, "INSERT");
    KeywordStep(ps, ts, 1, tail, "INTO");
    WordStep(ps, ts, 2, tail, 32);
    KeywordStep(ps, ts, 3, tail, "VALUES");
  }

  /** The filter after its keyword, its column and its sign have been read. */
  lemma {:induction false} FilterOf(s: string, s1: string, word: string, s2: string, s3: string, end: string,
                                    filter: Where)
    requires !AtStatementEnd(s) && ExpectKeyword(s, "WHERE") == Some(s1) && ReadWord(s1, 32) == Some((word, s2))
    requires ExpectSymbol(s2, '=') == Some(s3) && AtStatementEnd(end)
    requires || (SameNoCase(word, "id") && filter.WhereId? && ParseInt(s3) == Some((filter.id, end)))
             || (!SameNoCase(word, "id") && SameNoCase(word, "name") && filter.WhereName?
                 && ParseString(s3, NAME_MAX) == Some((filter.name, end)))
    ensures ParseFilter(s) == Some(filter)
  {
    hide ExpectKeyword, ReadWord, ParseInt, ParseString, AtStatementEnd, ExpectSymbol, SameNoCase, IsFilter;
  }

  lemma {:induction false} ReadIdFilter(ps: seq<Piece>, ts: seq<Token>, k: nat, tail: string, id: nat)
    requires Rendered(ps, ts, tail) && |ps| == |ts| == k + 4
    requires ts[k] == Word("WHERE") && ts[k + 1] == Word("id") && ts[k + 2] == Symbol('=') && ts[k + 3] == Number(id)
    ensures ParseFilter(Rest(ps, k, tail)) == Some(WhereId(id))
  {
    hide *;
    NotAtEnd(ps, ts, k, tail);
    KeywordStep(ps, ts, k, tail, "WHERE");
    WordStep(ps, ts, k + 1, tail, 32);
    SymbolStep(ps, ts, k + 2, tail);
    NumberStep(ps, ts, k + 3, tail);
    RestEnd(ps, tail);
    RenderedEnding(ps, ts, tail);
    EndStep(tail);
    FilterOf(Rest(ps, k, tail), Rest(ps, k + 1, tail), ps[k + 1].token.text, Rest(ps, k + 2, tail),
             Rest(ps, k + 3, tail), tail, WhereId(id));
  }

  lemma {:induction false} ReadNameFilter(ps: seq<Piece>, ts: seq<Token>, k: nat, tail: string, name: string)
    requires Rendered(ps, ts, tail) && |ps| == |ts| == k + 4
    requires ts[k] == Word("WHERE") && ts[k + 1] == Word("name") && ts[k + 2] == Symbol('=')
    requires ts[k + 3] == Literal(name)
    ensures ParseFilter(Rest(ps, k, tail)) == Some(WhereName(name))
  {
    hide *;
    NotAtEnd(ps, ts, k, tail);
    KeywordStep(ps, ts, k, tail, "WHERE");
    WordStep(ps, ts, k + 1, tail, 32);
    OtherLength(ps[k + 1].token.text, "name", "id");
    SymbolStep(ps, ts, k + 2, tail);
    LiteralStep(ps, ts, k + 3, tail);
    RestEnd(ps, tail);
    RenderedEnding(ps, ts, tail);
    EndStep(tail);
    FilterOf(Rest(ps, k, tail), Rest(ps, k + 1, tail), ps[k + 1].token.text, Rest(ps, k + 2, tail),
             Rest(ps, k + 3, tail), tail, WhereName(name));
  }

  lemma {:induction false} OtherLength(a: string, b: string, c: string)
    requires SameNoCase(a, b) && |b| != |c|
    ensures !SameNoCase(a, c)
  {
  }

  /** The filter that starts at token k, or the end of the statement. */
  lemma {:induction false} ReadFilter(ps: seq<Piece>, ts: seq<Token>, k: nat, tail: string, filter: Where)
    requires Rendered(ps, ts, tail) && |ps| == |ts| && k <= |ts| && IsFilter(filter)
    requires ts[k..] == FilterTokens(filter)
    ensures ParseFilter(Rest(ps, k, tail)) == Some(filter)
  {
    hide Rendered, Rest, AtStatementEnd, Ending;
    match filter
    case Everything =>
      assert k == |ts|;
      RestEnd(ps, tail);
      RenderedEnding(ps, ts, tail);
      EndStep(tail);
    case WhereId(id) =>
      FilterAt(ts, k, FilterTokens(filter));
      ReadIdFilter(ps, ts, k, tail, id);
    case WhereName(name) =>
      FilterAt(ts, k, FilterTokens(filter));
      ReadNameFilter(ps, ts, k, tail, name);
  }

  lemma {:induction false} FilterAt(ts: seq<Token>, k: nat, fs: seq<Token>)
    requires k <= |ts| && ts[k..] == fs && |fs| == 4
    ensures |ts| == k + 4 && ts[k] == fs[0] && ts[k + 1] == fs[1] && ts[k + 2] == fs[2] && ts[k + 3] == fs[3]
  {
    assert forall i :: 0 <= i < 4 ==> ts[k..][i] == ts[k + i];
  }

  lemma {:induction false} NotAtEnd(ps: seq<Piece>, ts: seq<Token>, k: nat, tail: string)
    requires Rendered(ps, ts, tail) && k < |ps| && ts[k].Word?
    ensures !AtStatementEnd(Rest(ps, k, tail))
  {
    WordStep(ps, ts, k, tail, 32);
    hide Rendered, Rest;
  }

  lemma {:induction false} ColumnStep(ps: seq<Piece>, ts: seq<Token>, k: nat, tail: string, c: Column)
    requires Rendered(ps, ts, tail) && k < |ts| == |ps| && ts[k] == Word(ColumnWord(c))
    ensures ParseColumn(Rest(ps, k, tail)) == Some((c, Rest(ps, k + 1, tail)))
  {
    WordStep(ps, ts, k, tail, 32);
    var w := ps[k].token.text;
    SameTransfer(w, ts[k].text, "id");
    SameTransfer(w, ts[k].text, "name");
    SameTransfer(w, ts[k].text, "age");
    NamedColumn(c);
    hide Rendered, Rest, ReadWord, SameNoCase;
  }

  lemma {:induction false} NamedColumn(c: Column)
    ensures ColumnNamed(ColumnWord(c)) == Some(c)
  {
    assert Lower('n') != Lower('a');
  }

  lemma {:induction false} WordNotSymbol(ps: seq<Piece>, ts: seq<Token>, k: nat, tail: string, c: char)
    requires Rendered(ps, ts, tail) && k < |ts| == |ps| && ts[k].Word? && IsSymbol(c)
    ensures !At(SkipSpace(Rest(ps, k, tail)), c)
  {
    hide Rendered, Rest, SkipSpace, SameNoCase, TakeWord;
    WordStep(ps, ts, k, tail, 32);
  }

  /** The column list that starts at token k, after the columns in acc. */
  lemma {:induction false} ReadColumns(ps: seq<Piece>, ts: seq<Token>, k: nat, tail: string,
                                       acc: seq<Column>, cols: seq<Column>)
    requires Rendered(ps, ts, tail) && cols != [] && NoRepeats(acc + cols) && |acc + cols| <= MAX_COLUMNS
    requires |ps| == |ts| && k + |ColumnTokens(cols)| < |ts|
    requires ts[k..k + |ColumnTokens(cols)|] == ColumnTokens(cols)
    requires ts[k + |ColumnTokens(cols)|].Word?
    ensures ParseColumnList(Rest(ps, k, tail), acc) == Some((acc + cols, Rest(ps, k + |ColumnTokens(cols)|, tail)))
    decreases |cols|
  {
    hide *;
    ListAt(ts, k, cols);
    ColumnStep(ps, ts, k, tail, cols[0]);
    FreshColumn(acc, cols);
    var rest := Rest(ps, k + 1, tail);
    ListStep(Rest(ps, k, tail), acc, cols[0], rest);
    AtHead(',', rest);
    if |cols| == 1 {
      WordNotSymbol(ps, ts, k + 1, tail, ',');
      assert acc + cols == acc + [cols[0]];
    } else {
      SymbolStep(ps, ts, k + 1, tail);
      AtHead(',', Rest(ps, k + 2, tail));
      ReadColumns(ps, ts, k + 2, tail, acc + [cols[0]], cols[1..]);
    }
  }

  lemma {:induction false} AtHead(c: char, s: string)
    ensures At([c] + s, c) && ([c] + s)[1..] == s && IsSymbol(',')
  {
  }

  lemma {:induction false} ListStep(s: string, acc: seq<Column>, c: Column, rest: string)
    requires |acc| < MAX_COLUMNS && c !in acc && ParseColumn(s) == Some((c, rest))
    ensures var cur := SkipSpace(rest);
      && (At(cur, ',') ==> cur != "" && ParseColumnList(s, acc) == ParseColumnList(cur[1..], acc + [c]))
      && (!At(cur, ',') ==> ParseColumnList(s, acc) == Some((acc + [c], rest)))
  {
    hide ParseColumn, SkipSpace;
  }

  lemma {:induction false} FreshColumn(acc: seq<Column>, cols: seq<Column>)
    requires NoRepeats(acc + cols) && cols != []
    ensures cols[0] !in acc && (acc + [cols[0]]) + cols[1..] == acc + cols
  {
    assert forall i :: 0 <= i < |acc| ==> (acc + cols)[i] == acc[i];
    assert (acc + cols)[|acc|] == cols[0];
  }

  lemma {:induction false} ListAt(ts: seq<Token>, k: nat, cols: seq<Column>)
    requires cols != [] && k + |ColumnTokens(cols)| < |ts|
    requires ts[k..k + |ColumnTokens(cols)|] == ColumnTokens(cols)
    ensures ts[k] == Word(ColumnWord(cols[0]))
    ensures |cols| == 1 ==> |ColumnTokens(cols)| == 1
    ensures |cols| > 1 ==>
      var n := |ColumnTokens(cols[1..])|;
      && |ColumnTokens(cols)| == n + 2 && ts[k + 1] == Symbol(',')
      && ts[k + 2..k + 2 + n] == ColumnTokens(cols[1..])
  {
    var list := ts[k..k + |ColumnTokens(cols)|];
    assert list[0] == ts[k];
    if |cols| > 1 {
      assert list[1] == ts[k + 1];
      assert ts[k + 2..k + |ColumnTokens(cols)|] == list[2..];
    }
  }

  lemma {:induction false} FourColumns(a: Column, b: Column, c: Column, d: Column)
    ensures a == b || a == c || a == d || b == c || b == d || c == d
  {
  }

  lemma {:induction false} FewColumns(cols: seq<Column>)
    requires NoRepeats(cols)
    ensures |cols| <= MAX_COLUMNS
  {
    if |cols| > MAX_COLUMNS {
      FourColumns(cols[0], cols[1], cols[2], cols[3]);
    }
  }

  lemma {:induction false} ReadSelect(ps: seq<Piece>, ts: seq<Token>, tail: string, cols: seq<Column>, filter: Where)
    requires NoRepeats(cols) && IsFilter(filter) && ts == Tokens(Select(cols, filter)) && Rendered(ps, ts, tail)
    ensures ts[0] == Word("SELECT") && ParseSelect(Rest(ps, 0, tail)) == Some(Select(cols, filter))
  {
    var list := if cols == [] then [Symbol('*')] else ColumnTokens(cols);
    var m := 1 + |list|;
    var fs := FilterTokens(filter);
    assert ts == [Word("SELECT")] + list + [Word("FROM"), Word("users")] + fs;
    hide *;
    SelectTokens(ts, list, fs);
    RenderedEnding(ps, ts, tail);
    KeywordStep(ps, ts, 0, tail, "SELECT");
    SelectList(ps, ts, tail, cols, list);
    ReadFromClause(ps, ts, m, tail, filter);
    SelectOf(Rest(ps, 0, tail), Rest(ps, 1, tail), cols, Rest(ps, m, tail), Rest(ps, m + 1, tail), filter);
  }

  lemma {:induction false} SelectOf(s: string, s1: string, cols: seq<Column>, s2: string, s3: string, filter: Where)
    requires ExpectKeyword(s, "SELECT") == Some(s1) && ParseSelectColumns(s1) == Some((cols, s2))
    requires ExpectKeyword(s2, "FROM") == Some(s3)
    requires var table := ReadWord(s3, 32);
      table.Some? && SameNoCase(table.value.0, "users") && ParseFilter(table.value.1) == Some(filter)
    ensures ParseSelect(s) == Some(Select(cols, filter))
  {
    hide ExpectKeyword, ParseSelectColumns, ReadWord, SameNoCase, ParseFilter, WellFormed;
  }

  lemma {:induction false} ReadFromClause(ps: seq<Piece>, ts: seq<Token>, m: nat, tail: string, filter: Where)
    requires Rendered(ps, ts, tail) && m + 2 <= |ts| == |ps| && IsFilter(filter)
    requires ts[m] == Word("FROM") && ts[m + 1] == Word("users") && ts[m + 2..] == FilterTokens(filter)
    ensures ExpectKeyword(Rest(ps, m, tail), "FROM") == Some(Rest(ps, m + 1, tail))
    ensures var table := ReadWord(Rest(ps, m + 1, tail), 32);
      table.Some? && SameNoCase(table.value.0, "users") && ParseFilter(table.value.1) == Some(filter)
  {
    hide *;
    KeywordStep(ps, ts, m, tail, "FROM");
    WordStep(ps, ts, m + 1, tail, 32);
    ReadFilter(ps, ts, m + 2, tail, filter);
  }

  lemma {:induction false} SelectTokens(ts: seq<Token>, list: seq<Token>, fs: seq<Token>)
    requires ts == [Word("SELECT")] + list + [Word("FROM"), Word("users")] + fs
    ensures ts[0] == Word("SELECT") && |ts| == |list| + 3 + |fs| && ts[1..1 + |list|] == list
    ensures ts[1 + |list|] == Word("FROM") && ts[2 + |list|] == Word("users") && ts[3 + |list|..] == fs
  {
  }

  lemma {:induction false} SelectList(ps: seq<Piece>, ts: seq<Token>, tail: string, cols: seq<Column>, list: seq<Token>)
    requires Rendered(ps, ts, tail) && |ps| == |ts| && NoRepeats(cols)
    requires list == if cols == [] then [Symbol('*')] else ColumnTokens(cols)
    requires 1 + |list| < |ts| && ts[1..1 + |list|] == list && ts[1 + |list|].Word?
    ensures ParseSelectColumns(Rest(ps, 1, tail)) == Some((cols, Rest(ps, 1 + |list|, tail)))
  {
    hide *;
    HeadOfList(ts, cols, list);
    if cols == [] {
      SymbolStep(ps, ts, 1, tail);
      StarList(Rest(ps, 1, tail), Rest(ps, 2, tail));
    } else {
      FewColumns(cols);
      assert [] + cols == cols;
      ListAt(ts, 1, cols);
      NamedList(ps, ts, tail, cols);
    }
  }

  lemma {:induction false} HeadOfList(ts: seq<Token>, cols: seq<Column>, list: seq<Token>)
    requires list == if cols == [] then [Symbol('*')] else ColumnTokens(cols)
    requires 1 + |list| < |ts| && ts[1..1 + |list|] == list
    ensures list != [] && ts[1] == list[0]
    ensures cols == [] ==> |list| == 1 && ts[1] == Symbol('*')
  {
    assert list != [];
    assert ts[1..1 + |list|][0] == ts[1];
  }

  lemma {:induction false} StarList(s: string, rest: string)
    requires SkipSpace(s) == ['*'] + rest
    ensures ParseSelectColumns(s) == Some(([], rest))
  {
    assert (['*'] + rest)[1..] == rest;
  }

  lemma {:induction false} NamedList(ps: seq<Piece>, ts: seq<Token>, tail: string, cols: seq<Column>)
    requires Rendered(ps, ts, tail) && |ps| == |ts| && NoRepeats(cols) && cols != [] && |cols| <= MAX_COLUMNS
    requires 1 + |ColumnTokens(cols)| < |ts| && ts[1..1 + |ColumnTokens(cols)|] == ColumnTokens(cols)
    requires ts[1].Word? && ts[1 + |ColumnTokens(cols)|].Word?
    ensures ParseSelectColumns(Rest(ps, 1, tail)) == Some((cols, Rest(ps, 1 + |ColumnTokens(cols)|, tail)))
  {
    assert [] + cols == cols;
    WordNotSymbol(ps, ts, 1, tail, '*');
    ReadColumns(ps, ts, 1, tail, [], cols);
    hide Rendered, Rest, SkipSpace, ParseColumnList, ColumnTokens, NoRepeats;
  }

  lemma {:induction false} ColumnTokensLexical(cols: seq<Column>)
    ensures Lexical(ColumnTokens(cols))
    ensures forall i :: 0 <= i < |ColumnTokens(cols)| ==> ColumnTokens(cols)[i].Word? || ColumnTokens(cols)[i].Symbol?
    decreases |cols|
  {
    if |cols| > 1 {
      ColumnTokensLexical(cols[1..]);
      LexicalConcat([Word(ColumnWord(cols[0])), Symbol(',')], ColumnTokens(cols[1..]));
    }
  }

  lemma {:induction false} LexicalConcat(a: seq<Token>, b: seq<Token>)
    requires Lexical(a) && Lexical(b)
    requires a != [] && b != [] ==> MayFollow(a[|a| - 1], b[0])
    ensures Lexical(a + b)
  {
    hide IsToken, MayFollow;
    var ts := a + b;
    forall i | 0 <= i < |ts| ensures IsToken(ts[i]) {
      assert ts[i] == if i < |a| then a[i] else b[i - |a|];
    }
    forall i | 0 < i < |ts| ensures MayFollow(ts[i - 1], ts[i]) {
      assert ts[i] == if i < |a| then a[i] else b[i - |a|];
      assert ts[i - 1] == if i - 1 < |a| then a[i - 1] else b[i - 1 - |a|];
    }
  }

  lemma {:induction false} InsertLexical(stmt: Statement)
    requires WellFormed(stmt) && !stmt.Select?
    ensures Lexical(Tokens(stmt))
  {
    var ts := Tokens(stmt);
    forall i | 0 <= i < |ts| ensures IsToken(ts[i]) {}
    hide IsToken;
    forall i | 0 < i < |ts| ensures MayFollow(ts[i - 1], ts[i]) {}
  }

  lemma {:induction false} FilterLexical(filter: Where)
    requires IsFilter(filter)
    ensures Lexical(FilterTokens(filter))
  {
  }

  lemma {:induction false} SelectLexical(list: seq<Token>, fs: seq<Token>)
    requires Lexical(list) && Lexical(fs) && list != [] && !list[0].Number? && !list[|list| - 1].Number?
    requires fs != [] ==> fs[0].Word?
    ensures Lexical([Word("SELECT")] + list + [Word("FROM"), Word("users")] + fs)
  {
    var a, b := [Word("SELECT")], [Word("FROM"), Word("users")];
    assert Lexical(a) && Lexical(b);
    hide Lexical, IsToken;
    LexicalConcat(a, list);
    LexicalConcat(a + list, b);
    LexicalConcat(a + list + b, fs);
  }

  lemma {:induction false} TokensLexical(stmt: Statement)
    requires WellFormed(stmt)
    ensures Lexical(Tokens(stmt))
  {
    if stmt.Select? {
      ColumnTokensLexical(stmt.columns);
      FilterLexical(stmt.filter);
      var list := if stmt.columns == [] then [Symbol('*')] else ColumnTokens(stmt.columns);
      assert Lexical([Symbol('*')]);
      assert list != [];
      hide Lexical, ColumnTokens;
      SelectLexical(list, FilterTokens(stmt.filter));
    } else {
      InsertLexical(stmt);
    }
  }

  lemma {:induction false} SkippedWord(s: string, size: nat)
    ensures ReadWord(SkipSpace(s), size) == ReadWord(s, size)
  {
    SkipTwice(s);
  }

  lemma {:induction false} SkippedKeyword(s: string, keyword: string)
    ensures ExpectKeyword(SkipSpace(s), keyword) == ExpectKeyword(s, keyword)
  {
    SkippedWord(s, 64);
    hide ReadWord, SkipSpace, SameNoCase;
  }

  lemma {:induction false} SkippedStatement(s: string)
    ensures ParseInsert(SkipSpace(s)) == ParseInsert(s) && ParseSelect(SkipSpace(s)) == ParseSelect(s)
  {
    hide ReadWord, SkipSpace, ExpectKeyword, ParseValuesWithId, ParseNameAgeValues, ParseSelectColumns;
    hide ParseFilter, SameNoCase, WellFormed;
    SkippedKeyword(s, "INSERT");
    SkippedKeyword(s, "SELECT");
  }

  lemma {:induction false} SkipTwice(s: string)
    ensures SkipSpace(SkipSpace(s)) == SkipSpace(s)
  {
    if SkipSpace(s) != "" {
      NotSkipped(SkipSpace(s));
    }
  }

  /** The first word of a rendering decides between INSERT and SELECT. */
  lemma {:induction false} FirstWord(ps: seq<Piece>, ts: seq<Token>, tail: string)
    requires Rendered(ps, ts, tail) && |ps| == |ts| && ts != []
    requires ts[0] == Word("INSERT") || ts[0] == Word("SELECT")
    ensures var s := SkipSpace(Rest(ps, 0, tail));
      s != "" && (Begins(s, "INSERT") <==> ts[0] == Word("INSERT"))
      && (Begins(s, "SELECT") <==> ts[0] == Word("SELECT"))
  {
    WordStep(ps, ts, 0, tail, 64);
    RestAt(ps, 0, tail);
    var w, rest := ps[0].token.text, Rest(ps, 1, tail);
    assert AllSpace(ps[0].space) && IsWord(ts[0].text);
    SameWord(w, ts[0].text);
    SkipTo(ps[0].space, w + rest);
    assert (w + rest)[..6] == w;
    SameTransfer(w, ts[0].text, "INSERT");
    SameTransfer(w, ts[0].text, "SELECT");
    assert Lower("SELECT"[0]) != Lower("INSERT"[0]);
  }

  lemma {:induction false} ParseInsertText(ps: seq<Piece>, ts: seq<Token>, tail: string)
    requires Rendered(ps, ts, tail) && |ps| == |ts| && ts != [] && ts[0] == Word("INSERT")
    ensures Parse(Rest(ps, 0, tail)) == ParseInsert(Rest(ps, 0, tail))
  {
    FirstWord(ps, ts, tail);
    SkippedStatement(Rest(ps, 0, tail));
    hide Rendered, Rest, Begins, SkipSpace, ParseInsert, ParseSelect;
  }

  lemma {:induction false} ParseSelectText(ps: seq<Piece>, ts: seq<Token>, tail: string)
    requires Rendered(ps, ts, tail) && |ps| == |ts| && ts != [] && ts[0] == Word("SELECT")
    ensures Parse(Rest(ps, 0, tail)) == ParseSelect(Rest(ps, 0, tail))
  {
    FirstWord(ps, ts, tail);
    SkippedStatement(Rest(ps, 0, tail));
    hide Rendered, Rest, Begins, SkipSpace, ParseInsert, ParseSelect;
  }

  lemma {:induction false} RoundTripTokens(stmt: Statement, ps: seq<Piece>, ts: seq<Token>, tail: string)
    requires WellFormed(stmt) && ts == Tokens(stmt) && Rendered(ps, ts, tail) && |ps| == |ts|
    ensures Parse(Rest(ps, 0, tail)) == Some(stmt)
  {
    hide Rendered, Rest, Parse, ParseInsert, ParseSelect, ParseValuesWithId, ParseNameAgeValues;
    match stmt
    case InsertWithId(id, name, age) =>
      ParseInsertText(ps, ts, tail);
      ReadInsert(ps, ts, tail);
      ReadValuesWithId(ps, ts, 4, tail, id, name, age);
    case InsertNext(name, age) =>
      ParseInsertText(ps, ts, tail);
      ReadInsert(ps, ts, tail);
      ReadNameAgeValues(ps, ts, 3, tail, name, age);
    case Select(cols, filter) =>
      ReadSelect(ps, ts, tail, cols, filter);
      ParseSelectText(ps, ts, tail);
  }

  /** The parser reads back every rendering of every well formed statement, in any
      letter case, with any legal white space, with or without the semicolon. */
  lemma {:induction false} RoundTrip(stmt: Statement, ps: seq<Piece>, tail: string)
    requires WellFormed(stmt) && Renders(ps, Tokens(stmt)) && Ending(tail)
    ensures Parse(Join(ps) + tail) == Some(stmt)
  {
    var ts := Tokens(stmt);
    TokensLexical(stmt);
    assert ps[0..] == ps && Rest(ps, 0, tail) == Join(ps) + tail;
    RoundTripTokens(stmt, ps, ts, tail);
  }

  // ---------------------------------------------------------------- the canonical text

  function Plain(ts: seq<Token>): seq<Piece> {
    seq(|ts|, i requires 0 <= i < |ts| => Piece(if i == 0 then "" else " ", ts[i]))
  }

  function Print(stmt: Statement): string
    requires WellFormed(stmt)
  {
    Join(Plain(Tokens(stmt))) + ";"
  }

  lemma {:induction false} PlainRenders(ts: seq<Token>)
    ensures Renders(Plain(ts), ts)
  {
  }

  lemma {:induction false} PrintParse(stmt: Statement)
    requires WellFormed(stmt)
    ensures Parse(Print(stmt)) == Some(stmt)
  {
    PlainRenders(Tokens(stmt));
    assert ";"[0] == ';' && ";"[..0] == "" && ";"[1..] == "";
    assert Ending(";");
    hide Tokens, Renders, Parse, Plain, Join, Ending, WellFormed;
    RoundTrip(stmt, Plain(Tokens(stmt)), ";");
  }

  /** Printing what was parsed and parsing it again changes nothing. */
  lemma {:induction false} Normalized(sql: string)
    requires Parse(sql).Some?
    ensures Parse(Print(Parse(sql).value)) == Parse(sql)
  {
    PrintParse(Parse(sql).value);
  }
}
