/** The texts of SQL statements, word by word: what a client may write, stated without
    the parser's own tokens and letter tables, is exactly what the parser accepts. */
module SqlTexts {
  import opened Options
  import opened Text
  import opened Sql
  import opened SqlGrammar

  // ---------------------------------------------------------------- what may be written

  /** Statements that have a text. */
  predicate Allowed(stmt: Statement) {
    match stmt
    case InsertWithId(id, name, age) =>
      1 <= id <= 2147483647 && |name| <= 127 && '\'' !in name && 0 <= age <= 2147483647
    case InsertNext(name, age) => |name| <= 127 && '\'' !in name && 0 <= age <= 2147483647
    case Select(cols, filter) =>
      && (forall i, j :: 0 <= i < j < |cols| ==> cols[i] != cols[j])
      && match filter
         case Everything => true
         case WhereId(id) => 0 <= id <= 2147483647
         case WhereName(name) => |name| <= 127 && '\'' !in name
  }

  predicate AreRecased(words: seq<string>, texts: seq<string>) {
    |words| == |texts| && forall i :: 0 <= i < |words| ==> Recased(words[i], texts[i])
  }

  /** A numeral: leading zeros and a sign are allowed, but minus only before zero. */
  predicate IsNumeral(word: string, n: int) {
    n >= 0 && exists z: nat :: z <= |word| && Padded(word, z, n)
  }

  predicate Padded(word: string, z: nat, n: nat) {
    || word == Zeros(z) + Decimal(n)
    || word == "+" + (Zeros(z) + Decimal(n))
    || (n == 0 && word == "-" + (Zeros(z) + "0"))
  }

  function Zeros(z: nat): string {
    seq(z, _ => '0')
  }

  predicate ListWords(words: seq<string>, cols: seq<Column>) {
    if cols == [] then words == ["*"]
    else
      && |words| == 2 * |cols| - 1
      && (forall i :: 0 <= i < |cols| ==> Recased(words[2 * i], ["id", "name", "age"][ColumnNumber(cols[i])]))
      && (forall i :: 0 < i < |cols| ==> words[2 * i - 1] == ",")
  }

  function ColumnNumber(c: Column): (n: nat)
    ensures n < 3
  {
    if c.Id? then 0 else if c.Name? then 1 else 2
  }

  predicate FilterWords(words: seq<string>, filter: Where) {
    match filter
    case Everything => words == []
    case WhereId(id) =>
      |words| == 4 && AreRecased(words[..2], ["WHERE", "id"]) && words[2] == "=" && IsNumeral(words[3], id)
    case WhereName(name) =>
      |words| == 4 && AreRecased(words[..2], ["WHERE", "name"]) && words[2] == "=" && words[3] == "'" + name + "'"
  }

  /** The words of a statement: keywords and columns in any letter case. */
  predicate StatementWords(words: seq<string>, stmt: Statement) {
    match stmt
    case InsertWithId(id, name, age) =>
      && |words| == 11
      && AreRecased(words[..4], ["INSERT", "INTO", "users", "VALUES"])
      && words[4] == "(" && IsNumeral(words[5], id) && words[6] == "," && words[7] == "'" + name + "'"
      && words[8] == "," && IsNumeral(words[9], age) && words[10] == ")"
    case InsertNext(name, age) =>
      && |words| == 8
      && AreRecased(words[..6], ["INSERT", "INTO", "users", "name", "age", "VALUES"])
      && words[6] == "'" + name + "'" && IsNumeral(words[7], age)
    case Select(cols, filter) =>
      var k := if cols == [] then 1 else 2 * |cols| - 1;
      && |words| >= k + 3
      && Recased(words[0], "SELECT") && ListWords(words[1..1 + k], cols)
      && Recased(words[1 + k], "FROM") && Recased(words[2 + k], "users") && FilterWords(words[3 + k..], filter)
  }

  predicate StartsWithLetter(word: string) {
    word != "" && IsAlpha(word[0])
  }

  /** White space before each word, and some between two that start with a letter. */
  predicate Spaced(gaps: seq<string>, words: seq<string>) {
    && |gaps| == |words|
    && (forall i :: 0 <= i < |gaps| ==> AllSpace(gaps[i]))
    && (forall i :: 0 < i < |gaps| && StartsWithLetter(words[i - 1]) && StartsWithLetter(words[i]) ==> gaps[i] != "")
  }

  function Running(gaps: seq<string>, words: seq<string>): string
    requires |gaps| == |words|
  {
    if words == [] then "" else gaps[0] + (words[0] + Running(gaps[1..], words[1..]))
  }

  predicate Spelled(sql: string, stmt: Statement, gaps: seq<string>, words: seq<string>, tail: string) {
    StatementWords(words, stmt) && Spaced(gaps, words) && Ending(tail) && sql == Running(gaps, words) + tail
  }

  // ---------------------------------------------------------------- numerals

  lemma {:induction false} ZerosMore(z: nat)
    ensures Zeros(z) + "0" == Zeros(z + 1) && Zeros(0) == "" && Decimal(0) == "0"
  {
  }

  lemma {:induction false} ValueParts(d: string)
    requires d != "" && AllDigits(d)
    ensures var m, c := Value(d[..|d| - 1]), d[|d| - 1];
      && Value(d) / 10 == m && Value(d) % 10 == c as int - '0' as int
      && Decimal(Value(d)) == (if m == 0 then [c] else Decimal(m) + [c])
  {
  }

  /** Every string of digits is the number it means, after some zeros. */
  lemma {:induction false} ZerosStep(d: string)
    requires d != "" && AllDigits(d)
    ensures exists z: nat :: d == Zeros(z) + Decimal(Value(d))
  {
    hide Decimal, Value, Zeros;
    var n := |d| - 1;
    var head, c := d[..n], d[n];
    assert d == head + [c];
    ValueParts(d);
    if n == 0 {
      ValueNothing();
      ZerosMore(0);
      assert d == Zeros(0) + Decimal(Value(d));
    } else {
      ZerosStep(head);
      var m := Value(head);
      var z: nat :| head == Zeros(z) + Decimal(m);
      ZerosMore(z);
      assert d == (if m == 0 then Zeros(z + 1) else Zeros(z)) + Decimal(Value(d));
    }
  }

  lemma {:induction false} ValueNothing()
    ensures Value("") == 0
  {
  }

  lemma {:induction false} NumeralIff(word: string, n: int)
    ensures IsNumeral(word, n) <==> n >= 0 && IsIntegerText(word, n)
  {
    if IsNumeral(word, n) {
      var z: nat :| z <= |word| && Padded(word, z, n);
      ValuePadded(Zeros(z), n);
      NumeralText(word, Zeros(z) + Decimal(n), n);
    }
    if n >= 0 && IsIntegerText(word, n) {
      var d := AfterSign(word);
      ZerosStep(d);
      var z: nat :| d == Zeros(z) + Decimal(Value(d));
      NumeralSign(word, n, z);
    }
  }

  lemma {:induction false} NumeralText(word: string, d: string, n: nat)
    requires d != "" && AllDigits(d) && Value(d) == n
    requires word == d || word == "+" + d || (n == 0 && word == "-" + d)
    ensures IsIntegerText(word, n)
  {
    hide Value;
    assert IsDigit(d[0]);
    assert AfterSign(word) == d;
  }

  lemma {:induction false} NumeralSign(word: string, n: nat, z: nat)
    requires IsIntegerText(word, n)
    requires AfterSign(word) == Zeros(z) + Decimal(n)
    ensures IsNumeral(word, n)
  {
    hide Value;
    assert word[0] == '-' ==> n == 0 && Decimal(0) == "0";
    assert AfterSign(word) != word ==> word == [word[0]] + AfterSign(word);
    assert Padded(word, z, n);
  }

  lemma {:induction false} PlainNumeral(n: nat)
    ensures IsNumeral(Decimal(n), n)
  {
    hide Decimal;
    assert Decimal(n) == Zeros(0) + Decimal(n);
    assert Padded(Decimal(n), 0, n);
  }

  // ---------------------------------------------------------------- words and tokens

  /** The word is a way to write this token. */
  predicate WordFor(word: string, t: Token) {
    match t
    case Word(text) => Recased(word, text)
    case Symbol(c) => word == [c]
    case Number(n) => IsNumeral(word, n)
    case Literal(text) => word == "'" + text + "'"
    case Digits(_) => false
  }

  predicate WordsFor(words: seq<string>, ts: seq<Token>) {
    |words| == |ts| && forall i :: 0 <= i < |ts| ==> WordFor(words[i], ts[i])
  }

  lemma {:induction false} AllowedIff(stmt: Statement)
    ensures Allowed(stmt) <==> WellFormed(stmt)
  {
  }

  lemma {:induction false} InsertWordsIff(words: seq<string>, stmt: Statement)
    requires WellFormed(stmt) && !stmt.Select?
    ensures StatementWords(words, stmt) <==> WordsFor(words, Tokens(stmt))
  {
    hide IsNumeral, Recased;
    var ts := Tokens(stmt);
    if WordsFor(words, ts) {
      assert forall i :: 0 <= i < |ts| ==> WordFor(words[i], ts[i]);
    }
  }

  lemma {:induction false} ColumnTokensAre(cols: seq<Column>)
    requires cols != []
    ensures |ColumnTokens(cols)| == 2 * |cols| - 1
    ensures forall i :: 0 <= i < |cols| ==> ColumnTokens(cols)[2 * i] == Word(ColumnWord(cols[i]))
    ensures forall i :: 0 < i < |cols| ==> ColumnTokens(cols)[2 * i - 1] == Symbol(',')
    decreases |cols|
  {
    if |cols| > 1 {
      hide ColumnWord;
      ColumnTokensAre(cols[1..]);
      var ts := ColumnTokens(cols);
      assert ts[0] == Word(ColumnWord(cols[0])) && ts[1] == Symbol(',') && ts[2..] == ColumnTokens(cols[1..]);
      forall i | 0 <= i < |cols| ensures ts[2 * i] == Word(ColumnWord(cols[i])) {
        if i > 0 {
          assert ts[2 * i] == ts[2..][2 * (i - 1)];
        }
      }
      forall i | 0 < i < |cols| ensures ts[2 * i - 1] == Symbol(',') {
        if i > 1 {
          assert ts[2 * i - 1] == ts[2..][2 * (i - 1) - 1];
        }
      }
    }
  }

  lemma {:induction false} ListWordsIff(words: seq<string>, cols: seq<Column>)
    ensures ListWords(words, cols) <==> WordsFor(words, if cols == [] then [Symbol('*')] else ColumnTokens(cols))
  {
    hide Recased, ColumnTokens;
    if cols != [] {
      ColumnTokensAre(cols);
      var ts := ColumnTokens(cols);
      assert forall c :: ColumnWord(c) == ["id", "name", "age"][ColumnNumber(c)];
      if ListWords(words, cols) {
        forall k | 0 <= k < |ts| ensures WordFor(words[k], ts[k]) {
          var i := (k + 1) / 2;
          assert k == 2 * i || k == 2 * i - 1;
        }
      }
      if WordsFor(words, ts) {
        assert forall i :: 0 <= i < |cols| ==> WordFor(words[2 * i], ts[2 * i]);
        forall i | 0 < i < |cols| ensures words[2 * i - 1] == "," {
          assert WordFor(words[2 * i - 1], ts[2 * i - 1]);
        }
      }
    }
  }

  lemma {:induction false} FilterWordsIff(words: seq<string>, filter: Where)
    requires IsFilter(filter)
    ensures FilterWords(words, filter) <==> WordsFor(words, FilterTokens(filter))
  {
    hide IsNumeral, Recased;
    var ts := FilterTokens(filter);
    if WordsFor(words, ts) {
      assert forall i :: 0 <= i < |ts| ==> WordFor(words[i], ts[i]);
    }
  }

  lemma {:induction false} WordsConcat(words: seq<string>, a: seq<Token>, b: seq<Token>)
    ensures WordsFor(words, a + b) <==>
      |words| >= |a| && WordsFor(words[..|a|], a) && WordsFor(words[|a|..], b)
  {
    hide WordFor;
    if |words| == |a + b| {
      assert forall i :: 0 <= i < |a| ==> words[..|a|][i] == words[i] && (a + b)[i] == a[i];
      if WordsFor(words, a + b) {
        forall i | 0 <= i < |b| ensures WordFor(words[|a|..][i], b[i]) {
          assert WordFor(words[|a| + i], (a + b)[|a| + i]);
        }
      }
      if WordsFor(words[..|a|], a) && WordsFor(words[|a|..], b) {
        forall i | 0 <= i < |words| ensures WordFor(words[i], (a + b)[i]) {
          if i >= |a| {
            assert WordFor(words[|a|..][i - |a|], b[i - |a|]);
          } else {
            assert WordFor(words[..|a|][i], a[i]);
          }
        }
      }
    }
  }

  lemma {:induction false} FromWords(words: seq<string>)
    ensures WordsFor(words, [Word("FROM"), Word("users")]) <==>
      |words| == 2 && Recased(words[0], "FROM") && Recased(words[1], "users")
    ensures WordsFor(words, [Word("SELECT")]) <==> |words| == 1 && Recased(words[0], "SELECT")
  {
    hide Recased;
    var ts, one := [Word("FROM"), Word("users")], [Word("SELECT")];
    if WordsFor(words, ts) {
      assert WordFor(words[0], ts[0]) && WordFor(words[1], ts[1]);
    }
    if WordsFor(words, one) {
      assert WordFor(words[0], one[0]);
    }
  }

  lemma {:induction false} SelectWordsIff(words: seq<string>, cols: seq<Column>, filter: Where)
    requires WellFormed(Select(cols, filter))
    ensures StatementWords(words, Select(cols, filter)) <==> WordsFor(words, Tokens(Select(cols, filter)))
  {
    hide Recased, ColumnTokens, FilterTokens, ListWords, FilterWords, WordsFor;
    var list := if cols == [] then [Symbol('*')] else ColumnTokens(cols);
    var k := if cols == [] then 1 else 2 * |cols| - 1;
    if cols != [] {
      ColumnTokensAre(cols);
    }
    var fs := FilterTokens(filter);
    var select, from := [Word("SELECT")], [Word("FROM"), Word("users")];
    assert Tokens(Select(cols, filter)) == select + (list + (from + fs));
    WordsConcat(words, select, list + (from + fs));
    if |words| >= 1 {
      FromWords(words[..1]);
      var rest := words[1..];
      WordsConcat(rest, list, from + fs);
      if |rest| >= k {
        assert rest[..k] == words[1..1 + k];
        ListWordsIff(rest[..k], cols);
        var others := rest[k..];
        WordsConcat(others, from, fs);
        if |others| >= 2 {
          FromWords(others[..2]);
          assert others[2..] == words[3 + k..];
          FilterWordsIff(others[2..], filter);
        }
      }
    }
  }

  lemma {:induction false} StatementWordsIff(words: seq<string>, stmt: Statement)
    requires WellFormed(stmt)
    ensures StatementWords(words, stmt) <==> WordsFor(words, Tokens(stmt))
  {
    hide StatementWords, WordsFor, Tokens, WellFormed;
    if stmt.Select? {
      SelectWordsIff(words, stmt.columns, stmt.filter);
    } else {
      InsertWordsIff(words, stmt);
    }
  }

  // ---------------------------------------------------------------- words and pieces

  function TokenOf(word: string, t: Token): Token {
    match t
    case Word(_) => Word(word)
    case Number(_) => Digits(word)
    case _ => t
  }

  lemma {:induction false} TokenWritten(word: string, t: Token)
    requires WordFor(word, t)
    ensures Written(TokenOf(word, t)) == word && SameToken(TokenOf(word, t), t)
  {
    hide IsNumeral, Recased, SameNoCase, IsIntegerText;
    match t
    case Word(text) => RecasedIff(word, text);
    case Number(n) => NumeralIff(word, n);
    case _ =>
  }

  lemma {:induction false} WrittenWord(p: Token, t: Token)
    requires SameToken(p, t) && !t.Digits?
    ensures WordFor(Written(p), t)
  {
    hide IsNumeral, Recased, SameNoCase, IsIntegerText;
    match t
    case Word(text) => RecasedIff(Written(p), text);
    case Number(n) =>
      NumeralIff(Written(p), n);
      PlainNumeral(n);
    case _ =>
  }

  /** Of the words of a statement, those for words start with a letter and no others. */
  lemma {:induction false} LetterIff(word: string, t: Token)
    requires WordFor(word, t) && IsToken(t) && (t.Word? ==> IsAlpha(t.text[0]))
    ensures StartsWithLetter(word) <==> t.Word?
  {
    if t.Word? {
      assert SameLetter(word[0], t.text[0]);
    } else if t.Number? {
      NumeralIff(word, t.n);
      assert IsDigit(AfterSign(word)[0]);
    }
  }

  predicate Lettered(ts: seq<Token>) {
    forall i :: 0 <= i < |ts| ==> IsToken(ts[i]) && (ts[i].Word? ==> IsAlpha(ts[i].text[0]))
  }

  lemma {:induction false} LetteredConcat(a: seq<Token>, b: seq<Token>)
    requires Lettered(a) && Lettered(b)
    ensures Lettered(a + b)
  {
    hide IsToken, IsAlpha;
  }

  lemma {:induction false} ColumnsLettered(cols: seq<Column>)
    requires cols != []
    ensures Lettered(ColumnTokens(cols))
  {
    ColumnTokensAre(cols);
    ColumnTokensLexical(cols);
    var ts := ColumnTokens(cols);
    forall i | 0 <= i < |ts| ensures IsToken(ts[i]) && (ts[i].Word? ==> IsAlpha(ts[i].text[0])) {
      var j := (i + 1) / 2;
      assert i == 2 * j || i == 2 * j - 1;
      ColumnLetter(cols[if i == 2 * j then j else 0]);
    }
  }

  lemma {:induction false} ColumnLetter(c: Column)
    ensures ColumnWord(c) != "" && IsAlpha(ColumnWord(c)[0])
  {
  }

  lemma {:induction false} FilterLettered(filter: Where)
    requires IsFilter(filter)
    ensures Lettered(FilterTokens(filter))
  {
    FilterLexical(filter);
  }

  lemma {:induction false} InsertLettered(stmt: Statement)
    requires WellFormed(stmt) && !stmt.Select?
    ensures Lettered(Tokens(stmt))
  {
    InsertLexical(stmt);
  }

  lemma {:induction false} SomeLettered()
    ensures Lettered([Word("SELECT")]) && Lettered([Symbol('*')]) && Lettered([Word("FROM"), Word("users")])
  {
  }

  lemma {:induction false} TokensLettered(stmt: Statement)
    requires WellFormed(stmt)
    ensures Lettered(Tokens(stmt))
  {
    hide Lettered, ColumnTokens, FilterTokens;
    if stmt.Select? {
      SomeLettered();
      if stmt.columns != [] {
        ColumnsLettered(stmt.columns);
      }
      FilterLettered(stmt.filter);
      var list := if stmt.columns == [] then [Symbol('*')] else ColumnTokens(stmt.columns);
      LetteredConcat([Word("SELECT")], list);
      LetteredConcat([Word("SELECT")] + list, [Word("FROM"), Word("users")]);
      LetteredConcat([Word("SELECT")] + list + [Word("FROM"), Word("users")], FilterTokens(stmt.filter));
    } else {
      InsertLettered(stmt);
    }
  }

  lemma {:induction false} RunningIsJoin(gaps: seq<string>, words: seq<string>, ps: seq<Piece>)
    requires |gaps| == |words| == |ps|
    requires forall i :: 0 <= i < |ps| ==> ps[i].space == gaps[i] && Written(ps[i].token) == words[i]
    ensures Running(gaps, words) == Join(ps)
  {
    if ps != [] {
      hide Written;
      RunningIsJoin(gaps[1..], words[1..], ps[1..]);
    }
  }

  lemma {:induction false} PiecesOf(gaps: seq<string>, words: seq<string>, ts: seq<Token>) returns (ps: seq<Piece>)
    requires WordsFor(words, ts) && Spaced(gaps, words) && Lettered(ts)
    ensures Renders(ps, ts) && Running(gaps, words) == Join(ps)
  {
    hide WordFor, IsToken, StartsWithLetter, SameToken, Written, IsAlpha, AllSpace, TokenOf;
    ps := seq(|ts|, i requires 0 <= i < |ts| => Piece(gaps[i], TokenOf(words[i], ts[i])));
    forall i | 0 <= i < |ts|
      ensures Written(ps[i].token) == words[i] && SameToken(ps[i].token, ts[i])
      ensures ps[i].token.Word? ==> StartsWithLetter(words[i])
    {
      TokenWritten(words[i], ts[i]);
      LetterIff(words[i], ts[i]);
      TokenKind(words[i], ts[i]);
    }
    RunningIsJoin(gaps, words, ps);
  }

  lemma {:induction false} TokenKind(word: string, t: Token)
    ensures TokenOf(word, t).Word? <==> t.Word?
  {
  }

  lemma {:induction false} WordsOf(ps: seq<Piece>, ts: seq<Token>) returns (gaps: seq<string>, words: seq<string>)
    requires Renders(ps, ts) && Lettered(ts)
    ensures WordsFor(words, ts) && Spaced(gaps, words) && Running(gaps, words) == Join(ps)
  {
    hide WordFor, IsToken, StartsWithLetter, SameToken, Written, IsAlpha, AllSpace;
    gaps := seq(|ps|, i requires 0 <= i < |ps| => ps[i].space);
    words := seq(|ps|, i requires 0 <= i < |ps| => Written(ps[i].token));
    forall i | 0 <= i < |ts|
      ensures WordFor(words[i], ts[i]) && (StartsWithLetter(words[i]) ==> ps[i].token.Word?)
    {
      NoDigitsToken(ts[i]);
      WrittenWord(ps[i].token, ts[i]);
      LetterIff(words[i], ts[i]);
      SameKind(ps[i].token, ts[i]);
    }
    RunningIsJoin(gaps, words, ps);
  }

  lemma {:induction false} NoDigitsToken(t: Token)
    requires IsToken(t)
    ensures !t.Digits?
  {
  }

  lemma {:induction false} SameKind(p: Token, t: Token)
    requires SameToken(p, t)
    ensures t.Word? ==> p.Word?
  {
  }

  // ---------------------------------------------------------------- exactly these texts

  /** A text parses to a statement if and only if the statement is one that has a text and
      this is one of its texts: its words in any letter case, its numerals with or without
      leading zeros, white space where it likes, and at most one semicolon at the end. */
  lemma {:induction false} SpelledIff(sql: string, stmt: Statement)
    ensures Parse(sql) == Some(stmt) <==>
      Allowed(stmt) && exists gaps, words, tail :: Spelled(sql, stmt, gaps, words, tail)
  {
    hide Parse, Tokens, Renders, Ending, WellFormed, Allowed, StatementWords, Spaced, WordsFor, Lettered, Running, Join;
    AllowedIff(stmt);
    if Parse(sql) == Some(stmt) {
      AcceptedIff(sql, stmt);
      var ps, tail :| IsRendering(sql, stmt, ps, tail);
      TokensLettered(stmt);
      var gaps, words := WordsOf(ps, Tokens(stmt));
      StatementWordsIff(words, stmt);
      assert Spelled(sql, stmt, gaps, words, tail);
    }
    if Allowed(stmt) && exists gaps, words, tail :: Spelled(sql, stmt, gaps, words, tail) {
      var gaps, words, tail :| Spelled(sql, stmt, gaps, words, tail);
      TokensLettered(stmt);
      StatementWordsIff(words, stmt);
      var ps := PiecesOf(gaps, words, Tokens(stmt));
      RoundTrip(stmt, ps, tail);
    }
  }

  predicate RecasedPiece(p: Piece, q: Piece) {
    && p.space == q.space
    && (p.token == q.token || (p.token.Word? && q.token.Word? && Recased(p.token.text, q.token.text)))
  }

  /** In particular the printed text of a statement may have its words in any letter case. */
  lemma {:induction false} RecasedPrint(stmt: Statement, ps: seq<Piece>)
    requires WellFormed(stmt)
    requires var qs := Plain(Tokens(stmt)); |ps| == |qs| && forall i :: 0 <= i < |qs| ==> RecasedPiece(ps[i], qs[i])
    ensures Parse(Join(ps) + ";") == Some(stmt)
  {
    var ts := Tokens(stmt);
    hide Tokens, Parse, Join, SameNoCase, Recased;
    assert ";"[0] == ';' && ";"[..0] == "" && ";"[1..] == "";
    assert Ending(";");
    forall i | 0 <= i < |ts| ensures AllSpace(ps[i].space) && SameToken(ps[i].token, ts[i]) {
      assert RecasedPiece(ps[i], Plain(ts)[i]);
      if ps[i].token.Word? && ts[i].Word? {
        RecasedIff(ps[i].token.text, ts[i].text);
        SameItself(ts[i].text);
      }
    }
    RoundTrip(stmt, ps, ";");
  }

  lemma {:induction false} SameItself(s: string)
    ensures Recased(s, s) && SameNoCase(s, s)
  {
  }
}
