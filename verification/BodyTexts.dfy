/** The bodies that carry a statement, written out: the extractor takes exactly these. */
module BodyTexts {
  import opened Options
  import opened Text
  import opened Json
  import opened RequestReader
  import opened SqlBody

  // ---------------------------------------------------------------- string values

  /** One character of a string value: written as it is, or as a backslash and a letter. */
  datatype Unit = Raw(c: char) | Escaped(c: char)

  predicate IsUnit(u: Unit) {
    if u.Raw? then u.c != '"' && u.c != '\\' else u.c in "\"\\/nrt"
  }

  predicate AreUnits(us: seq<Unit>) {
    forall i :: 0 <= i < |us| ==> IsUnit(us[i])
  }

  function UnitText(u: Unit): string {
    if u.Raw? then [u.c] else "\\" + [u.c]
  }

  /** n, r and t stand for LF, CR and TAB; the others for themselves. */
  function UnitValue(u: Unit): char {
    if u == Escaped('n') then 10 as char
    else if u == Escaped('r') then 13 as char
    else if u == Escaped('t') then 9 as char
    else u.c
  }

  function UnitsText(us: seq<Unit>): string {
    if us == [] then "" else UnitText(us[0]) + UnitsText(us[1..])
  }

  function UnitsValue(us: seq<Unit>): string {
    seq(|us|, i requires 0 <= i < |us| => UnitValue(us[i]))
  }

  lemma {:induction false} DecodeUnit(u: Unit, tail: string, room: nat)
    requires IsUnit(u)
    ensures room == 0 ==> Decode(UnitText(u) + tail, room) == None
    ensures room > 0 ==>
      Decode(UnitText(u) + tail, room) == Prefixed([UnitValue(u)], Decode(tail, room - 1))
  {
    var s := UnitText(u) + tail;
    assert s[0] == UnitText(u)[0];
    if u.Raw? {
      assert s[1..] == tail;
    } else {
      assert s[1] == u.c && s[2..] == tail;
    }
  }

  lemma {:induction false} UnitsParts(us: seq<Unit>, q: string)
    requires us != []
    ensures UnitsText(us) + q == UnitText(us[0]) + (UnitsText(us[1..]) + q)
    ensures UnitsValue(us) == [UnitValue(us[0])] + UnitsValue(us[1..])
  {
    hide UnitText, UnitValue;
  }

  /** A value that is written in any of its ways is read back, if it fits. */
  lemma {:induction false} DecodeUnits(us: seq<Unit>, post: string, room: nat)
    requires AreUnits(us)
    ensures Decode(UnitsText(us) + ("\"" + post), room) == if |us| <= room then Some(UnitsValue(us)) else None
    decreases |us|
  {
    hide Decode, UnitText, UnitValue, IsUnit;
    var q := "\"" + post;
    if us == [] {
      DecodeEnd(q, room);
      assert "" + q == q && UnitsValue(us) == "";
    } else {
      UnitsParts(us, q);
      DecodeUnit(us[0], UnitsText(us[1..]) + q, room);
      if room > 0 {
        DecodeUnits(us[1..], post, room - 1);
      }
    }
  }

  /** And whatever is read was written in one of these ways, up to a closing quote. */
  lemma {:induction false} DecodedUnits(s: string, room: nat) returns (us: seq<Unit>, post: string)
    requires Decode(s, room).Some?
    ensures AreUnits(us) && |us| <= room && s == UnitsText(us) + ("\"" + post)
    ensures Decode(s, room) == Some(UnitsValue(us))
    decreases |s|
  {
    if s[0] == '"' {
      us, post := [], s[1..];
      assert "" + ("\"" + post) == s && UnitsValue(us) == "";
    } else {
      var u := if s[0] == '\\' then Escaped(s[1]) else Raw(s[0]);
      var width := if s[0] == '\\' then 2 else 1;
      assert IsUnit(u) && s == UnitText(u) + s[width..];
      var more;
      more, post := DecodedUnits(s[width..], room - 1);
      us := [u] + more;
      assert us[1..] == more;
      DecodeUnits(us, post, room);
      hide UnitText, UnitValue, IsUnit, Decode;
      UnitsParts(us, "\"" + post);
    }
  }

  // ---------------------------------------------------------------- bodies

  /** The key for the first time, white space around the colon, and the string value. */
  predicate JsonBody(body: string, pre: string, w: string, w': string, us: seq<Unit>, post: string) {
    && body == pre + ("\"sql\"" + (w + (":" + (w' + ("\"" + (UnitsText(us) + ("\"" + post)))))))
    && (forall j: nat :: j < |pre| ==> !Occurs(body, "\"sql\"", j))
    && AllSpace(w) && AllSpace(w') && AreUnits(us)
  }

  lemma {:induction false} SymbolAfter(w: string, c: char, rest: string)
    requires AllSpace(w) && !IsSpace(c)
    ensures ExpectSymbol(w + ([c] + rest), c) == Some(rest)
  {
    SkipSpaceOver(w, [c] + rest);
    assert ([c] + rest)[0] == c && ([c] + rest)[1..] == rest;
  }

  lemma {:induction false} SymbolBefore(s: string, c: char) returns (w: string)
    requires ExpectSymbol(s, c).Some?
    ensures AllSpace(w) && s == w + ([c] + ExpectSymbol(s, c).value)
  {
    hide SkipSpace, AllSpace;
    var cur := SkipSpace(s);
    w := s[..|s| - |cur|];
    assert s == w + cur && cur == [c] + cur[1..];
  }

  lemma {:induction false} KeyFound(body: string, pre: string, rest: string)
    requires body == pre + ("\"sql\"" + rest) && forall j: nat :: j < |pre| ==> !Occurs(body, "\"sql\"", j)
    ensures Find(body, SQL_KEY) == Some(|pre|) && body[|pre| + |SQL_KEY|..] == rest
  {
    hide Find;
    assert body[|pre|..|pre| + 5] == SQL_KEY;
    assert Occurs(body, SQL_KEY, |pre|);
    FirstIs(body, SQL_KEY, |pre|);
  }

  lemma {:induction false} JsonHead(body: string, pre: string, w: string, w': string, value: string, size: nat)
    requires body == pre + ("\"sql\"" + (w + (":" + (w' + ("\"" + value)))))
    requires (forall j: nat :: j < |pre| ==> !Occurs(body, "\"sql\"", j)) && AllSpace(w) && AllSpace(w') && size >= 1
    ensures ExtractJson(body, size) == Decode(value, size - 1)
  {
    hide Find, Decode, ExpectSymbol, AllSpace, Occurs;
    KeyFound(body, pre, w + (":" + (w' + ("\"" + value))));
    SymbolAfter(w, ':', w' + ("\"" + value));
    SymbolAfter(w', '"', value);
  }

  /** Such a body gives the value of its units, if it is shorter than the buffer. */
  lemma {:induction false} JsonRead(body: string, pre: string, w: string, w': string, us: seq<Unit>, post: string,
                                    size: nat)
    requires JsonBody(body, pre, w, w', us, post) && size >= 1
    ensures ExtractJson(body, size) == if |us| < size then Some(UnitsValue(us)) else None
  {
    hide Decode, ExtractJson, UnitsText, UnitsValue, AreUnits, AllSpace, Occurs;
    JsonHead(body, pre, w, w', UnitsText(us) + ("\"" + post), size);
    DecodeUnits(us, post, size - 1);
  }

  /** The extractor reads a value out of an object if and only if the object has this form
      and the value fits. */
  lemma {:induction false} JsonIff(body: string, size: nat, sql: string)
    requires size >= 1
    ensures ExtractJson(body, size) == Some(sql) <==>
      exists pre, w, w', us, post ::
        JsonBody(body, pre, w, w', us, post) && |us| < size && sql == UnitsValue(us)
  {
    hide Find, Decode, ExpectSymbol, UnitsText, UnitsValue, AreUnits, AllSpace, JsonBody, Occurs;
    if ExtractJson(body, size) == Some(sql) {
      var pre, w, w', us, post := JsonParts(body, size);
    }
    if exists pre, w, w', us, post :: JsonBody(body, pre, w, w', us, post) && |us| < size && sql == UnitsValue(us) {
      var pre, w, w', us, post :|
        JsonBody(body, pre, w, w', us, post) && |us| < size && sql == UnitsValue(us);
      JsonRead(body, pre, w, w', us, post, size);
    }
  }

  lemma {:induction false} JsonParts(body: string, size: nat)
    returns (pre: string, w: string, w': string, us: seq<Unit>, post: string)
    requires size >= 1 && ExtractJson(body, size).Some?
    ensures JsonBody(body, pre, w, w', us, post) && |us| < size
    ensures ExtractJson(body, size) == Some(UnitsValue(us))
  {
    hide Find, Decode, ExpectSymbol, UnitsText, UnitsValue, AreUnits, AllSpace;
    var key := Find(body, SQL_KEY).value;
    pre := body[..key];
    var rest := body[key + |SQL_KEY|..];
    assert body[key..key + |SQL_KEY|] == SQL_KEY;
    assert body == pre + ("\"sql\"" + rest);
    w := SymbolBefore(rest, ':');
    var colon := ExpectSymbol(rest, ':').value;
    w' := SymbolBefore(colon, '"');
    us, post := DecodedUnits(ExpectSymbol(colon, '"').value, size - 1);
  }

  predicate BareBody(body: string, before: string, sql: string, after: string) {
    && body == before + (sql + after)
    && AllSpace(before) && AllSpace(after)
    && sql != "" && !IsSpace(sql[0]) && !IsSpace(sql[|sql| - 1]) && sql[0] != '{'
  }

  predicate OpensObject(body: string, w: string) {
    AllSpace(w) && |w| < |body| && body[..|w|] == w && body[|w|] == '{'
  }

  lemma {:induction false} OpensIff(body: string)
    ensures (SkipSpace(body) != "" && SkipSpace(body)[0] == '{') <==> exists w :: OpensObject(body, w)
  {
    var cur := SkipSpace(body);
    if cur != "" && cur[0] == '{' {
      assert OpensObject(body, body[..|body| - |cur|]);
    }
    if exists w :: OpensObject(body, w) {
      var w :| OpensObject(body, w);
      assert body == w + body[|w|..];
      SkipSpaceOver(w, body[|w|..]);
    }
  }

  lemma {:induction false} BareParts(body: string, size: nat) returns (before: string, after: string)
    requires CopyRaw(body, size).Some? && (SkipSpace(body) != "" ==> SkipSpace(body)[0] != '{')
    ensures BareBody(body, before, CopyRaw(body, size).value, after) && |CopyRaw(body, size).value| < size
  {
    hide SkipSpace, TrimEnd, AllSpace;
    var cur := SkipSpace(body);
    var sql := TrimEnd(cur);
    before, after := body[..|body| - |cur|], cur[|sql|..];
    assert cur == sql + after && body == before + cur;
    assert cur[0] == sql[0];
  }

  /** A statement is taken from a body if and only if the body is an object that carries it
      under the key, or not an object and the bare statement with white space around it. */
  lemma {:induction false} ExtractIff(body: string, size: nat, sql: string)
    requires size >= 1
    ensures Extract(body, size) == Some(sql) <==>
      || ((exists w :: OpensObject(body, w))
          && exists pre, w, w', us, post ::
               JsonBody(body, pre, w, w', us, post) && |us| < size && sql == UnitsValue(us))
      || (|sql| < size && exists before, after :: BareBody(body, before, sql, after))
  {
    hide SkipSpace, ExtractJson, CopyRaw, OpensObject, JsonBody, BareBody, UnitsValue;
    OpensIff(body);
    JsonIff(body, size, sql);
    if Extract(body, size) == Some(sql) && !exists w :: OpensObject(body, w) {
      var before, after := BareParts(body, size);
    }
    if |sql| < size && exists before, after :: BareBody(body, before, sql, after) {
      var before, after :| BareBody(body, before, sql, after);
      BareOpens(body, before, sql, after);
      BareRead(body, before, sql, after, size);
    }
  }

  lemma {:induction false} BareOpens(body: string, before: string, sql: string, after: string)
    requires BareBody(body, before, sql, after)
    ensures SkipSpace(body) != "" && SkipSpace(body)[0] != '{'
  {
    SkipSpaceOver(before, sql + after);
    assert (sql + after)[0] == sql[0];
  }

  lemma {:induction false} BareRead(body: string, before: string, sql: string, after: string, size: nat)
    requires BareBody(body, before, sql, after) && |sql| < size
    ensures Extract(body, size) == Some(sql)
  {
    ExtractBare(before, sql, after, size);
    hide Extract;
  }

  // ---------------------------------------------------------------- objects with one key

  /** An object with white space wherever JSON allows it before the value, the value as it
      is written, and any text after it. */
  function ObjectText(gaps: (string, string, string, string), value: string, post: string): string {
    gaps.0 + ("{" + (gaps.1 + ("\"sql\"" + (gaps.2 + (":" + (gaps.3 + ("\"" + (value + ("\"" + post)))))))))
  }

  predicate AreGaps(gaps: (string, string, string, string)) {
    AllSpace(gaps.0) && AllSpace(gaps.1) && AllSpace(gaps.2) && AllSpace(gaps.3)
  }

  lemma {:induction false} NoQuoteBefore(before: string, rest: string, j: nat)
    requires j < |before| && before[j] != '"'
    ensures !Occurs(before + rest, "\"sql\"", j)
  {
    if j + 5 <= |before + rest| {
      assert (before + rest)[j..j + 5][0] == before[j];
    }
  }

  lemma {:induction false} ObjectOpens(a: string, rest: string)
    requires AllSpace(a)
    ensures SkipSpace(a + ("{" + rest)) == "{" + rest && ("{" + rest)[0] == '{'
  {
    SkipSpaceOver(a, "{" + rest);
  }

  lemma {:induction false} NoQuote(a: string, b: string)
    requires AllSpace(a) && AllSpace(b)
    ensures '"' !in a + ("{" + b)
  {
  }

  lemma {:induction false} ObjectHead(gaps: (string, string, string, string), value: string, post: string, size: nat)
    requires AreGaps(gaps) && size >= 1
    ensures Extract(ObjectText(gaps, value, post), size) == Decode(value + ("\"" + post), size - 1)
  {
    hide Decode, AllSpace, SkipSpace, ExtractJson, Occurs;
    var body := ObjectText(gaps, value, post);
    var pre := gaps.0 + ("{" + gaps.1);
    var rest := "\"sql\"" + (gaps.2 + (":" + (gaps.3 + ("\"" + (value + ("\"" + post))))));
    ObjectOpens(gaps.0, gaps.1 + rest);
    NoQuote(gaps.0, gaps.1);
    assert body == pre + rest;
    forall j: nat | j < |pre| ensures !Occurs(body, "\"sql\"", j) {
      assert pre[j] in pre;
      NoQuoteBefore(pre, rest, j);
    }
    JsonHead(body, pre, gaps.2, gaps.3, value + ("\"" + post), size);
  }

  /** Such an object gives its value, written in any of its ways, if that is shorter than
      the buffer, and is rejected otherwise. */
  lemma {:induction false} ExtractObject(gaps: (string, string, string, string), us: seq<Unit>, post: string, size: nat)
    requires AreGaps(gaps) && AreUnits(us) && size >= 1
    ensures Extract(ObjectText(gaps, UnitsText(us), post), size) == if |us| < size then Some(UnitsValue(us)) else None
  {
    hide *;
    ObjectHead(gaps, UnitsText(us), post, size);
    DecodeUnits(us, post, size - 1);
  }

  /** A text that was escaped comes out of such an object unchanged if and only if it is
      shorter than the buffer and its control bytes are LF, CR or TAB. */
  lemma {:induction false} ExtractEscaped(gaps: (string, string, string, string), s: string, post: string, size: nat)
    requires AreGaps(gaps) && size >= 1
    ensures Extract(ObjectText(gaps, Escape(s), post), size) == if AllCarried(s) && |s| < size then Some(s) else None
  {
    hide *;
    ObjectHead(gaps, Escape(s), post, size);
    DecodeEscaped(s, post, size - 1);
  }

  /** What the escaper writes for a text that can be carried. */
  function EscapedUnits(s: string): seq<Unit> {
    seq(|s|, i requires 0 <= i < |s| =>
      if s[i] == '"' || s[i] == '\\' then Escaped(s[i])
      else if s[i] == '\n' then Escaped('n')
      else if s[i] == '\r' then Escaped('r')
      else if s[i] == '\t' then Escaped('t')
      else Raw(s[i]))
  }

  lemma {:induction false} CharIsUnit(c: char)
    requires Carried(c)
    ensures var u := EscapedUnits([c])[0];
      IsUnit(u) && UnitText(u) == EscapeChar(c) && UnitValue(u) == c
  {
  }

  /** The escaper writes its text in units that mean the text, if it can be carried. */
  lemma {:induction false} EscapeIsUnits(s: string)
    requires AllCarried(s)
    ensures AreUnits(EscapedUnits(s)) && UnitsText(EscapedUnits(s)) == Escape(s) && UnitsValue(EscapedUnits(s)) == s
  {
    if s != "" {
      var us := EscapedUnits(s);
      CharIsUnit(s[0]);
      assert us[1..] == EscapedUnits(s[1..]) && us[0] == EscapedUnits([s[0]])[0];
      hide EscapeChar, UnitText, UnitValue, IsUnit;
      EscapeIsUnits(s[1..]);
      UnitsParts(us, "");
      assert [s[0]] + s[1..] == s && us == [us[0]] + us[1..];
      assert UnitsText(us) + "" == UnitsText(us) && UnitsText(us[1..]) + "" == UnitsText(us[1..]);
    }
  }
}
