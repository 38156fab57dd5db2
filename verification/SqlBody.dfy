/** Taking the statement out of a request body: a JSON object with the key "sql", or
    the bare text. */
module SqlBody {
  import opened Options
  import opened Text
  import opened Json
  import opened RequestReader

  const SQL_KEY := "\"sql\""

  // ---------------------------------------------------------------- what is extracted

  /** The byte that stands for an escape, for the escapes that the extractor knows. */
  function Unescaped(c: char): Option<char> {
    if c == '"' || c == '\\' || c == '/' then Some(c)
    else if c == 'n' then Some('\n')
    else if c == 'r' then Some('\r')
    else if c == 't' then Some('\t')
    else None
  }

  /** The string value from here to its closing quote; room bytes of it may follow. */
  function Decode(s: string, room: nat): (r: Option<string>)
    ensures r.Some? ==> |r.value| <= room
    decreases |s|
  {
    if s == "" then None
    else if s[0] == '"' then Some("")
    else
      var c := if s[0] != '\\' then Some(s[0]) else if |s| == 1 then None else Unescaped(s[1]);
      if c.None? || room == 0 then None
      else
        var rest := Decode(s[if s[0] == '\\' then 2 else 1..], room - 1);
        if rest.None? then None else Some([c.value] + rest.value)
  }

  function ExtractJson(body: string, size: nat): Option<string>
    requires size >= 1
  {
    var key := Find(body, SQL_KEY);
    if key.None? then None
    else
      var colon := ExpectSymbol(body[key.value + |SQL_KEY|..], ':');
      if colon.None? then None
      else
        var quote := ExpectSymbol(colon.value, '"');
        if quote.None? then None else Decode(quote.value, size - 1)
  }

  function TrimEnd(s: string): (r: string)
    ensures r <= s && AllSpace(s[|r|..]) && (r != "" ==> !IsSpace(r[|r| - 1]))
  {
    if s != "" && IsSpace(s[|s| - 1]) then TrimEnd(s[..|s| - 1]) else s
  }

  function CopyRaw(body: string, size: nat): Option<string> {
    var text := TrimEnd(SkipSpace(body));
    if text == "" || |text| + 1 > size then None else Some(text)
  }

  function Extract(body: string, size: nat): Option<string>
    requires size >= 1
  {
    var p := SkipSpace(body);
    if p != "" && p[0] == '{' then ExtractJson(body, size) else CopyRaw(body, size)
  }

  // ---------------------------------------------------------------- escaping and extracting

  /** The bytes that the escaper and the extractor agree on. */
  predicate Carried(c: char) {
    ' ' <= c || c == '\n' || c == '\r' || c == '\t'
  }

  predicate AllCarried(s: string) {
    forall i :: 0 <= i < |s| ==> Carried(s[i])
  }

  lemma {:induction false} DecodeFirst(c: char, tail: string, room: nat)
    ensures !Carried(c) ==> Decode(EscapeChar(c) + tail, room) == None
    ensures Carried(c) && room == 0 ==> Decode(EscapeChar(c) + tail, room) == None
    ensures Carried(c) && room > 0 ==>
      (var rest := Decode(tail, room - 1);
       Decode(EscapeChar(c) + tail, room) == if rest.None? then None else Some([c] + rest.value))
  {
    var e := EscapeChar(c);
    var s := e + tail;
    assert s[0] == e[0];
    if e[0] == '\\' {
      assert s[1] == e[1];
      assert |e| == 2 ==> s[2..] == tail;
    } else {
      assert s[1..] == tail;
    }
  }

  lemma {:induction false} EscapeParts(s: string, q: string)
    ensures s == "" ==> Escape(s) + q == q
    ensures s != "" ==> Escape(s) + q == EscapeChar(s[0]) + (Escape(s[1..]) + q)
  {
    hide EscapeChar;
  }

  lemma {:induction false} DecodeEscaped(s: string, rest: string, room: nat)
    ensures Decode(Escape(s) + ("\"" + rest), room) == if AllCarried(s) && |s| <= room then Some(s) else None
    decreases |s|
  {
    hide Decode, Escape, EscapeChar, Carried;
    var q := "\"" + rest;
    EscapeParts(s, q);
    if s == "" {
      DecodeEnd(q, room);
    } else {
      var tail := Escape(s[1..]) + q;
      DecodeFirst(s[0], tail, room);
      if room > 0 {
        DecodeEscaped(s[1..], rest, room - 1);
      }
      AllCarriedParts(s);
      assert [s[0]] + s[1..] == s;
    }
  }

  lemma {:induction false} AllCarriedParts(s: string)
    requires s != ""
    ensures AllCarried(s) <==> Carried(s[0]) && AllCarried(s[1..])
  {
    assert forall i :: 0 < i < |s| ==> s[i] == s[1..][i - 1];
  }

  function Wrapped(s: string): string {
    "{\"sql\":\"" + Escape(s) + "\"}"
  }

  lemma {:induction false} WrappedPlain(s: string)
    ensures NUL !in Wrapped(s)
  {
    hide Escape;
  }

  lemma {:induction false} WrappedParts(s: string)
    ensures var body := Wrapped(s);
      && SkipSpace(body) == body && body[0] == '{'
      && Find(body, SQL_KEY) == Some(1)
      && body[6..] == ":" + ("\"" + (Escape(s) + ("\"" + "}")))
  {
    hide Escape, Find;
    var body := Wrapped(s);
    assert body[1..6] == SQL_KEY;
    assert body[0..5][0] == '{';
    assert !Occurs(body, SQL_KEY, 0);
    FirstIs(body, SQL_KEY, 1);
  }

  lemma {:induction false} SymbolFirst(c: char, rest: string)
    requires !IsSpace(c)
    ensures ExpectSymbol([c] + rest, c) == Some(rest)
  {
    assert ([c] + rest)[0] == c && ([c] + rest)[1..] == rest;
  }

  /** A text that the escaper wrapped into a body comes back out of it unchanged if and
      only if it fits and every control byte in it is LF, CR or TAB; otherwise the body
      is rejected. */
  lemma {:induction false} ExtractWrapped(s: string, size: nat)
    requires size >= 1
    ensures Extract(Wrapped(s), size) == if AllCarried(s) && |s| < size then Some(s) else None
  {
    hide Escape, Find, Decode, AllCarried, ExpectSymbol, SkipSpace, Wrapped;
    WrappedParts(s);
    var value := Escape(s) + ("\"" + "}");
    SymbolFirst(':', "\"" + value);
    SymbolFirst('"', value);
    DecodeEscaped(s, "}", size - 1);
  }

  /** A bare text is taken without the white space around it. */
  lemma {:induction false} ExtractBare(before: string, s: string, after: string, size: nat)
    requires AllSpace(before) && AllSpace(after) && size >= 1
    requires s != "" && !IsSpace(s[0]) && !IsSpace(s[|s| - 1]) && s[0] != '{'
    ensures Extract(before + (s + after), size) == if |s| < size then Some(s) else None
  {
    SkipSpaceOver(before, s + after);
    assert (s + after)[0] == s[0];
    TrimOver(s, after);
    hide TrimEnd;
  }

  lemma {:induction false} TrimOver(s: string, after: string)
    requires AllSpace(after) && s != "" && !IsSpace(s[|s| - 1])
    ensures TrimEnd(s + after) == s
  {
    var t := s + after;
    if after == "" {
      assert t == s;
    } else {
      assert t[|t| - 1] == after[|after| - 1];
      assert t[..|t| - 1] == s + after[..|after| - 1];
      TrimOver(s, after[..|after| - 1]);
    }
  }

  lemma {:induction false} DecodedPlain(s: string, room: nat)
    requires IsCString(s) && Decode(s, room).Some?
    ensures IsCString(Decode(s, room).value)
    decreases |s|
  {
    if s[0] != '"' {
      DecodedPlain(s[if s[0] == '\\' then 2 else 1..], room - 1);
    }
  }

  /** The statement of a body without NUL has no NUL either. */
  lemma {:induction false} ExtractedPlain(body: string, size: nat)
    requires IsCString(body) && size >= 1 && Extract(body, size).Some?
    ensures IsCString(Extract(body, size).value) && |Extract(body, size).value| < size
  {
    hide Find, Decode, TrimEnd, SkipSpace, ExpectSymbol;
    SpacePlain(body);
    if SkipSpace(body) != "" && SkipSpace(body)[0] == '{' {
      var key := body[Find(body, SQL_KEY).value + |SQL_KEY|..];
      SymbolPlain(key, ':');
      var colon := ExpectSymbol(key, ':').value;
      SymbolPlain(colon, '"');
      DecodedPlain(ExpectSymbol(colon, '"').value, size - 1);
    }
  }

  // ---------------------------------------------------------------- the extractor

  lemma {:induction false} TrimStep(s: string, start: nat, end: nat)
    requires start <= end <= |s|
    ensures start < end && IsSpace(s[end - 1]) ==> TrimEnd(s[start..end]) == TrimEnd(s[start..end - 1])
    ensures start == end || !IsSpace(s[end - 1]) ==> TrimEnd(s[start..end]) == s[start..end]
  {
    if start < end {
      assert s[start..end][end - start - 1] == s[end - 1];
      assert s[start..end][..end - start - 1] == s[start..end - 1];
    }
  }

  method TrimEndAt(s: string, start: nat) returns (end: nat)
    requires start <= |s|
    ensures start <= end <= |s| && s[start..end] == TrimEnd(s[start..])
  {
    hide TrimEnd;
    end := |s|;
    assert s[start..end] == s[start..];
    TrimStep(s, start, end);
    while end > start && IsSpace(s[end - 1])
      invariant start <= end <= |s| && TrimEnd(s[start..end]) == TrimEnd(s[start..])
    {
      TrimStep(s, start, end);
      end := end - 1;
    }
    TrimStep(s, start, end);
  }

  method CopyText(text: string, out: array<char>)
    requires |text| < out.Length
    modifies out
    ensures out[..|text|] == text && out[|text|] == NUL
  {
    var len := WriteAt(out, 0, text);
    assert out[..len] == text;
    out[len] := NUL;
  }

  /** copy_raw_sql. */
  method CopyRawSql(body: string, sqlOut: array<char>) returns (ok: bool, len: nat)
    requires sqlOut.Length >= 1
    modifies sqlOut
    ensures ok <==> CopyRaw(body, sqlOut.Length).Some?
    ensures ok ==> len < sqlOut.Length && CopyRaw(body, sqlOut.Length) == Some(sqlOut[..len]) && sqlOut[len] == NUL
  {
    hide SkipSpace, TrimEnd;
    var start := SkipSpaceAt(body, 0);
    assert body[0..] == body;
    var end := TrimEndAt(body, start);
    len := end - start;
    if len == 0 {
      return false, 0;
    }
    if len + 1 > sqlOut.Length {
      return false, 0;
    }
    CopyText(body[start..end], sqlOut);
    ok := true;
  }

  function Prefixed(s: string, r: Option<string>): Option<string> {
    if r.None? then None else Some(s + r.value)
  }

  lemma {:induction false} PrefixedTwice(a: string, b: string, r: Option<string>)
    ensures Prefixed(a, Prefixed(b, r)) == Prefixed(a + b, r) && Prefixed("", r) == r
  {
    if r.Some? {
      assert a + (b + r.value) == a + b + r.value;
      assert "" + r.value == r.value;
    }
  }

  lemma {:induction false} DecodeStep(s: string, p: nat, room: nat)
    requires p < |s| && s[p] != '"'
    ensures s[p] != '\\' && room == 0 ==> Decode(s[p..], room) == None
    ensures s[p] != '\\' && room > 0 ==> Decode(s[p..], room) == Prefixed([s[p]], Decode(s[p + 1..], room - 1))
    ensures s[p] == '\\' && (p + 1 == |s| || Unescaped(s[p + 1]).None? || room == 0) ==> Decode(s[p..], room) == None
    ensures s[p] == '\\' && p + 1 < |s| && Unescaped(s[p + 1]).Some? && room > 0 ==>
      Decode(s[p..], room) == Prefixed([Unescaped(s[p + 1]).value], Decode(s[p + 2..], room - 1))
  {
    hide Unescaped;
    var t := s[p..];
    assert t[0] == s[p] && t[1..] == s[p + 1..];
    assert p + 1 < |s| ==> t[1] == s[p + 1] && t[2..] == s[p + 2..];
  }

  lemma {:induction false} DecodeEnd(s: string, room: nat)
    ensures s == "" ==> Decode(s, room) == None
    ensures s != "" && s[0] == '"' ==> Decode(s, room) == Some("")
  {
  }

  /** The loop of extract_json_sql over the string value. */
  method DecodeAt(body: string, start: nat, sqlOut: array<char>) returns (ok: bool, len: nat)
    requires start <= |body| && sqlOut.Length >= 1
    modifies sqlOut
    ensures ok <==> Decode(body[start..], sqlOut.Length - 1).Some?
    ensures ok ==>
      len < sqlOut.Length && Decode(body[start..], sqlOut.Length - 1) == Some(sqlOut[..len]) && sqlOut[len] == NUL
  {
    hide Unescaped, Decode;
    ok := false;
    len := 0;
    var p := start;
    ghost var value := Decode(body[start..], sqlOut.Length - 1);
    PrefixedTwice("", "", value);
    while p < |body| && body[p] != '"'
      invariant start <= p <= |body| && len < sqlOut.Length
      invariant value == Prefixed(sqlOut[..len], Decode(body[p..], sqlOut.Length - 1 - len))
    {
      DecodeStep(body, p, sqlOut.Length - 1 - len);
      var ch := body[p];
      var width := 1;
      if ch == '\\' {
        if p + 1 == |body| {
          return;
        }
        var u := Unescaped(body[p + 1]);
        if u.None? {
          return;
        }
        ch := u.value;
        width := 2;
      }
      if len + 1 >= sqlOut.Length {
        return;
      }
      ghost var done := sqlOut[..len];
      sqlOut[len] := ch;
      assert sqlOut[..len + 1] == done + [ch];
      p := p + width;
      len := len + 1;
      PrefixedTwice(done, [ch], Decode(body[p..], sqlOut.Length - 1 - len));
    }
    DecodeEnd(body[p..], sqlOut.Length - 1 - len);
    if p == |body| {
      return;
    }
    ghost var done := sqlOut[..len];
    sqlOut[len] := NUL;
    assert sqlOut[..len] == done == done + "";
    ok := true;
  }

  /** extract_json_sql. */
  method ExtractJsonSql(body: string, sqlOut: array<char>) returns (ok: bool, len: nat)
    requires sqlOut.Length >= 1
    modifies sqlOut
    ensures ok <==> ExtractJson(body, sqlOut.Length).Some?
    ensures ok ==>
      len < sqlOut.Length && ExtractJson(body, sqlOut.Length) == Some(sqlOut[..len]) && sqlOut[len] == NUL
  {
    hide Find, Decode, ExpectSymbol;
    len := 0;
    var key := Find(body, SQL_KEY);
    if key.None? {
      return false, 0;
    }
    var p := key.value + |SQL_KEY|;
    ok, p := ExpectSymbolAt(body, p, ':');
    if !ok {
      return;
    }
    ok, p := ExpectSymbolAt(body, p, '"');
    if !ok {
      return;
    }
    ok, len := DecodeAt(body, p, sqlOut);
  }

  /** http_extract_sql: the buffer holds what the function above says. */
  method ExtractSql(body: string, sqlOut: array<char>) returns (ok: bool, len: nat)
    requires sqlOut.Length >= 1
    modifies sqlOut
    ensures ok <==> Extract(body, sqlOut.Length).Some?
    ensures ok ==> len < sqlOut.Length && Extract(body, sqlOut.Length) == Some(sqlOut[..len]) && sqlOut[len] == NUL
  {
    hide SkipSpace, ExtractJson, CopyRaw;
    assert body[0..] == body;
    var p := SkipSpaceAt(body, 0);
    if p < |body| && body[p] == '{' {
      ok, len := ExtractJsonSql(body, sqlOut);
    } else {
      ok, len := CopyRawSql(body, sqlOut);
    }
  }
}
