/** JSON text as values: the escaper, a printer, and a reader that follows
    RFC 8259 for strings, integers, objects and arrays.  It works on bytes: it neither
    asks for UTF-8 nor reads surrogate pairs. */
module Json {
  import opened Options
  import opened Text

  // ---------------------------------------------------------------- strings

  function HexDigit(d: nat): char
    requires d < 16
  {
    if d < 10 then ('0' as int + d) as char else ('a' as int + (d - 10)) as char
  }

  /** What json_escape_dup writes for one byte. */
  function EscapeChar(c: char): (r: string)
    ensures 1 <= |r| <= 6 && forall i :: 0 <= i < |r| ==> ' ' <= r[i]
  {
    if c == '"' then "\\\""
    else if c == '\\' then "\\\\"
    else if c == '\n' then "\\n"
    else if c == '\r' then "\\r"
    else if c == '\t' then "\\t"
    else if c < ' ' then "\\u00" + [HexDigit(c as int / 16), HexDigit(c as int % 16)]
    else [c]
  }

  function Escape(s: string): (r: string)
    ensures |r| <= 6 * |s| && forall i :: 0 <= i < |r| ==> ' ' <= r[i]
  {
    if s == "" then "" else EscapeChar(s[0]) + Escape(s[1..])
  }

  predicate IsHex(c: char) {
    '0' <= c <= '9' || 'a' <= c <= 'f' || 'A' <= c <= 'F'
  }

  function HexValue(c: char): (v: nat)
    requires IsHex(c)
    ensures v < 16
  {
    if c <= '9' then c as int - '0' as int
    else if c <= 'F' then c as int - 'A' as int + 10
    else c as int - 'a' as int + 10
  }

  /** The character of an escape after its backslash, and what follows. */
  function ReadEscape(s: string): (r: Option<(char, string)>)
    ensures r.Some? ==> |r.value.1| < |s|
  {
    if s == "" then None
    else if s[0] in "\"\\/" then Some((s[0], s[1..]))
    else if s[0] == 'b' then Some((8 as char, s[1..]))
    else if s[0] == 'f' then Some((12 as char, s[1..]))
    else if s[0] == 'n' then Some(('\n', s[1..]))
    else if s[0] == 'r' then Some(('\r', s[1..]))
    else if s[0] == 't' then Some(('\t', s[1..]))
    else if s[0] == 'u' && |s| >= 5 && IsHex(s[1]) && IsHex(s[2]) && IsHex(s[3]) && IsHex(s[4]) then
      var v := 4096 * HexValue(s[1]) + 256 * HexValue(s[2]) + 16 * HexValue(s[3]) + HexValue(s[4]);
      if 0xD800 <= v < 0xE000 then None else Some((v as char, s[5..]))
    else None
  }

  /** The text of a string after its opening quote, and what follows its closing one. */
  function ReadString(s: string): (r: Option<(string, string)>)
    ensures r.Some? ==> |r.value.1| < |s|
    decreases |s|
  {
    if s == "" || s[0] < ' ' then None
    else if s[0] == '"' then Some(("", s[1..]))
    else
      var head := if s[0] == '\\' then ReadEscape(s[1..]) else Some((s[0], s[1..]));
      if head.None? then None
      else
        var tail := ReadString(head.value.1);
        if tail.None? then None else Some(([head.value.0] + tail.value.0, tail.value.1))
  }

  /** The escapes in full: those with a letter of their own, four small hexadecimal digits
      for the other control bytes, and nothing for every other byte. */
  lemma {:induction false} EscapeTable(c: char)
    ensures c in "\"\\" ==> EscapeChar(c) == "\\" + [c]
    ensures c as int == 10 ==> EscapeChar(c) == "\\" + "n"
    ensures c as int == 13 ==> EscapeChar(c) == "\\" + "r"
    ensures c as int == 9 ==> EscapeChar(c) == "\\" + "t"
    ensures c as int < 32 && c !in "\n\r\t" ==>
      EscapeChar(c) == "\\" + "u00" + ["01"[c as int / 16], "0123456789abcdef"[c as int % 16]]
    ensures c as int >= 32 && c !in "\"\\" ==> EscapeChar(c) == [c]
  {
    if c as int < 32 {
      HexIs(c as int / 16);
      HexIs(c as int % 16);
    }
  }

  lemma {:induction false} HexIs(d: nat)
    requires d < 16
    ensures HexDigit(d) == "0123456789abcdef"[d] && (d < 2 ==> HexDigit(d) == "01"[d])
  {
  }

  lemma {:induction false} HexRound(c: char)
    requires c < ' '
    ensures var h, l := HexDigit(c as int / 16), HexDigit(c as int % 16);
      IsHex('0') && IsHex(h) && IsHex(l) && HexValue('0') == 0 && 16 * HexValue(h) + HexValue(l) == c as int
  {
  }

  lemma {:induction false} ReadEscapeChar(c: char, rest: string)
    requires EscapeChar(c)[0] == '\\'
    ensures ReadEscape(EscapeChar(c)[1..] + rest) == Some((c, rest))
  {
    var s := EscapeChar(c)[1..] + rest;
    if c in "\"\\\n\r\t" {
      assert s[1..] == rest;
    } else {
      HexRound(c);
      assert s[5..] == rest;
    }
  }

  /** Reading an escaped string gives the string back, whatever its bytes. */
  lemma {:induction false} ReadEscaped(s: string, rest: string)
    ensures ReadString(Escape(s) + "\"" + rest) == Some((s, rest))
  {
    var q := "\"" + rest;
    if s == "" {
      assert Escape(s) + "\"" + rest == q && q[1..] == rest;
    } else {
      var e := EscapeChar(s[0]);
      var tail := Escape(s[1..]) + "\"" + rest;
      ReadEscaped(s[1..], rest);
      assert Escape(s) + "\"" + rest == e + tail;
      ReadFirst(s[0], tail);
      assert [s[0]] + s[1..] == s;
    }
  }

  lemma {:induction false} ReadFirst(c: char, tail: string)
    ensures var e := EscapeChar(c);
      ReadString(e + tail) == (var t := ReadString(tail);
                               if t.None? then None else Some(([c] + t.value.0, t.value.1)))
  {
    var e := EscapeChar(c);
    var s := e + tail;
    assert s[0] == e[0];
    if e[0] == '\\' {
      ReadEscapeChar(c, tail);
      assert s[1..] == e[1..] + tail;
    } else {
      assert s[1..] == tail;
    }
  }

  // ---------------------------------------------------------------- values

  datatype Json =
    | JNumber(n: int)
    | JString(text: string)
    | JArray(items: seq<Json>)
    | JObject(members: seq<Member>)

  datatype Member = Member(key: string, value: Json)

  function ShowInt(n: int): string {
    if n < 0 then "-" + Decimal(-n) else Decimal(n)
  }

  function Quoted(s: string): string {
    "\"" + Escape(s) + "\""
  }

  function Show(v: Json): string
    decreases v
  {
    match v
    case JNumber(n) => ShowInt(n)
    case JString(text) => Quoted(text)
    case JArray(items) => "[" + ShowItems(items) + "]"
    case JObject(members) => "{" + ShowMembers(members) + "}"
  }

  function ShowItems(items: seq<Json>): string
    decreases items
  {
    if items == [] then ""
    else if |items| == 1 then Show(items[0])
    else Show(items[0]) + "," + ShowItems(items[1..])
  }

  function ShowMembers(members: seq<Member>): string
    decreases members
  {
    if members == [] then ""
    else if |members| == 1 then ShowMember(members[0])
    else ShowMember(members[0]) + "," + ShowMembers(members[1..])
  }

  function ShowMember(m: Member): string
    decreases m
  {
    Quoted(m.key) + ":" + Show(m.value)
  }

  // ---------------------------------------------------------------- the reader

  predicate IsJsonSpace(c: char) {
    c == ' ' || c == '\t' || c == '\n' || c == '\r'
  }

  function SkipJson(s: string): (r: string)
    ensures |r| <= |s|
  {
    if s != "" && IsJsonSpace(s[0]) then SkipJson(s[1..]) else s
  }

  function ReadNumber(s: string): (r: Option<(Json, string)>)
    ensures r.Some? ==> |r.value.1| < |s|
  {
    var negative := s != "" && s[0] == '-';
    var (d, rest) := TakeDigits(if negative then s[1..] else s);
    if d == "" || (|d| > 1 && d[0] == '0') then None
    else
      var v: int := Value(d);
      assert |d| + |rest| == |if negative then s[1..] else s|;
      Some((JNumber(if negative then -v else v), rest))
  }

  function ReadValue(s: string): (r: Option<(Json, string)>)
    ensures r.Some? ==> |r.value.1| < |s|
    decreases |s|, 0
  {
    var t := SkipJson(s);
    if t == "" then None
    else if t[0] == '"' then
      var text := ReadString(t[1..]);
      if text.None? then None else Some((JString(text.value.0), text.value.1))
    else if t[0] == '[' then
      var u := SkipJson(t[1..]);
      if u != "" && u[0] == ']' then Some((JArray([]), u[1..]))
      else
        var items := ReadItems(u);
        if items.None? then None else Some((JArray(items.value.0), items.value.1))
    else if t[0] == '{' then
      var u := SkipJson(t[1..]);
      if u != "" && u[0] == '}' then Some((JObject([]), u[1..]))
      else
        var members := ReadMembers(u);
        if members.None? then None else Some((JObject(members.value.0), members.value.1))
    else ReadNumber(t)
  }

  /** The items of an array up to its closing bracket. */
  function ReadItems(s: string): (r: Option<(seq<Json>, string)>)
    ensures r.Some? ==> |r.value.1| < |s|
    decreases |s|, 1
  {
    var first := ReadValue(s);
    if first.None? then None
    else
      var t := SkipJson(first.value.1);
      if t != "" && t[0] == ']' then Some(([first.value.0], t[1..]))
      else if t != "" && t[0] == ',' then
        var others := ReadItems(t[1..]);
        if others.None? then None else Some(([first.value.0] + others.value.0, others.value.1))
      else None
  }

  function ReadMember(s: string): (r: Option<(Member, string)>)
    ensures r.Some? ==> |r.value.1| < |s|
    decreases |s|, 1
  {
    var t := SkipJson(s);
    if t == "" || t[0] != '"' then None
    else
      var key := ReadString(t[1..]);
      if key.None? then None
      else
        var u := SkipJson(key.value.1);
        if u == "" || u[0] != ':' then None
        else
          var value := ReadValue(u[1..]);
          if value.None? then None else Some((Member(key.value.0, value.value.0), value.value.1))
  }

  function ReadMembers(s: string): (r: Option<(seq<Member>, string)>)
    ensures r.Some? ==> |r.value.1| < |s|
    decreases |s|, 2
  {
    var first := ReadMember(s);
    if first.None? then None
    else
      var t := SkipJson(first.value.1);
      if t != "" && t[0] == '}' then Some(([first.value.0], t[1..]))
      else if t != "" && t[0] == ',' then
        var others := ReadMembers(t[1..]);
        if others.None? then None else Some(([first.value.0] + others.value.0, others.value.1))
      else None
  }

  // ---------------------------------------------------------------- reading what was shown

  /** What may follow a value so that its last digit is its last digit. */
  predicate Closed(rest: string) {
    rest != "" ==> !IsDigit(rest[0])
  }

  lemma {:induction false} ReadNumberText(d: string, rest: string)
    requires d != "" && AllDigits(d) && (|d| > 1 ==> d[0] != '0') && Closed(rest)
    ensures ReadNumber(d + rest) == Some((JNumber(Value(d)), rest))
    ensures ReadNumber("-" + (d + rest)) == Some((JNumber(-(Value(d) as int)), rest))
  {
    assert IsDigit(d[0]);
    assert (d + rest)[0] == d[0];
    assert ("-" + (d + rest))[1..] == d + rest;
    TakeDigitsOver(d, rest);
    hide TakeDigits, Value, AllDigits;
  }

  lemma {:induction false} ReadShownNumber(n: int, rest: string)
    requires Closed(rest)
    ensures ReadNumber(ShowInt(n) + rest) == Some((JNumber(n), rest))
  {
    hide Decimal, Value, ReadNumber;
    var m: nat := if n < 0 then -n else n;
    var d := Decimal(m);
    NoLeadingZero(m);
    ReadNumberText(d, rest);
    ValueDecimal(m);
    assert "-" + d + rest == "-" + (d + rest);
  }

  /** The first character of a shown value decides how it is read. */
  lemma {:induction false} ShowHead(v: Json)
    ensures var s := Show(v);
      && s != "" && !IsJsonSpace(s[0]) && s[0] != ']' && s[0] != '}'
      && (v.JNumber? ==> s[0] != '"' && s[0] != '[' && s[0] != '{')
  {
    if v.JNumber? {
      var m: nat := if v.n < 0 then -v.n else v.n;
      assert IsDigit(Decimal(m)[0]);
    }
  }

  lemma {:induction false} QuotedHead(key: string, rest: string)
    ensures var s := Quoted(key) + rest;
      s != "" && s[0] == '"' && s[1..] == Escape(key) + "\"" + rest
  {
  }

  /** Reading what was shown gives the value back: the printer and the reader agree
      on every value, every string and every nesting. */
  lemma {:induction false} ReadShown(v: Json, rest: string)
    requires Closed(rest)
    ensures ReadValue(Show(v) + rest) == Some((v, rest))
    decreases v, 1
  {
    var s := Show(v) + rest;
    ShowHead(v);
    assert s[0] == Show(v)[0];
    match v
    case JNumber(n) =>
      ReadShownNumber(n, rest);
    case JString(text) =>
      QuotedHead(text, rest);
      ReadEscaped(text, rest);
    case JArray(items) =>
      ReadShownArray(items, rest);
    case JObject(members) =>
      ReadShownObject(members, rest);
  }

  lemma {:induction false} ReadShownArray(items: seq<Json>, rest: string)
    ensures ReadValue(Show(JArray(items)) + rest) == Some((JArray(items), rest))
    decreases items, 3
  {
    var s := Show(JArray(items)) + rest;
    var body := ShowItems(items) + ("]" + rest);
    assert s == "[" + body;
    assert s[1..] == body;
    if items == [] {
      assert body == "]" + rest && body[1..] == rest;
    } else {
      ShowHead(items[0]);
      assert body[0] == Show(items[0])[0];
      ReadShownItems(items, rest);
    }
  }

  lemma {:induction false} ReadLastItem(s: string, v: Json, rest: string)
    requires ReadValue(s) == Some((v, "]" + rest))
    ensures ReadItems(s) == Some(([v], rest))
  {
    hide ReadValue;
    assert ("]" + rest)[1..] == rest;
  }

  lemma {:induction false} ReadNextItem(s: string, v: Json, t: string, vs: seq<Json>, rest: string)
    requires ReadValue(s) == Some((v, "," + t)) && ReadItems(t) == Some((vs, rest))
    ensures ReadItems(s) == Some(([v] + vs, rest))
  {
    hide ReadValue;
    assert ("," + t)[1..] == t;
  }

  lemma {:induction false} ItemsText(items: seq<Json>, close: string)
    requires items != []
    ensures |items| == 1 ==> items == [items[0]] && ShowItems(items) + close == Show(items[0]) + close
    ensures |items| > 1 ==> items == [items[0]] + items[1..]
    ensures |items| > 1 ==>
      ShowItems(items) + close == Show(items[0]) + ("," + (ShowItems(items[1..]) + close))
    ensures Closed("," + close) && Closed("]" + close)
  {
    hide Show;
  }

  lemma {:induction false} ReadShownItems(items: seq<Json>, rest: string)
    requires items != []
    ensures ReadItems(ShowItems(items) + ("]" + rest)) == Some((items, rest))
    decreases items, 2
  {
    hide *;
    var close := "]" + rest;
    ItemsText(items, close);
    if |items| == 1 {
      ItemsText(items, rest);
      ReadShown(items[0], close);
      ReadLastItem(Show(items[0]) + close, items[0], rest);
    } else {
      var t := ShowItems(items[1..]) + close;
      ItemsText(items, t);
      ReadShown(items[0], "," + t);
      ReadShownItems(items[1..], rest);
      ReadNextItem(Show(items[0]) + ("," + t), items[0], t, items[1..], rest);
    }
  }

  lemma {:induction false} MembersHead(members: seq<Member>)
    requires members != []
    ensures ShowMembers(members) != "" && ShowMembers(members)[0] == '"'
  {
    assert ShowMember(members[0])[0] == '"';
  }

  lemma {:induction false} ReadObjectText(members: seq<Member>, body: string, rest: string)
    requires members != [] && body != "" && body[0] == '"' && ReadMembers(body) == Some((members, rest))
    ensures ReadValue("{" + body) == Some((JObject(members), rest))
  {
    hide ReadMembers;
    assert ("{" + body)[1..] == body;
  }

  lemma {:induction false} ReadShownObject(members: seq<Member>, rest: string)
    ensures ReadValue(Show(JObject(members)) + rest) == Some((JObject(members), rest))
    decreases members, 3
  {
    var body := ShowMembers(members) + ("}" + rest);
    assert Show(JObject(members)) + rest == "{" + body;
    if members == [] {
      assert ("{" + body)[1..] == "}" + rest;
      assert ("}" + rest)[1..] == rest;
    } else {
      hide *;
      MembersHead(members);
      assert body[0] == ShowMembers(members)[0];
      ReadShownMembers(members, rest);
      ReadObjectText(members, body, rest);
    }
  }

  lemma {:induction false} ReadMemberText(key: string, v: Json, t: string, rest: string)
    requires ReadString(t) == Some((key, ":" + (Show(v) + rest))) && ReadValue(Show(v) + rest) == Some((v, rest))
    ensures ReadMember("\"" + t) == Some((Member(key, v), rest))
  {
    hide ReadString, ReadValue, Show;
    assert ("\"" + t)[1..] == t;
    assert (":" + (Show(v) + rest))[1..] == Show(v) + rest;
  }

  lemma {:induction false} MemberText(m: Member, rest: string)
    ensures ShowMember(m) + rest == "\"" + (Escape(m.key) + "\"" + (":" + (Show(m.value) + rest)))
  {
    hide Show, Escape;
  }

  lemma {:induction false} ReadShownMember(m: Member, rest: string)
    requires Closed(rest)
    ensures ReadMember(ShowMember(m) + rest) == Some((m, rest))
    decreases m, 1
  {
    hide *;
    var after := ":" + (Show(m.value) + rest);
    MemberText(m, rest);
    ReadEscaped(m.key, after);
    ReadShown(m.value, rest);
    ReadMemberText(m.key, m.value, Escape(m.key) + "\"" + after, rest);
  }

  lemma {:induction false} ReadLastMember(s: string, m: Member, rest: string)
    requires ReadMember(s) == Some((m, "}" + rest))
    ensures ReadMembers(s) == Some(([m], rest))
  {
    hide ReadMember;
    assert ("}" + rest)[1..] == rest;
  }

  lemma {:induction false} ReadNextMember(s: string, m: Member, t: string, ms: seq<Member>, rest: string)
    requires ReadMember(s) == Some((m, "," + t)) && ReadMembers(t) == Some((ms, rest))
    ensures ReadMembers(s) == Some(([m] + ms, rest))
  {
    hide ReadMember;
    assert ("," + t)[1..] == t;
  }

  lemma {:induction false} MembersText(members: seq<Member>, close: string)
    requires members != []
    ensures |members| == 1 ==> members == [members[0]] && ShowMembers(members) + close == ShowMember(members[0]) + close
    ensures |members| > 1 ==> members == [members[0]] + members[1..]
    ensures |members| > 1 ==>
      ShowMembers(members) + close == ShowMember(members[0]) + ("," + (ShowMembers(members[1..]) + close))
    ensures Closed("," + close) && Closed("}" + close)
  {
    hide ShowMember;
  }

  lemma {:induction false} ReadShownMembers(members: seq<Member>, rest: string)
    requires members != []
    ensures ReadMembers(ShowMembers(members) + ("}" + rest)) == Some((members, rest))
    decreases members, 2
  {
    hide *;
    var close := "}" + rest;
    MembersText(members, close);
    if |members| == 1 {
      MembersText(members, rest);
      ReadShownMember(members[0], close);
      ReadLastMember(ShowMember(members[0]) + close, members[0], rest);
    } else {
      var t := ShowMembers(members[1..]) + close;
      MembersText(members, t);
      ReadShownMember(members[0], "," + t);
      ReadShownMembers(members[1..], rest);
      ReadNextMember(ShowMember(members[0]) + ("," + t), members[0], t, members[1..], rest);
    }
  }

  // ---------------------------------------------------------------- the escaper and the builder

  lemma {:induction false} EscapeConcat(a: string, b: string)
    ensures Escape(a + b) == Escape(a) + Escape(b)
  {
    if a == "" {
      assert a + b == b;
    } else {
      assert (a + b)[1..] == a[1..] + b;
      EscapeConcat(a[1..], b);
    }
  }

  lemma {:induction false} EscapeNext(s: string, i: nat)
    requires i < |s|
    ensures Escape(s[..i + 1]) == Escape(s[..i]) + EscapeChar(s[i])
  {
    assert s[..i + 1] == s[..i] + [s[i]];
    EscapeConcat(s[..i], [s[i]]);
    assert Escape([s[i]]) == EscapeChar(s[i]) + Escape([s[i]][1..]);
  }

  /** Writes text at position pos, as the assignments out[pos++] and snprintf do. */
  method WriteAt(out: array<char>, pos: nat, text: string) returns (next: nat)
    requires pos + |text| <= out.Length
    modifies out
    ensures next == pos + |text| && out[..next] == old(out[..pos]) + text
  {
    var i := 0;
    while i < |text|
      invariant 0 <= i <= |text|
      invariant out[..pos + i] == old(out[..pos]) + text[..i]
    {
      out[pos + i] := text[i];
      i := i + 1;
    }
    next := pos + |text|;
  }

  /** json_escape_dup: before input byte i the write position is at most 6 * i, so
      the buffer of 6 * len + 1 bytes is large enough for everything and its end. */
  method EscapeDup(input: string) returns (out: array<char>, len: nat)
    ensures fresh(out) && out.Length == 6 * |input| + 1
    ensures len < out.Length && out[..len] == Escape(input) && out[len] == NUL
  {
    var cap := |input| * 6 + 1;
    out := new char[cap](_ => NUL);
    var pos := 0;
    var i := 0;
    while i < |input|
      invariant 0 <= i <= |input| && 0 <= pos <= 6 * i
      invariant out[..pos] == Escape(input[..i])
    {
      EscapeNext(input, i);
      pos := WriteAt(out, pos, EscapeChar(input[i]));
      i := i + 1;
    }
    assert input[..|input|] == input;
    out[pos] := NUL;
    len := pos;
  }

  /** A growing text buffer with its terminator. */
  class JsonBuilder {
    var data: array<char>
    var len: nat

    ghost predicate Valid()
      reads this, data
    {
      len < data.Length && data[len] == NUL
    }

    ghost function Contents(): string
      reads this, data
      requires Valid()
    {
      data[..len]
    }

    constructor ()
      ensures Valid() && Contents() == "" && fresh(data) && data.Length == 256
    {
      data := new char[256](_ => NUL);
      len := 0;
    }

    /** Doubles the capacity until extra more bytes and the terminator fit. */
    method Reserve(extra: nat)
      requires len < data.Length
      modifies this`data
      ensures len + extra + 1 <= data.Length && data[..len + 1] == old(data[..len + 1])
      ensures data == old(data) || fresh(data)
      ensures len + extra + 1 <= old(data.Length) ==> data == old(data)
      ensures len + extra + 1 > old(data.Length) ==> data.Length < 2 * (len + extra + 1)
    {
      var needed := len + extra + 1;
      if needed <= data.Length {
        return;
      }
      var nextCap := data.Length;
      while nextCap < needed
        modifies {}
        invariant data.Length <= nextCap && 0 < nextCap < 2 * needed
        decreases needed - nextCap
      {
        nextCap := nextCap * 2;
      }
      var next := new char[nextCap](_ => NUL);
      var i := 0;
      while i < data.Length
        modifies next
        invariant 0 <= i <= data.Length
        invariant forall x :: 0 <= x < i ==> next[x] == data[x]
      {
        next[i] := data[i];
        i := i + 1;
      }
      data := next;
    }

    method Append(text: string)
      requires Valid()
      modifies this, data
      ensures Valid() && Contents() == old(Contents()) + text
      ensures data == old(data) || fresh(data)
    {
      Reserve(|text|);
      var end := WriteAt(data, len, text);
      data[end] := NUL;
      len := end;
    }

    /** vsnprintf into what is left of the buffer, and again after growing it when the
        text did not fit; a first attempt leaves only a part of it behind. */
    method AppendFormatted(text: string)
      requires Valid()
      modifies this, data
      ensures Valid() && Contents() == old(Contents()) + text
      ensures data == old(data) || fresh(data)
    {
      var room := data.Length - len - 1;
      if |text| > room {
        var end := WriteAt(data, len, text[..room]);
        data[end] := NUL;
        assert data[..len] == data[..end][..len];
        Reserve(|text| + 1);
      }
      var end := WriteAt(data, len, text);
      data[end] := NUL;
      len := end;
    }

    /** json_builder_take: gives the text away and leaves a builder without a buffer. */
    method Take() returns (text: string)
      requires Valid()
      modifies this
      ensures text == old(Contents())
      ensures len == 0 && data.Length == 0 && fresh(data) && !Valid()
    {
      text := data[..len];
      data := new char[0];
      len := 0;
    }

    method AppendString(text: string)
      requires Valid()
      modifies this, data
      ensures Valid() && Contents() == old(Contents()) + Quoted(text)
      ensures data == old(data) || fresh(data)
    {
      hide Escape;
      ghost var was := Contents();
      var buffer, n := EscapeDup(text);
      var escaped := buffer[..n];
      assert Contents() == was;
      Append("\"");
      Append(escaped);
      Append("\"");
      assert Contents() == was + "\"" + escaped + "\"";
    }
  }
}
