/** Whole requests as a client writes them, and that the reader gets them back. */
module RequestText {
  import opened Options
  import opened Text
  import opened RequestReader

  // ---------------------------------------------------------------- what a client writes

  predicate PlainLine(l: string) {
    l != "" && '\r' !in l && NUL !in l
  }

  /** A line of the field that states the length, its name in any letter case. */
  predicate IsLengthField(l: string) {
    |l| >= 15 && Recased(l[..15], "Content-Length:")
  }

  lemma {:induction false} LengthFieldIff(l: string)
    ensures IsLengthField(l) <==> |l| >= |LENGTH_FIELD| && SameNoCase(l[..|LENGTH_FIELD|], LENGTH_FIELD)
  {
    hide SameNoCase, Recased;
    if |l| >= 15 {
      RecasedIff(l[..15], LENGTH_FIELD);
    }
  }

  function LinesText(ls: seq<string>): string {
    if ls == [] then "" else ls[0] + ("\r\n" + LinesText(ls[1..]))
  }

  predicate IsWord(w: string, size: nat) {
    w != "" && |w| <= size && forall i :: 0 <= i < |w| ==> !IsSpace(w[i]) && w[i] != NUL
  }

  /** The verb, the path, and whatever else stands on the request line after a space. */
  function RequestLine(verb: string, path: string, version: string): string {
    verb + (" " + (path + (" " + version)))
  }

  /** Some fields, a Content-Length field in any letter case with any blanks before its
      value, and some more fields. */
  datatype Fields = Fields(before: seq<string>, name: string, blanks: string, after: seq<string>)

  predicate GoodFields(f: Fields) {
    && PlainFields(f.before)
    && (forall i :: 0 <= i < |f.after| ==> PlainLine(f.after[i]))
    && Recased(f.name, "Content-Length:")
    && AllSpace(f.blanks) && '\r' !in f.blanks
  }

  /** Fields that do not state the length. */
  predicate PlainFields(fields: seq<string>) {
    forall i :: 0 <= i < |fields| ==> PlainLine(fields[i]) && !IsLengthField(fields[i])
  }

  function LengthLine(f: Fields, value: string): string {
    f.name + (f.blanks + value)
  }

  function HeadLines(line: string, f: Fields, value: string): seq<string> {
    [line] + (f.before + ([LengthLine(f, value)] + f.after))
  }

  /** The value of a field: anything that does not start with white space. */
  predicate IsValue(value: string) {
    value != "" && !IsSpace(value[0]) && '\r' !in value && NUL !in value
  }

  function HeadText(lines: seq<string>): string {
    LinesText(lines) + "\r\n"
  }

  // ---------------------------------------------------------------- the end of the headers

  predicate PlainLines(ls: seq<string>) {
    forall i :: 0 <= i < |ls| ==> PlainLine(ls[i])
  }

  lemma {:induction false} NotHere(s: string, pat: string, j: nat, k: nat)
    requires k < |pat| && (j + k >= |s| || s[j + k] != pat[k])
    ensures !Occurs(s, pat, j)
  {
    if j + |pat| <= |s| {
      assert s[j..j + |pat|][k] == s[j + k];
    }
  }

  /** The first line break of a text that starts with a plain line. */
  lemma {:induction false} FirstBreak(l: string, rest: string)
    requires PlainLine(l)
    ensures Find(l + ("\r\n" + rest), "\r\n") == Some(|l|)
  {
    var s := l + ("\r\n" + rest);
    assert s[|l|..|l| + 2] == "\r\n";
    forall j: nat | j < |l| ensures !Occurs(s, "\r\n", j) {
      assert s[j] == l[j];
      NotHere(s, "\r\n", j, 0);
    }
    FirstIs(s, "\r\n", |l|);
  }

  lemma {:induction false} NotBefore(l: string, rest: string, j: nat)
    requires PlainLine(l) && rest != "" && rest[0] != '\r' && j < |l| + 2
    ensures !Occurs(l + ("\r\n" + rest), HEADER_END, j)
  {
    var s := l + ("\r\n" + rest);
    NotHere(s, HEADER_END, j, if j == |l| then 2 else 0);
  }

  lemma {:induction false} Shifted(l: string, rest: string, j: nat)
    ensures Occurs(l + ("\r\n" + rest), HEADER_END, |l| + 2 + j) <==> Occurs(rest, HEADER_END, j)
  {
    var s := l + ("\r\n" + rest);
    if j + 4 <= |rest| {
      assert s[|l| + 2 + j..|l| + 2 + j + 4] == rest[j..j + 4];
    }
  }

  lemma {:induction false} OneLineEnds(l: string)
    requires PlainLine(l)
    ensures Find(l + ("\r\n" + "\r\n"), HEADER_END) == Some(|l|)
  {
    hide Find;
    var s := l + ("\r\n" + "\r\n");
    assert s[|l|..|l| + 4] == HEADER_END;
    forall j: nat | j < |l| ensures !Occurs(s, HEADER_END, j) {
      assert s[j] == l[j];
      NotHere(s, HEADER_END, j, 0);
    }
    FirstIs(s, HEADER_END, |l|);
  }

  lemma {:induction false} LinesEnd(l: string, rest: string, i: nat)
    requires PlainLine(l) && rest != "" && rest[0] != '\r' && Find(rest, HEADER_END) == Some(i)
    ensures Find(l + ("\r\n" + rest), HEADER_END) == Some(|l| + 2 + i)
  {
    hide Find, Occurs, PlainLine;
    var s := l + ("\r\n" + rest);
    Shifted(l, rest, i);
    forall j: nat | j < |l| + 2 + i ensures !Occurs(s, HEADER_END, j) {
      if j < |l| + 2 {
        NotBefore(l, rest, j);
      } else {
        Shifted(l, rest, j - |l| - 2);
      }
    }
    FirstIs(s, HEADER_END, |l| + 2 + i);
  }

  lemma {:induction false} HeadStep(ls: seq<string>)
    requires ls != []
    ensures HeadText(ls) == ls[0] + ("\r\n" + HeadText(ls[1..]))
    ensures |LinesText(ls)| == |ls[0]| + 2 + |LinesText(ls[1..])|
    ensures ls[0] != "" ==> LinesText(ls)[0] == ls[0][0]
    ensures |ls| == 1 ==> HeadText(ls[1..]) == "\r\n" && LinesText(ls[1..]) == ""
  {
    var a, b := ls[0], LinesText(ls[1..]);
    assert a + ("\r\n" + b) + "\r\n" == a + ("\r\n" + (b + "\r\n"));
  }

  /** The headers end where the last line ends, and nowhere before. */
  lemma {:induction false} HeadEnds(ls: seq<string>)
    requires ls != [] && PlainLines(ls)
    ensures |LinesText(ls)| >= 3 && LinesText(ls)[0] != '\r'
    ensures Find(HeadText(ls), HEADER_END) == Some(|LinesText(ls)| - 2)
    decreases |ls|
  {
    hide Find, HeadText, LinesText;
    HeadStep(ls);
    assert PlainLine(ls[0]);
    if |ls| == 1 {
      OneLineEnds(ls[0]);
    } else {
      HeadEnds(ls[1..]);
      HeadFirst(ls[1..]);
      LinesEnd(ls[0], HeadText(ls[1..]), |LinesText(ls[1..])| - 2);
    }
  }

  lemma {:induction false} HeadFirst(ls: seq<string>)
    requires LinesText(ls) != ""
    ensures HeadText(ls) != "" && HeadText(ls)[0] == LinesText(ls)[0]
  {
    hide LinesText;
  }

  // ---------------------------------------------------------------- the request line

  lemma {:induction false} WordTaken(w: string, rest: string, size: nat)
    requires (forall i :: 0 <= i < |w| ==> !IsSpace(w[i])) && |w| <= size
    requires rest != "" && IsSpace(rest[0])
    ensures RequestReader.TakeWord(w + rest, size) == (w, rest)
    decreases |w|
  {
    if w == "" {
      assert w + rest == rest;
    } else {
      assert (w + rest)[1..] == w[1..] + rest;
      WordTaken(w[1..], rest, size - 1);
      assert [w[0]] + w[1..] == w;
    }
  }

  lemma {:induction false} NotSkipped(w: string, rest: string)
    requires w != "" && !IsSpace(w[0])
    ensures SkipSpace(w + rest) == w + rest
  {
    assert (w + rest)[0] == w[0];
  }

  lemma {:induction false} WordCut(w: string, rest: string, size: nat)
    requires (forall i :: 0 <= i < |w| ==> !IsSpace(w[i])) && |w| >= size
    ensures RequestReader.TakeWord(w + rest, size) == (w[..size], w[size..] + rest)
    decreases |w|
  {
    if size == 0 {
      assert w[..0] == "" && w[0..] == w;
    } else {
      assert (w + rest)[1..] == w[1..] + rest;
      WordCut(w[1..], rest, size - 1);
      assert [w[0]] + w[1..][..size - 1] == w[..size] && w[1..][size - 1..] == w[size..];
    }
  }

  predicate NoSpaces(w: string) {
    w != "" && forall i :: 0 <= i < |w| ==> !IsSpace(w[i])
  }

  /** Words that do not fit their buffers: a path is cut after 127 bytes, and what is left
      of a verb after 7 bytes is taken for the path. */
  lemma {:induction false} LongLineScanned(verb: string, path: string, rest: string)
    requires NoSpaces(verb) && NoSpaces(path)
    ensures |verb| <= 7 && |path| > 127 ==>
      ScanRequestLine(verb + (" " + (path + (" " + rest)))) == Some((verb, path[..127]))
    ensures 7 < |verb| <= 134 ==>
      ScanRequestLine(verb + (" " + (path + (" " + rest)))) == Some((verb[..7], verb[7..]))
    ensures |verb| > 134 ==>
      ScanRequestLine(verb + (" " + (path + (" " + rest)))) == Some((verb[..7], verb[7..134]))
  {
    hide SkipSpace, RequestReader.TakeWord;
    var tail := path + (" " + rest);
    NotSkipped(verb, " " + tail);
    if |verb| <= 7 {
      WordTaken(verb, " " + tail, 7);
      assert tail != "" && tail[0] == path[0];
      OneSpace(tail);
      assert [' '] + tail == " " + tail;
      if |path| > 127 {
        WordCut(path, " " + rest, 127);
      }
    } else {
      WordCut(verb, " " + tail, 7);
      var left := verb[7..];
      NotSkipped(left, " " + tail);
      if |verb| <= 134 {
        WordTaken(left, " " + tail, 127);
      } else {
        WordCut(left, " " + tail, 127);
        assert left[..127] == verb[7..134];
      }
    }
  }

  /** Verb and path are taken off the request line. */
  lemma {:induction false} LineScanned(verb: string, path: string, rest: string)
    requires IsWord(verb, 7) && IsWord(path, 127)
    ensures ScanRequestLine(verb + (" " + (path + (" " + rest)))) == Some((verb, path))
  {
    hide SkipSpace, RequestReader.TakeWord;
    var tail := path + (" " + rest);
    NotSkipped(verb, " " + tail);
    WordTaken(verb, " " + tail, 7);
    assert tail != "" && tail[0] == path[0];
    OneSpace(tail);
    assert [' '] + tail == " " + tail;
    WordTaken(path, " " + rest, 127);
  }

  // ---------------------------------------------------------------- the length field

  lemma {:induction false} LineStep(l: string, rest: string, room: nat)
    requires PlainLine(l) && room >= |l|
    ensures IsLengthField(l) ==> FieldValue(l + ("\r\n" + rest), room) == Some(l[15..] + ("\r\n" + rest))
    ensures !IsLengthField(l) && room >= |l| + 2 ==>
      FieldValue(l + ("\r\n" + rest), room) == FieldValue(rest, room - |l| - 2)
    ensures !IsLengthField(l) && room < |l| + 2 ==> FieldValue(l + ("\r\n" + rest), room) == None
  {
    hide Find, FieldValue, SameNoCase, IsLengthField;
    var s := l + ("\r\n" + rest);
    FirstBreak(l, rest);
    LengthFieldIff(l);
    FieldStep(s, room, |l|);
    assert s[|l| + 2..] == rest;
    if |l| >= |LENGTH_FIELD| {
      assert s[..|LENGTH_FIELD|] == l[..|LENGTH_FIELD|];
      assert s[|LENGTH_FIELD|..] == l[|LENGTH_FIELD|..] + ("\r\n" + rest);
    }
    if IsLengthField(l) {
      ShortestField(l);
    }
  }

  lemma {:induction false} ShortestField(l: string)
    requires IsLengthField(l)
    ensures |l| >= 15
  {
  }

  /** The search passes over the other fields and finds the one with the length. */
  lemma {:induction false} FieldFound(before: seq<string>, line: string, after: seq<string>, tail: string)
    requires PlainFields(before)
    requires PlainLine(line) && IsLengthField(line)
    ensures var text := LinesText(before + ([line] + after));
      && |text| > 2 && |line| >= 15
      && FieldValue(text + tail, |text| - 2)
        == Some(line[15..] + ("\r\n" + (LinesText(after) + tail)))
    decreases |before|
  {
    hide FieldValue, IsLengthField;
    ShortestField(line);
    var ls := before + ([line] + after);
    var text := LinesText(ls);
    if before == [] {
      assert ls == [line] + after && ls[0] == line && ls[1..] == after;
      assert text + tail == line + ("\r\n" + (LinesText(after) + tail));
      LineStep(line, LinesText(after) + tail, |text| - 2);
    } else {
      var others := before[1..] + ([line] + after);
      assert ls[0] == before[0] && ls[1..] == others;
      FieldFound(before[1..], line, after, tail);
      assert text + tail == before[0] + ("\r\n" + (LinesText(others) + tail));
      LineStep(before[0], LinesText(others) + tail, |text| - 2);
    }
  }

  lemma {:induction false} BlanksSkipped(blanks: string, value: string, rest: string)
    requires AllSpace(blanks) && IsValue(value)
    ensures SkipSpace(blanks + (value + rest)) == value + rest && value + rest != ""
  {
    SkipSpaceOver(blanks, value + rest);
    NotSkipped(value, rest);
  }

  lemma {:induction false} LengthLineIs(f: Fields, value: string)
    requires GoodFields(f) && IsValue(value)
    ensures var l := LengthLine(f, value); PlainLine(l) && IsLengthField(l) && l[15..] == f.blanks + value
  {
    var l := LengthLine(f, value);
    assert l[..15] == f.name;
    FieldNamePlain(f.name);
    hide Recased;
    forall c <- l ensures c != '\r' && c != NUL {
      assert c in f.name || c in f.blanks || c in value;
    }
  }

  lemma {:induction false} FieldNamePlain(name: string)
    requires Recased(name, "Content-Length:")
    ensures '\r' !in name && NUL !in name
  {
    forall i | 0 <= i < |name| ensures name[i] != '\r' && name[i] != NUL {
      assert SameLetter(name[i], "Content-Length:"[i]);
    }
  }

  // ---------------------------------------------------------------- the whole head

  lemma {:induction false} TextOfLines(ls: seq<string>)
    requires PlainLines(ls)
    ensures NUL !in LinesText(ls)
  {
    if ls != [] {
      TextOfLines(ls[1..]);
    }
  }

  lemma {:induction false} LinesArePlain(line: string, f: Fields, value: string)
    requires PlainLine(line) && GoodFields(f) && IsValue(value)
    ensures PlainLines(HeadLines(line, f, value))
  {
    LengthLineIs(f, value);
    hide PlainLine, LengthLine, IsLengthField, Recased;
  }

  /** What follows the value of the length field. */
  function AfterValue(f: Fields): string {
    "\r\n" + (LinesText(f.after) + "\r\n")
  }

  /** In such headers the search finds the length field, with its value. */
  lemma {:induction false} LengthFound(line: string, f: Fields, value: string)
    requires PlainLine(line) && GoodFields(f) && IsValue(value)
    ensures var lines := HeadLines(line, f, value);
      var head, end := HeadText(lines), |LinesText(lines)| - 2;
      && EndsAt(head, end)
      && LengthValue(head, end).Some? && SkipSpace(LengthValue(head, end).value) != ""
      && ContentLength(head, end) == ReadUnsigned(value + AfterValue(f))
  {
    hide *;
    var lines := HeadLines(line, f, value);
    var fields := f.before + ([LengthLine(f, value)] + f.after);
    LinesArePlain(line, f, value);
    HeadShape(line, f, value);
    FieldsShape(line, fields);
    HeadEnds(lines);
    var head, end := HeadText(lines), |LinesText(lines)| - 2;
    HeadEndsAt(lines);
    FieldsGood(f);
    LengthLineIs(f, value);
    FieldFound(f.before, LengthLine(f, value), f.after, "\r\n");
    FirstBreak(line, LinesText(fields) + "\r\n");
    ValueAt(head, line, LinesText(fields), end);
    AfterIs(f);
    assert f.blanks + value + AfterValue(f) == f.blanks + (value + AfterValue(f));
    BlanksSkipped(f.blanks, value, AfterValue(f));
    LengthBefore(head, "", end);
  }

  lemma {:induction false} AfterIs(f: Fields)
    ensures AfterValue(f) == "\r\n" + (LinesText(f.after) + "\r\n")
    ensures AfterValue(f) != "" && !IsDigit(AfterValue(f)[0])
  {
    hide LinesText;
  }

  lemma {:induction false} FieldsGood(f: Fields)
    requires GoodFields(f)
    ensures PlainFields(f.before) && AllSpace(f.blanks)
  {
  }

  lemma {:induction false} HeadShape(line: string, f: Fields, value: string)
    ensures var fields := f.before + ([LengthLine(f, value)] + f.after);
      HeadLines(line, f, value) == [line] + fields
  {
  }

  lemma {:induction false} FieldsShape(line: string, fields: seq<string>)
    ensures LinesText([line] + fields) == line + ("\r\n" + LinesText(fields))
    ensures HeadText([line] + fields) == line + ("\r\n" + (LinesText(fields) + "\r\n"))
  {
    assert ([line] + fields)[1..] == fields;
  }

  lemma {:induction false} HeadEndsAt(ls: seq<string>)
    requires Find(HeadText(ls), HEADER_END) == Some(|LinesText(ls)| - 2)
    ensures EndsAt(HeadText(ls), |LinesText(ls)| - 2)
  {
    hide Find, LinesText;
    assert Occurs(HeadText(ls), HEADER_END, |LinesText(ls)| - 2);
  }

  lemma {:induction false} ValueAt(head: string, line: string, fields: string, end: nat)
    requires head == line + ("\r\n" + (fields + "\r\n")) && end == |line| + |fields| && |fields| > 2
    requires Find(head, "\r\n") == Some(|line|)
    ensures LengthValue(head, end) == FieldValue(fields + "\r\n", |fields| - 2)
  {
    hide Find, FieldValue;
    assert head[|line| + 2..] == fields + "\r\n";
  }

  predicate IsRequest(verb: string, path: string, version: string, f: Fields) {
    IsWord(verb, 7) && IsWord(path, 127) && '\r' !in version && NUL !in version && GoodFields(f)
  }

  lemma {:induction false} WordPlain(w: string, size: nat)
    requires IsWord(w, size)
    ensures '\r' !in w && NUL !in w && w != ""
  {
    assert IsSpace('\r');
  }

  lemma {:induction false} LinePlain(verb: string, path: string, version: string)
    requires IsWord(verb, 7) && IsWord(path, 127) && '\r' !in version && NUL !in version
    ensures PlainLine(RequestLine(verb, path, version))
  {
    hide IsWord;
    WordPlain(verb, 7);
    WordPlain(path, 127);
    var l := RequestLine(verb, path, version);
    forall c <- l ensures c != '\r' && c != NUL {
      assert c in verb || c == ' ' || c in path || c in version;
    }
  }

  lemma {:induction false} LineOfHead(verb: string, path: string, version: string, fields: string)
    ensures RequestLine(verb, path, version) + ("\r\n" + fields)
      == verb + (" " + (path + (" " + (version + ("\r\n" + fields)))))
  {
  }

  /** The first line of a head, whatever fields follow it. */
  lemma {:induction false} FirstLineRead(verb: string, path: string, version: string, fields: seq<string>)
    requires IsWord(verb, 7) && IsWord(path, 127) && '\r' !in version && NUL !in version
    ensures ScanRequestLine(HeadText([RequestLine(verb, path, version)] + fields)) == Some((verb, path))
  {
    var line := RequestLine(verb, path, version);
    FieldsShape(line, fields);
    var rest := LinesText(fields) + "\r\n";
    LineOfHead(verb, path, version, rest);
    LineScanned(verb, path, version + ("\r\n" + rest));
    hide HeadText, LinesText, ScanRequestLine, IsWord, RequestLine;
  }

  /** Everything that the reader takes from the headers of a request. */
  lemma {:induction false} HeadRead(verb: string, path: string, version: string, f: Fields, value: string)
    requires IsRequest(verb, path, version, f) && IsValue(value)
    ensures var lines := HeadLines(RequestLine(verb, path, version), f, value);
      var head, end := HeadText(lines), |LinesText(lines)| - 2;
      && EndsAt(head, end) && Find(head, HEADER_END) == Some(end) && NUL !in head
      && Steady(head, end)
      && ScanRequestLine(head) == Some((verb, path))
      && ContentLength(head, end) == ReadUnsigned(value + AfterValue(f))
  {
    var line := RequestLine(verb, path, version);
    LinePlain(verb, path, version);
    LinesArePlain(line, f, value);
    var lines := HeadLines(line, f, value);
    HeadEnds(lines);
    TextOfLines(lines);
    LengthFound(line, f, value);
    HeadShape(line, f, value);
    FirstLineRead(verb, path, version, f.before + ([LengthLine(f, value)] + f.after));
    hide RequestLine, LinesText, HeadLines, LengthLine, GoodFields, IsWord, PlainLine, PlainLines, EndsAt, HeadText;
    hide ScanRequestLine, ContentLength, LengthValue, SkipSpace, Find, ReadUnsigned, AfterValue, IsValue;
  }

  // ---------------------------------------------------------------- stated lengths

  /** The length that a number with this sign states: strtoul cuts it at the largest
      unsigned long and wraps a negative one around. */
  function Stated(sign: string, n: nat): nat {
    if n > 18446744073709551615 then 18446744073709551615
    else if sign == "-" && n > 0 then 18446744073709551616 - n
    else n
  }

  predicate IsSign(sign: string) {
    sign == "" || sign == "+" || sign == "-"
  }

  /** Text behind the number. */
  predicate IsJunk(junk: string) {
    (junk != "" ==> !IsDigit(junk[0])) && '\r' !in junk && NUL !in junk
  }

  function NumberText(sign: string, n: nat, junk: string): string {
    sign + (Decimal(n) + junk)
  }

  lemma {:induction false} NumberIsValue(sign: string, n: nat, junk: string)
    requires IsSign(sign) && IsJunk(junk)
    ensures IsValue(NumberText(sign, n, junk))
  {
    var v := NumberText(sign, n, junk);
    assert AllDigits(Decimal(n));
    assert IsDigit(Decimal(n)[0]);
    hide Decimal;
    assert v[0] == if sign == "" then Decimal(n)[0] else sign[0];
    forall c <- v ensures c != '\r' && c != NUL {
      assert c in sign || c in Decimal(n) || c in junk;
    }
  }

  lemma {:induction false} NumberRead(sign: string, n: nat, junk: string, rest: string)
    requires IsSign(sign) && IsJunk(junk) && (rest != "" ==> !IsDigit(rest[0]))
    ensures ReadUnsigned(NumberText(sign, n, junk) + rest) == Some(Stated(sign, n))
  {
    hide Decimal, ReadInteger;
    var tail := junk + rest;
    assert tail != "" ==> !IsDigit(tail[0]);
    assert NumberText(sign, n, junk) + rest == sign + (Decimal(n) + tail);
    assert AllSpace("");
    ReadDecimal("", n, tail);
    ReadSigned("", n, tail);
    NothingBefore(Decimal(n) + tail);
    NothingBefore("-" + (Decimal(n) + tail));
    NothingBefore("+" + (Decimal(n) + tail));
  }

  lemma {:induction false} NothingBefore(s: string)
    ensures "" + s == s
  {
  }

  // ---------------------------------------------------------------- where the reader stops

  lemma {:induction false} HeadSteady(head: string, end: nat, more: string, limits: Limits)
    requires EndsAt(head, end) && Find(head, HEADER_END) == Some(end) && NUL !in head && Steady(head, end)
    requires |head| <= limits.request
    ensures var s := head + more; StoppedAt(s, |head|, limits) && SteadyStream(s, limits) && s[..|head|] == head
  {
    hide Find, Steady, UpToNul;
    var s := head + more;
    assert s[..|head|] == head;
    UpToNulWhole(head);
    UpToNulGrows(s, |head|, Within(s, limits));
    var all := UpToNul(s[..Within(s, limits)]);
    assert all == head + all[|head|..];
    FindBefore(head, all[|head|..], HEADER_END);
    assert all[..end + |HEADER_END|] == head;
  }

  lemma {:induction false} NoEndYet(head: string, end: nat, k: nat)
    requires EndsAt(head, end) && Find(head, HEADER_END) == Some(end) && NUL !in head && k < |head|
    ensures UpToNul(head[..k]) == head[..k] && Find(head[..k], HEADER_END) == None
  {
    hide Find, UpToNul;
    var part := head[..k];
    UpToNulWhole(part);
    if Find(part, HEADER_END).Some? {
      assert head == part + head[k..];
      FindBefore(part, head[k..], HEADER_END);
      Bounded(part, HEADER_END, end);
      assert false;
    }
  }

  /** As long as the headers are not complete the reader goes on, to the end of the stream
      or of its buffer. */
  lemma {:induction false} HeadUnfinished(head: string, end: nat, s: string, seen: nat, broken: bool, limits: Limits)
    requires EndsAt(head, end) && Find(head, HEADER_END) == Some(end) && NUL !in head
    requires StoppedAt(s, seen, limits) && seen < |head| && s[..seen] == head[..seen]
    ensures seen == Within(s, limits)
    ensures Answer(s, seen, broken, limits)
      == if seen >= limits.request then Rejected(HeadersTooLarge) else Rejected(if broken then Broken else Closed)
  {
    hide Find, UpToNul, ReadHead;
    NoEndYet(head, end, seen);
  }

  /** Complete headers decide what becomes of the request. */
  lemma {:induction false} AnswerToHead(head: string, end: nat, verb: string, path: string, more: string, seen: nat,
                                        broken: bool, limits: Limits)
    requires EndsAt(head, end) && Find(head, HEADER_END) == Some(end) && NUL !in head && Steady(head, end)
    requires ScanRequestLine(head) == Some((verb, path)) && StoppedAt(head + more, seen, limits)
    ensures var length := ContentLength(head, end);
      Answer(head + more, seen, broken, limits) ==
        if |head| > limits.request then Rejected(HeadersTooLarge)
        else if length.None? then Rejected(BadHead(InvalidLength))
        else if length.value > limits.body then Rejected(BadHead(BodyTooLarge))
        else if |head| + length.value > limits.request then Rejected(BadHead(RequestTooLarge))
        else if |more| < length.value then Rejected(if broken then Broken else Closed)
        else Accepted(verb, path, more[..length.value])
  {
    hide Find, UpToNul, ScanRequestLine, ContentLength, Steady;
    var s := head + more;
    if |head| > limits.request {
      assert s[..seen] == head[..seen];
      HeadUnfinished(head, end, s, seen, broken, limits);
    } else {
      HeadSteady(head, end, more, limits);
      hide SteadyStream, StoppedAt;
      Confluence(s, seen, |head|, broken, limits);
      UpToNulWhole(head);
      var length := ContentLength(head, end);
      assert length.Some? && |more| >= length.value ==> s[|head|..|head| + length.value] == more[..length.value];
    }
  }

  // ---------------------------------------------------------------- what becomes of a request

  /** A request that a client wrote, with any words on its first line, any fields around a
      Content-Length, any number in that field and any bytes after the headers: this is its
      outcome, however the stream is cut into pieces. */
  lemma {:induction false} RequestOutcome(verb: string, path: string, version: string, f: Fields,
                                          sign: string, n: nat, junk: string, more: string,
                                          seen: nat, broken: bool, limits: Limits)
    requires IsRequest(verb, path, version, f) && IsSign(sign) && IsJunk(junk)
    requires StoppedAt(HeadText(HeadLines(RequestLine(verb, path, version), f, NumberText(sign, n, junk))) + more,
                       seen, limits)
    ensures var head := HeadText(HeadLines(RequestLine(verb, path, version), f, NumberText(sign, n, junk)));
      var length := Stated(sign, n);
      Answer(head + more, seen, broken, limits) ==
        if |head| > limits.request then Rejected(HeadersTooLarge)
        else if length > limits.body then Rejected(BadHead(BodyTooLarge))
        else if |head| + length > limits.request then Rejected(BadHead(RequestTooLarge))
        else if |more| < length then Rejected(if broken then Broken else Closed)
        else Accepted(verb, path, more[..length])
  {
    hide *;
    var value := NumberText(sign, n, junk);
    NumberIsValue(sign, n, junk);
    HeadRead(verb, path, version, f, value);
    AfterIs(f);
    NumberRead(sign, n, junk, AfterValue(f));
    var lines := HeadLines(RequestLine(verb, path, version), f, value);
    AnswerToHead(HeadText(lines), |LinesText(lines)| - 2, verb, path, more, seen, broken, limits);
  }

  /** A field whose value does not start with a number is rejected. */
  lemma {:induction false} InvalidLengthOutcome(verb: string, path: string, version: string, f: Fields, value: string,
                                                more: string, seen: nat, broken: bool, limits: Limits)
    requires IsRequest(verb, path, version, f) && IsValue(value)
    requires !IsDigit(value[0]) && value[0] != '-' && value[0] != '+'
    requires StoppedAt(HeadText(HeadLines(RequestLine(verb, path, version), f, value)) + more, seen, limits)
    ensures var head := HeadText(HeadLines(RequestLine(verb, path, version), f, value));
      Answer(head + more, seen, broken, limits) ==
        Rejected(if |head| > limits.request then HeadersTooLarge else BadHead(InvalidLength))
  {
    hide *;
    ReadNoNumber(value, AfterValue(f));
    HeadRead(verb, path, version, f, value);
    var lines := HeadLines(RequestLine(verb, path, version), f, value);
    AnswerToHead(HeadText(lines), |LinesText(lines)| - 2, verb, path, more, seen, broken, limits);
  }

  lemma {:induction false} ReadNoNumber(value: string, rest: string)
    requires IsValue(value) && !IsDigit(value[0]) && value[0] != '-' && value[0] != '+'
    ensures ReadUnsigned(value + rest) == None
  {
    hide ReadInteger;
    assert AllSpace("");
    ReadNoInteger("", value + rest);
    NothingBefore(value + rest);
  }

  lemma {:induction false} CutHead(head: string, end: nat, k: nat, seen: nat, broken: bool, limits: Limits)
    requires EndsAt(head, end) && Find(head, HEADER_END) == Some(end) && NUL !in head && k < |head|
    requires StoppedAt(head[..k], seen, limits)
    ensures Answer(head[..k], seen, broken, limits)
      == if k >= limits.request then Rejected(HeadersTooLarge) else Rejected(if broken then Broken else Closed)
  {
    hide Find, UpToNul, Answer;
    assert head[..k][..seen] == head[..seen];
    HeadUnfinished(head, end, head[..k], seen, broken, limits);
  }

  /** A stream that ends before the headers do: cut off, or too long for the buffer. */
  lemma {:induction false} CutOutcome(verb: string, path: string, version: string, f: Fields, value: string, k: nat,
                                      seen: nat, broken: bool, limits: Limits)
    requires IsRequest(verb, path, version, f) && IsValue(value)
    requires k < |HeadText(HeadLines(RequestLine(verb, path, version), f, value))|
    requires StoppedAt(HeadText(HeadLines(RequestLine(verb, path, version), f, value))[..k], seen, limits)
    ensures Answer(HeadText(HeadLines(RequestLine(verb, path, version), f, value))[..k], seen, broken, limits)
      == if k >= limits.request then Rejected(HeadersTooLarge) else Rejected(if broken then Broken else Closed)
  {
    hide *;
    var lines := HeadLines(RequestLine(verb, path, version), f, value);
    HeadRead(verb, path, version, f, value);
    CutHead(HeadText(lines), |LinesText(lines)| - 2, k, seen, broken, limits);
  }

  lemma {:induction false} NoLengthFound(fields: seq<string>, tail: string)
    requires fields != [] && PlainFields(fields)
    ensures |LinesText(fields)| > 2 && FieldValue(LinesText(fields) + tail, |LinesText(fields)| - 2) == None
    decreases |fields|
  {
    hide FieldValue, IsLengthField;
    var others := fields[1..];
    assert LinesText(fields) + tail == fields[0] + ("\r\n" + (LinesText(others) + tail));
    LineStep(fields[0], LinesText(others) + tail, |LinesText(fields)| - 2);
    if others != [] {
      NoLengthFound(others, tail);
    }
  }

  lemma {:induction false} NoLengthHead(line: string, fields: seq<string>)
    requires PlainLine(line) && PlainFields(fields)
    ensures var lines := [line] + fields;
      var head, end := HeadText(lines), |LinesText(lines)| - 2;
      && EndsAt(head, end) && Find(head, HEADER_END) == Some(end) && NUL !in head
      && LengthValue(head, end) == None && ContentLength(head, end) == Some(0)
  {
    hide *;
    var lines := [line] + fields;
    FieldsArePlain(line, fields);
    HeadEnds(lines);
    FieldsShape(line, fields);
    var head, end := HeadText(lines), |LinesText(lines)| - 2;
    HeadEndsAt(lines);
    FirstBreak(line, LinesText(fields) + "\r\n");
    NoLengthValue(head, line, fields, end);
    LengthBefore(head, "", end);
  }

  lemma {:induction false} FieldsArePlain(line: string, fields: seq<string>)
    requires PlainLine(line) && PlainFields(fields)
    ensures PlainLines([line] + fields) && NUL !in HeadText([line] + fields)
  {
    hide PlainLine, IsLengthField, LinesText;
    TextOfLines([line] + fields);
  }

  lemma {:induction false} NoLengthValue(head: string, line: string, fields: seq<string>, end: int)
    requires PlainFields(fields) && head == line + ("\r\n" + (LinesText(fields) + "\r\n"))
    requires end == |line| + |LinesText(fields)| && end >= 0 && Find(head, "\r\n") == Some(|line|)
    ensures LengthValue(head, end) == None
  {
    hide Find, FieldValue, LinesText, PlainFields;
    if fields == [] {
      EmptyLines();
    } else {
      NoLengthFound(fields, "\r\n");
      assert head[|line| + 2..] == LinesText(fields) + "\r\n";
    }
  }

  lemma {:induction false} EmptyLines()
    ensures LinesText([]) == ""
  {
  }

  /** A request without the field, such as a GET, has an empty body. */
  lemma {:induction false} NoLengthOutcome(verb: string, path: string, version: string, fields: seq<string>,
                                           more: string, seen: nat, broken: bool, limits: Limits)
    requires IsWord(verb, 7) && IsWord(path, 127) && '\r' !in version && NUL !in version && PlainFields(fields)
    requires StoppedAt(HeadText([RequestLine(verb, path, version)] + fields) + more, seen, limits)
    ensures var head := HeadText([RequestLine(verb, path, version)] + fields);
      Answer(head + more, seen, broken, limits) ==
        if |head| > limits.request then Rejected(HeadersTooLarge) else Accepted(verb, path, "")
  {
    hide *;
    var line := RequestLine(verb, path, version);
    var lines := [line] + fields;
    var head, end := HeadText(lines), |LinesText(lines)| - 2;
    LinePlain(verb, path, version);
    NoLengthHead(line, fields);
    FirstLineRead(verb, path, version, fields);
    NoValueSteady(head, end, verb, path);
    AnswerToHead(head, end, verb, path, more, seen, broken, limits);
    assert more[..0] == "";
  }

  lemma {:induction false} NoValueSteady(head: string, end: nat, verb: string, path: string)
    requires EndsAt(head, end) && ScanRequestLine(head) == Some((verb, path)) && LengthValue(head, end) == None
    ensures Steady(head, end)
  {
    hide ScanRequestLine, LengthValue;
  }

  /** In particular, a request whose body fits is accepted with its verb, path and body,
      whatever follows the body. */
  lemma {:induction false} RequestArrives(verb: string, path: string, version: string, f: Fields, body: string,
                                          extra: string, seen: nat, broken: bool, limits: Limits)
    requires IsRequest(verb, path, version, f) && |body| <= limits.body <= ULONG_MAX
    requires |HeadText(HeadLines(RequestLine(verb, path, version), f, Decimal(|body|)))| + |body| <= limits.request
    requires var s := HeadText(HeadLines(RequestLine(verb, path, version), f, Decimal(|body|))) + (body + extra);
      StoppedAt(s, seen, limits)
    ensures var s := HeadText(HeadLines(RequestLine(verb, path, version), f, Decimal(|body|))) + (body + extra);
      Answer(s, seen, broken, limits) == Accepted(verb, path, body)
  {
    hide HeadText, HeadLines, RequestLine, Decimal, StoppedAt, Answer, IsRequest;
    assert NumberText("", |body|, "") == Decimal(|body|);
    RequestOutcome(verb, path, version, f, "", |body|, "", body + extra, seen, broken, limits);
    assert (body + extra)[..|body|] == body;
  }

  // ---------------------------------------------------------------- a head that is not steady

  /** A first line that is one word alone names no path. */
  lemma {:induction false} NoPath(verb: string, rest: string)
    requires IsWord(verb, 7) && AllSpace(rest) && rest != ""
    ensures ScanRequestLine(verb + rest) == None
  {
    hide SkipSpace, RequestReader.TakeWord;
    NotSkipped(verb, rest);
    WordTaken(verb, rest, 7);
    SkipSpaceOver(rest, "");
    assert rest + "" == rest && SkipSpace("") == "";
  }

  lemma {:induction false} ShortHead()
    ensures HeadText(["GET"]) == "GET" + HEADER_END && |LinesText(["GET"])| == 5
    ensures PlainLines(["GET"]) && IsWord("GET", 7) && AllSpace(HEADER_END) && HEADER_END != ""
  {
    assert LinesText(["GET"]) == "GET" + ("\r\n" + LinesText(["GET"][1..]));
  }

  /** Such a head: its path can come with a later byte. */
  lemma {:induction false} UnsteadyHead()
    ensures var s := "GET\r\n\r\n";
      EndsAt(s, 3) && Find(s, HEADER_END) == Some(3) && !Steady(s, 3)
  {
    hide Find, ScanRequestLine, LengthValue, SkipSpace, HeadText, LinesText, PlainLines;
    ShortHead();
    assert "GET" + HEADER_END == "GET\r\n\r\n";
    HeadEnds(["GET"]);
    NoPath("GET", HEADER_END);
  }
}
