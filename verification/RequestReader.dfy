/** Reading one request from a byte stream that arrives in pieces. */
module RequestReader {
  import opened Options
  import opened Text

  const HEADER_END := "\r\n\r\n"
  const LENGTH_FIELD := "Content-Length:"
  const ULONG_MAX := 18446744073709551615

  // ---------------------------------------------------------------- searching

  predicate Occurs(s: string, pat: string, i: nat) {
    i + |pat| <= |s| && s[i..i + |pat|] == pat
  }

  /** strstr: the first occurrence. */
  function Find(s: string, pat: string): (r: Option<nat>)
    ensures r.Some? ==> Occurs(s, pat, r.value) && forall j: nat :: j < r.value ==> !Occurs(s, pat, j)
    ensures r.None? ==> forall j: nat :: !Occurs(s, pat, j)
  {
    if |s| < |pat| then None
    else if s[..|pat|] == pat then
      assert s[0..0 + |pat|] == pat;
      Some(0)
    else
      var r := Find(s[1..], pat);
      assert !Occurs(s, pat, 0);
      assert forall j: nat :: j >= 1 && Occurs(s, pat, j) ==> Occurs(s[1..], pat, j - 1) by {
        forall j: nat | j >= 1 && Occurs(s, pat, j) ensures Occurs(s[1..], pat, j - 1) {
          assert s[1..][j - 1..j - 1 + |pat|] == s[j..j + |pat|];
        }
      }
      if r.None? then None
      else
        assert s[1..][r.value..r.value + |pat|] == s[r.value + 1..r.value + 1 + |pat|];
        Some(r.value + 1)
  }

  lemma {:induction false} FirstIs(s: string, pat: string, i: nat)
    requires Occurs(s, pat, i) && forall j: nat :: j < i ==> !Occurs(s, pat, j)
    ensures Find(s, pat) == Some(i)
  {
    hide Find;
  }

  lemma {:induction false} OccursBefore(s: string, more: string, pat: string, j: nat)
    requires j + |pat| <= |s|
    ensures Occurs(s + more, pat, j) <==> Occurs(s, pat, j)
  {
    assert (s + more)[j..j + |pat|] == s[j..j + |pat|];
  }

  /** Text that follows the first occurrence does not move it. */
  lemma {:induction false} FindBefore(s: string, more: string, pat: string)
    requires Find(s, pat).Some?
    ensures Find(s + more, pat) == Find(s, pat)
  {
    hide Find, Occurs;
    var i := Find(s, pat).value;
    Bounded(s, pat, i);
    OccursBefore(s, more, pat, i);
    forall j: nat | j < i ensures !Occurs(s + more, pat, j) {
      OccursBefore(s, more, pat, j);
    }
    FirstIs(s + more, pat, i);
  }

  lemma {:induction false} Bounded(s: string, pat: string, i: nat)
    requires Occurs(s, pat, i)
    ensures i + |pat| <= |s|
  {
  }

  // ---------------------------------------------------------------- the request line

  /** Up to size bytes that are not white space. */
  function TakeWord(s: string, size: nat): (r: (string, string))
    ensures r.0 + r.1 == s && |r.0| <= size
    ensures size > 0 && s != "" && !IsSpace(s[0]) ==> r.0 != ""
  {
    if s == "" || size == 0 || IsSpace(s[0]) then ("", s)
    else
      var (w, rest) := TakeWord(s[1..], size - 1);
      assert [s[0]] + w + rest == s by {
        assert [s[0]] + w + rest == [s[0]] + (w + rest);
        assert [s[0]] + s[1..] == s;
      }
      ([s[0]] + w, rest)
  }

  /** sscanf(s, "%7s %127s"). */
  function ScanRequestLine(s: string): Option<(string, string)> {
    var t := SkipSpace(s);
    if t == "" then None
    else
      var (verb, rest) := TakeWord(t, 7);
      var u := SkipSpace(rest);
      if u == "" then None else Some((verb, TakeWord(u, 127).0))
  }

  predicate EndsLine(s: string) {
    s != "" && s[|s| - 1] == '\n'
  }

  lemma {:induction false} SkipBefore(s: string, more: string)
    requires SkipSpace(s) != ""
    ensures SkipSpace(s + more) == SkipSpace(s) + more
  {
    var t := s + more;
    assert t[0] == s[0] && t[1..] == s[1..] + more;
    if IsSpace(s[0]) {
      SkipBefore(s[1..], more);
    } else {
      assert SkipSpace(s) == s && SkipSpace(t) == t;
    }
  }

  lemma {:induction false} WordBefore(s: string, more: string, size: nat)
    requires EndsLine(s)
    ensures TakeWord(s + more, size) == (TakeWord(s, size).0, TakeWord(s, size).1 + more)
    ensures EndsLine(TakeWord(s, size).1)
    decreases |s|
  {
    var t := s + more;
    assert t[0] == s[0] && t[1..] == s[1..] + more;
    if size != 0 && !IsSpace(s[0]) {
      assert IsSpace('\n');
      assert EndsLine(s[1..]);
      WordBefore(s[1..], more, size - 1);
    }
  }

  lemma {:induction false} SkipEnds(s: string)
    requires EndsLine(s)
    ensures SkipSpace(s) == "" || EndsLine(SkipSpace(s))
  {
  }

  /** Both words are found before the end of the line, or later bytes can add them. */
  lemma {:induction false} RequestLineBefore(s: string, more: string)
    requires EndsLine(s) && ScanRequestLine(s).Some?
    ensures ScanRequestLine(s + more) == ScanRequestLine(s)
  {
    hide TakeWord;
    SkipBefore(s, more);
    SkipEnds(s);
    var t := SkipSpace(s);
    WordBefore(t, more, 7);
    var rest := TakeWord(t, 7).1;
    SkipBefore(rest, more);
    SkipEnds(rest);
    WordBefore(SkipSpace(rest), more, 127);
  }

  lemma {:induction false} SkipAll(s: string, more: string)
    requires SkipSpace(s) == ""
    ensures SkipSpace(s + more) == SkipSpace(more)
  {
    assert s[..|s|] == s;
    SkipSpaceOver(s, more);
  }

  lemma {:induction false} OneWord(c: char, rest: string)
    requires !IsSpace(c) && rest != "" && IsSpace(rest[0])
    ensures SkipSpace([c] + rest) == [c] + rest && TakeWord([c] + rest, 7) == ([c], rest)
  {
    assert ([c] + rest)[1..] == rest;
    assert TakeWord(rest, 6) == ("", rest);
    assert [c] + "" == [c];
  }

  lemma {:induction false} ShortLine()
    ensures SkipSpace("a b") == "a b" && TakeWord("a b", 7) == ("a", " b") && SkipSpace(" b") == "b"
  {
    hide SkipSpace, TakeWord;
    assert ['a'] + " b" == "a b" && [' '] + "b" == " b";
    OneWord('a', " b");
    OneSpace("b");
  }

  lemma {:induction false} OneSpace(rest: string)
    requires rest != "" && !IsSpace(rest[0])
    ensures SkipSpace([' '] + rest) == rest
  {
    assert ([' '] + rest)[1..] == rest;
  }

  lemma {:induction false} RequestLineOpen(s: string)
    requires EndsLine(s) && ScanRequestLine(s).None?
    ensures ScanRequestLine(s + "a b").Some?
  {
    hide SkipSpace, TakeWord, EndsLine;
    ShortLine();
    var more := "a b";
    var t := SkipSpace(s);
    if t == "" {
      SkipAll(s, more);
    } else {
      SkipBefore(s, more);
      SkipEnds(s);
      WordBefore(t, more, 7);
      SkipAll(TakeWord(t, 7).1, more);
    }
  }

  // ---------------------------------------------------------------- the length of the body

  /** strtoul: white space, a sign, digits; a value that is too large becomes
      ULONG_MAX, and a negative one wraps around. */
  function ReadUnsigned(s: string): Option<nat> {
    var r := ReadInteger(s);
    if r.None? then None
    else
      var v := r.value.0;
      if v > ULONG_MAX || v < -ULONG_MAX then Some(ULONG_MAX)
      else if v < 0 then Some(ULONG_MAX + 1 + v)
      else Some(v)
  }

  /** parse_content_length from the line at the start of s; room bytes of it come
      before the end of the headers. */
  function FieldLength(s: string, room: nat): Option<nat>
    decreases |s|
  {
    if room == 0 then Some(0)
    else
      var next := Find(s, "\r\n");
      if next.None? || next.value > room || next.value == 0 then Some(0)
      else if next.value >= |LENGTH_FIELD| && SameNoCase(s[..|LENGTH_FIELD|], LENGTH_FIELD) then
        ReadUnsigned(SkipSpace(s[|LENGTH_FIELD|..]))
      else if next.value + 2 > room then Some(0)
      else FieldLength(s[next.value + 2..], room - next.value - 2)
  }

  function ContentLength(s: string, headersEnd: nat): Option<nat> {
    var line := Find(s, "\r\n");
    if line.None? then None
    else if line.value + 2 >= headersEnd then Some(0)
    else FieldLength(s[line.value + 2..], headersEnd - line.value - 2)
  }

  /** The value of the field that decides the length, as it stands at its first line. */
  function FieldValue(s: string, room: nat): Option<string>
    decreases |s|
  {
    if room == 0 then None
    else
      var next := Find(s, "\r\n");
      if next.None? || next.value > room || next.value == 0 then None
      else if next.value >= |LENGTH_FIELD| && SameNoCase(s[..|LENGTH_FIELD|], LENGTH_FIELD) then
        Some(s[|LENGTH_FIELD|..])
      else if next.value + 2 > room then None
      else FieldValue(s[next.value + 2..], room - next.value - 2)
  }

  lemma {:induction false} DigitsBefore(s: string, more: string)
    requires EndsLine(s)
    ensures TakeDigits(s + more) == (TakeDigits(s).0, TakeDigits(s).1 + more)
  {
    var t := s + more;
    assert t[0] == s[0] && t[1..] == s[1..] + more;
    if IsDigit(s[0]) {
      assert EndsLine(s[1..]);
      DigitsBefore(s[1..], more);
    }
  }

  lemma {:induction false} SignBefore(t: string, more: string)
    requires EndsLine(t)
    ensures AfterSign(t + more) == AfterSign(t) + more && EndsLine(AfterSign(t))
    ensures forall d | AllDigits(d) :: Signed(t + more, d) == Signed(t, d)
  {
    hide Value;
    assert (t + more)[0] == t[0];
  }

  lemma {:induction false} IntegerBefore(s: string, more: string)
    requires EndsLine(s) && SkipSpace(s) != ""
    ensures ReadInteger(s).None? ==> ReadInteger(s + more).None?
    ensures ReadInteger(s).Some? ==>
      ReadInteger(s + more).Some? && ReadInteger(s + more).value.0 == ReadInteger(s).value.0
  {
    hide *;
    SkipBefore(s, more);
    EndOfSkip(s);
    var t := SkipSpace(s);
    SignBefore(t, more);
    DigitsBefore(AfterSign(t), more);
    IntegerParts(s);
    IntegerParts(s + more);
  }

  lemma {:induction false} EndOfSkip(s: string)
    requires EndsLine(s) && SkipSpace(s) != ""
    ensures EndsLine(SkipSpace(s)) && SkipSpace(SkipSpace(s)) == SkipSpace(s)
  {
    SkipEnds(s);
    var t := SkipSpace(s);
    assert !IsSpace(t[0]);
  }

  lemma {:induction false} UnsignedOf(s: string, t: string)
    requires ReadInteger(s).None? <==> ReadInteger(t).None?
    requires ReadInteger(s).Some? ==> ReadInteger(s).value.0 == ReadInteger(t).value.0
    ensures ReadUnsigned(s) == ReadUnsigned(t)
  {
    hide ReadInteger;
  }

  lemma {:induction false} UnsignedBefore(s: string, more: string)
    requires EndsLine(s) && SkipSpace(s) != ""
    ensures ReadUnsigned(SkipSpace(s + more)) == ReadUnsigned(SkipSpace(s))
  {
    hide *;
    SkipBefore(s, more);
    EndOfSkip(s);
    IntegerBefore(SkipSpace(s), more);
    UnsignedOf(SkipSpace(s), SkipSpace(s) + more);
  }

  lemma {:induction false} OneDigit()
    ensures SkipSpace("1") == "1" && ReadInteger("1") == Some((1, ""))
  {
    assert "1" + "" == "1" && "1"[..0] == "";
    assert AllDigits("1") && Value("1") == 1;
    ReadDigits("1", "");
  }

  lemma {:induction false} Nothing()
    ensures ReadInteger("") == None
  {
  }

  /** A value of white space alone takes its digits from what follows. */
  lemma {:induction false} UnsignedOpen(s: string)
    requires SkipSpace(s) == ""
    ensures ReadUnsigned(SkipSpace(s)) == None && ReadUnsigned(SkipSpace(s + "1")) == Some(1)
  {
    hide SkipSpace, ReadInteger;
    SkipAll(s, "1");
    OneDigit();
    Nothing();
  }

  // ---------------------------------------------------------------- a whole request

  datatype Limits = Limits(request: nat, body: nat)

  datatype Head = Head(verb: string, path: string, length: nat)
    | MalformedLine | InvalidLength | BodyTooLarge | RequestTooLarge

  /** What the bytes seen so far, up to their first NUL, say once the headers end. */
  function ReadHead(s: string, headersEnd: nat, limits: Limits): Head {
    var line := ScanRequestLine(s);
    if line.None? then MalformedLine
    else
      var length := ContentLength(s, headersEnd);
      if length.None? then InvalidLength
      else if length.value > limits.body then BodyTooLarge
      else if headersEnd + |HEADER_END| + length.value > limits.request then RequestTooLarge
      else Head(line.value.0, line.value.1, length.value)
  }

  // ---------------------------------------------------------------- what later bytes can change

  /** s runs to the end of the headers, which starts at end. */
  predicate EndsAt(s: string, end: nat) {
    |s| == end + |HEADER_END| && s[end..] == HEADER_END
  }

  lemma {:induction false} EndLines(s: string, end: nat)
    requires EndsAt(s, end)
    ensures EndsLine(s) && s[end] == '\r' && s[end + 1] == '\n'
    ensures Find(s, "\r\n").Some? && Find(s, "\r\n").value <= end && Find(s, "\r\n").value + 1 != end
  {
    assert s[end] == s[end..][0] && s[end + 1] == s[end..][1] && s[|s| - 1] == s[end..][3];
    assert s[end..end + 2] == "\r\n";
    assert Occurs(s, "\r\n", end);
    var i := Find(s, "\r\n").value;
    assert s[i..i + 2][1] == s[i + 1];
  }

  lemma {:induction false} FieldLengthIs(s: string, room: nat)
    ensures FieldLength(s, room) ==
      (var v := FieldValue(s, room); if v.None? then Some(0) else ReadUnsigned(SkipSpace(v.value)))
    decreases |s|
  {
    hide ReadUnsigned, SkipSpace, SameNoCase, Find;
    if room != 0 {
      var next := Find(s, "\r\n");
      if next.Some? && 0 < next.value && next.value + 2 <= room {
        FieldLengthIs(s[next.value + 2..], room - next.value - 2);
      }
    }
  }

  lemma {:induction false} SplitText(s: string, more: string, k: nat)
    requires k <= |s|
    ensures (s + more)[..k] == s[..k] && (s + more)[k..] == s[k..] + more
  {
  }

  lemma {:induction false} TailEnds(s: string, end: nat, k: nat)
    requires EndsAt(s, end) && k <= end
    ensures EndsAt(s[k..], end - k)
  {
    assert s[k..][end - k..] == s[end..];
  }

  lemma {:induction false} LastByte(s: string, k: nat)
    requires EndsLine(s) && k < |s|
    ensures EndsLine(s[k..])
  {
  }

  lemma {:induction false} NoField(s: string)
    ensures FieldValue(s, 0) == None
  {
  }

  lemma {:induction false} FieldStep(s: string, room: nat, next: nat)
    requires Find(s, "\r\n") == Some(next) && next <= room && room != 0
    ensures next == 0 ==> FieldValue(s, room) == None
    ensures next != 0 && next >= |LENGTH_FIELD| && SameNoCase(s[..|LENGTH_FIELD|], LENGTH_FIELD) ==>
      FieldValue(s, room) == Some(s[|LENGTH_FIELD|..])
    ensures next != 0 && !(next >= |LENGTH_FIELD| && SameNoCase(s[..|LENGTH_FIELD|], LENGTH_FIELD)) ==>
      FieldValue(s, room) == if next + 2 > room then None else FieldValue(s[next + 2..], room - next - 2)
  {
    hide SameNoCase, Find;
  }

  lemma {:induction false} FieldValueBefore(s: string, more: string, end: nat)
    requires EndsAt(s, end)
    ensures FieldValue(s, end).None? ==> FieldValue(s + more, end).None?
    ensures FieldValue(s, end).Some? ==>
      EndsLine(FieldValue(s, end).value) && FieldValue(s + more, end) == Some(FieldValue(s, end).value + more)
    decreases |s|
  {
    hide SameNoCase, Find, EndsAt, EndsLine, FieldValue;
    if end == 0 {
      NoField(s);
      NoField(s + more);
    } else {
      EndLines(s, end);
      FindBefore(s, more, "\r\n");
      var next := Find(s, "\r\n").value;
      FieldStep(s, end, next);
      FieldStep(s + more, end, next);
      if next >= |LENGTH_FIELD| {
        SplitText(s, more, |LENGTH_FIELD|);
        LastByte(s, |LENGTH_FIELD|);
      }
      if next + 2 <= end {
        SplitText(s, more, next + 2);
        TailEnds(s, end, next + 2);
        FieldValueBefore(s[next + 2..], more, end - next - 2);
      }
    }
  }

  /** The value of the field, if there is one in the headers that end at end. */
  function LengthValue(s: string, end: nat): Option<string> {
    var line := Find(s, "\r\n");
    if line.None? || line.value + 2 >= end then None
    else FieldValue(s[line.value + 2..], end - line.value - 2)
  }

  lemma {:induction false} LengthBefore(s: string, more: string, end: nat)
    requires EndsAt(s, end)
    ensures LengthValue(s, end).None? ==> ContentLength(s, end) == Some(0) && ContentLength(s + more, end) == Some(0)
    ensures LengthValue(s, end).Some? ==> var v := LengthValue(s, end).value;
      && EndsLine(v)
      && ContentLength(s, end) == ReadUnsigned(SkipSpace(v))
      && ContentLength(s + more, end) == ReadUnsigned(SkipSpace(v + more))
  {
    hide Find, FieldValue, FieldLength, ReadUnsigned, SkipSpace;
    EndLines(s, end);
    FindBefore(s, more, "\r\n");
    var next := Find(s, "\r\n").value;
    if next + 2 < end {
      var tail := s[next + 2..];
      assert tail[end - next - 2..] == s[end..];
      assert (s + more)[next + 2..] == tail + more;
      FieldValueBefore(tail, more, end - next - 2);
      FieldLengthIs(tail, end - next - 2);
      FieldLengthIs(tail + more, end - next - 2);
    }
  }

  /** Both words of the request line stand in the headers, and the value of
      Content-Length, if there is one, is not just white space. */
  predicate Steady(s: string, end: nat) {
    && ScanRequestLine(s).Some?
    && (LengthValue(s, end).Some? ==> SkipSpace(LengthValue(s, end).value) != "")
  }

  lemma {:induction false} SteadyHead(s: string, more: string, end: nat, limits: Limits)
    requires EndsAt(s, end) && Steady(s, end)
    ensures ReadHead(s + more, end, limits) == ReadHead(s, end, limits)
  {
    hide ScanRequestLine, LengthValue, ContentLength, ReadUnsigned, SkipSpace, Find;
    EndLines(s, end);
    RequestLineBefore(s, more);
    LengthBefore(s, more, end);
    if LengthValue(s, end).Some? {
      UnsignedBefore(LengthValue(s, end).value, more);
    }
  }

  /** Bytes after the headers never change what the headers say if and only if the
      headers are steady. */
  lemma {:induction false} SteadyIff(s: string, end: nat, limits: Limits)
    requires EndsAt(s, end)
    ensures (forall more :: ReadHead(s + more, end, limits) == ReadHead(s, end, limits)) <==> Steady(s, end)
  {
    if Steady(s, end) {
      forall more ensures ReadHead(s + more, end, limits) == ReadHead(s, end, limits) {
        SteadyHead(s, more, end, limits);
      }
    } else {
      var more := Unsteady(s, end, limits);
    }
  }

  lemma {:induction false} Unsteady(s: string, end: nat, limits: Limits) returns (more: string)
    requires EndsAt(s, end) && !Steady(s, end)
    ensures more == "a b" || more == "1"
    ensures !ReadHead(s, end, limits).Head? && ReadHead(s + more, end, limits) != ReadHead(s, end, limits)
  {
    hide ScanRequestLine, LengthValue, ContentLength, ReadUnsigned, SkipSpace, Find;
    EndLines(s, end);
    if ScanRequestLine(s).None? {
      more := "a b";
      RequestLineOpen(s);
    } else {
      more := "1";
      RequestLineBefore(s, "1");
      LengthBefore(s, "1", end);
      UnsignedOpen(LengthValue(s, end).value);
    }
  }

  // ---------------------------------------------------------------- the stream

  datatype Rejection = Closed | Broken | HeadersTooLarge | BadHead(head: Head)

  datatype Outcome = Accepted(verb: string, path: string, body: string) | Rejected(why: Rejection)

  function Ended(broken: bool): Outcome {
    Rejected(if broken then Broken else Closed)
  }

  /** The outcome for the stream s when the headers were looked for in its first seen
      bytes; the stream ends in an error or with the client closing it. */
  function Answer(s: string, seen: nat, broken: bool, limits: Limits): Outcome
    requires seen <= |s|
  {
    var t := UpToNul(s[..seen]);
    var end := Find(t, HEADER_END);
    if end.None? then
      if seen >= limits.request then Rejected(HeadersTooLarge) else Ended(broken)
    else
      var head := ReadHead(t, end.value, limits);
      if !head.Head? then Rejected(BadHead(head))
      else
        var start := end.value + |HEADER_END|;
        if |s| < start + head.length then Ended(broken)
        else Accepted(head.verb, head.path, s[start..start + head.length])
  }

  function Within(s: string, limits: Limits): nat {
    if |s| < limits.request then |s| else limits.request
  }

  /** The header loop ends when it has seen the end of the headers, or as much as
      there is and fits. */
  predicate StoppedAt(s: string, seen: nat, limits: Limits) {
    && seen <= Within(s, limits)
    && (Find(UpToNul(s[..seen]), HEADER_END).Some? || seen == Within(s, limits))
  }

  predicate SteadyStream(s: string, limits: Limits) {
    var t := UpToNul(s[..Within(s, limits)]);
    var end := Find(t, HEADER_END);
    end.Some? ==> Steady(t[..end.value + |HEADER_END|], end.value)
  }

  lemma {:induction false} UpToNulGrows(s: string, a: nat, b: nat)
    requires a <= b <= |s|
    ensures UpToNul(s[..a]) <= UpToNul(s[..b])
  {
    if a > 0 && s[0] != NUL {
      assert s[..a][1..] == s[1..][..a - 1] && s[..b][1..] == s[1..][..b - 1];
      UpToNulGrows(s[1..], a - 1, b - 1);
    }
  }

  /** Wherever the loop stopped, it found the same end of the headers. */
  lemma {:induction false} SameEnd(s: string, seen: nat, limits: Limits)
    requires StoppedAt(s, seen, limits)
    ensures var t, all := UpToNul(s[..seen]), UpToNul(s[..Within(s, limits)]);
      && t <= all
      && Find(t, HEADER_END) == Find(all, HEADER_END)
      && (Find(all, HEADER_END).None? ==> seen == Within(s, limits))
  {
    hide Find, UpToNul;
    var t, all := UpToNul(s[..seen]), UpToNul(s[..Within(s, limits)]);
    UpToNulGrows(s, seen, Within(s, limits));
    if Find(t, HEADER_END).Some? {
      assert all == t + all[|t|..];
      FindBefore(t, all[|t|..], HEADER_END);
    }
  }

  lemma {:induction false} HeadOfPrefix(t: string, all: string, end: nat, limits: Limits)
    requires t <= all && Find(t, HEADER_END) == Some(end) && Find(all, HEADER_END) == Some(end)
    requires Steady(all[..end + |HEADER_END|], end)
    ensures ReadHead(t, end, limits) == ReadHead(all[..end + |HEADER_END|], end, limits)
  {
    hide Find, Steady, ReadHead;
    var cut := end + |HEADER_END|;
    var head := all[..cut];
    assert t[..cut] == head && t == head + t[cut..];
    assert head[end..] == HEADER_END by {
      assert Occurs(all, HEADER_END, end);
    }
    SteadyHead(head, t[cut..], end, limits);
  }

  /** However the stream was cut into pieces, the outcome is the same, provided that
      the headers are steady. */
  lemma {:induction false} Confluence(s: string, a: nat, b: nat, broken: bool, limits: Limits)
    requires StoppedAt(s, a, limits) && StoppedAt(s, b, limits) && SteadyStream(s, limits)
    ensures Answer(s, a, broken, limits) == Answer(s, b, broken, limits)
  {
    hide Find, UpToNul, ReadHead, Steady;
    SameEnd(s, a, limits);
    SameEnd(s, b, limits);
    var all := UpToNul(s[..Within(s, limits)]);
    var end := Find(all, HEADER_END);
    if end.Some? {
      HeadOfPrefix(UpToNul(s[..a]), all, end.value, limits);
      HeadOfPrefix(UpToNul(s[..b]), all, end.value, limits);
    }
  }

  lemma {:induction false} CStringWhole(s: string, more: string)
    requires IsCString(s) && IsCString(more)
    ensures UpToNul((s + more)[..|s|]) == s && UpToNul((s + more)[..|s + more|]) == s + more
  {
    assert (s + more)[..|s|] == s && (s + more)[..|s + more|] == s + more;
    UpToNulWhole(s);
    UpToNulWhole(s + more);
  }

  lemma {:induction false} BadHeadAnswer(s: string, more: string, end: nat, broken: bool, limits: Limits)
    requires EndsAt(s, end) && Find(s, HEADER_END) == Some(end) && IsCString(s) && IsCString(more)
    requires !ReadHead(s, end, limits).Head? && ReadHead(s + more, end, limits) != ReadHead(s, end, limits)
    ensures Answer(s + more, |s|, broken, limits) != Answer(s + more, |s + more|, broken, limits)
  {
    hide ReadHead, UpToNul, Find;
    CStringWhole(s, more);
    FindBefore(s, more, HEADER_END);
  }

  /** Without steady headers the pieces do matter: after every unsteady head some
      stream has two outcomes. */
  lemma {:induction false} PiecesMatter(s: string, end: nat, broken: bool, limits: Limits) returns (more: string)
    requires EndsAt(s, end) && Find(s, HEADER_END) == Some(end) && IsCString(s)
    requires !Steady(s, end) && |s| + 3 <= limits.request
    ensures StoppedAt(s + more, |s|, limits) && StoppedAt(s + more, |s + more|, limits)
    ensures Answer(s + more, |s|, broken, limits) != Answer(s + more, |s + more|, broken, limits)
  {
    hide ReadHead, Find, Steady, Answer, UpToNul;
    more := Unsteady(s, end, limits);
    BadHeadAnswer(s, more, end, broken, limits);
    CStringWhole(s, more);
    FindBefore(s, more, HEADER_END);
  }

  // ---------------------------------------------------------------- the reader

  datatype Received = Bytes(n: nat) | Interrupted | Failed | EndOfStream

  /** The client's side of the connection: the pieces that recv will deliver.  An empty
      piece is a call that a signal interrupts. */
  class Connection {
    var incoming: seq<string>
    const broken: bool

    constructor (pieces: seq<string>, broken: bool)
      ensures incoming == pieces && this.broken == broken
    {
      incoming := pieces;
      this.broken := broken;
    }

    ghost function Stream(): string
      reads this
    {
      Joined(incoming)
    }

    method Recv(buffer: array<char>, at: nat, room: nat) returns (r: Received)
      requires 0 < room && at + room <= buffer.Length
      modifies this, buffer
      ensures forall i :: 0 <= i < at ==> buffer[i] == old(buffer[i])
      ensures r.Bytes? ==> 0 < r.n <= room && old(Stream()) == buffer[at..at + r.n] + Stream()
      ensures r.Interrupted? ==> Stream() == old(Stream()) && |incoming| < |old(incoming)|
      ensures r.Failed? || r.EndOfStream? ==>
        incoming == old(incoming) == [] && r == if broken then Failed else EndOfStream
    {
      if incoming == [] {
        return if broken then Failed else EndOfStream;
      }
      var piece := incoming[0];
      if piece == "" {
        incoming := incoming[1..];
        return Interrupted;
      }
      var n := if |piece| <= room then |piece| else room;
      var i := 0;
      while i < n
        modifies buffer
        invariant 0 <= i <= n
        invariant forall j :: 0 <= j < at ==> buffer[j] == old(buffer[j])
        invariant buffer[at..at + i] == piece[..i]
      {
        buffer[at + i] := piece[i];
        i := i + 1;
      }
      TakePiece(incoming, n);
      incoming := if n == |piece| then incoming[1..] else [piece[n..]] + incoming[1..];
      r := Bytes(n);
    }
  }

  function Joined(pieces: seq<string>): string {
    if pieces == [] then "" else pieces[0] + Joined(pieces[1..])
  }

  lemma {:induction false} TakePiece(pieces: seq<string>, n: nat)
    requires pieces != [] && n <= |pieces[0]|
    ensures Joined(pieces) == pieces[0][..n] + Joined([pieces[0][n..]] + pieces[1..])
    ensures n == |pieces[0]| ==> Joined([pieces[0][n..]] + pieces[1..]) == Joined(pieces[1..])
  {
    var cut := [pieces[0][n..]] + pieces[1..];
    assert cut[0] == pieces[0][n..] && cut[1..] == pieces[1..];
    assert pieces[0] + Joined(pieces[1..]) == pieces[0][..n] + (pieces[0][n..] + Joined(pieces[1..]));
  }

  lemma {:induction false} ReadOn(seen: string, rest: string, piece: string, left: string, s: string)
    requires seen + rest == s && rest == piece + left
    ensures seen + piece + left == s && |seen + piece| <= |s| && s[..|seen + piece|] == seen + piece
  {
  }

  /** One call of recv: what was read and what is still to come stay together. */
  method ReadMore(conn: Connection, buffer: array<char>, used: nat, room: nat, ghost s: string)
    returns (r: Received)
    requires 0 < room && used + room <= buffer.Length && buffer[..used] + conn.Stream() == s
    modifies conn, buffer
    ensures r.Bytes? ==> 0 < r.n <= room && buffer[..used + r.n] + conn.Stream() == s
    ensures !r.Bytes? ==> buffer[..used] == old(buffer[..used]) && buffer[..used] + conn.Stream() == s
    ensures r.Interrupted? ==> |conn.incoming| < |old(conn.incoming)|
    ensures r.Failed? || r.EndOfStream? ==> conn.Stream() == ""
  {
    hide Joined;
    ghost var seen, rest := buffer[..used], conn.Stream();
    r := conn.Recv(buffer, used, room);
    assert buffer[..used] == seen;
    match r
    case Bytes(n) =>
      ghost var piece := buffer[used..used + n];
      ReadOn(seen, rest, piece, conn.Stream(), s);
      assert buffer[..used + n] == seen + piece;
    case Interrupted =>
    case Failed =>
      NothingLeft(conn);
    case EndOfStream =>
      NothingLeft(conn);
  }

  /** The first loop of http_read_request: reads until the headers have ended, the
      buffer is full, or nothing more comes. */
  method ReadHeaders(conn: Connection, buffer: array<char>, limits: Limits)
    returns (used: nat, end: Option<nat>, open: bool)
    requires buffer.Length == limits.request + 1
    modifies conn, buffer
    ensures used <= limits.request && buffer[..used] + conn.Stream() == old(conn.Stream())
    ensures end == Find(UpToNul(buffer[..used]), HEADER_END)
    ensures open && end.None? ==> used >= limits.request
    ensures !open ==> end.None? && conn.Stream() == "" && used < limits.request
  {
    hide Find, UpToNul, Connection.Stream;
    ghost var s := conn.Stream();
    used := 0;
    end := None;
    open := true;
    NothingYet();
    while end.None? && used < limits.request
      invariant used <= limits.request && buffer[..used] + conn.Stream() == s
      invariant end == Find(UpToNul(buffer[..used]), HEADER_END)
      decreases limits.request - used, |conn.incoming|
    {
      var r := ReadMore(conn, buffer, used, limits.request - used, s);
      match r
      case Bytes(n) =>
        used := used + n;
        end := Find(UpToNul(buffer[..used]), HEADER_END);
      case Interrupted =>
      case Failed =>
        return used, end, false;
      case EndOfStream =>
        return used, end, false;
    }
  }

  lemma {:induction false} NothingLeft(conn: Connection)
    requires conn.incoming == []
    ensures conn.Stream() == ""
  {
  }

  lemma {:induction false} NothingYet()
    ensures Find(UpToNul(""), HEADER_END) == None
  {
  }

  /** The second loop: reads until the body is complete. */
  method ReadBody(conn: Connection, buffer: array<char>, start: nat, total: nat) returns (complete: bool)
    requires start <= buffer.Length && total <= buffer.Length
    modifies conn, buffer
    ensures var s := old(buffer[..start] + conn.Stream());
      && (complete <==> total <= |s|)
      && (complete ==> buffer[..total] == s[..total])
  {
    hide Joined;
    ghost var s := buffer[..start] + conn.Stream();
    var used := start;
    while used < total
      invariant used <= buffer.Length && (used <= total || used == start) && buffer[..used] + conn.Stream() == s
      decreases total - used, |conn.incoming|
    {
      var r := ReadMore(conn, buffer, used, total - used, s);
      match r
      case Bytes(n) =>
        used := used + n;
      case Interrupted =>
      case Failed =>
        return false;
      case EndOfStream =>
        return false;
    }
    assert buffer[..total] == buffer[..used][..total];
    complete := true;
  }

  /** http_read_request: whatever pieces arrive, the outcome is the one of the stream
      they make up, and it does not depend on the pieces when the headers are steady. */
  method ReadRequest(conn: Connection, limits: Limits) returns (o: Outcome, ghost seen: nat)
    modifies conn
    ensures var s := old(conn.Stream());
      && StoppedAt(s, seen, limits)
      && o == Answer(s, seen, conn.broken, limits)
      && (SteadyStream(s, limits) ==> o == Answer(s, Within(s, limits), conn.broken, limits))
    ensures o.Accepted? ==> |o.body| <= limits.body
  {
    hide Find, UpToNul, ReadHead, Joined, Steady;
    ghost var s := conn.Stream();
    var buffer := new char[limits.request + 1](_ => NUL);
    var used, end, open := ReadHeaders(conn, buffer, limits);
    assert s[..used] == buffer[..used];
    var text := UpToNul(buffer[..used]);
    seen := used;
    WholeStops(s, limits);
    if SteadyStream(s, limits) {
      Confluence(s, seen, Within(s, limits), conn.broken, limits);
    }
    if !open {
      return Ended(conn.broken), seen;
    }
    if end.None? {
      return Rejected(HeadersTooLarge), seen;
    }
    var head := ReadHead(text, end.value, limits);
    if !head.Head? {
      return Rejected(BadHead(head)), seen;
    }
    var start := end.value + |HEADER_END|;
    var total := start + head.length;
    HeadFits(text, end.value, limits);
    var complete := ReadBody(conn, buffer, used, total);
    if !complete {
      return Ended(conn.broken), seen;
    }
    assert buffer[start..total] == buffer[..total][start..];
    o := Accepted(head.verb, head.path, buffer[start..total]);
  }

  lemma {:induction false} WholeStops(s: string, limits: Limits)
    ensures StoppedAt(s, Within(s, limits), limits)
  {
    hide Find, UpToNul;
  }

  lemma {:induction false} HeadFits(s: string, end: nat, limits: Limits)
    requires ReadHead(s, end, limits).Head?
    ensures end + |HEADER_END| + ReadHead(s, end, limits).length <= limits.request
    ensures ReadHead(s, end, limits).length <= limits.body
  {
    hide ScanRequestLine, ContentLength;
  }

  /** Whatever the stream and however it is cut, an accepted body is within its limit, and
      headers and body together are within theirs. */
  lemma {:induction false} AcceptedFits(s: string, seen: nat, broken: bool, limits: Limits)
    requires seen <= |s| && Answer(s, seen, broken, limits).Accepted?
    ensures var body := Answer(s, seen, broken, limits).body;
      |body| <= limits.body && |body| + 4 <= limits.request
  {
    hide Find, ReadHead, UpToNul;
    var t := UpToNul(s[..seen]);
    HeadFits(t, Find(t, HEADER_END).value, limits);
  }
}
