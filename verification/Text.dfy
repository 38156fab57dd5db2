/** C strings and the character classes of the "C" locale.  A char stands for one
    byte, and a C string is a string without the terminator. */
module Text {
  import opened Options

  const INT_MAX := 2147483647

  const NUL := 0 as char

  predicate IsCString(s: string) {
    NUL !in s
  }

  /** The C string at the start of a buffer. */
  function UpToNul(s: string): string {
    if s == "" || s[0] == NUL then "" else [s[0]] + UpToNul(s[1..])
  }

  lemma {:induction false} UpToNulWhole(s: string)
    requires NUL !in s
    ensures UpToNul(s) == s
  {
    if s != "" {
      UpToNulWhole(s[1..]);
      assert [s[0]] + s[1..] == s;
    }
  }

  /** The first NUL ends the string, whatever follows it. */
  lemma {:induction false} UpToNulCut(s: string, more: string)
    requires NUL !in s
    ensures UpToNul(s + ([0 as char] + more)) == s
  {
    var t := s + ([0 as char] + more);
    if s == "" {
      assert t == [0 as char] + more && t[0] == NUL;
    } else {
      assert t[0] == s[0] && t[1..] == s[1..] + ([0 as char] + more);
      UpToNulCut(s[1..], more);
      assert [s[0]] + s[1..] == s;
    }
  }

  lemma {:induction false} NoNul(s: string)
    ensures IsCString(UpToNul(s))
  {
    if s != "" && s[0] != NUL {
      NoNul(s[1..]);
    }
  }

  predicate IsSpace(c: char) {
    c == ' ' || 9 <= c as int <= 13
  }

  predicate IsDigit(c: char) {
    '0' <= c <= '9'
  }

  predicate IsAlpha(c: char) {
    'a' <= c <= 'z' || 'A' <= c <= 'Z'
  }

  predicate IsWordChar(c: char) {
    IsAlpha(c) || IsDigit(c) || c == '_'
  }

  predicate AllSpace(s: string) {
    forall i :: 0 <= i < |s| ==> IsSpace(s[i])
  }

  predicate AllDigits(s: string) {
    forall i :: 0 <= i < |s| ==> IsDigit(s[i])
  }

  function Lower(c: char): char {
    if 'A' <= c <= 'Z' then (c as int + 32) as char else c
  }

  predicate SameNoCase(a: string, b: string) {
    |a| == |b| && forall i :: 0 <= i < |a| ==> Lower(a[i]) == Lower(b[i])
  }

  /** The white space, digits, letters and word characters of the "C" locale, one by one. */
  lemma {:induction false} CharClasses(c: char)
    ensures IsSpace(c) <==> c in " \t\n\r" || c as int == 11 || c as int == 12
    ensures IsDigit(c) <==> c in "0123456789"
    ensures IsAlpha(c) <==>
      c in "abcdefghijklm" || c in "nopqrstuvwxyz" || c in "ABCDEFGHIJKLM" || c in "NOPQRSTUVWXYZ"
    ensures IsWordChar(c) <==> IsAlpha(c) || IsDigit(c) || c in "_"
  {
  }

  // ---------------------------------------------------------------- letter case

  /** The same character, or the same letter once as a capital and once small: in ASCII
      they lie 32 apart. */
  predicate SameLetter(c: char, d: char) {
    || c == d
    || ('A' <= c <= 'Z' && d as int == c as int + 32)
    || ('A' <= d <= 'Z' && c as int == d as int + 32)
  }

  predicate Recased(a: string, b: string) {
    |a| == |b| && forall i :: 0 <= i < |a| ==> SameLetter(a[i], b[i])
  }

  /** strcasecmp finds no difference exactly between recasings of one text. */
  lemma {:induction false} RecasedIff(a: string, b: string)
    ensures SameNoCase(a, b) <==> Recased(a, b)
  {
    forall i | 0 <= i < |a| && i < |b| ensures Lower(a[i]) == Lower(b[i]) <==> SameLetter(a[i], b[i]) {
      LowerIff(a[i], b[i]);
    }
  }

  lemma {:induction false} LowerIff(c: char, d: char)
    ensures Lower(c) == Lower(d) <==> SameLetter(c, d)
  {
  }

  function SkipSpace(s: string): (r: string)
    ensures |r| <= |s| && r == s[|s| - |r|..] && AllSpace(s[..|s| - |r|])
    ensures r != "" ==> !IsSpace(r[0])
  {
    if s != "" && IsSpace(s[0]) then
      var r := SkipSpace(s[1..]);
      assert s[..|s| - |r|] == [s[0]] + s[1..][..|s| - 1 - |r|];
      r
    else s
  }

  lemma {:induction false} SkipSpaceOver(w: string, rest: string)
    requires AllSpace(w)
    ensures SkipSpace(w + rest) == SkipSpace(rest)
  {
    if w == "" {
      assert w + rest == rest;
    } else {
      assert (w + rest)[1..] == w[1..] + rest;
      SkipSpaceOver(w[1..], rest);
    }
  }

  lemma {:induction false} SpacePlain(s: string)
    requires IsCString(s)
    ensures IsCString(SkipSpace(s))
  {
  }

  function ExpectSymbol(s: string, c: char): Option<string> {
    var cur := SkipSpace(s);
    if cur == "" || cur[0] != c then None else Some(cur[1..])
  }

  lemma {:induction false} SymbolPlain(s: string, c: char)
    requires IsCString(s) && ExpectSymbol(s, c).Some?
    ensures IsCString(ExpectSymbol(s, c).value)
  {
    SpacePlain(s);
  }

  /** The loop that moves a cursor over white space. */
  method SkipSpaceAt(s: string, p: nat) returns (q: nat)
    requires p <= |s|
    ensures p <= q <= |s| && s[q..] == SkipSpace(s[p..])
  {
    q := p;
    while q < |s| && IsSpace(s[q])
      invariant p <= q <= |s|
      invariant SkipSpace(s[p..]) == SkipSpace(s[q..])
    {
      assert s[q..][1..] == s[q + 1..];
      q := q + 1;
    }
  }

  method ExpectSymbolAt(s: string, p: nat, c: char) returns (ok: bool, q: nat)
    requires p <= |s|
    ensures p <= q <= |s|
    ensures ok <==> ExpectSymbol(s[p..], c).Some?
    ensures ok ==> ExpectSymbol(s[p..], c) == Some(s[q..])
  {
    hide SkipSpace;
    var cur := SkipSpaceAt(s, p);
    if cur == |s| || s[cur] != c {
      return false, p;
    }
    assert s[cur..][1..] == s[cur + 1..];
    return true, cur + 1;
  }

  // ---------------------------------------------------------------- decimal numbers

  function DigitChar(d: nat): char
    requires d < 10
  {
    ('0' as int + d) as char
  }

  /** What "%d" prints for a number that is not negative. */
  function Decimal(n: nat): (s: string)
    ensures s != "" && AllDigits(s)
    decreases n
  {
    if n < 10 then [DigitChar(n)] else Decimal(n / 10) + [DigitChar(n % 10)]
  }

  /** The value of a string of digits. */
  function Value(s: string): nat
    requires AllDigits(s)
  {
    if s == "" then 0 else 10 * Value(s[..|s| - 1]) + (s[|s| - 1] as int - '0' as int)
  }

  lemma {:induction false} ValueDecimal(n: nat)
    ensures Value(Decimal(n)) == n
    decreases n
  {
    if n >= 10 {
      ValueDecimal(n / 10);
      var s := Decimal(n);
      assert s[..|s| - 1] == Decimal(n / 10);
    } else {
      var s := Decimal(n);
      assert s[..|s| - 1] == "";
    }
  }

  lemma {:induction false} NoLeadingZero(n: nat)
    ensures n > 0 ==> Decimal(n)[0] != '0'
    ensures |Decimal(n)| > 1 ==> Decimal(n)[0] != '0'
    decreases n
  {
    if n >= 10 {
      NoLeadingZero(n / 10);
      assert Decimal(n)[0] == Decimal(n / 10)[0];
    }
  }

  /** Leading zeros do not change a value. */
  lemma {:induction false} ValuePadded(zeros: string, n: nat)
    requires forall i :: 0 <= i < |zeros| ==> zeros[i] == '0'
    ensures AllDigits(zeros + Decimal(n)) && Value(zeros + Decimal(n)) == n
    decreases n, |zeros|
  {
    var s := zeros + Decimal(n);
    if n >= 10 {
      ValuePadded(zeros, n / 10);
      assert s[..|s| - 1] == zeros + Decimal(n / 10);
    } else {
      assert s[..|s| - 1] == zeros;
      ValueZeros(zeros);
    }
  }

  lemma {:induction false} ValueZeros(zeros: string)
    requires forall i :: 0 <= i < |zeros| ==> zeros[i] == '0'
    ensures Value(zeros) == 0
  {
    if zeros != "" {
      ValueZeros(zeros[..|zeros| - 1]);
    }
  }

  function TenTo(e: nat): (t: nat)
    ensures t >= 1
  {
    if e == 0 then 1 else 10 * TenTo(e - 1)
  }

  /** A number below 10^e has at most e digits. */
  lemma {:induction false} DecimalLength(n: nat, e: nat)
    requires n < TenTo(e) && e >= 1
    ensures |Decimal(n)| <= e
    decreases n
  {
    if n >= 10 {
      assert e >= 2;
      DecimalLength(n / 10, e - 1);
    }
  }

  lemma {:induction false} DivideTwice(n: nat, a: nat)
    requires a >= 1
    ensures n / 10 / a == n / (10 * a)
  {
    var q := n / 10 / a;
    var r := n - 10 * a * q;
    assert n / 10 == a * q + n / 10 % a;
    assert 10 * (n / 10) == 10 * a * q + 10 * (n / 10 % a);
    assert 0 <= r < 10 * a;
    Quotient(n, 10 * a, q, r);
  }

  lemma {:induction false} Quotient(n: nat, d: nat, q: nat, r: nat)
    requires d >= 1 && n == d * q + r && r < d
    ensures n / d == q
  {
    var k := n / d;
    assert n == d * k + n % d;
    assert k < q ==> d * q >= d * (k + 1);
    assert k > q ==> d * k >= d * (q + 1);
  }

  lemma {:induction false} DigitIs(d: nat)
    requires d < 10
    ensures DigitChar(d) == "0123456789"[d]
  {
  }

  lemma {:induction false} PowerStep(n: nat, k: nat)
    ensures n / TenTo(0) == n
    ensures k > 0 ==> n / TenTo(k) == n / 10 / TenTo(k - 1)
  {
    if k > 0 {
      DivideTwice(n, TenTo(k - 1));
    }
  }

  /** The k-th digit from the right is the remainder by ten of the k-th quotient. */
  lemma {:induction false} DecimalDigit(n: nat, k: nat)
    requires k < |Decimal(n)|
    ensures Decimal(n)[|Decimal(n)| - 1 - k] == "0123456789"[n / TenTo(k) % 10]
    decreases n
  {
    hide TenTo, DigitChar;
    PowerStep(n, k);
    DigitIs(n % 10);
    if n >= 10 {
      var before := Decimal(n / 10);
      assert Decimal(n) == before + [DigitChar(n % 10)];
      hide Decimal;
      if k > 0 {
        DecimalDigit(n / 10, k - 1);
        assert Decimal(n)[|Decimal(n)| - 1 - k] == before[|before| - 1 - (k - 1)];
      }
    }
  }

  /** The longest prefix of digits, and what follows it. */
  function TakeDigits(s: string): (r: (string, string))
    ensures r.0 + r.1 == s && AllDigits(r.0) && (r.1 != "" ==> !IsDigit(r.1[0]))
  {
    if s != "" && IsDigit(s[0]) then
      var (d, rest) := TakeDigits(s[1..]);
      assert [s[0]] + s[1..] == s;
      ([s[0]] + d, rest)
    else ("", s)
  }

  lemma {:induction false} TakeDigitsOver(d: string, rest: string)
    requires AllDigits(d) && (rest != "" ==> !IsDigit(rest[0]))
    ensures TakeDigits(d + rest) == (d, rest)
  {
    if d == "" {
      assert d + rest == rest;
    } else {
      assert (d + rest)[1..] == d[1..] + rest;
      TakeDigitsOver(d[1..], rest);
      assert [d[0]] + d[1..] == d;
    }
  }

  /** strtol and the integer conversion of sscanf: white space, a sign, digits. */
  function ReadInteger(s: string): (r: Option<(int, string)>)
    ensures r.Some? ==> |r.value.1| < |s|
  {
    var t := SkipSpace(s);
    var negative := t != "" && t[0] == '-';
    var u := if negative || (t != "" && t[0] == '+') then t[1..] else t;
    var (d, rest) := TakeDigits(u);
    if d == "" then None
    else
      assert |d| + |rest| == |u|;
      var v: int := Value(d);
      Some((if negative then -v else v, rest))
  }

  function AfterSign(t: string): string {
    if t != "" && (t[0] == '-' || t[0] == '+') then t[1..] else t
  }

  function Signed(t: string, d: string): int
    requires AllDigits(d)
  {
    if t != "" && t[0] == '-' then -(Value(d) as int) else Value(d)
  }

  lemma {:induction false} IntegerParts(s: string)
    ensures var t := SkipSpace(s);
      var (d, rest) := TakeDigits(AfterSign(t));
      ReadInteger(s) == if d == "" then None else Some((Signed(t, d), rest))
  {
    hide SkipSpace, TakeDigits, Value;
  }

  lemma {:induction false} DigitFirst(t: string)
    requires t != "" && IsDigit(t[0])
    ensures SkipSpace(t) == t && AfterSign(t) == t
  {
  }

  lemma {:induction false} Unsigned(t: string, d: string)
    requires AllDigits(d) && d != "" && t != "" && t[0] == d[0]
    ensures IsDigit(t[0]) && Signed(t, d) == Value(d)
  {
    hide Value;
  }

  lemma {:induction false} ReadDigits(d: string, rest: string)
    requires d != "" && AllDigits(d) && (rest != "" ==> !IsDigit(rest[0]))
    ensures ReadInteger(d + rest) == Some((Value(d) as int, rest))
  {
    hide *;
    var t := d + rest;
    assert t[0] == d[0];
    Unsigned(t, d);
    DigitFirst(t);
    TakeDigitsOver(d, rest);
    IntegerParts(t);
  }

  lemma {:induction false} ReadSpaced(w: string, t: string)
    requires AllSpace(w)
    ensures ReadInteger(w + t) == ReadInteger(t)
  {
    hide *;
    SkipSpaceOver(w, t);
    IntegerParts(w + t);
    IntegerParts(t);
  }

  lemma {:induction false} ReadDecimal(w: string, n: nat, rest: string)
    requires AllSpace(w) && (rest != "" ==> !IsDigit(rest[0]))
    ensures ReadInteger(w + (Decimal(n) + rest)) == Some((n, rest))
  {
    hide *;
    ReadSpaced(w, Decimal(n) + rest);
    ReadDigits(Decimal(n), rest);
    ValueDecimal(n);
  }

  /** A sign before the number: minus makes it negative and plus is passed over. */
  lemma {:induction false} ReadSigned(w: string, n: nat, rest: string)
    requires AllSpace(w) && (rest != "" ==> !IsDigit(rest[0]))
    ensures ReadInteger(w + ("-" + (Decimal(n) + rest))) == Some((-(n as int), rest))
    ensures ReadInteger(w + ("+" + (Decimal(n) + rest))) == Some((n as int, rest))
  {
    hide *;
    var d := Decimal(n);
    ReadSpaced(w, "-" + (d + rest));
    ReadSpaced(w, "+" + (d + rest));
    SignFirst('-', d + rest);
    SignFirst('+', d + rest);
    TakeDigitsOver(d, rest);
    ValueDecimal(n);
    IntegerParts("-" + (d + rest));
    IntegerParts("+" + (d + rest));
    SignCounts(d + rest, d);
  }

  lemma {:induction false} SignFirst(c: char, s: string)
    requires c == '-' || c == '+'
    ensures SkipSpace([c] + s) == [c] + s && AfterSign([c] + s) == s
  {
    var t := [c] + s;
    assert t[0] == c && !IsSpace(c) && t[1..] == s;
  }

  lemma {:induction false} SignCounts(s: string, d: string)
    requires AllDigits(d)
    ensures Signed("-" + s, d) == -(Value(d) as int) && Signed("+" + s, d) == Value(d)
  {
    hide Value;
  }

  /** A text that starts with neither a digit nor a sign is not a number. */
  lemma {:induction false} ReadNoInteger(w: string, t: string)
    requires AllSpace(w) && (t != "" ==> !IsSpace(t[0]) && !IsDigit(t[0]) && t[0] != '-' && t[0] != '+')
    ensures ReadInteger(w + t) == None
  {
    ReadSpaced(w, t);
    hide Value;
  }

  /** A number as it may be written: a sign or none, and digits. */
  predicate IntText(t: string, n: int) {
    var d := AfterSign(t);
    d != "" && AllDigits(d) && n == if t[0] == '-' then -(Value(d) as int) else Value(d)
  }

  /** Reading an integer takes white space and a number off the text, all of its digits. */
  predicate IntParts(s: string, n: int, w: string, t: string, rest: string) {
    s == w + (t + rest) && AllSpace(w) && IntText(t, n) && (rest != "" ==> !IsDigit(rest[0]))
  }

  lemma {:induction false} IntegerIff(s: string, n: int, rest: string)
    ensures ReadInteger(s) == Some((n, rest)) <==> exists w, t :: IntParts(s, n, w, t, rest)
  {
    hide ReadInteger, IntParts;
    if ReadInteger(s) == Some((n, rest)) {
      var w, t := IntegerSplit(s);
    }
    if exists w, t :: IntParts(s, n, w, t, rest) {
      var w, t :| IntParts(s, n, w, t, rest);
      IntegerRead(s, n, w, t, rest);
    }
  }

  lemma {:induction false} IntegerSplit(s: string) returns (w: string, t: string)
    requires ReadInteger(s).Some?
    ensures IntParts(s, ReadInteger(s).value.0, w, t, ReadInteger(s).value.1)
  {
    hide ReadInteger, SkipSpace, AllSpace, AllDigits, Value, TakeDigits;
    IntegerParts(s);
    var u := SkipSpace(s);
    var (d, rest) := TakeDigits(AfterSign(u));
    w := s[..|s| - |u|];
    t := (if AfterSign(u) == u then "" else [u[0]]) + d;
    SignKept(u, d, rest);
    assert s == w + u;
  }

  lemma {:induction false} SignKept(u: string, d: string, rest: string)
    requires d != "" && AllDigits(d) && d + rest == AfterSign(u)
    ensures var t := (if AfterSign(u) == u then "" else [u[0]]) + d;
      t + rest == u && AfterSign(t) == d && t != "" && t[0] == u[0]
  {
    assert IsDigit(d[0]);
    if AfterSign(u) == u {
      assert "" + d == d && u[0] == d[0];
    } else {
      assert u == [u[0]] + AfterSign(u);
      assert [u[0]] + d + rest == [u[0]] + (d + rest);
    }
  }

  lemma {:induction false} IntegerRead(s: string, n: int, w: string, t: string, rest: string)
    requires IntParts(s, n, w, t, rest)
    ensures ReadInteger(s) == Some((n, rest))
  {
    hide ReadInteger, SkipSpace, AllSpace, Value, TakeDigits;
    var d := AfterSign(t);
    assert IsDigit(d[0]);
    ReadSpaced(w, t + rest);
    assert AfterSign(t + rest) == d + rest && (t + rest)[0] == t[0];
    TakeDigitsOver(d, rest);
    IntegerParts(t + rest);
    NotSpaceFirst(t + rest);
  }

  lemma {:induction false} NotSpaceFirst(t: string)
    requires t != "" && !IsSpace(t[0])
    ensures SkipSpace(t) == t
  {
  }

  lemma {:induction false} RestOfCString(s: string)
    requires IsCString(s) && ReadInteger(s).Some?
    ensures IsCString(ReadInteger(s).value.1)
  {
    var t := SkipSpace(s);
    var negative := t != "" && t[0] == '-';
    var u := if negative || (t != "" && t[0] == '+') then t[1..] else t;
    var (d, rest) := TakeDigits(u);
    assert t == s[|s| - |t|..];
    forall c <- rest ensures c in s {
      assert c in d + rest;
      assert c in u && c in t;
    }
  }
}
