/**
  The slice of Python's `str` behaviour the roster pipeline relies on: `lower`, `strip`,
  `startswith`, `in`, `replace`, `str(int)`, `int(str)`, `split`, `join` and the
  first `\d+` match of a regular expression search.
*/
module Text {
  import opened Wrappers

  /** Python's `str.isspace`. */
  predicate IsSpace(c: char) {
    || c == ' '
    || ('\t' <= c <= '\r')
    || ('\U{1C}' <= c <= '\U{1F}')
    || c == '\U{85}' || c == '\U{A0}' || c == '\U{1680}'
    || ('\U{2000}' <= c <= '\U{200A}')
    || c == '\U{2028}' || c == '\U{2029}' || c == '\U{202F}' || c == '\U{205F}' || c == '\U{3000}'
  }

  predicate IsDigit(c: char) {
    '0' <= c <= '9'
  }

  predicate AllDigits(s: string) {
    forall c :: c in s ==> IsDigit(c)
  }

  /** `str.lower` on one character, for the ASCII and Latin-1 capitals. */
  function LowerChar(c: char): char {
    if 'A' <= c <= 'Z' || ('\U{C0}' <= c <= '\U{DE}' && c != '\U{D7}') then (c as int + 32) as char else c
  }

  function Lower(s: string): (r: string)
    ensures |r| == |s|
    ensures forall i :: 0 <= i < |s| ==> r[i] == LowerChar(s[i])
  {
    seq(|s|, i requires 0 <= i < |s| => LowerChar(s[i]))
  }

  predicate StartsWith(s: string, prefix: string) {
    |prefix| <= |s| && s[..|prefix|] == prefix
  }

  predicate EndsWith(s: string, suffix: string) {
    |suffix| <= |s| && s[|s| - |suffix|..] == suffix
  }

  /** Python's `sub in s` for strings. */
  predicate Contains(s: string, sub: string)
    decreases |s|
  {
    StartsWith(s, sub) || (|s| > 0 && Contains(s[1..], sub))
  }

  function TrimStart(s: string): (r: string)
    ensures |r| <= |s| && r == s[|s| - |r|..]
    ensures r == [] || !IsSpace(r[0])
    ensures forall i :: 0 <= i < |s| - |r| ==> IsSpace(s[i])
  {
    if |s| > 0 && IsSpace(s[0]) then TrimStart(s[1..]) else s
  }

  function TrimEnd(s: string): (r: string)
    ensures |r| <= |s| && r == s[..|r|]
    ensures r == [] || !IsSpace(r[|r| - 1])
    ensures forall i :: |r| <= i < |s| ==> IsSpace(s[i])
  {
    if |s| > 0 && IsSpace(s[|s| - 1]) then TrimEnd(s[..|s| - 1]) else s
  }

  /** Python's `str.strip()`. */
  function Strip(s: string): string {
    TrimEnd(TrimStart(s))
  }

  /** Python's `s.replace(c, "")` for a one-character `c`. */
  function Without(s: string, c: char): (r: string)
    ensures forall x :: x in r ==> x in s && x != c
  {
    if s == [] then [] else (if s[0] == c then [] else [s[0]]) + Without(s[1..], c)
  }

  function DigitChar(d: int): (c: char)
    requires 0 <= d < 10
    ensures IsDigit(c)
  {
    ('0' as int + d) as char
  }

  function DigitValue(c: char): (d: nat)
    requires IsDigit(c)
    ensures d < 10
  {
    c as int - '0' as int
  }

  /** The decimal digits of `n`, most significant first: Python's `str(n)` for `n >= 0`. */
  function DecimalString(n: nat): string
    decreases n
  {
    if n < 10 then [DigitChar(n)] else DecimalString(n / 10) + [DigitChar(n % 10)]
  }

  /** Python's `str(i)`. */
  function IntToString(i: int): string {
    if i < 0 then "-" + DecimalString(-i) else DecimalString(i)
  }

  /** The number a string of decimal digits denotes. */
  function DigitsValue(s: string): nat
    requires AllDigits(s)
  {
    if s == [] then 0 else DigitsValue(s[..|s| - 1]) * 10 + DigitValue(s[|s| - 1])
  }

  /** Digits, with single underscores allowed between two digits: what `int()` accepts after the sign. */
  predicate DigitGroups(s: string) {
    && |s| > 0
    && IsDigit(s[0]) && IsDigit(s[|s| - 1])
    && (forall c :: c in s ==> IsDigit(c) || c == '_')
    && !Contains(s, "__")
  }

  /** Python's `int(text)` in base 10, on ASCII digits. */
  function ParseInt(text: string): Option<int> {
    ParseSigned(Strip(text))
  }

  /** `int()` once surrounding whitespace is gone: an optional sign, then digit groups. */
  function ParseSigned(t: string): Option<int> {
    var negative := |t| > 0 && t[0] == '-';
    var body := if |t| > 0 && (t[0] == '-' || t[0] == '+') then t[1..] else t;
    if DigitGroups(body) then
      var v: int := DigitsValue(Without(body, '_'));
      Some(if negative then -v else v)
    else
      None
  }

  /** The longest prefix of `s` made of digits. */
  function DigitRun(s: string): (r: string)
    ensures AllDigits(r) && |r| <= |s| && r == s[..|r|]
    ensures |r| < |s| ==> !IsDigit(s[|r|])
  {
    if |s| > 0 && IsDigit(s[0]) then [s[0]] + DigitRun(s[1..]) else []
  }

  /** `int(re.search(r"\d+", s).group(0))`, or None when `s` holds no digit. */
  function FirstDigitRun(s: string): (r: Option<nat>)
    ensures r.None? <==> forall j :: 0 <= j < |s| ==> !IsDigit(s[j])
    decreases |s|
  {
    if s == [] then None
    else if IsDigit(s[0]) then Some(DigitsValue(DigitRun(s)))
    else
      var rest := FirstDigitRun(s[1..]);
      assert forall j :: 1 <= j < |s| ==> s[j] == s[1..][j - 1];
      rest
  }

  /** Python's `sep.join(parts)` for a one-character separator. */
  function Join(sep: char, parts: seq<string>): string {
    if |parts| == 0 then ""
    else if |parts| == 1 then parts[0]
    else parts[0] + [sep] + Join(sep, parts[1..])
  }

  /** Python's `s.split(sep)` for a one-character separator. */
  function Split(s: string, sep: char): (r: seq<string>)
    ensures |r| > 0
  {
    if s == [] then [""]
    else
      var rest := Split(s[1..], sep);
      if s[0] == sep then [""] + rest else [[s[0]] + rest[0]] + rest[1..]
  }

  /** The index of the last occurrence of `c` in `s`. */
  function LastIndexOf(s: string, c: char): (r: Option<nat>)
    ensures r.Some? ==> r.value < |s| && s[r.value] == c && c !in s[r.value + 1..]
    ensures r.None? ==> c !in s
  {
    if s == [] then None
    else if s[|s| - 1] == c then Some(|s| - 1)
    else
      var r := LastIndexOf(s[..|s| - 1], c);
      assert s == s[..|s| - 1] + [s[|s| - 1]];
      r
  }

  // ---------------------------------------------------------------------------
  // Properties

  /** Lowercasing twice is lowercasing once. */
  lemma LowerIdempotent(s: string)
    ensures Lower(Lower(s)) == Lower(s)
  {
  }

  /** `str(n)` is a non-empty run of digits that denotes `n` again. */
  lemma {:induction false} DecimalStringRoundTrip(n: nat)
    ensures |DecimalString(n)| > 0 && AllDigits(DecimalString(n))
    ensures DigitsValue(DecimalString(n)) == n
    decreases n
  {
    var d := DecimalString(n);
    if n >= 10 {
      DecimalStringRoundTrip(n / 10);
      assert d[..|d| - 1] == DecimalString(n / 10);
      assert forall c :: c in d ==> c in DecimalString(n / 10) || c == DigitChar(n % 10);
    }
  }

  lemma StripUnchanged(s: string)
    requires s == [] || (!IsSpace(s[0]) && !IsSpace(s[|s| - 1]))
    ensures Strip(s) == s
  {
  }

  lemma {:induction false} NotContainsAbsent(s: string, sub: string)
    requires |sub| > 0 && sub[0] !in s
    ensures !Contains(s, sub)
    decreases |s|
  {
    if |s| > 0 {
      assert s[0] != sub[0];
      assert forall c :: c in s[1..] ==> c in s;
      NotContainsAbsent(s[1..], sub);
    }
  }

  /** A digit string passes `int()`'s grammar and denotes its value. */
  lemma ParseDecimalString(n: nat)
    ensures DigitGroups(DecimalString(n))
    ensures Without(DecimalString(n), '_') == DecimalString(n)
    ensures IsDigit(DecimalString(n)[0]) && IsDigit(DecimalString(n)[|DecimalString(n)| - 1])
    ensures DigitsValue(DecimalString(n)) == n
  {
    var d := DecimalString(n);
    DecimalStringRoundTrip(n);
    assert d[0] in d && d[|d| - 1] in d;
    assert !IsDigit('_');
    WithoutAbsent(d, '_');
    NotContainsAbsent(d, "__");
  }

  lemma ParseSignedDigits(d: string, negative: bool)
    requires DigitGroups(d) && Without(d, '_') == d && AllDigits(d)
    ensures ParseSigned(if negative then "-" + d else d)
            == Some(if negative then -(DigitsValue(d) as int) else DigitsValue(d))
  {
    assert IsDigit(d[0]) && d[0] != '-' && d[0] != '+';
    if negative {
      var t := "-" + d;
      assert t[0] == '-' && t[1..] == d;
    }
  }

  /** `int(str(i)) == i`: the integer visitor reads back what `str` writes. */
  lemma ParseIntRoundTrip(i: int)
    ensures ParseInt(IntToString(i)) == Some(i)
  {
    var n: nat := if i < 0 then -i else i;
    ParseDecimalString(n);
    IntToStringStripped(i);
    ParseSignedDigits(DecimalString(n), i < 0);
  }

  /** `str(i)` has no surrounding whitespace. */
  lemma IntToStringStripped(i: int)
    ensures Strip(IntToString(i)) == IntToString(i)
  {
    var n: nat := if i < 0 then -i else i;
    var d := DecimalString(n);
    DecimalStringRoundTrip(n);
    assert d[0] in d && d[|d| - 1] in d;
    if i < 0 {
      var s := "-" + d;
      assert s[0] == '-' && s[|s| - 1] == d[|d| - 1];
      StripUnchanged(s);
    } else {
      StripUnchanged(d);
    }
  }

  /** The first `\d+` match starts at the first digit and runs as far as the digits go. */
  lemma {:induction false} FirstDigitRunAt(s: string, i: nat)
    requires i < |s| && IsDigit(s[i])
    requires forall j :: 0 <= j < i ==> !IsDigit(s[j])
    ensures FirstDigitRun(s) == Some(DigitsValue(DigitRun(s[i..])))
    decreases i
  {
    if i > 0 {
      assert s[1..][i - 1..] == s[i..];
      FirstDigitRunAt(s[1..], i - 1);
    }
  }

  lemma {:induction false} SplitWithout(p: string, sep: char)
    requires sep !in p
    ensures Split(p, sep) == [p]
  {
    if p != [] {
      SplitWithout(p[1..], sep);
      assert [p[0]] + p[1..] == p;
    }
  }

  lemma {:induction false} SplitAfter(a: string, sep: char, rest: string)
    requires sep !in a
    ensures Split(a + [sep] + rest, sep) == [a] + Split(rest, sep)
  {
    if a == [] {
      assert a + [sep] + rest == [sep] + rest;
      assert ([sep] + rest)[1..] == rest;
    } else {
      SplitAfter(a[1..], sep, rest);
      assert (a + [sep] + rest)[1..] == a[1..] + [sep] + rest;
      assert [a[0]] + a[1..] == a;
    }
  }

  /** Splitting a join on its separator gives the parts back when no part holds the separator. */
  lemma {:induction false} SplitJoin(parts: seq<string>, sep: char)
    requires |parts| > 0
    requires forall p :: p in parts ==> sep !in p
    ensures Split(Join(sep, parts), sep) == parts
  {
    if |parts| == 1 {
      SplitWithout(parts[0], sep);
    } else {
      SplitJoin(parts[1..], sep);
      SplitAfter(parts[0], sep, Join(sep, parts[1..]));
    }
  }

  lemma {:induction false} DecimalStringNoChar(n: nat, c: char)
    requires !IsDigit(c)
    ensures c !in DecimalString(n)
  {
    DecimalStringRoundTrip(n);
  }

  lemma IntToStringNoSeparator(i: int, c: char)
    requires !IsDigit(c) && c != '-'
    ensures c !in IntToString(i)
  {
    if i < 0 {
      DecimalStringNoChar(-i, c);
    } else {
      DecimalStringNoChar(i, c);
    }
  }
  /** Joining one more part puts exactly one separator before it. */
  lemma {:induction false} JoinSnoc(sep: char, parts: seq<string>, p: string)
    requires |parts| > 0
    ensures Join(sep, parts + [p]) == Join(sep, parts) + [sep] + p
    decreases |parts|
  {
    if |parts| > 1 {
      assert (parts + [p])[1..] == parts[1..] + [p];
      JoinSnoc(sep, parts[1..], p);
    }
  }

  /** `strip()` leaves nothing more to strip. */
  lemma StripIdempotent(s: string)
    ensures Strip(Strip(s)) == Strip(s)
  {
    var t := TrimStart(s);
    var r := TrimEnd(t);
    if r != [] {
      assert r[0] == t[0];
    }
    StripUnchanged(r);
  }

  /** `strip()` removes whitespace only: every other character of `s` survives it. */
  lemma StripKeepsNonSpace(s: string, c: char)
    requires c in s && !IsSpace(c)
    ensures c in Strip(s)
  {
    var t := TrimStart(s);
    var i :| 0 <= i < |s| && s[i] == c;
    assert t[i - (|s| - |t|)] == c;
    var r := TrimEnd(t);
    assert r[i - (|s| - |t|)] == c;
  }

  /** Removing a character that does not occur changes nothing. */
  lemma {:induction false} WithoutAbsent(s: string, c: char)
    requires c !in s
    ensures Without(s, c) == s
    decreases |s|
  {
    if s != [] {
      assert forall x :: x in s[1..] ==> x in s;
      WithoutAbsent(s[1..], c);
      assert s == [s[0]] + s[1..];
    }
  }

  /** Deleting a character distributes over concatenation. */
  lemma {:induction false} WithoutAppend(a: string, b: string, c: char)
    ensures Without(a + b, c) == Without(a, c) + Without(b, c)
    decreases |a|
  {
    if a != [] {
      var head := if a[0] == c then [] else [a[0]];
      assert (a + b)[0] == a[0] && (a + b)[1..] == a[1..] + b;
      assert Without(a + b, c) == head + Without(a[1..] + b, c);
      WithoutAppend(a[1..], b, c);
      assert Without(a, c) == head + Without(a[1..], c);
    } else {
      assert a + b == b;
    }
  }
  /** `t` sits at index `i` of `s`, with only whitespace before and after it. */
  predicate TrimmedAt(s: string, t: string, i: nat) {
    && i + |t| <= |s| && t == s[i..i + |t|]
    && (forall k :: 0 <= k < i ==> IsSpace(s[k]))
    && (forall k :: i + |t| <= k < |s| ==> IsSpace(s[k]))
  }

  /** `t` is `s` with its leading and trailing whitespace cut off. */
  ghost predicate Trimmed(s: string, t: string) {
    && (t == [] || (!IsSpace(t[0]) && !IsSpace(t[|t| - 1])))
    && exists i :: TrimmedAt(s, t, i)
  }

  /** `strip()` cuts exactly the surrounding whitespace. */
  lemma StripTrimmed(s: string)
    ensures Trimmed(s, Strip(s))
  {
    var start := TrimStart(s);
    var t := TrimEnd(start);
    if t != [] {
      assert t[0] == start[0];
    }
    var i := |s| - |start|;
    assert t == s[i..i + |t|];
    forall k | i + |t| <= k < |s|
      ensures IsSpace(s[k])
    {
      assert s[k] == start[k - i];
    }
    assert TrimmedAt(s, t, i);
  }

  /** Deleting one character keeps every other. */
  lemma {:induction false} WithoutKeeps(s: string, c: char, d: char)
    requires c in s && c != d
    ensures c in Without(s, d)
    decreases |s|
  {
    if s[0] != c {
      WithoutKeeps(s[1..], c, d);
    }
  }
  /** `int()` refuses a text holding a character that is neither a digit, `_` nor a sign. */
  lemma ParseSignedRejects(t: string, c: char)
    requires c in t && !IsDigit(c) && c != '_' && c != '+' && c != '-'
    ensures ParseSigned(t) == None
  {
    if |t| > 0 && (t[0] == '-' || t[0] == '+') {
      assert t == [t[0]] + t[1..];
      assert c in t[1..];
    }
  }
  /** A joined string holds only the separator and the parts' own characters. */
  lemma {:induction false} JoinNoChar(sep: char, parts: seq<string>, c: char)
    requires c != sep && forall p :: p in parts ==> c !in p
    ensures c !in Join(sep, parts)
    decreases |parts|
  {
    if |parts| > 1 {
      assert parts[0] in parts;
      assert forall p :: p in parts[1..] ==> p in parts;
      JoinNoChar(sep, parts[1..], c);
    } else if |parts| == 1 {
      assert parts[0] in parts;
    }
  }

  /** The last occurrence of `c` in `a + [c] + b` is the one after `a` when `b` holds none. */
  lemma {:induction false} LastIndexOfAfter(a: string, c: char, b: string)
    requires c !in b
    ensures LastIndexOf(a + [c] + b, c) == Some(|a|)
    decreases |b|
  {
    var s := a + [c] + b;
    if b != [] {
      assert b[|b| - 1] in b;
      assert s[..|s| - 1] == a + [c] + b[..|b| - 1];
      assert forall x :: x in b[..|b| - 1] ==> x in b;
      LastIndexOfAfter(a, c, b[..|b| - 1]);
    }
  }
}
