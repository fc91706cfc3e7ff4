/** The Python string operations the scheduler applies to its configuration
    text: `str.strip()`, `str.split(",")` (and its inverse, `",".join`),
    `str.lower()`, `str.upper()`, `str.replace(pattern, "")` and `int()` on a
    base-10 token. */
module Text {
  import opened Wrappers

  // ---------------------------------------------------------------------
  // Whitespace and strip()

  /** The characters for which Python's `str.isspace()` holds; these are the
      characters `str.strip()` removes when called without arguments. */
  predicate IsSpace(c: char) {
    c in SPACES
  }

  const SPACES: set<char> := {
    '\U{0009}', '\U{000a}', '\U{000b}', '\U{000c}', '\U{000d}',
    '\U{001c}', '\U{001d}', '\U{001e}', '\U{001f}', ' ',
    '\U{0085}', '\U{00a0}', '\U{1680}',
    '\U{2000}', '\U{2001}', '\U{2002}', '\U{2003}', '\U{2004}', '\U{2005}',
    '\U{2006}', '\U{2007}', '\U{2008}', '\U{2009}', '\U{200a}',
    '\U{2028}', '\U{2029}', '\U{202f}', '\U{205f}', '\U{3000}'
  }

  /** Digits, letters and the separators the scheduler splits on are not
      whitespace. */
  lemma NotSpace(c: char)
    requires '0' <= c <= '9' || 'a' <= c <= 'z' || 'A' <= c <= 'Z' || c == ',' || c == '_' || c == '-' || c == '+'
    ensures !IsSpace(c)
  {
  }

  /** Neither the first nor the last character is whitespace. */
  predicate Stripped(s: string) {
    s == [] || (!IsSpace(s[0]) && !IsSpace(s[|s| - 1]))
  }

  /** `s.lstrip()`. */
  function TrimStart(s: string): string {
    if |s| > 0 && IsSpace(s[0]) then TrimStart(s[1..]) else s
  }

  /** `s.rstrip()`. */
  function TrimEnd(s: string): string {
    if |s| > 0 && IsSpace(s[|s| - 1]) then TrimEnd(s[..|s| - 1]) else s
  }

  /** `s.strip()`. */
  function Strip(s: string): string {
    TrimEnd(TrimStart(s))
  }

  /** `lstrip()` removes exactly the leading whitespace: what it returns is
      a suffix that does not start with whitespace, and all it drops is
      whitespace. */
  lemma {:induction false} TrimStartSpec(s: string)
    ensures var r := TrimStart(s);
      && |r| <= |s| && r == s[|s| - |r|..]
      && (r == [] || !IsSpace(r[0]))
      && forall i :: 0 <= i < |s| - |r| ==> IsSpace(s[i])
  {
    if |s| > 0 && IsSpace(s[0]) {
      TrimStartSpec(s[1..]);
    }
  }

  /** `rstrip()` removes exactly the trailing whitespace. */
  lemma {:induction false} TrimEndSpec(s: string)
    ensures var r := TrimEnd(s);
      && |r| <= |s| && r == s[..|r|]
      && (r == [] || !IsSpace(r[|r| - 1]))
      && forall i :: |r| <= i < |s| ==> IsSpace(s[i])
  {
    if |s| > 0 && IsSpace(s[|s| - 1]) {
      TrimEndSpec(s[..|s| - 1]);
    }
  }

  /** `strip()` leaves no whitespace at either end and only removes
      characters. */
  lemma StripSpec(s: string)
    ensures Stripped(Strip(s))
    ensures forall c :: c in Strip(s) ==> c in s
  {
    var t := TrimStart(s);
    var r := TrimEnd(t);
    TrimStartSpec(s);
    TrimEndSpec(t);
    assert r == [] || r[0] == t[0];
    assert forall c :: c in r ==> c in t;
  }

  /** Stripping a string without edge whitespace changes nothing, so
      `strip()` is idempotent. */
  lemma StripStripped(s: string)
    requires Stripped(s)
    ensures Strip(s) == s
  {
  }

  /** Leading and trailing whitespace are exactly what strip() removes. */
  lemma StripPadded(pre: string, s: string, post: string)
    requires forall i :: 0 <= i < |pre| ==> IsSpace(pre[i])
    requires forall i :: 0 <= i < |post| ==> IsSpace(post[i])
    requires s != [] && Stripped(s)
    ensures Strip(pre + s + post) == s
  {
    PadStart(pre, s + post);
    assert pre + s + post == pre + (s + post);
    PadEnd(s, post);
  }

  /** Whitespace only, as `s.isspace()` or the empty string. */
  predicate Blank(s: string) {
    forall i :: 0 <= i < |s| ==> IsSpace(s[i])
  }

  /** A non-space character after leading whitespace is where the result
      of strip() begins. */
  lemma StripFrom(pre: string, c: char, t: string)
    requires Blank(pre) && !IsSpace(c)
    ensures Strip(pre + [c] + t) != [] && Strip(pre + [c] + t)[0] == c
  {
    assert pre + [c] + t == pre + ([c] + t);
    PadStart(pre, [c] + t);
    TrimEndSpec([c] + t);
  }

  lemma {:induction false} PadStart(pre: string, s: string)
    requires forall i :: 0 <= i < |pre| ==> IsSpace(pre[i])
    requires s != [] && !IsSpace(s[0])
    ensures TrimStart(pre + s) == s
  {
    if pre != [] {
      assert (pre + s)[1..] == pre[1..] + s;
      PadStart(pre[1..], s);
    }
  }

  lemma {:induction false} PadEnd(s: string, post: string)
    requires forall i :: 0 <= i < |post| ==> IsSpace(post[i])
    requires s != [] && Stripped(s)
    ensures TrimEnd(s + post) == s
  {
    if post != [] {
      var p := post[..|post| - 1];
      assert (s + post)[..|s + post| - 1] == s + p;
      PadEnd(s, p);
    } else {
      assert s + post == s;
    }
  }

  // ---------------------------------------------------------------------
  // split() and join()

  /** `s.split(sep)` with an explicit one-character separator: the pieces
      between separators, empty ones included; `"".split(",") == [""]`. */
  function Split(s: string, sep: char): (parts: seq<string>)
    ensures |parts| >= 1
  {
    if s == [] then [[]]
    else
      var rest := Split(s[1..], sep);
      if s[0] == sep then [[]] + rest
      else [[s[0]] + rest[0]] + rest[1..]
  }

  /** The pieces `split()` returns hold no separator and join back to the
      string split. */
  lemma {:induction false} SplitSpec(s: string, sep: char)
    ensures forall i :: 0 <= i < |Split(s, sep)| ==> sep !in Split(s, sep)[i]
    ensures Join(Split(s, sep), sep) == s
  {
    if s != [] {
      var rest := Split(s[1..], sep);
      SplitSpec(s[1..], sep);
      var parts := Split(s, sep);
      if s[0] == sep {
        assert parts == [[]] + rest;
        assert parts[1..] == rest;
        assert [s[0]] + s[1..] == s;
      } else {
        assert parts == [[s[0]] + rest[0]] + rest[1..];
        assert parts[1..] == rest[1..];
        assert s == [s[0]] + Join(rest, sep);
        assert |rest| > 1 ==> Join(rest, sep) == rest[0] + [sep] + Join(rest[1..], sep);
        forall i | 0 <= i < |parts| ensures sep !in parts[i] {
          if i > 0 {
            assert parts[i] == rest[i];
          }
        }
      }
    }
  }

  /** `sep.join(parts)`. */
  function Join(parts: seq<string>, sep: char): string {
    if |parts| == 0 then []
    else if |parts| == 1 then parts[0]
    else parts[0] + [sep] + Join(parts[1..], sep)
  }

  /** A join of five pieces, written out. */
  lemma JoinFive(x1: string, x2: string, x3: string, x4: string, x5: string, sep: char)
    ensures Join([x1, x2, x3, x4, x5], sep) == x1 + [sep] + (x2 + [sep] + (x3 + [sep] + (x4 + [sep] + x5)))
  {
    var p := [x1, x2, x3, x4, x5];
    assert p[1..] == [x2, x3, x4, x5] && p[1..][1..] == [x3, x4, x5];
    assert p[1..][1..][1..] == [x4, x5] && p[1..][1..][1..][1..] == [x5];
    assert Join([x4, x5], sep) == x4 + [sep] + x5;
    assert Join([x3, x4, x5], sep) == x3 + [sep] + Join([x4, x5], sep);
    assert Join([x2, x3, x4, x5], sep) == x2 + [sep] + Join([x3, x4, x5], sep);
    assert Join(p, sep) == x1 + [sep] + Join([x2, x3, x4, x5], sep);
  }

  /** Splitting undoes joining when no piece contains the separator: with
      `Split`'s own contract, `Split` and `Join` are inverse bijections. */
  lemma {:induction false} SplitJoin(parts: seq<string>, sep: char)
    requires |parts| >= 1
    requires forall i :: 0 <= i < |parts| ==> sep !in parts[i]
    ensures Split(Join(parts, sep), sep) == parts
  {
    if |parts| == 1 {
      SplitPiece(parts[0], [], sep);
      assert parts[0] + [] == parts[0];
    } else {
      SplitJoin(parts[1..], sep);
      SplitCons(parts[0], Join(parts[1..], sep), sep);
      assert parts == [parts[0]] + parts[1..];
    }
  }

  /** A separator-free piece and a separator in front of a text add that
      piece in front of the text's pieces. */
  lemma SplitCons(p: string, t: string, sep: char)
    requires sep !in p
    ensures Split(p + [sep] + t, sep) == [p] + Split(t, sep)
  {
    assert Split([sep] + t, sep) == [[]] + Split(t, sep) by {
      assert ([sep] + t)[1..] == t;
    }
    SplitPiece(p, [sep] + t, sep);
    assert p + [sep] + t == p + ([sep] + t);
    assert p + [] == p;
  }

  /** A piece free of the separator sticks to whatever piece follows it. */
  lemma {:induction false} SplitPiece(p: string, t: string, sep: char)
    requires sep !in p
    ensures Split(p + t, sep) == [p + Split(t, sep)[0]] + Split(t, sep)[1..]
  {
    var parts := Split(t, sep);
    if p == [] {
      assert p + t == t;
      assert p + parts[0] == parts[0];
      assert parts == [parts[0]] + parts[1..];
    } else {
      var s := p + t;
      assert s[0] == p[0] && s[0] != sep;
      assert s[1..] == p[1..] + t;
      SplitPiece(p[1..], t, sep);
      var rest := Split(s[1..], sep);
      assert rest == [p[1..] + parts[0]] + parts[1..];
      assert Split(s, sep) == [[s[0]] + rest[0]] + rest[1..];
      assert rest[1..] == parts[1..];
      assert [p[0]] + (p[1..] + parts[0]) == p + parts[0];
    }
  }

  // ---------------------------------------------------------------------
  // lower(), upper(), replace()

  function LowerChar(c: char): char {
    if 'A' <= c <= 'Z' then (c as int + 32) as char else c
  }

  function UpperChar(c: char): char {
    if 'a' <= c <= 'z' then (c as int - 32) as char else c
  }

  /** `s.lower()` on the ASCII letters. */
  function Lower(s: string): string {
    seq(|s|, i requires 0 <= i < |s| => LowerChar(s[i]))
  }

  /** `s.upper()` on the ASCII letters. */
  function Upper(s: string): string {
    seq(|s|, i requires 0 <= i < |s| => UpperChar(s[i]))
  }

  /** `upper()` forgets the case of its input, so comparing upper-cased
      names is case-insensitive, and `upper()` is idempotent. */
  lemma UpperIgnoresCase(s: string)
    ensures Upper(Lower(s)) == Upper(s)
    ensures Upper(Upper(s)) == Upper(s)
    ensures forall i :: 0 <= i < |Upper(s)| ==> !('a' <= Upper(s)[i] <= 'z')
  {
  }

  /** `s.replace(pattern, "")`: every occurrence of `pattern` found in a
      left-to-right scan, without overlaps, is removed. */
  function RemoveAll(s: string, pattern: string): (r: string)
    requires |pattern| > 0
    ensures |r| <= |s|
    decreases |s|
  {
    if |s| < |pattern| then s
    else if s[..|pattern|] == pattern then RemoveAll(s[|pattern|..], pattern)
    else [s[0]] + RemoveAll(s[1..], pattern)
  }

  /** No letter is lower case. */
  predicate NoLowerCase(s: string) {
    forall i :: 0 <= i < |s| ==> !('a' <= s[i] <= 'z')
  }

  /** A pattern with a lower-case letter never occurs in a string without
      one, so removing it leaves such a string unchanged. */
  lemma {:induction false} RemoveAllAbsent(s: string, pattern: string)
    requires |pattern| > 0 && !NoLowerCase(pattern)
    requires NoLowerCase(s)
    ensures RemoveAll(s, pattern) == s
    decreases |s|
  {
    if |s| >= |pattern| {
      var k :| 0 <= k < |pattern| && 'a' <= pattern[k] <= 'z';
      assert s[..|pattern|][k] == s[k];
      assert s[..|pattern|] != pattern;
      RemoveAllAbsent(s[1..], pattern);
      assert [s[0]] + s[1..] == s;
    }
  }

  // ---------------------------------------------------------------------
  // int() on a base-10 token

  predicate IsDigit(c: char) {
    '0' <= c <= '9'
  }

  /** The digits of an integer literal as Python's `int()` accepts them:
      decimal digits, with single underscores allowed between two digits. */
  predicate DigitGroups(s: string) {
    && |s| > 0
    && IsDigit(s[0])
    && IsDigit(s[|s| - 1])
    && (forall i :: 0 <= i < |s| ==> IsDigit(s[i]) || s[i] == '_')
    && (forall i :: 0 <= i < |s| - 1 ==> s[i] == '_' ==> s[i + 1] != '_')
  }

  /** The value of a digit string, underscores ignored. */
  function DigitsValue(s: string): nat {
    if s == [] then 0
    else if IsDigit(s[|s| - 1]) then 10 * DigitsValue(s[..|s| - 1]) + (s[|s| - 1] as int - '0' as int)
    else DigitsValue(s[..|s| - 1])
  }

  /** `int(token)` for a base-10 token already stripped of whitespace: an
      optional sign, then digit groups; `None` where Python raises
      `ValueError`. */
  function ParseInt(token: string): Option<int> {
    if |token| > 0 && (token[0] == '+' || token[0] == '-') then
      var body := token[1..];
      if DigitGroups(body) then
        Some(if token[0] == '-' then -(DigitsValue(body) as int) else DigitsValue(body))
      else None
    else if DigitGroups(token) then Some(DigitsValue(token))
    else None
  }

  /** The decimal numeral of `n`, without sign, underscores or leading zeros. */
  function Decimal(n: nat): (r: string)
    ensures |r| > 0 && forall i :: 0 <= i < |r| ==> IsDigit(r[i])
  {
    var d := ['0' + (n % 10) as char];
    if n < 10 then d else Decimal(n / 10) + d
  }

  /** `int()` reads a decimal numeral back as the number it was made from,
      with either sign. */
  lemma DecimalRoundTrip(n: nat)
    ensures ParseInt(Decimal(n)) == Some(n)
    ensures ParseInt("+" + Decimal(n)) == Some(n)
    ensures ParseInt("-" + Decimal(n)) == Some(-(n as int))
  {
    DecimalValue(n);
    assert ("+" + Decimal(n))[1..] == Decimal(n);
    assert ("-" + Decimal(n))[1..] == Decimal(n);
  }

  lemma {:induction false} DecimalValue(n: nat)
    ensures DigitsValue(Decimal(n)) == n
  {
    if n >= 10 {
      var s := Decimal(n);
      assert s[..|s| - 1] == Decimal(n / 10);
      DecimalValue(n / 10);
    }
  }
}
