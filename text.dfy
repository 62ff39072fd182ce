/**
 * String primitives of the Java and JavaScript libraries that the source relies on:
 * prefix/suffix tests, `String.split` with a one-character separator (JavaScript keeps
 * every field, Java drops trailing empty fields), `trim`, ASCII case mapping and the
 * decimal rendering of integers.
 */
module Text {
  import opened Wrappers

  predicate StartsWith(s: string, prefix: string) {
    prefix <= s
  }

  predicate EndsWith(s: string, suffix: string) {
    |suffix| <= |s| && s[|s| - |suffix|..] == suffix
  }

  /** `String.contains` / `String.prototype.includes`. */
  predicate Contains(s: string, part: string)
    decreases |s|
  {
    StartsWith(s, part) || (|s| > 0 && Contains(s[1..], part))
  }

  /** The first index of `c` in `s`. */
  function IndexOf(s: string, c: char): (r: Option<nat>)
    ensures r.None? <==> c !in s
    ensures r.Some? ==> r.value < |s| && s[r.value] == c && c !in s[..r.value]
    decreases |s|
  {
    if |s| == 0 then None
    else if s[0] == c then Some(0)
    else match IndexOf(s[1..], c)
      case None => None
      case Some(i) => assert s[..i + 1] == [s[0]] + s[1..][..i]; Some(i + 1)
  }

  /** `String.lastIndexOf(char)`. */
  function LastIndexOf(s: string, c: char): (r: Option<nat>)
    ensures r.None? <==> c !in s
    ensures r.Some? ==> r.value < |s| && s[r.value] == c && c !in s[r.value + 1..]
    decreases |s|
  {
    if |s| == 0 then None
    else if s[|s| - 1] == c then Some(|s| - 1)
    else match LastIndexOf(s[..|s| - 1], c)
      case None => None
      case Some(i) => assert s[i + 1..] == s[..|s| - 1][i + 1..] + [s[|s| - 1]]; Some(i)
  }

  /** Concatenates `parts` with `sep` between neighbours; the inverse of `Fields`. */
  function Join(parts: seq<string>, sep: char): string
    decreases |parts|
  {
    if |parts| == 0 then ""
    else if |parts| == 1 then parts[0]
    else parts[0] + [sep] + Join(parts[1..], sep)
  }

  /**
   * JavaScript `s.split(c)`: every field between separators, empty ones included.
   * Java's `split` starts from the same fields (see `JavaSplit`).
   */
  function Fields(s: string, sep: char): (r: seq<string>)
    ensures |r| >= 1
    decreases |s|
  {
    match IndexOf(s, sep)
    case None => [s]
    case Some(i) => [s[..i]] + Fields(s[i + 1..], sep)
  }

  lemma {:induction false} FieldsJoin(s: string, sep: char)
    ensures Join(Fields(s, sep), sep) == s
    ensures forall k :: 0 <= k < |Fields(s, sep)| ==> sep !in Fields(s, sep)[k]
    decreases |s|
  {
    match IndexOf(s, sep)
    case None =>
    case Some(i) =>
      FieldsJoin(s[i + 1..], sep);
      var rest := Fields(s[i + 1..], sep);
      assert Fields(s, sep) == [s[..i]] + rest;
      assert ([s[..i]] + rest)[1..] == rest;
      assert s == s[..i] + [sep] + s[i + 1..];
  }

  lemma {:induction false} FieldsOfSepFree(s: string, sep: char)
    requires sep !in s
    ensures Fields(s, sep) == [s]
  {
  }

  /** The number of fields is one more than the number of separators. */
  lemma {:induction false} FieldsCount(s: string, sep: char)
    ensures |Fields(s, sep)| == multiset(s)[sep] + 1
    decreases |s|
  {
    match IndexOf(s, sep)
    case None =>
      assert multiset(s)[sep] == 0;
    case Some(i) =>
      FieldsCount(s[i + 1..], sep);
      assert s == s[..i] + [sep] + s[i + 1..];
      assert multiset(s) == multiset(s[..i]) + multiset([sep]) + multiset(s[i + 1..]);
      assert multiset(s[..i])[sep] == 0;
  }

  /** The first field ends at the first separator. */
  lemma FieldsCons(a: string, sep: char, b: string)
    requires sep !in a
    ensures Fields(a + [sep] + b, sep) == [a] + Fields(b, sep)
  {
    var s := a + [sep] + b;
    assert s[|a|] == sep;
    assert s[..|a|] == a && s[|a| + 1..] == b;
  }

  /** Splitting a join of separator-free parts gives the parts back. */
  lemma {:induction false} FieldsOfJoin(parts: seq<string>, sep: char)
    requires |parts| > 0 && forall k :: 0 <= k < |parts| ==> sep !in parts[k]
    ensures Fields(Join(parts, sep), sep) == parts
    decreases |parts|
  {
    if |parts| == 1 {
      FieldsOfSepFree(parts[0], sep);
    } else {
      FieldsOfJoin(parts[1..], sep);
      FieldsCons(parts[0], sep, Join(parts[1..], sep));
    }
  }

  /** Removes the empty strings at the end of `parts`. */
  function DropTrailingEmpty(parts: seq<string>): (r: seq<string>)
    ensures r <= parts
    ensures |r| > 0 ==> r[|r| - 1] != ""
    ensures forall k :: |r| <= k < |parts| ==> parts[k] == ""
    decreases |parts|
  {
    if |parts| > 0 && parts[|parts| - 1] == "" then DropTrailingEmpty(parts[..|parts| - 1])
    else parts
  }

  /**
   * Java `s.split(regex)` for a regex that is one literal character: when the
   * separator does not occur the result is `[s]` (even for the empty string);
   * otherwise the fields with trailing empty fields removed.
   */
  function JavaSplit(s: string, sep: char): (r: seq<string>)
    ensures sep !in s ==> r == [s]
    ensures forall k :: 0 <= k < |r| ==> sep !in r[k]
    ensures sep in s ==> Join(r, sep) <= s && forall k :: |Join(r, sep)| <= k < |s| ==> s[k] == sep
    ensures sep in s && |r| > 0 ==> r[|r| - 1] != ""
  {
    if sep in s then
      var fields := Fields(s, sep);
      var r := DropTrailingEmpty(fields);
      FieldsJoin(s, sep);
      assert fields[..|r|] == r;
      JoinTrailingEmpty(fields, |r|, sep);
      r
    else [s]
  }

  /** Every character of the join of empty parts is a separator. */
  lemma {:induction false} JoinOfEmpty(parts: seq<string>, sep: char)
    requires forall k :: 0 <= k < |parts| ==> parts[k] == ""
    ensures forall k :: 0 <= k < |Join(parts, sep)| ==> Join(parts, sep)[k] == sep
    decreases |parts|
  {
    if |parts| >= 2 {
      JoinOfEmpty(parts[1..], sep);
      assert Join(parts, sep) == [sep] + Join(parts[1..], sep);
    }
  }

  /**
   * Dropping empty parts from the end of `parts` keeps a prefix of its join; what is
   * lost is separators only.
   */
  lemma {:induction false} JoinTrailingEmpty(parts: seq<string>, n: nat, sep: char)
    requires n <= |parts| && forall k :: n <= k < |parts| ==> parts[k] == ""
    ensures Join(parts[..n], sep) <= Join(parts, sep)
    ensures forall k :: |Join(parts[..n], sep)| <= k < |Join(parts, sep)| ==> Join(parts, sep)[k] == sep
    decreases |parts|
  {
    var whole := Join(parts, sep);
    if n == 0 {
      JoinOfEmpty(parts, sep);
    } else if |parts| == 1 {
      assert parts[..n] == parts;
    } else {
      var rest := Join(parts[1..], sep);
      assert whole == parts[0] + [sep] + rest;
      if n == 1 {
        JoinOfEmpty(parts[1..], sep);
        assert Join(parts[..n], sep) == parts[0];
        forall k | |parts[0]| <= k < |whole|
          ensures whole[k] == sep
        {
          if k > |parts[0]| {
            assert whole[k] == rest[k - |parts[0]| - 1];
          }
        }
      } else {
        JoinTrailingEmpty(parts[1..], n - 1, sep);
        assert parts[..n][1..] == parts[1..][..n - 1];
        var front := Join(parts[1..][..n - 1], sep);
        assert Join(parts[..n], sep) == parts[0] + [sep] + front;
        forall k | |Join(parts[..n], sep)| <= k < |whole|
          ensures whole[k] == sep
        {
          assert whole[k] == rest[k - |parts[0]| - 1];
        }
      }
    }
  }

  /** Splitting `a<sep>b` gives back `a` and `b` when neither holds the separator and `b` is not empty. */
  lemma JavaSplitTwo(a: string, sep: char, b: string)
    requires sep !in a && sep !in b && b != ""
    ensures JavaSplit(a + [sep] + b, sep) == [a, b]
  {
    FieldsCons(a, sep, b);
    FieldsOfSepFree(b, sep);
    assert (a + [sep] + b)[|a|] == sep;
  }

  /**
   * `r` is the piece of `s` starting at `i`, and every character of `s` around it is one
   * that `space` accepts.
   */
  predicate Strips(s: string, r: string, i: int, space: char -> bool) {
    && 0 <= i <= |s| - |r|
    && s[i..i + |r|] == r
    && (forall k :: 0 <= k < i ==> space(s[k]))
    && (forall k :: i + |r| <= k < |s| ==> space(s[k]))
  }

  /** Removing a space from the front of `s` keeps a piece of `s` surrounded by spaces. */
  lemma StripsFront(s: string, r: string, space: char -> bool)
    requires |s| > 0 && space(s[0])
    requires exists i :: Strips(s[1..], r, i, space)
    ensures exists i :: Strips(s, r, i, space)
  {
    var i :| Strips(s[1..], r, i, space);
    assert s[i + 1..i + 1 + |r|] == s[1..][i..i + |r|];
    assert Strips(s, r, i + 1, space);
  }

  /** Removing a space from the back of `s` likewise. */
  lemma StripsBack(s: string, front: string, r: string, space: char -> bool)
    requires |s| > 0 && space(s[|s| - 1]) && front == s[..|s| - 1]
    requires exists i :: Strips(front, r, i, space)
    ensures exists i :: Strips(s, r, i, space)
  {
    var i :| Strips(front, r, i, space);
    assert s[i..i + |r|] == front[i..i + |r|];
    assert Strips(s, r, i, space);
  }

  /** The characters Java's `trim` removes: U+0020 and below. */
  predicate IsJavaSpace(c: char) {
    c <= ' '
  }

  /** Java `String.trim`: `s` without the characters at or below U+0020 at either end. */
  function JavaTrim(s: string): (r: string)
    ensures |r| <= |s|
    ensures |r| > 0 ==> !IsJavaSpace(r[0]) && !IsJavaSpace(r[|r| - 1])
    decreases |s|
  {
    if |s| > 0 && IsJavaSpace(s[0]) then
      JavaTrim(s[1..])
    else if |s| > 0 && IsJavaSpace(s[|s| - 1]) then
      JavaTrim(s[..|s| - 1])
    else s
  }

  /** `trim` keeps the piece of `s` between its leading and trailing characters at or below U+0020. */
  lemma {:induction false} JavaTrimStrips(s: string)
    ensures exists i :: Strips(s, JavaTrim(s), i, IsJavaSpace)
    decreases |s|
  {
    var r := JavaTrim(s);
    if |s| > 0 && IsJavaSpace(s[0]) {
      JavaTrimStrips(s[1..]);
      StripsFront(s, r, IsJavaSpace);
    } else if |s| > 0 && IsJavaSpace(s[|s| - 1]) {
      JavaTrimStrips(s[..|s| - 1]);
      StripsBack(s, s[..|s| - 1], r, IsJavaSpace);
    } else {
      assert Strips(s, r, 0, IsJavaSpace);
    }
  }

  /** The ECMAScript WhiteSpace and LineTerminator characters, which `String.prototype.trim` removes. */
  predicate IsJsSpace(c: char) {
    c == '\U{0009}' || c == '\U{000A}' || c == '\U{000B}' || c == '\U{000C}' || c == '\U{000D}' ||
    c == ' ' || c == '\U{00A0}' || c == '\U{1680}' || ('\U{2000}' <= c <= '\U{200A}') ||
    c == '\U{2028}' || c == '\U{2029}' || c == '\U{202F}' || c == '\U{205F}' || c == '\U{3000}' ||
    c == '\U{FEFF}'
  }

  /** JavaScript `String.prototype.trim`: `s` without the white space at either end. */
  function JsTrim(s: string): (r: string)
    ensures |r| <= |s|
    ensures |r| > 0 ==> !IsJsSpace(r[0]) && !IsJsSpace(r[|r| - 1])
    decreases |s|
  {
    if |s| > 0 && IsJsSpace(s[0]) then
      JsTrim(s[1..])
    else if |s| > 0 && IsJsSpace(s[|s| - 1]) then
      JsTrim(s[..|s| - 1])
    else s
  }

  /** JavaScript's `trim` keeps the piece of `s` between the white space at either end. */
  lemma {:induction false} JsTrimStrips(s: string)
    ensures exists i :: Strips(s, JsTrim(s), i, IsJsSpace)
    decreases |s|
  {
    var r := JsTrim(s);
    if |s| > 0 && IsJsSpace(s[0]) {
      JsTrimStrips(s[1..]);
      StripsFront(s, r, IsJsSpace);
    } else if |s| > 0 && IsJsSpace(s[|s| - 1]) {
      JsTrimStrips(s[..|s| - 1]);
      StripsBack(s, s[..|s| - 1], r, IsJsSpace);
    } else {
      assert Strips(s, r, 0, IsJsSpace);
    }
  }

  function LowerChar(c: char): char {
    if 'A' <= c <= 'Z' then (c as int + 32) as char else c
  }

  /** `toLowerCase` restricted to the ASCII letters (see README). */
  function Lower(s: string): (r: string)
    ensures |r| == |s|
    ensures forall k :: 0 <= k < |s| ==> r[k] == LowerChar(s[k])
  {
    seq(|s|, k requires 0 <= k < |s| => LowerChar(s[k]))
  }

  /** `String.equalsIgnoreCase` over ASCII case folding. */
  predicate EqualsIgnoreCase(a: string, b: string) {
    Lower(a) == Lower(b)
  }

  function DigitChar(d: nat): char
    requires d < 10
  {
    ('0' as int + d) as char
  }

  /** The number a run of decimal digits denotes, most significant first. */
  function DecimalValue(digits: string): nat
    requires forall k :: 0 <= k < |digits| ==> '0' <= digits[k] <= '9'
    decreases |digits|
  {
    if |digits| == 0 then 0
    else 10 * DecimalValue(digits[..|digits| - 1]) + (digits[|digits| - 1] as int - '0' as int)
  }

  /**
   * Decimal rendering of a non-negative integer, as `String(n)` / `Integer.toString(n)`:
   * digits that denote `n`, without a leading zero unless `n` is 0.
   */
  function NatToString(n: nat): (r: string)
    ensures |r| >= 1
    ensures forall k :: 0 <= k < |r| ==> '0' <= r[k] <= '9'
    ensures DecimalValue(r) == n
    ensures |r| > 1 ==> r[0] != '0'
    decreases n
  {
    if n < 10 then [DigitChar(n)] else NatToString(n / 10) + [DigitChar(n % 10)]
  }

  /** Decimal rendering of an integer, with a leading '-' when it is negative. */
  function IntToString(n: int): string {
    if n < 0 then "-" + NatToString(-n) else NatToString(n)
  }
}
