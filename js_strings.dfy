/**
 * The parts of the JavaScript string library that the link classifier and the
 * side panel rely on: `trim`, `startsWith`, `includes`, case-insensitive ASCII
 * matching, UTF-16 `length` and `parseInt`; and dotted pieces, which the model
 * uses to read the two regular expressions of the classifier.
 * Strings are Dafny strings, sequences of Unicode scalar values.
 */
module JsStrings {
  import opened Wrappers

  // ---------------------------------------------------------------------------
  // Whitespace and trim
  // ---------------------------------------------------------------------------

  /** The WhiteSpace and LineTerminator code points of ECMAScript (sections 12.2
      and 12.3 of ECMA-262): exactly the characters `String.prototype.trim` drops. */
  const Whitespace: set<char> := {
    '\t', '\n', '\U{000B}', '\U{000C}', '\r', ' ', '\U{00A0}', '\U{1680}',
    '\U{2000}', '\U{2001}', '\U{2002}', '\U{2003}', '\U{2004}', '\U{2005}',
    '\U{2006}', '\U{2007}', '\U{2008}', '\U{2009}', '\U{200A}',
    '\U{2028}', '\U{2029}', '\U{202F}', '\U{205F}', '\U{3000}', '\U{FEFF}'
  }

  predicate IsWhitespace(c: char) {
    c in Whitespace
  }

  predicate AllWhitespace(s: string) {
    forall i :: 0 <= i < |s| ==> IsWhitespace(s[i])
  }

  /** The number of whitespace characters `s` starts with. */
  function LeadingWhitespace(s: string): (n: nat)
    ensures n <= |s| && (n == |s| || !IsWhitespace(s[n]))
  {
    if s != [] && IsWhitespace(s[0]) then 1 + LeadingWhitespace(s[1..]) else 0
  }

  /** The number of whitespace characters `s` ends with. */
  function TrailingWhitespace(s: string): (n: nat)
    ensures n <= |s| && (n == |s| || !IsWhitespace(s[|s| - 1 - n]))
  {
    if s != [] && IsWhitespace(s[|s| - 1]) then 1 + TrailingWhitespace(s[..|s| - 1]) else 0
  }

  /** `String.prototype.trimStart`: drops the leading whitespace. */
  function TrimStart(s: string): (r: string)
    ensures |r| <= |s| && r == s[|s| - |r|..]
    ensures r == [] || !IsWhitespace(r[0])
  {
    s[LeadingWhitespace(s)..]
  }

  /** `String.prototype.trimEnd`: drops the trailing whitespace. */
  function TrimEnd(s: string): (r: string)
    ensures |r| <= |s| && r == s[..|r|]
    ensures r == [] || !IsWhitespace(r[|r| - 1])
  {
    s[..|s| - TrailingWhitespace(s)]
  }

  /** What `trimStart` cuts is whitespace. */
  lemma {:induction false} TrimStartCutsWhitespace(s: string)
    ensures AllWhitespace(s[..|s| - |TrimStart(s)|])
    decreases |s|
  {
    if s != [] && IsWhitespace(s[0]) {
      TrimStartCutsWhitespace(s[1..]);
      var n := LeadingWhitespace(s);
      assert s[..n] == [s[0]] + s[1..][..n - 1];
    }
  }

  /** What `trimEnd` cuts is whitespace. */
  lemma {:induction false} TrimEndCutsWhitespace(s: string)
    ensures AllWhitespace(s[|TrimEnd(s)|..])
    decreases |s|
  {
    if s != [] && IsWhitespace(s[|s| - 1]) {
      TrimEndCutsWhitespace(s[..|s| - 1]);
      var n := |s| - TrailingWhitespace(s);
      assert s[n..] == s[..|s| - 1][n..] + [s[|s| - 1]];
    }
  }

  /** `String.prototype.trim`: neither end of the result is whitespace. */
  function Trim(s: string): (r: string)
    ensures r == [] || (!IsWhitespace(r[0]) && !IsWhitespace(r[|r| - 1]))
  {
    TrimEnd(TrimStart(s))
  }

  /** The trimmed string is the middle of `s`, and only whitespace is cut
      from either end. */
  lemma TrimIsMiddle(s: string)
    ensures var k := |s| - |TrimStart(s)|;
            && k + |Trim(s)| <= |s|
            && Trim(s) == s[k..k + |Trim(s)|]
            && AllWhitespace(s[..k]) && AllWhitespace(s[k + |Trim(s)|..])
  {
    TrimCuts(s);
    MiddleOfSuffix(s, TrimStart(s), Trim(s));
  }

  /** `trimStart` cuts a whitespace prefix, and `trim` then cuts a whitespace
      suffix of what is left. */
  lemma TrimCuts(s: string)
    ensures |TrimStart(s)| <= |s| && TrimStart(s) == s[|s| - |TrimStart(s)|..]
            && AllWhitespace(s[..|s| - |TrimStart(s)|])
    ensures |Trim(s)| <= |TrimStart(s)| && Trim(s) == TrimStart(s)[..|Trim(s)|]
            && AllWhitespace(TrimStart(s)[|Trim(s)|..])
  {
    TrimStartCutsWhitespace(s);
    TrimEndCutsWhitespace(TrimStart(s));
  }

  /** If `t` is what remains of `s` after cutting a whitespace prefix, and `r`
      what remains of `t` after cutting a whitespace suffix, then `r` is a
      middle part of `s` with whitespace on both sides. */
  lemma MiddleOfSuffix(s: string, t: string, r: string)
    requires |t| <= |s| && t == s[|s| - |t|..] && AllWhitespace(s[..|s| - |t|])
    requires |r| <= |t| && r == t[..|r|] && AllWhitespace(t[|r|..])
    ensures var k := |s| - |t|;
            && k + |r| <= |s|
            && r == s[k..k + |r|]
            && AllWhitespace(s[..k]) && AllWhitespace(s[k + |r|..])
  {
    var k := |s| - |t|;
    assert s[k + |r|..] == t[|r|..];
  }

  /** A string with no whitespace at either end is its own trim. */
  lemma TrimUnchanged(s: string)
    requires s == [] || (!IsWhitespace(s[0]) && !IsWhitespace(s[|s| - 1]))
    ensures Trim(s) == s
  {
  }

  // ---------------------------------------------------------------------------
  // Dotted pieces
  // ---------------------------------------------------------------------------

  /** The pieces of `s` between occurrences of `sep`, as `s.split(sep)` gives them. */
  function Split(s: string, sep: char): (parts: seq<string>)
    ensures |parts| >= 1
    ensures forall i :: 0 <= i < |parts| ==> sep !in parts[i]
    ensures |parts| == 1 <==> sep !in s
    decreases |s|
  {
    if s == [] then [""]
    else
      var rest := Split(s[1..], sep);
      assert s == [s[0]] + s[1..];
      if s[0] == sep then [""] + rest
      else [[s[0]] + rest[0]] + rest[1..]
  }

  /** `parts.join(sep)`. */
  function Join(parts: seq<string>, sep: char): string
  {
    if parts == [] then ""
    else if |parts| == 1 then parts[0]
    else parts[0] + [sep] + Join(parts[1..], sep)
  }

  lemma {:induction false} JoinSplit(s: string, sep: char)
    ensures Join(Split(s, sep), sep) == s
    decreases |s|
  {
    if s != [] {
      var rest := Split(s[1..], sep);
      JoinSplit(s[1..], sep);
      assert s == [s[0]] + s[1..];
      if s[0] == sep {
        JoinEmptyFirst(rest, sep);
      } else {
        JoinGrowFirst(s[0], rest, sep);
      }
    }
  }

  /** An empty first part contributes only its separator. */
  lemma JoinEmptyFirst(rest: seq<string>, sep: char)
    requires |rest| >= 1
    ensures Join([""] + rest, sep) == [sep] + Join(rest, sep)
  {
    assert ([""] + rest)[1..] == rest;
  }

  /** A character put in front of the first part comes first in the join. */
  lemma JoinGrowFirst(c: char, rest: seq<string>, sep: char)
    requires |rest| >= 1
    ensures Join([[c] + rest[0]] + rest[1..], sep) == [c] + Join(rest, sep)
  {
    var parts := [[c] + rest[0]] + rest[1..];
    if |rest| > 1 {
      assert parts[1..] == rest[1..];
      assert Join(parts, sep) == [c] + rest[0] + [sep] + Join(rest[1..], sep);
    }
  }

  /** A piece without separator followed by a separator splits off as one part. */
  lemma {:induction false} SplitAfterPiece(p: string, sep: char, t: string)
    requires sep !in p
    ensures Split(p + [sep] + t, sep) == [p] + Split(t, sep)
    decreases |p|
  {
    var s := p + [sep] + t;
    if p == [] {
      assert s == [sep] + t && s[1..] == t;
    } else {
      assert s[0] == p[0] && s[1..] == p[1..] + [sep] + t;
      SplitAfterPiece(p[1..], sep, t);
      assert [p[0]] + p[1..] == p;
    }
  }

  lemma {:induction false} SplitJoin(parts: seq<string>, sep: char)
    requires |parts| >= 1
    requires forall i :: 0 <= i < |parts| ==> sep !in parts[i]
    ensures Split(Join(parts, sep), sep) == parts
    decreases |parts|
  {
    if |parts| == 1 {
      var q := Split(parts[0], sep);
      JoinSplit(parts[0], sep);
    } else {
      SplitJoin(parts[1..], sep);
      SplitAfterPiece(parts[0], sep, Join(parts[1..], sep));
      assert [parts[0]] + parts[1..] == parts;
    }
  }

  // ---------------------------------------------------------------------------
  // Prefixes, substrings, ASCII case
  // ---------------------------------------------------------------------------

  /** `s.startsWith(p)`. */
  predicate StartsWith(s: string, p: string) {
    |p| <= |s| && forall i :: 0 <= i < |p| ==> s[i] == p[i]
  }

  /** `s.includes(sub)`. */
  predicate Includes(s: string, sub: string)
    decreases |s|
  {
    if |s| < |sub| then false else s[..|sub|] == sub || Includes(s[1..], sub)
  }

  /** The case folding a JavaScript regular expression with the `i` flag and
      without the `u` flag applies to the ASCII letters: no character outside
      ASCII folds onto an ASCII letter. */
  function AsciiLower(c: char): char {
    if 'A' <= c <= 'Z' then (c as int + 32) as char else c
  }

  /** `s` starts with the lower-case string `p`, ignoring ASCII case. */
  predicate StartsWithIgnoringCase(s: string, p: string) {
    |p| <= |s| && forall i :: 0 <= i < |p| ==> AsciiLower(s[i]) == p[i]
  }

  /** `s.length`: the number of UTF-16 code units, two for a character beyond
      the Basic Multilingual Plane. */
  function Utf16Length(s: string): (n: nat)
    ensures |s| <= n <= 2 * |s|
  {
    if s == [] then 0 else (if s[0] as int > 0xFFFF then 2 else 1) + Utf16Length(s[1..])
  }

  // ---------------------------------------------------------------------------
  // Digits and parseInt
  // ---------------------------------------------------------------------------

  predicate IsDigit(c: char) {
    '0' <= c <= '9'
  }

  predicate AllDigits(s: string) {
    forall i :: 0 <= i < |s| ==> IsDigit(s[i])
  }

  /** The value of `c` as a digit in any radix up to 36; 36 for a non-digit. */
  function DigitValue(c: char): (d: nat)
    ensures d <= 36
    ensures IsDigit(c) <==> d < 10
  {
    if '0' <= c <= '9' then c as int - '0' as int
    else if 'a' <= c <= 'z' then c as int - 'a' as int + 10
    else if 'A' <= c <= 'Z' then c as int - 'A' as int + 10
    else 36
  }

  predicate IsRadixDigit(c: char, radix: nat) {
    DigitValue(c) < radix
  }

  /** The value of the numeral `z` in base `radix`, most significant digit first. */
  function NumeralValue(z: string, radix: nat): nat
  {
    if z == [] then 0
    else NumeralValue(z[..|z| - 1], radix) * radix + DigitValue(z[|z| - 1])
  }

  /** The longest prefix of `s` made of digits of base `radix`. */
  function DigitPrefix(s: string, radix: nat): (z: string)
    ensures |z| <= |s| && z == s[..|z|]
    ensures forall i :: 0 <= i < |z| ==> IsRadixDigit(z[i], radix)
    ensures |z| == |s| || !IsRadixDigit(s[|z|], radix)
  {
    if s != [] && IsRadixDigit(s[0], radix) then [s[0]] + DigitPrefix(s[1..], radix) else []
  }

  lemma {:induction false} DigitPrefixOfDigits(s: string)
    requires AllDigits(s)
    ensures DigitPrefix(s, 10) == s
  {
    if s != [] {
      DigitPrefixOfDigits(s[1..]);
      assert [s[0]] + s[1..] == s;
    }
  }

  /** `parseInt(s)` with no radix argument (section 19.2.5 of ECMA-262):
      leading whitespace is skipped, a sign is read, a `0x` or `0X` prefix
      selects base 16, and the longest run of digits that follows is the value;
      `None` stands for `NaN`, when that run is empty. */
  function ParseInt(s: string): (r: Option<int>)
    ensures r.Some? ==> exists k :: 0 <= k < |s| && IsDigit(s[k])
  {
    var t := TrimStart(s);
    var negative := t != [] && t[0] == '-';
    var u := if t != [] && (t[0] == '-' || t[0] == '+') then t[1..] else t;
    var hex := |u| >= 2 && u[0] == '0' && (u[1] == 'x' || u[1] == 'X');
    var z := if hex then DigitPrefix(u[2..], 16) else DigitPrefix(u, 10);
    var value: int := if hex then NumeralValue(z, 16) else NumeralValue(z, 10);
    if z == [] then None
    else
      var k := |s| - |t| + |t| - |u|;
      assert u == s[k..];
      assert IsDigit(s[k]) by {
        if hex { assert u[0] == '0'; } else { assert IsRadixDigit(z[0], 10); }
      }
      if negative then Some(-value) else Some(value)
  }

  /** A plain decimal numeral reads as its value. */
  lemma ParseIntOfNumeral(s: string)
    requires AllDigits(s) && s != []
    ensures ParseInt(s) == Some(NumeralValue(s, 10))
  {
    assert IsDigit(s[0]) && !IsWhitespace(s[0]);
    assert TrimStart(s) == s;
    assert !(|s| >= 2 && s[0] == '0' && (s[1] == 'x' || s[1] == 'X')) by {
      if |s| >= 2 { assert IsDigit(s[1]); }
    }
    DigitPrefixOfDigits(s);
    ParseIntOfUnsigned(s);
  }

  /** Text that starts with a decimal digit, with no `0x` prefix, reads as its
      longest decimal prefix. */
  lemma ParseIntOfUnsigned(s: string)
    requires s != [] && IsDigit(s[0]) && TrimStart(s) == s
    requires !(|s| >= 2 && s[0] == '0' && (s[1] == 'x' || s[1] == 'X'))
    ensures ParseInt(s) == Some(NumeralValue(DigitPrefix(s, 10), 10))
  {
    assert s[0] != '-' && s[0] != '+';
    assert DigitPrefix(s, 10) != [];
  }

}
