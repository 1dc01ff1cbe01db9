/**
 * `escapeHtml` of src/sidepanel.js: five global replacements, `&` first, that
 * make text safe to splice into markup.
 */
module HtmlEscape {
  import opened JsStrings

  /** `s.replace(/c/g, rep)`: every occurrence of `c` becomes `rep`. */
  function ReplaceAll(s: string, c: char, rep: string): (r: string)
    ensures c !in rep ==> c !in r
    ensures c !in s ==> r == s
    ensures rep != [] ==> |r| >= |s|
  {
    if s == [] then []
    else (if s[0] == c then rep else [s[0]]) + ReplaceAll(s[1..], c, rep)
  }

  /** `escapeHtml`, as the chained calls are written. */
  function EscapeHtml(s: string): (r: string)
    ensures |r| >= |s|
    ensures '\'' !in r
    ensures '&' !in s && '<' !in s && '>' !in s && '"' !in s && '\'' !in s ==> r == s
  {
    ReplaceAll(ReplaceAll(ReplaceAll(ReplaceAll(ReplaceAll(
      s, '&', "&amp;"), '<', "&lt;"), '>', "&gt;"), '"', "&quot;"), '\'', "&#039;")
  }

  /** The characters `escapeHtml` rewrites. */
  predicate IsMarkupChar(c: char) {
    c == '&' || c == '<' || c == '>' || c == '"' || c == '\''
  }

  /** The entity that stands for one character. */
  function EscapeChar(c: char): string {
    match c
    case '&' => "&amp;"
    case '<' => "&lt;"
    case '>' => "&gt;"
    case '"' => "&quot;"
    case '\'' => "&#039;"
    case _ => [c]
  }

  /** A single left-to-right pass that replaces each character by its entity:
      the reference definition of escaping. */
  function EscapeEach(s: string): string {
    if s == [] then [] else EscapeChar(s[0]) + EscapeEach(s[1..])
  }

  lemma {:induction false} ReplaceAllAppend(a: string, b: string, c: char, rep: string)
    ensures ReplaceAll(a + b, c, rep) == ReplaceAll(a, c, rep) + ReplaceAll(b, c, rep)
    decreases |a|
  {
    if a == [] {
      assert a + b == b;
    } else {
      assert (a + b)[0] == a[0] && (a + b)[1..] == a[1..] + b;
      ReplaceAllAppend(a[1..], b, c, rep);
    }
  }

  lemma EscapeHtmlAppend(a: string, b: string)
    ensures EscapeHtml(a + b) == EscapeHtml(a) + EscapeHtml(b)
  {
    ReplaceAllAppend(a, b, '&', "&amp;");
    var a1, b1 := ReplaceAll(a, '&', "&amp;"), ReplaceAll(b, '&', "&amp;");
    ReplaceAllAppend(a1, b1, '<', "&lt;");
    var a2, b2 := ReplaceAll(a1, '<', "&lt;"), ReplaceAll(b1, '<', "&lt;");
    ReplaceAllAppend(a2, b2, '>', "&gt;");
    var a3, b3 := ReplaceAll(a2, '>', "&gt;"), ReplaceAll(b2, '>', "&gt;");
    ReplaceAllAppend(a3, b3, '"', "&quot;");
    var a4, b4 := ReplaceAll(a3, '"', "&quot;"), ReplaceAll(b3, '"', "&quot;");
    ReplaceAllAppend(a4, b4, '\'', "&#039;");
  }

  lemma ReplaceAllOfChar(c: char, d: char, rep: string)
    ensures ReplaceAll([c], d, rep) == if c == d then rep else [c]
  {
    assert [c][1..] == [];
  }

  /** On one character the chain yields that character's entity: each
      replacement string is left alone by the replacements after it. */
  lemma EscapeHtmlOfChar(c: char)
    ensures EscapeHtml([c]) == EscapeChar(c)
  {
    ReplaceAllOfChar(c, '&', "&amp;");
    var s1 := ReplaceAll([c], '&', "&amp;");
    if c == '&' {
      assert s1 == "&amp;";
      assert '<' !in s1 && '>' !in s1 && '"' !in s1 && '\'' !in s1;
    } else {
      ReplaceAllOfChar(c, '<', "&lt;");
      var s2 := ReplaceAll(s1, '<', "&lt;");
      if c == '<' {
        assert s2 == "&lt;";
        assert '>' !in s2 && '"' !in s2 && '\'' !in s2;
      } else {
        ReplaceAllOfChar(c, '>', "&gt;");
        var s3 := ReplaceAll(s2, '>', "&gt;");
        if c == '>' {
          assert s3 == "&gt;";
          assert '"' !in s3 && '\'' !in s3;
        } else {
          ReplaceAllOfChar(c, '"', "&quot;");
          var s4 := ReplaceAll(s3, '"', "&quot;");
          if c == '"' {
            assert s4 == "&quot;";
            assert '\'' !in s4;
          } else {
            ReplaceAllOfChar(c, '\'', "&#039;");
          }
        }
      }
    }
  }

  /** Because `&` is replaced first, and no later replacement string contains a
      character a still later replacement rewrites, the chain of five
      replacements equals the single per-character pass. */
  lemma {:induction false} EscapeHtmlIsPerCharacter(s: string)
    ensures EscapeHtml(s) == EscapeEach(s)
    decreases |s|
  {
    if s != [] {
      assert s == [s[0]] + s[1..];
      EscapeHtmlAppend([s[0]], s[1..]);
      EscapeHtmlIsPerCharacter(s[1..]);
      EscapeHtmlOfChar(s[0]);
    }
  }

  /** The output holds no raw `<`, `>`, `"` or `'`. */
  lemma EscapeHtmlHasNoMarkup(s: string)
    ensures '<' !in EscapeHtml(s) && '>' !in EscapeHtml(s)
    ensures '"' !in EscapeHtml(s) && '\'' !in EscapeHtml(s)
  {
    EscapeHtmlIsPerCharacter(s);
    EscapeEachHasNoMarkup(s);
  }

  lemma EscapeCharHasNoMarkup(c: char)
    ensures '<' !in EscapeChar(c) && '>' !in EscapeChar(c)
    ensures '"' !in EscapeChar(c) && '\'' !in EscapeChar(c)
  {
    match c
    case '&' => assert EscapeChar(c) == ['&', 'a', 'm', 'p', ';'];
    case '<' => assert EscapeChar(c) == ['&', 'l', 't', ';'];
    case '>' => assert EscapeChar(c) == ['&', 'g', 't', ';'];
    case '"' => assert EscapeChar(c) == ['&', 'q', 'u', 'o', 't', ';'];
    case '\'' => assert EscapeChar(c) == ['&', '#', '0', '3', '9', ';'];
    case _ => assert EscapeChar(c) == [c];
  }

  lemma {:induction false} EscapeEachHasNoMarkup(s: string)
    ensures '<' !in EscapeEach(s) && '>' !in EscapeEach(s)
    ensures '"' !in EscapeEach(s) && '\'' !in EscapeEach(s)
    decreases |s|
  {
    if s != [] {
      EscapeEachHasNoMarkup(s[1..]);
      var e, rest := EscapeChar(s[0]), EscapeEach(s[1..]);
      EscapeCharHasNoMarkup(s[0]);
      assert EscapeEach(s) == e + rest;
    }
  }

  lemma {:induction false} EscapeEachLength(s: string)
    ensures |EscapeEach(s)| >= |s|
    ensures |EscapeEach(s)| == |s| <==> forall i :: 0 <= i < |s| ==> !IsMarkupChar(s[i])
    ensures (forall i :: 0 <= i < |s| ==> !IsMarkupChar(s[i])) ==> EscapeEach(s) == s
    decreases |s|
  {
    if s != [] {
      EscapeEachLength(s[1..]);
      assert forall i :: 1 <= i < |s| ==> s[i] == s[1..][i - 1];
      assert s == [s[0]] + s[1..];
    }
  }

  /** `escapeHtml` changes a string exactly when it holds one of `& < > " '`. */
  lemma EscapeHtmlIdentity(s: string)
    ensures EscapeHtml(s) == s <==> forall i :: 0 <= i < |s| ==> !IsMarkupChar(s[i])
  {
    EscapeHtmlIsPerCharacter(s);
    EscapeEachLength(s);
  }

  /** Decoding the five entities, as an HTML parser does when it renders the
      escaped text: the inverse of escaping. */
  function Unescape(s: string): string
    decreases |s|
  {
    if s == [] then []
    else if StartsWith(s, "&amp;") then "&" + Unescape(s[5..])
    else if StartsWith(s, "&lt;") then "<" + Unescape(s[4..])
    else if StartsWith(s, "&gt;") then ">" + Unescape(s[4..])
    else if StartsWith(s, "&quot;") then "\"" + Unescape(s[6..])
    else if StartsWith(s, "&#039;") then "'" + Unescape(s[6..])
    else [s[0]] + Unescape(s[1..])
  }

  lemma UnescapeEscapeChar(c: char, t: string)
    ensures Unescape(EscapeChar(c) + t) == [c] + Unescape(t)
  {
    var e := EscapeChar(c);
    var s := e + t;
    assert forall i :: 0 <= i < |e| ==> s[i] == e[i];
    assert s[|e|..] == t;
    if !IsMarkupChar(c) {
      assert s[0] == c && s[1..] == t;
    } else if c != '&' {
      assert s[0] == '&';
      assert !StartsWith(s, "&amp;") by { assert s[1] != 'a'; }
      if c != '<' {
        assert !StartsWith(s, "&lt;") by { assert s[1] != 'l'; }
        if c != '>' {
          assert !StartsWith(s, "&gt;") by { assert s[1] != 'g'; }
          if c != '"' {
            assert !StartsWith(s, "&quot;") by { assert s[1] != 'q'; }
          }
        }
      }
    }
  }

  lemma {:induction false} UnescapeEscapeEach(s: string)
    ensures Unescape(EscapeEach(s)) == s
    decreases |s|
  {
    if s != [] {
      UnescapeEscapeChar(s[0], EscapeEach(s[1..]));
      UnescapeEscapeEach(s[1..]);
      assert s == [s[0]] + s[1..];
    }
  }

  /** Decoding the escaped text gives the text back. */
  lemma UnescapeEscapeHtml(s: string)
    ensures Unescape(EscapeHtml(s)) == s
  {
    EscapeHtmlIsPerCharacter(s);
    UnescapeEscapeEach(s);
  }

  /** Different texts never escape to the same task string. */
  lemma EscapeHtmlInjective(a: string, b: string)
    requires EscapeHtml(a) == EscapeHtml(b)
    ensures a == b
  {
    UnescapeEscapeHtml(a);
    UnescapeEscapeHtml(b);
  }
}
