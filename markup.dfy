/** The text work of `NutInterpreter.swift` that does not touch the data
    context: `convertToSpecialCharacters` and the injection of the rendered
    head into the page in `resolve()`. */
module Markup {
  import opened Wrappers
  import opened Text

  /** `replacingOccurrences(of: [c], with: rep, options: .literal)`. */
  function ReplaceChar(s: string, c: char, rep: string): (r: string)
    ensures c !in rep ==> c !in r
    ensures c !in s ==> r == s
  {
    if s == [] then ""
    else (if s[0] == c then rep else [s[0]]) + ReplaceChar(s[1..], c, rep)
  }

  /** A character in neither the text nor the replacement is not in the
      result. */
  lemma {:induction false} ReplaceCharAbsent(s: string, c: char, rep: string, x: char)
    requires x !in s && x !in rep
    ensures x !in ReplaceChar(s, c, rep)
  {
    if s != [] {
      ReplaceCharAbsent(s[1..], c, rep, x);
    }
  }

  lemma {:induction false} ReplaceCharAppend(a: string, b: string, c: char, rep: string)
    ensures ReplaceChar(a + b, c, rep) == ReplaceChar(a, c, rep) + ReplaceChar(b, c, rep)
  {
    if a != [] {
      assert (a + b)[1..] == a[1..] + b;
      ReplaceCharAppend(a[1..], b, c, rep);
    } else {
      assert a + b == b;
    }
  }

  /** `convertToSpecialCharacters(string:)`: the five replacements of
      `char_dictionary`, `&` first. */
  function ConvertToSpecialCharacters(s: string): (r: string)
    ensures '<' !in r && '>' !in r && '"' !in r && '\'' !in r
    ensures '&' !in s && '<' !in s && '>' !in s && '"' !in s && '\'' !in s ==> r == s
  {
    var amp := ReplaceChar(s, '&', "&amp;");
    var lt := ReplaceChar(amp, '<', "&lt;");
    var gt := ReplaceChar(lt, '>', "&gt;");
    var quot := ReplaceChar(gt, '"', "&quot;");
    ConvertKeepsOut(lt, gt, quot);
    ReplaceChar(quot, '\'', "&apos;")
  }

  /** Once replaced, `<`, `>` and `"` are not brought back by the later
      replacements, whose entities do not contain them. */
  lemma ConvertKeepsOut(lt: string, gt: string, quot: string)
    requires '<' !in lt
    requires gt == ReplaceChar(lt, '>', "&gt;") && quot == ReplaceChar(gt, '"', "&quot;")
    ensures var r := ReplaceChar(quot, '\'', "&apos;");
      '<' !in r && '>' !in r && '"' !in r
  {
    ReplaceCharAbsent(lt, '>', "&gt;", '<');
    ReplaceCharAbsent(gt, '"', "&quot;", '<');
    ReplaceCharAbsent(gt, '"', "&quot;", '>');
    AposKeepsOut(quot);
  }

  lemma AposKeepsOut(quot: string)
    requires '<' !in quot && '>' !in quot && '"' !in quot
    ensures var r := ReplaceChar(quot, '\'', "&apos;");
      '<' !in r && '>' !in r && '"' !in r
  {
    ReplaceCharAbsent(quot, '\'', "&apos;", '<');
    ReplaceCharAbsent(quot, '\'', "&apos;", '>');
    ReplaceCharAbsent(quot, '\'', "&apos;", '"');
  }

  /** The entity a single character is written as. */
  function EscapeChar(c: char): string {
    if c == '&' then "&amp;"
    else if c == '<' then "&lt;"
    else if c == '>' then "&gt;"
    else if c == '"' then "&quot;"
    else if c == '\'' then "&apos;"
    else [c]
  }

  /** The same escaping as one pass over the characters: the result holds
      no raw `<`, `>`, `"` or `'`, and each of its `&` starts `&amp;`,
      `&lt;`, `&gt;`, `&quot;` or `&apos;`. */
  function Escaped(s: string): (r: string)
    ensures SafeText(r)
  {
    if s == [] then ""
    else
      SafeChar(s[0]);
      SafeAppend(EscapeChar(s[0]), Escaped(s[1..]));
      EscapeChar(s[0]) + Escaped(s[1..])
  }

  lemma ConvertAppend(a: string, b: string)
    ensures ConvertToSpecialCharacters(a + b) == ConvertToSpecialCharacters(a) + ConvertToSpecialCharacters(b)
  {
    var a1, b1 := ReplaceChar(a, '&', "&amp;"), ReplaceChar(b, '&', "&amp;");
    ReplaceCharAppend(a, b, '&', "&amp;");
    var a2, b2 := ReplaceChar(a1, '<', "&lt;"), ReplaceChar(b1, '<', "&lt;");
    ReplaceCharAppend(a1, b1, '<', "&lt;");
    var a3, b3 := ReplaceChar(a2, '>', "&gt;"), ReplaceChar(b2, '>', "&gt;");
    ReplaceCharAppend(a2, b2, '>', "&gt;");
    var a4, b4 := ReplaceChar(a3, '"', "&quot;"), ReplaceChar(b3, '"', "&quot;");
    ReplaceCharAppend(a3, b3, '"', "&quot;");
    ReplaceCharAppend(a4, b4, '\'', "&apos;");
  }

  lemma ConvertChar(c: char)
    ensures ConvertToSpecialCharacters([c]) == EscapeChar(c)
  {
    if c == '&' {
      ConvertAmpersand(c);
    } else if c == '<' || c == '>' {
      ConvertAngle(c);
    } else {
      ConvertLastTwo(c);
    }
  }

  lemma ConvertAmpersand(c: char)
    requires c == '&'
    ensures ConvertToSpecialCharacters([c]) == EscapeChar(c)
  {
    ReplaceSingle(c, '&', "&amp;");
    Untouched("&amp;", '<', '>', '"', "&lt;", "&gt;", "&quot;");
  }

  lemma ConvertAngle(c: char)
    requires c == '<' || c == '>'
    ensures ConvertToSpecialCharacters([c]) == EscapeChar(c)
  {
    ReplaceSingle(c, '&', "&amp;");
    ReplaceSingle(c, '<', "&lt;");
    if c == '<' {
      Untouched("&lt;", '>', '"', '\'', "&gt;", "&quot;", "&apos;");
    } else {
      ReplaceSingle(c, '>', "&gt;");
      Untouched("&gt;", '"', '\'', '\'', "&quot;", "&apos;", "&apos;");
    }
  }

  lemma ConvertLastTwo(c: char)
    requires c != '&' && c != '<' && c != '>'
    ensures ConvertToSpecialCharacters([c]) == EscapeChar(c)
  {
    ReplaceSingle(c, '&', "&amp;");
    ReplaceSingle(c, '<', "&lt;");
    ReplaceSingle(c, '>', "&gt;");
    ReplaceSingle(c, '"', "&quot;");
    if c == '"' {
      assert '\'' !in "&quot;";
    } else {
      ReplaceSingle(c, '\'', "&apos;");
    }
  }

  /** Three replacements of characters that do not occur in `s` leave it
      unchanged. */
  lemma Untouched(s: string, a: char, b: char, c: char, ra: string, rb: string, rc: string)
    requires a !in s && b !in s && c !in s
    ensures ReplaceChar(ReplaceChar(ReplaceChar(s, a, ra), b, rb), c, rc) == s
  {
  }

  lemma ReplaceSingle(x: char, c: char, rep: string)
    ensures ReplaceChar([x], c, rep) == if x == c then rep else [x]
  {
    assert [x][1..] == [];
    assert (if x == c then rep else [x]) + "" == if x == c then rep else [x];
  }

  /** Replacing `&` first is what makes the chain of replacements the same as
      escaping every character once: an entity written by a later step is
      never escaped again. */
  lemma {:induction false} ConvertIsEscaped(s: string)
    ensures ConvertToSpecialCharacters(s) == Escaped(s)
  {
    if s == [] {
    } else {
      assert s == [s[0]] + s[1..];
      ConvertAppend([s[0]], s[1..]);
      ConvertChar(s[0]);
      ConvertIsEscaped(s[1..]);
    }
  }

  predicate Special(c: char) {
    c == '<' || c == '>' || c == '"' || c == '\''
  }

  /** `&` at index `k` of `r` begins one of the five entities. */
  predicate EntityAt(r: string, k: nat) {
    OccursAt(r, "&amp;", k) || OccursAt(r, "&lt;", k) || OccursAt(r, "&gt;", k)
    || OccursAt(r, "&quot;", k) || OccursAt(r, "&apos;", k)
  }

  /** What escaped text looks like: no raw `<` `>` `"` `'`, and every `&`
      begins an entity. */
  predicate SafeText(r: string) {
    forall k :: 0 <= k < |r| ==> !Special(r[k]) && (r[k] == '&' ==> EntityAt(r, k))
  }

  lemma OccursInAppend(a: string, b: string, pat: string, k: nat)
    ensures k + |pat| <= |a| ==> (OccursAt(a + b, pat, k) <==> OccursAt(a, pat, k))
    ensures |a| <= k ==> (OccursAt(a + b, pat, k) <==> OccursAt(b, pat, k - |a|))
  {
    if k + |pat| <= |a| {
      assert (a + b)[k..k + |pat|] == a[k..k + |pat|];
    }
    if |a| <= k && k + |pat| <= |a + b| {
      assert (a + b)[k..k + |pat|] == b[k - |a|..k - |a| + |pat|];
    }
  }

  lemma SafeAppend(a: string, b: string)
    requires SafeText(a) && SafeText(b)
    ensures SafeText(a + b)
  {
    var r := a + b;
    forall k | 0 <= k < |r|
      ensures !Special(r[k]) && (r[k] == '&' ==> EntityAt(r, k))
    {
      if k < |a| {
        assert r[k] == a[k];
        if a[k] == '&' {
          assert EntityAt(a, k);
          OccursInAppend(a, b, "&amp;", k);
          OccursInAppend(a, b, "&lt;", k);
          OccursInAppend(a, b, "&gt;", k);
          OccursInAppend(a, b, "&quot;", k);
          OccursInAppend(a, b, "&apos;", k);
        }
      } else {
        assert r[k] == b[k - |a|];
        if b[k - |a|] == '&' {
          assert EntityAt(b, k - |a|);
          OccursInAppend(a, b, "&amp;", k);
          OccursInAppend(a, b, "&lt;", k);
          OccursInAppend(a, b, "&gt;", k);
          OccursInAppend(a, b, "&quot;", k);
          OccursInAppend(a, b, "&apos;", k);
        }
      }
    }
  }

  lemma SafeChar(c: char)
    ensures SafeText(EscapeChar(c))
  {
    var e := EscapeChar(c);
    if c == '&' || Special(c) {
      assert e[0] == '&';
      assert OccursAt(e, e, 0);
      assert forall k :: 1 <= k < |e| ==> e[k] != '&' && !Special(e[k]);
    }
  }

  /** The escaped text holds no raw `<`, `>`, `"` or `'`, and each of its `&`
      starts `&amp;`, `&lt;`, `&gt;`, `&quot;` or `&apos;`. */
  lemma {:induction false} EscapedIsSafe(s: string)
    ensures SafeText(ConvertToSpecialCharacters(s))
  {
    ConvertIsEscaped(s);
  }

  /** Reads the five entities back, the inverse of the escaping. */
  function Unescaped(r: string): (u: string)
    ensures |u| <= |r|
  {
    if r == [] then ""
    else if OccursAt(r, "&amp;", 0) then "&" + Unescaped(r[5..])
    else if OccursAt(r, "&lt;", 0) then "<" + Unescaped(r[4..])
    else if OccursAt(r, "&gt;", 0) then ">" + Unescaped(r[4..])
    else if OccursAt(r, "&quot;", 0) then "\"" + Unescaped(r[6..])
    else if OccursAt(r, "&apos;", 0) then "'" + Unescaped(r[6..])
    else [r[0]] + Unescaped(r[1..])
  }

  /** No text is lost by escaping: unescaping gives the original back, so
      different texts always render differently. */
  lemma {:induction false} UnescapeEscaped(s: string)
    ensures Unescaped(ConvertToSpecialCharacters(s)) == s
  {
    ConvertIsEscaped(s);
    UnescapeEscapedPass(s);
  }

  lemma {:induction false} UnescapeEscapedPass(s: string)
    ensures Unescaped(Escaped(s)) == s
  {
    if s != [] {
      UnescapeEscapedPass(s[1..]);
      if s[0] == '&' || Special(s[0]) {
        UnescapeEntity(s[0], Escaped(s[1..]));
      } else {
        UnescapePlain(s[0], Escaped(s[1..]));
      }
    }
  }

  /** A character that is not escaped is read back as itself. */
  lemma UnescapePlain(c: char, rest: string)
    requires c != '&' && !Special(c)
    ensures Unescaped(EscapeChar(c) + rest) == [c] + Unescaped(rest)
  {
    var r := [c] + rest;
    assert r[0] == c && r[1..] == rest;
    assert !OccursAt(r, "&amp;", 0) && !OccursAt(r, "&lt;", 0) && !OccursAt(r, "&gt;", 0)
      && !OccursAt(r, "&quot;", 0) && !OccursAt(r, "&apos;", 0) by {
      assert forall pat: string :: |pat| > 0 && pat[0] == '&' && OccursAt(r, pat, 0) ==> r[0] == '&';
    }
  }

  /** An entity written by the escaping is read back as its character. */
  lemma UnescapeEntity(c: char, rest: string)
    requires c == '&' || Special(c)
    ensures Unescaped(EscapeChar(c) + rest) == [c] + Unescaped(rest)
  {
    var e := EscapeChar(c);
    var r := e + rest;
    assert r[..|e|] == e && r[|e|..] == rest;
    if c == '&' {
      assert OccursAt(r, "&amp;", 0);
    } else if c == '<' {
      assert OccursAt(r, "&lt;", 0);
    } else if c == '>' {
      assert r[1] == 'g' && !OccursAt(r, "&amp;", 0) && !OccursAt(r, "&lt;", 0);
      assert OccursAt(r, "&gt;", 0);
    } else if c == '"' {
      assert r[1] == 'q' && !OccursAt(r, "&amp;", 0) && !OccursAt(r, "&lt;", 0) && !OccursAt(r, "&gt;", 0);
      assert OccursAt(r, "&quot;", 0);
    } else {
      assert r[1] == 'a' && r[2] == 'p' && !OccursAt(r, "&amp;", 0) && !OccursAt(r, "&lt;", 0)
        && !OccursAt(r, "&gt;", 0) && !OccursAt(r, "&quot;", 0);
      assert OccursAt(r, "&apos;", 0);
    }
  }

  /** The regular expression `[\s\S]*a[\s\S]*b[\s\S]*` matches `s`: `a`
      occurs, and `b` occurs after it. */
  ghost predicate OccursBefore(s: string, a: string, b: string) {
    exists i: nat, j: nat :: OccursAt(s, a, i) && OccursAt(s, b, j) && i + |a| <= j
  }

  /** The same test as a search: find the first `a`, then a `b` after it. */
  function Matches(s: string, a: string, b: string): (r: bool)
    ensures r <==> OccursBefore(s, a, b)
  {
    match FindFrom(s, a, 0)
    case None => false
    case Some(i) =>
      var m := FindFrom(s, b, i + |a|);
      if m.Some? then true
      else
        assert forall i': nat, j: nat :: OccursAt(s, a, i') && OccursAt(s, b, j) ==> j < i' + |a| by {
          forall i': nat, j: nat | OccursAt(s, a, i') && OccursAt(s, b, j) ensures j < i' + |a| {
            assert i <= i';
          }
        }
        false
  }

  /** The head injection of `resolve()`: before the first `</head>` when the
      page has a `<head>` section, as a new head before the first `<body>`
      when it has a `<body>` section, and otherwise a skeleton page around
      the content. The page text around the insertion is kept unchanged. */
  function InjectHead(page: string, headResult: string): (r: string)
    ensures OccursBefore(page, "<head>", "</head>") ==>
      FindFrom(page, "</head>", 0).Some? &&
      var i := FindFrom(page, "</head>", 0).value;
      r == page[..i] + headResult + "\n</head>" + page[i + 7..]
    ensures !OccursBefore(page, "<head>", "</head>") && OccursBefore(page, "<body>", "</body>") ==>
      FindFrom(page, "<body>", 0).Some? &&
      var i := FindFrom(page, "<body>", 0).value;
      r == page[..i] + "<head>\n" + headResult + "\n</head>\n<body>" + page[i + 6..]
    ensures !OccursBefore(page, "<head>", "</head>") && !OccursBefore(page, "<body>", "</body>") ==>
      r == "<!DOCTYPE>\n<html>\n<head>\n" + headResult + "\n</head>\n<body>\n" + page + "\n</body>\n</html>"
  {
    if Matches(page, "<head>", "</head>") then
      InjectIntoHead(page, headResult);
      ReplaceFirst(page, "</head>", headResult + "\n</head>")
    else if Matches(page, "<body>", "</body>") then
      InjectBeforeBody(page, headResult);
      ReplaceFirst(page, "<body>", "<head>\n" + headResult + "\n</head>\n<body>")
    else
      "<!DOCTYPE>\n<html>\n<head>\n" + headResult + "\n</head>\n<body>\n" + page + "\n</body>\n</html>"
  }

  /** With a `<head>` section, the first `</head>` is replaced by the head
      and the closing tag. */
  lemma InjectIntoHead(page: string, headResult: string)
    requires OccursBefore(page, "<head>", "</head>")
    ensures FindFrom(page, "</head>", 0).Some?
    ensures var i := FindFrom(page, "</head>", 0).value;
      ReplaceFirst(page, "</head>", headResult + "\n</head>") == page[..i] + headResult + "\n</head>" + page[i + 7..]
  {
    var h: nat, j: nat :| OccursAt(page, "<head>", h) && OccursAt(page, "</head>", j) && h + 6 <= j;
    var i := ReplaceFirstSplit(page, "</head>", headResult + "\n</head>", j);
    AppendAssoc3(page[..i], headResult, "\n</head>", page[i + 7..]);
  }

  /** With a `<body>` section, the first `<body>` is replaced by a new head
      followed by the tag. */
  lemma InjectBeforeBody(page: string, headResult: string)
    requires OccursBefore(page, "<body>", "</body>")
    ensures FindFrom(page, "<body>", 0).Some?
    ensures var i := FindFrom(page, "<body>", 0).value;
      ReplaceFirst(page, "<body>", "<head>\n" + headResult + "\n</head>\n<body>")
        == page[..i] + "<head>\n" + headResult + "\n</head>\n<body>" + page[i + 6..]
  {
    var b: nat, j: nat :| OccursAt(page, "<body>", b) && OccursAt(page, "</body>", j) && b + 6 <= j;
    var i := ReplaceFirstSplit(page, "<body>", "<head>\n" + headResult + "\n</head>\n<body>", b);
    RepSplice(page[..i], "<head>\n", headResult, "\n</head>\n<body>", page[i + 6..]);
  }

  /** With `pat` occurring at `j`, the first replacement splits the text at
      the first occurrence `i`. */
  lemma ReplaceFirstSplit(s: string, pat: string, rep: string, j: nat) returns (i: nat)
    requires OccursAt(s, pat, j)
    ensures FindFrom(s, pat, 0) == Some(i) && i + |pat| <= |s|
    ensures ReplaceFirst(s, pat, rep) == s[..i] + rep + s[i + |pat|..]
  {
    var f := FindFrom(s, pat, 0);
    assert f.Some?;
    i := f.value;
  }

  lemma RepSplice(a: string, b: string, c: string, d: string, e: string)
    ensures a + (b + c + d) + e == a + b + c + d + e
  {
  }

  lemma AppendAssoc3(a: string, b: string, c: string, d: string)
    ensures a + (b + c) + d == a + b + c + d
  {
  }
}
