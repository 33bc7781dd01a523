/** `escapeHtml` of public/main.js: five `replaceAll` passes, `&` first. The
    argument is taken to be a string already (`String(str)` is the identity on
    strings). */
module HtmlEscape {

  /** `s.replaceAll(c, rep)` for a one-character pattern `c`. */
  function ReplaceAll(s: string, c: char, rep: string): (r: string)
    ensures c !in s ==> r == s
    decreases |s|
  {
    if |s| == 0 then ""
    else (if s[0] == c then rep else [s[0]]) + ReplaceAll(s[1..], c, rep)
  }

  /** Replacing distributes over concatenation. */
  lemma {:induction false} ReplaceAllConcat(a: string, b: string, c: char, rep: string)
    ensures ReplaceAll(a + b, c, rep) == ReplaceAll(a, c, rep) + ReplaceAll(b, c, rep)
    decreases |a|
  {
    if |a| == 0 {
      assert a + b == b;
    } else {
      assert (a + b)[1..] == a[1..] + b;
      ReplaceAllConcat(a[1..], b, c, rep);
    }
  }

  /** `escapeHtml(str)`, exactly as the chain is written. */
  function EscapeHtml(s: string): (r: string)
    ensures '&' !in s && '<' !in s && '>' !in s && '"' !in s && '\'' !in s ==> r == s
  {
    ReplaceAll(ReplaceAll(ReplaceAll(ReplaceAll(ReplaceAll(s, '&', "&amp;"), '<', "&lt;"), '>', "&gt;"), '"', "&quot;"), '\'', "&#39;")
  }

  /** The entity each character becomes. */
  function EscapeChar(c: char): string {
    if c == '&' then "&amp;"
    else if c == '<' then "&lt;"
    else if c == '>' then "&gt;"
    else if c == '"' then "&quot;"
    else if c == '\'' then "&#39;"
    else [c]
  }

  /** The per-character reference definition. */
  function EscapeEach(s: string): string
    decreases |s|
  {
    if |s| == 0 then "" else EscapeChar(s[0]) + EscapeEach(s[1..])
  }

  predicate Special(c: char) {
    c == '&' || c == '<' || c == '>' || c == '"' || c == '\''
  }

  /** The chain distributes over concatenation. */
  lemma EscapeHtmlConcat(a: string, b: string)
    ensures EscapeHtml(a + b) == EscapeHtml(a) + EscapeHtml(b)
  {
    var s1a, s1b := ReplaceAll(a, '&', "&amp;"), ReplaceAll(b, '&', "&amp;");
    ReplaceAllConcat(a, b, '&', "&amp;");
    var s2a, s2b := ReplaceAll(s1a, '<', "&lt;"), ReplaceAll(s1b, '<', "&lt;");
    ReplaceAllConcat(s1a, s1b, '<', "&lt;");
    var s3a, s3b := ReplaceAll(s2a, '>', "&gt;"), ReplaceAll(s2b, '>', "&gt;");
    ReplaceAllConcat(s2a, s2b, '>', "&gt;");
    var s4a, s4b := ReplaceAll(s3a, '"', "&quot;"), ReplaceAll(s3b, '"', "&quot;");
    ReplaceAllConcat(s3a, s3b, '"', "&quot;");
    ReplaceAllConcat(s4a, s4b, '\'', "&#39;");
  }

  /** One pass over a one-character string. */
  lemma ReplaceAllOne(c: char, d: char, rep: string)
    ensures ReplaceAll([c], d, rep) == if c == d then rep else [c]
  {
    assert [c][1..] == [];
  }

  /** The four passes after the first leave `s` alone when it holds none of
      the characters they replace. */
  lemma LaterPassesKeep(s: string)
    requires '<' !in s && '>' !in s && '"' !in s && '\'' !in s
    ensures ReplaceAll(ReplaceAll(ReplaceAll(ReplaceAll(s, '<', "&lt;"), '>', "&gt;"), '"', "&quot;"), '\'', "&#39;") == s
  {
  }

  lemma EscapeAmpChar()
    ensures EscapeHtml("&") == "&amp;"
  {
    ReplaceAllOne('&', '&', "&amp;");
    LaterPassesKeep("&amp;");
  }

  lemma EscapeLtChar()
    ensures EscapeHtml("<") == "&lt;"
  {
    ReplaceAllOne('<', '&', "&amp;");
    ReplaceAllOne('<', '<', "&lt;");
    var t := "&lt;";
    assert '>' !in t && '"' !in t && '\'' !in t;
  }

  lemma EscapeGtChar()
    ensures EscapeHtml(">") == "&gt;"
  {
    ReplaceAllOne('>', '&', "&amp;");
    ReplaceAllOne('>', '<', "&lt;");
    ReplaceAllOne('>', '>', "&gt;");
    var t := "&gt;";
    assert '"' !in t && '\'' !in t;
  }

  lemma EscapeQuotChar()
    ensures EscapeHtml("\"") == "&quot;"
  {
    ReplaceAllOne('"', '&', "&amp;");
    ReplaceAllOne('"', '<', "&lt;");
    ReplaceAllOne('"', '>', "&gt;");
    ReplaceAllOne('"', '"', "&quot;");
    var t := "&quot;";
    assert '\'' !in t;
  }

  lemma EscapeAposChar()
    ensures EscapeHtml("'") == "&#39;"
  {
    ReplaceAllOne('\'', '&', "&amp;");
    ReplaceAllOne('\'', '<', "&lt;");
    ReplaceAllOne('\'', '>', "&gt;");
    ReplaceAllOne('\'', '"', "&quot;");
    ReplaceAllOne('\'', '\'', "&#39;");
  }

  lemma EscapePlainChar(c: char)
    requires !Special(c)
    ensures EscapeHtml([c]) == [c]
  {
    ReplaceAllOne(c, '&', "&amp;");
    LaterPassesKeep([c]);
  }

  /** On one character the chain produces exactly that character's entity: the
      entity written by one pass holds no character a later pass replaces, so
      nothing is escaped twice. */
  lemma EscapeHtmlChar(c: char)
    ensures EscapeHtml([c]) == EscapeChar(c)
  {
    if c == '&' {
      EscapeAmpChar();
    } else if c == '<' {
      EscapeLtChar();
    } else if c == '>' {
      EscapeGtChar();
    } else if c == '"' {
      EscapeQuotChar();
    } else if c == '\'' {
      EscapeAposChar();
    } else {
      EscapePlainChar(c);
    }
  }

  /** `escapeHtml` is the per-character map `EscapeEach`. */
  lemma {:induction false} EscapeHtmlIsPerChar(s: string)
    ensures EscapeHtml(s) == EscapeEach(s)
    decreases |s|
  {
    if |s| == 0 {
      assert EscapeHtml(s) == "";
    } else {
      assert s == [s[0]] + s[1..];
      EscapeHtmlConcat([s[0]], s[1..]);
      EscapeHtmlChar(s[0]);
      EscapeHtmlIsPerChar(s[1..]);
    }
  }

  /** Escaping each character distributes over concatenation. */
  lemma {:induction false} EscapeEachConcat(a: string, b: string)
    ensures EscapeEach(a + b) == EscapeEach(a) + EscapeEach(b)
    decreases |a|
  {
    if |a| == 0 {
      assert a + b == b;
    } else {
      assert (a + b)[1..] == a[1..] + b;
      EscapeEachConcat(a[1..], b);
    }
  }

  /** `t` holds none of the characters that end a text node or an attribute value. */
  predicate NoMarkup(t: string) {
    '<' !in t && '>' !in t && '"' !in t && '\'' !in t
  }

  lemma {:induction false} EscapeEachSafe(s: string)
    ensures NoMarkup(EscapeEach(s))
    decreases |s|
  {
    if |s| > 0 {
      EscapeEachSafe(s[1..]);
      var e := EscapeChar(s[0]);
      assert NoMarkup(e);
      assert EscapeEach(s) == e + EscapeEach(s[1..]);
    }
  }

  /** The output of `escapeHtml` holds none of `<`, `>`, `"`, `'`. */
  lemma EscapeHtmlSafe(s: string)
    ensures NoMarkup(EscapeHtml(s))
  {
    EscapeHtmlIsPerChar(s);
    EscapeEachSafe(s);
  }

  /** A string with none of `& < > " '` is returned unchanged. */
  lemma {:induction false} EscapeHtmlPlain(s: string)
    requires forall k :: 0 <= k < |s| ==> !Special(s[k])
    ensures EscapeHtml(s) == s
    decreases |s|
  {
    EscapeHtmlIsPerChar(s);
    EscapeEachPlain(s);
  }

  lemma {:induction false} EscapeEachPlain(s: string)
    requires forall k :: 0 <= k < |s| ==> !Special(s[k])
    ensures EscapeEach(s) == s
    decreases |s|
  {
    if |s| > 0 {
      assert forall k :: 0 <= k < |s[1..]| ==> s[1..][k] == s[k + 1];
      EscapeEachPlain(s[1..]);
      assert s == [s[0]] + s[1..];
    }
  }

  /** The inverse: decode the five entities, keep every other character. */
  function Unescape(t: string): string
    decreases |t|
  {
    if |t| == 0 then ""
    else if |t| >= 5 && t[..5] == "&amp;" then "&" + Unescape(t[5..])
    else if |t| >= 4 && t[..4] == "&lt;" then "<" + Unescape(t[4..])
    else if |t| >= 4 && t[..4] == "&gt;" then ">" + Unescape(t[4..])
    else if |t| >= 6 && t[..6] == "&quot;" then "\"" + Unescape(t[6..])
    else if |t| >= 5 && t[..5] == "&#39;" then "'" + Unescape(t[5..])
    else [t[0]] + Unescape(t[1..])
  }

  lemma UnescapeAmp(rest: string)
    ensures Unescape("&amp;" + rest) == "&" + Unescape(rest)
  {
    var t := "&amp;" + rest;
    assert t[..5] == "&amp;" && t[5..] == rest;
  }

  lemma UnescapeLt(rest: string)
    ensures Unescape("&lt;" + rest) == "<" + Unescape(rest)
  {
    var t := "&lt;" + rest;
    assert t[1] == 'l';
    assert |t| < 5 || t[..5] != "&amp;" by { assert |t| < 5 || t[..5][1] == 'l'; }
    assert t[..4] == "&lt;" && t[4..] == rest;
  }

  lemma UnescapeGt(rest: string)
    ensures Unescape("&gt;" + rest) == ">" + Unescape(rest)
  {
    var t := "&gt;" + rest;
    assert |t| < 5 || t[..5] != "&amp;" by { assert |t| < 5 || t[..5][1] == 'g'; }
    assert t[..4] != "&lt;" by { assert t[..4][1] == 'g'; }
    assert t[..4] == "&gt;" && t[4..] == rest;
  }

  lemma UnescapeQuot(rest: string)
    ensures Unescape("&quot;" + rest) == "\"" + Unescape(rest)
  {
    var t := "&quot;" + rest;
    assert t[..5] != "&amp;" by { assert t[..5][1] == 'q'; }
    assert t[..4] != "&lt;" && t[..4] != "&gt;" by { assert t[..4][1] == 'q'; }
    assert t[..6] == "&quot;" && t[6..] == rest;
  }

  lemma UnescapeApos(rest: string)
    ensures Unescape("&#39;" + rest) == "'" + Unescape(rest)
  {
    var t := "&#39;" + rest;
    assert t[..5] != "&amp;" by { assert t[..5][1] == '#'; }
    assert t[..4] != "&lt;" && t[..4] != "&gt;" by { assert t[..4][1] == '#'; }
    assert |t| < 6 || t[..6] != "&quot;" by { assert |t| < 6 || t[..6][1] == '#'; }
    assert t[..5] == "&#39;" && t[5..] == rest;
  }

  lemma UnescapePlain(c: char, rest: string)
    requires !Special(c)
    ensures Unescape([c] + rest) == [c] + Unescape(rest)
  {
    var t := [c] + rest;
    assert t[0] == c && t[1..] == rest;
    assert |t| < 5 || t[..5] != "&amp;" by { assert |t| < 5 || t[..5][0] == c; }
    assert |t| < 4 || (t[..4] != "&lt;" && t[..4] != "&gt;") by { assert |t| < 4 || t[..4][0] == c; }
    assert |t| < 6 || t[..6] != "&quot;" by { assert |t| < 6 || t[..6][0] == c; }
    assert |t| < 5 || t[..5] != "&#39;" by { assert |t| < 5 || t[..5][0] == c; }
  }

  /** Decoding one entity or plain character in front of anything. */
  lemma UnescapeStep(c: char, rest: string)
    ensures Unescape(EscapeChar(c) + rest) == [c] + Unescape(rest)
  {
    if c == '&' {
      UnescapeAmp(rest);
    } else if c == '<' {
      UnescapeLt(rest);
    } else if c == '>' {
      UnescapeGt(rest);
    } else if c == '"' {
      UnescapeQuot(rest);
    } else if c == '\'' {
      UnescapeApos(rest);
    } else {
      UnescapePlain(c, rest);
    }
  }

  /** Escaping loses nothing: decoding the output gives the input back. */
  lemma {:induction false} UnescapeEscapeHtml(s: string)
    ensures Unescape(EscapeHtml(s)) == s
    decreases |s|
  {
    EscapeHtmlIsPerChar(s);
    UnescapeEscapeEach(s);
  }

  lemma {:induction false} UnescapeEscapeEach(s: string)
    ensures Unescape(EscapeEach(s)) == s
    decreases |s|
  {
    if |s| > 0 {
      UnescapeStep(s[0], EscapeEach(s[1..]));
      UnescapeEscapeEach(s[1..]);
      assert s == [s[0]] + s[1..];
    }
  }
}
