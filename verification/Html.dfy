/** Escaping text for HTML: five replacements in sequence, or one character at a time. */
module Html {

  /** String.prototype.replaceAll with a one-character pattern. */
  function ReplaceAll(s: string, c: char, replacement: string): string {
    if s == "" then "" else (if s[0] == c then replacement else [s[0]]) + ReplaceAll(s[1..], c, replacement)
  }

  /** The escaping of the invitation e-mail. */
  function EscapeHtml(s: string): string {
    ReplaceAll(ReplaceAll(ReplaceAll(ReplaceAll(ReplaceAll(s,
      '&', "&amp;"), '<', "&lt;"), '>', "&gt;"), '"', "&quot;"), '\'', "&#039;")
  }

  function EscapeChar(c: char, apostrophe: string): string {
    if c == '&' then "&amp;"
    else if c == '<' then "&lt;"
    else if c == '>' then "&gt;"
    else if c == '"' then "&quot;"
    else if c == '\'' then apostrophe
    else [c]
  }

  /** The escaping of other e-mails: one replacement of every special character, with its own apostrophe. */
  function EscapeOnce(s: string, apostrophe: string): string {
    if s == "" then "" else EscapeChar(s[0], apostrophe) + EscapeOnce(s[1..], apostrophe)
  }

  // ---------------------------------------------------------------------------
  // The sequence is one simultaneous replacement

  lemma {:induction false} ReplaceConcat(a: string, b: string, c: char, t: string)
    ensures ReplaceAll(a + b, c, t) == ReplaceAll(a, c, t) + ReplaceAll(b, c, t)
  {
    if a == "" {
      assert a + b == b;
    } else {
      assert (a + b)[1..] == a[1..] + b;
      ReplaceConcat(a[1..], b, c, t);
    }
  }

  lemma {:induction false} ReplaceAbsent(s: string, c: char, t: string)
    requires c !in s
    ensures ReplaceAll(s, c, t) == s
  {
    if s != "" {
      ReplaceAbsent(s[1..], c, t);
    }
  }

  lemma ReplaceOne(c: char, t: string)
    ensures ReplaceAll([c], c, t) == t
  {
    assert ReplaceAll([c], c, t) == t + ReplaceAll([c][1..], c, t);
  }

  lemma LastThree(s: string)
    requires '>' !in s && '"' !in s && '\'' !in s
    ensures ReplaceAll(ReplaceAll(ReplaceAll(s, '>', "&gt;"), '"', "&quot;"), '\'', "&#039;") == s
  {
    ReplaceAbsent(s, '>', "&gt;");
    ReplaceAbsent(s, '"', "&quot;");
    ReplaceAbsent(s, '\'', "&#039;");
  }

  /** What the last four replacements do to a text without their characters. */
  lemma NothingLeft(s: string)
    requires '<' !in s && '>' !in s && '"' !in s && '\'' !in s
    ensures ReplaceAll(ReplaceAll(ReplaceAll(ReplaceAll(s, '<', "&lt;"), '>', "&gt;"), '"', "&quot;"), '\'', "&#039;") == s
  {
    ReplaceAbsent(s, '<', "&lt;");
    LastThree(s);
  }

  lemma EscapeOneChar(c: char)
    ensures EscapeHtml([c]) == EscapeChar(c, "&#039;")
  {
    if c == '&' {
      ReplaceOne(c, "&amp;");
      NothingLeft("&amp;");
    } else {
      ReplaceAbsent([c], '&', "&amp;");
      EscapeAngle(c);
    }
  }

  lemma EscapeAngle(c: char)
    requires c != '&'
    ensures ReplaceAll(ReplaceAll(ReplaceAll(ReplaceAll([c], '<', "&lt;"), '>', "&gt;"), '"', "&quot;"), '\'', "&#039;")
         == EscapeChar(c, "&#039;")
  {
    if c == '<' {
      ReplaceOne(c, "&lt;");
      LastThree("&lt;");
    } else {
      ReplaceAbsent([c], '<', "&lt;");
      EscapeClosing(c);
    }
  }

  lemma EscapeClosing(c: char)
    requires c != '&' && c != '<'
    ensures ReplaceAll(ReplaceAll(ReplaceAll([c], '>', "&gt;"), '"', "&quot;"), '\'', "&#039;") == EscapeChar(c, "&#039;")
  {
    if c == '>' {
      ReplaceOne(c, "&gt;");
      ReplaceAbsent("&gt;", '"', "&quot;");
      ReplaceAbsent("&gt;", '\'', "&#039;");
    } else {
      ReplaceAbsent([c], '>', "&gt;");
      EscapeQuote(c);
    }
  }

  lemma EscapeQuote(c: char)
    requires c != '&' && c != '<' && c != '>'
    ensures ReplaceAll(ReplaceAll([c], '"', "&quot;"), '\'', "&#039;") == EscapeChar(c, "&#039;")
  {
    if c == '"' {
      ReplaceOne(c, "&quot;");
      ReplaceAbsent("&quot;", '\'', "&#039;");
    } else {
      ReplaceAbsent([c], '"', "&quot;");
      if c == '\'' {
        ReplaceOne(c, "&#039;");
      } else {
        ReplaceAbsent([c], '\'', "&#039;");
      }
    }
  }

  /** Escaping works piece by piece. */
  lemma EscapeConcat(a: string, b: string)
    ensures EscapeHtml(a + b) == EscapeHtml(a) + EscapeHtml(b)
  {
    ReplaceConcat(a, b, '&', "&amp;");
    var a1, b1 := ReplaceAll(a, '&', "&amp;"), ReplaceAll(b, '&', "&amp;");
    ReplaceConcat(a1, b1, '<', "&lt;");
    var a2, b2 := ReplaceAll(a1, '<', "&lt;"), ReplaceAll(b1, '<', "&lt;");
    ReplaceConcat(a2, b2, '>', "&gt;");
    var a3, b3 := ReplaceAll(a2, '>', "&gt;"), ReplaceAll(b2, '>', "&gt;");
    ReplaceConcat(a3, b3, '"', "&quot;");
    ReplaceConcat(ReplaceAll(a3, '"', "&quot;"), ReplaceAll(b3, '"', "&quot;"), '\'', "&#039;");
  }

  /** The five replacements in sequence equal one replacement of each character. */
  lemma {:induction false} SequenceIsSimultaneous(s: string)
    ensures EscapeHtml(s) == EscapeOnce(s, "&#039;")
  {
    if s == "" {
      NothingLeft(s);
    } else {
      assert s == [s[0]] + s[1..];
      EscapeConcat([s[0]], s[1..]);
      EscapeOneChar(s[0]);
      SequenceIsSimultaneous(s[1..]);
    }
  }

  // ---------------------------------------------------------------------------
  // Decoding

  predicate StartsWith(s: string, prefix: string) {
    |prefix| <= |s| && s[..|prefix|] == prefix
  }

  /** Reads the five character references, the apostrophe in either spelling. */
  function Unescape(s: string): string {
    if s == "" then ""
    else if StartsWith(s, "&amp;") then ['&'] + Unescape(s[5..])
    else if StartsWith(s, "&lt;") then ['<'] + Unescape(s[4..])
    else if StartsWith(s, "&gt;") then ['>'] + Unescape(s[4..])
    else if StartsWith(s, "&quot;") then ['"'] + Unescape(s[6..])
    else if StartsWith(s, "&#039;") then ['\''] + Unescape(s[6..])
    else if StartsWith(s, "&#39;") then ['\''] + Unescape(s[5..])
    else [s[0]] + Unescape(s[1..])
  }

  predicate Apostrophe(t: string) {
    t == "&#039;" || t == "&#39;"
  }

  /** The character a reference stands for. */
  predicate Names(reference: string, c: char) {
    || (reference == "&amp;" && c == '&')
    || (reference == "&lt;" && c == '<')
    || (reference == "&gt;" && c == '>')
    || (reference == "&quot;" && c == '"')
    || ((reference == "&#039;" || reference == "&#39;") && c == '\'')
  }

  lemma PrefixDrops(t: string, rest: string)
    ensures (t + rest)[|t|..] == rest && (t + rest)[..|t|] == t
  {
  }

  /** Two references that start one text are the same. */
  lemma OneReference(a: string, b: string, c: char, d: char, rest: string)
    requires Names(a, c) && Names(b, d) && StartsWith(a + rest, b)
    ensures a == b
  {
    var s := a + rest;
    assert s[1] == a[1] && s[2] == a[2] && s[3] == a[3];
    assert s[1] == b[1] && s[2] == b[2] && s[3] == b[3];
  }

  lemma UnescapeReference(reference: string, c: char, rest: string)
    requires Names(reference, c)
    ensures Unescape(reference + rest) == [c] + Unescape(rest)
  {
    var s := reference + rest;
    PrefixDrops(reference, rest);
    assert StartsWith(s, reference);
    if StartsWith(s, "&amp;") {
      OneReference(reference, "&amp;", c, '&', rest);
    } else if StartsWith(s, "&lt;") {
      OneReference(reference, "&lt;", c, '<', rest);
    } else if StartsWith(s, "&gt;") {
      OneReference(reference, "&gt;", c, '>', rest);
    } else if StartsWith(s, "&quot;") {
      OneReference(reference, "&quot;", c, '"', rest);
    } else if StartsWith(s, "&#039;") {
      OneReference(reference, "&#039;", c, '\'', rest);
    }
  }

  lemma NoReference(s: string)
    requires s != "" && s[0] != '&'
    ensures Unescape(s) == [s[0]] + Unescape(s[1..])
  {
    OtherStart(s, "&amp;");
    OtherStart(s, "&lt;");
    OtherStart(s, "&gt;");
    OtherStart(s, "&quot;");
    OtherStart(s, "&#039;");
    OtherStart(s, "&#39;");
  }

  lemma OtherStart(s: string, prefix: string)
    requires s != "" && prefix != "" && s[0] != prefix[0]
    ensures !StartsWith(s, prefix)
  {
    assert |prefix| <= |s| ==> s[..|prefix|][0] == s[0];
  }

  lemma UnescapePlain(c: char, rest: string)
    requires c != '&'
    ensures Unescape([c] + rest) == [c] + Unescape(rest)
  {
    var s := [c] + rest;
    PrefixDrops([c], rest);
    NoReference(s);
  }

  lemma UnescapeOne(c: char, apostrophe: string, rest: string)
    requires Apostrophe(apostrophe)
    ensures Unescape(EscapeChar(c, apostrophe) + rest) == [c] + Unescape(rest)
  {
    if EscapeChar(c, apostrophe) == [c] {
      UnescapePlain(c, rest);
    } else {
      UnescapeReference(EscapeChar(c, apostrophe), c, rest);
    }
  }

  /** Decoding undoes escaping, so escaping loses nothing. */
  lemma {:induction false} UnescapeUndoesEscape(s: string, apostrophe: string)
    requires Apostrophe(apostrophe)
    ensures Unescape(EscapeOnce(s, apostrophe)) == s
  {
    if s != "" {
      UnescapeUndoesEscape(s[1..], apostrophe);
      UnescapeOne(s[0], apostrophe, EscapeOnce(s[1..], apostrophe));
    }
  }

  /** Both escapings decode to the same text, and different texts stay different. */
  lemma EscapesAgree(s: string, t: string)
    ensures Unescape(EscapeHtml(s)) == s && Unescape(EscapeOnce(s, "&#39;")) == s
    ensures EscapeHtml(s) == EscapeHtml(t) <==> s == t
    ensures EscapeOnce(s, "&#39;") == EscapeOnce(t, "&#39;") <==> s == t
  {
    SequenceIsSimultaneous(s);
    SequenceIsSimultaneous(t);
    UnescapeUndoesEscape(s, "&#039;");
    UnescapeUndoesEscape(t, "&#039;");
    UnescapeUndoesEscape(s, "&#39;");
    UnescapeUndoesEscape(t, "&#39;");
  }

  // ---------------------------------------------------------------------------
  // What escaped text cannot contain

  predicate Reference(s: string) {
    || StartsWith(s, "&amp;") || StartsWith(s, "&lt;") || StartsWith(s, "&gt;")
    || StartsWith(s, "&quot;") || StartsWith(s, "&#039;") || StartsWith(s, "&#39;")
  }

  /** No markup character at the index, and an ampersand only where a character reference starts. */
  ghost predicate Inert(s: string, i: nat)
    requires i < |s|
  {
    s[i] !in {'<', '>', '"', '\''} && (s[i] == '&' ==> Reference(s[i..]))
  }

  lemma EscapedCharInert(c: char, apostrophe: string, rest: string, i: nat)
    requires Apostrophe(apostrophe) && i < |EscapeChar(c, apostrophe)|
    ensures Inert(EscapeChar(c, apostrophe) + rest, i)
  {
    var t := EscapeChar(c, apostrophe);
    var s := t + rest;
    assert s[i] == t[i];
    if s[i] == '&' {
      assert i == 0 && s[..|t|] == t && s[0..] == s;
    }
  }

  lemma {:induction false} EscapedTextInert(s: string, apostrophe: string, i: nat)
    requires Apostrophe(apostrophe) && i < |EscapeOnce(s, apostrophe)|
    ensures Inert(EscapeOnce(s, apostrophe), i)
  {
    var first, rest := EscapeChar(s[0], apostrophe), EscapeOnce(s[1..], apostrophe);
    if i < |first| {
      EscapedCharInert(s[0], apostrophe, rest, i);
    } else {
      EscapedTextInert(s[1..], apostrophe, i - |first|);
      assert (first + rest)[i..] == rest[i - |first|..];
    }
  }

  /** The invitation's escaped text holds no markup character and no stray ampersand. */
  lemma EscapeHtmlInert(s: string, i: nat)
    requires i < |EscapeHtml(s)|
    ensures Inert(EscapeHtml(s), i)
  {
    SequenceIsSimultaneous(s);
    EscapedTextInert(s, "&#039;", i);
  }
}
