/** `escape_xml` (app.py): the five XML special characters replaced by their
    predefined entities, `&` first.  The source writes it as a chain of
    `str.replace` calls; `EscapeXml` follows that chain literally and
    `EscapeChars` is the per-character reference it is proved equal to.
    `UnescapeXml` decodes the five entities and undoes the escaping. */
module XmlEscape {

  /** Python's `s.replace(c, r)` for a one-character pattern. */
  function ReplaceAll(s: string, c: char, r: string): (t: string)
    ensures c !in s ==> t == s
    decreases |s|
  {
    if |s| == 0 then []
    else (if s[0] == c then r else [s[0]]) + ReplaceAll(s[1..], c, r)
  }

  /** The entity for one special character, or the character itself. */
  function EscapeChar(c: char): (t: string)
    ensures |t| >= 1
  {
    match c
    case '&' => "&amp;"
    case '<' => "&lt;"
    case '>' => "&gt;"
    case '"' => "&quot;"
    case '\'' => "&apos;"
    case _ => [c]
  }

  /** Reference definition: escape every character independently. */
  function EscapeChars(s: string): (t: string)
    ensures |t| >= |s|
    decreases |s|
  {
    if |s| == 0 then [] else EscapeChar(s[0]) + EscapeChars(s[1..])
  }

  /** `escape_xml(text)`: falsy text gives "", otherwise the replace chain
      `&`, `<`, `>`, `"`, `'` in that order. */
  function EscapeXml(text: string): (t: string)
    ensures |text| == 0 ==> t == ""
    ensures '<' !in t && '>' !in t && '"' !in t && '\'' !in t
    ensures t == EscapeChars(text)
  {
    if |text| == 0 then ""
    else
      var t := ReplaceAll(ReplaceAll(ReplaceAll(ReplaceAll(ReplaceAll(
                 text, '&', "&amp;"), '<', "&lt;"), '>', "&gt;"), '"', "&quot;"), '\'', "&apos;");
      EscapeChainIsPerChar(text);
      EscapeCharsHasNoSpecials(text);
      t
  }

  /** Characters that may not appear raw in the escaped text. */
  predicate IsSpecial(c: char) {
    c == '<' || c == '>' || c == '"' || c == '\''
  }

  lemma {:induction false} EscapeCharsHasNoSpecials(s: string)
    ensures '<' !in EscapeChars(s) && '>' !in EscapeChars(s)
    ensures '"' !in EscapeChars(s) && '\'' !in EscapeChars(s)
    decreases |s|
  {
    if |s| > 0 {
      EscapeCharsHasNoSpecials(s[1..]);
    }
  }

  lemma {:induction false} ReplaceAllAppend(a: string, b: string, c: char, r: string)
    ensures ReplaceAll(a + b, c, r) == ReplaceAll(a, c, r) + ReplaceAll(b, c, r)
    decreases |a|
  {
    if |a| == 0 {
      assert a + b == b;
    } else {
      assert (a + b)[0] == a[0];
      assert (a + b)[1..] == a[1..] + b;
      ReplaceAllAppend(a[1..], b, c, r);
    }
  }

  // The replace chain in stages: `StageN` performs replacements N..5.
  function Stage5(t: string): string { ReplaceAll(t, '\'', "&apos;") }
  function Stage4(t: string): string { Stage5(ReplaceAll(t, '"', "&quot;")) }
  function Stage3(t: string): string { Stage4(ReplaceAll(t, '>', "&gt;")) }
  function Stage2(t: string): string { Stage3(ReplaceAll(t, '<', "&lt;")) }

  /** The whole replace chain, `&` first. */
  function Chain(s: string): string { Stage2(ReplaceAll(s, '&', "&amp;")) }

  lemma ChainAppend(a: string, b: string)
    ensures Chain(a + b) == Chain(a) + Chain(b)
  {
    var a1, b1 := ReplaceAll(a, '&', "&amp;"), ReplaceAll(b, '&', "&amp;");
    ReplaceAllAppend(a, b, '&', "&amp;");
    var a2, b2 := ReplaceAll(a1, '<', "&lt;"), ReplaceAll(b1, '<', "&lt;");
    ReplaceAllAppend(a1, b1, '<', "&lt;");
    var a3, b3 := ReplaceAll(a2, '>', "&gt;"), ReplaceAll(b2, '>', "&gt;");
    ReplaceAllAppend(a2, b2, '>', "&gt;");
    var a4, b4 := ReplaceAll(a3, '"', "&quot;"), ReplaceAll(b3, '"', "&quot;");
    ReplaceAllAppend(a3, b3, '"', "&quot;");
    ReplaceAllAppend(a4, b4, '\'', "&apos;");
  }

  /** On one character the chain yields that character's entity: no later
      replacement touches the output of an earlier one, because `&` goes first. */
  lemma ChainChar(c: char)
    ensures Chain([c]) == EscapeChar(c)
  {
    SingleReplace(c, '&', "&amp;");
    SingleReplace(c, '<', "&lt;");
    SingleReplace(c, '>', "&gt;");
    SingleReplace(c, '"', "&quot;");
    SingleReplace(c, '\'', "&apos;");
    if c == '&' {
      Untouched2("&amp;");
    } else if c == '<' {
      Untouched3("&lt;");
    } else if c == '>' {
      Untouched4("&gt;");
    } else if c == '"' {
      Untouched5("&quot;");
    }
  }

  lemma Untouched2(t: string)
    requires '<' !in t && '>' !in t && '"' !in t && '\'' !in t
    ensures Stage2(t) == t
  {
  }

  lemma Untouched3(t: string)
    requires '>' !in t && '"' !in t && '\'' !in t
    ensures Stage3(t) == t
  {
  }

  lemma Untouched4(t: string)
    requires '"' !in t && '\'' !in t
    ensures Stage4(t) == t
  {
  }

  lemma Untouched5(t: string)
    requires '\'' !in t
    ensures Stage5(t) == t
  {
  }

  lemma SingleReplace(x: char, c: char, r: string)
    ensures ReplaceAll([x], c, r) == if x == c then r else [x]
  {
    assert [x][1..] == [];
  }

  lemma {:induction false} EscapeChainIsPerChar(s: string)
    ensures Chain(s) == EscapeChars(s)
    decreases |s|
  {
    if |s| > 0 {
      assert s == [s[0]] + s[1..];
      ChainAppend([s[0]], s[1..]);
      ChainChar(s[0]);
      EscapeChainIsPerChar(s[1..]);
    }
  }

  /** Decodes the five predefined entities; any other character, including
      an `&` that starts no entity, is kept. */
  function UnescapeXml(t: string): (s: string)
    ensures |s| <= |t|
    decreases |t|
  {
    if |t| == 0 then []
    else if t[0] != '&' then [t[0]] + UnescapeXml(t[1..])
    else if |t| >= 5 && t[..5] == "&amp;" then "&" + UnescapeXml(t[5..])
    else if |t| >= 4 && t[..4] == "&lt;" then "<" + UnescapeXml(t[4..])
    else if |t| >= 4 && t[..4] == "&gt;" then ">" + UnescapeXml(t[4..])
    else if |t| >= 6 && t[..6] == "&quot;" then "\"" + UnescapeXml(t[6..])
    else if |t| >= 6 && t[..6] == "&apos;" then "'" + UnescapeXml(t[6..])
    else [t[0]] + UnescapeXml(t[1..])
  }

  lemma UnescapeCharPrefix(c: char, rest: string)
    ensures UnescapeXml(EscapeChar(c) + rest) == [c] + UnescapeXml(rest)
  {
    if c == '&' { UnescapeAmp(rest); }
    else if c == '<' || c == '>' { UnescapeAngle(c, rest); }
    else if c == '"' { UnescapeQuot(rest); }
    else if c == '\'' { UnescapeApos(rest); }
    else { UnescapePlain(c, rest); }
  }

  lemma UnescapeAmp(rest: string)
    ensures UnescapeXml("&amp;" + rest) == "&" + UnescapeXml(rest)
  {
    var t := "&amp;" + rest;
    assert t[..5] == "&amp;";
    assert t[5..] == rest;
  }

  /** The two four-character entities, `&lt;` and `&gt;`. */
  lemma UnescapeAngle(c: char, rest: string)
    requires c == '<' || c == '>'
    ensures UnescapeXml(EscapeChar(c) + rest) == [c] + UnescapeXml(rest)
  {
    var e := EscapeChar(c);
    var t := e + rest;
    assert t[1] == e[1];
    assert t[..4] == e;
    assert t[4..] == rest;
  }

  lemma UnescapeQuot(rest: string)
    ensures UnescapeXml("&quot;" + rest) == "\"" + UnescapeXml(rest)
  {
    var t := "&quot;" + rest;
    assert t[1] == 'q';
    assert t[..6] == "&quot;";
    assert t[6..] == rest;
  }

  lemma UnescapeApos(rest: string)
    ensures UnescapeXml("&apos;" + rest) == "'" + UnescapeXml(rest)
  {
    var t := "&apos;" + rest;
    assert t[1] == 'a' && t[2] == 'p';
    assert t[..6] == "&apos;";
    assert t[6..] == rest;
  }

  lemma UnescapePlain(c: char, rest: string)
    requires !IsSpecial(c) && c != '&'
    ensures UnescapeXml([c] + rest) == [c] + UnescapeXml(rest)
  {
    var t := [c] + rest;
    assert t[0] == c;
    assert t[1..] == rest;
  }

  /** Decoding the escaped text recovers the original text. */
  lemma {:induction false} UnescapeEscapeChars(s: string)
    ensures UnescapeXml(EscapeChars(s)) == s
    decreases |s|
  {
    if |s| > 0 {
      UnescapeCharPrefix(s[0], EscapeChars(s[1..]));
      UnescapeEscapeChars(s[1..]);
    }
  }

  /** The round trip for `escape_xml` itself. */
  lemma UnescapeEscapeXml(s: string)
    ensures UnescapeXml(EscapeXml(s)) == s
  {
    UnescapeEscapeChars(s);
  }

  /** Escaping is injective: distinct texts never collide in the XML. */
  lemma {:induction false} EscapeXmlInjective(a: string, b: string)
    requires EscapeXml(a) == EscapeXml(b)
    ensures a == b
  {
    UnescapeEscapeXml(a);
    UnescapeEscapeXml(b);
  }
}
