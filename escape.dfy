/**
 * `escapeHtml` of js/app.js: undefined and null become the empty string, and
 * otherwise a chain of five global replacements, `&` first, turns the five
 * HTML-special characters into entities.
 */
module HtmlEscape {
  import opened Wrappers
  import opened Text

  /** `s.replace(/ch/g, rep)`: every occurrence of `ch` replaced by `rep`. */
  function ReplaceAll(s: string, ch: char, rep: string): string {
    if s == [] then [] else (if s[0] == ch then rep else [s[0]]) + ReplaceAll(s[1..], ch, rep)
  }

  /** The replacement chain of `escapeHtml`, in the order the source applies it. */
  function EscapeChain(s: string): string {
    var amp := ReplaceAll(s, '&', "&amp;");
    var lt := ReplaceAll(amp, '<', "&lt;");
    var gt := ReplaceAll(lt, '>', "&gt;");
    var quot := ReplaceAll(gt, '"', "&quot;");
    ReplaceAll(quot, '\'', "&#039;")
  }

  /** `escapeHtml(text)`; `None` stands for `undefined` and `null`. */
  function EscapeHtml(text: Option<string>): (r: string)
    ensures text.None? ==> r == ""
    ensures text.Some? ==> r == EscapeEach(text.value)
  {
    if text.None? then ""
    else
      EscapeChainIsPerCharacter(text.value);
      EscapeChain(text.value)
  }

  /** The characters that may not appear unescaped in the output. */
  predicate Special(ch: char) {
    ch == '<' || ch == '>' || ch == '"' || ch == '\''
  }

  /** The entity that stands for one character, or the character itself. */
  function EntityOf(ch: char): string {
    match ch
    case '&' => "&amp;"
    case '<' => "&lt;"
    case '>' => "&gt;"
    case '"' => "&quot;"
    case '\'' => "&#039;"
    case _ => [ch]
  }

  /** The reference escaper: every character mapped to its entity independently, in order. */
  function EscapeEach(s: string): (r: string)
    ensures forall i :: 0 <= i < |r| ==> !Special(r[i])
    ensures |r| >= |s|
  {
    if s == [] then [] else EntityOf(s[0]) + EscapeEach(s[1..])
  }

  lemma {:induction false} ReplaceAllAppend(a: string, b: string, ch: char, rep: string)
    ensures ReplaceAll(a + b, ch, rep) == ReplaceAll(a, ch, rep) + ReplaceAll(b, ch, rep)
    decreases |a|
  {
    if a == [] {
      assert a + b == b;
    } else {
      assert (a + b)[0] == a[0];
      assert (a + b)[1..] == a[1..] + b;
      ReplaceAllAppend(a[1..], b, ch, rep);
    }
  }

  lemma {:induction false} ReplaceAllAbsent(s: string, ch: char, rep: string)
    requires forall i :: 0 <= i < |s| ==> s[i] != ch
    ensures ReplaceAll(s, ch, rep) == s
    decreases |s|
  {
    if s != [] {
      ReplaceAllAbsent(s[1..], ch, rep);
    }
  }

  lemma EscapeChainAppend(a: string, b: string)
    ensures EscapeChain(a + b) == EscapeChain(a) + EscapeChain(b)
  {
    var a1, b1 := ReplaceAll(a, '&', "&amp;"), ReplaceAll(b, '&', "&amp;");
    ReplaceAllAppend(a, b, '&', "&amp;");
    var a2, b2 := ReplaceAll(a1, '<', "&lt;"), ReplaceAll(b1, '<', "&lt;");
    ReplaceAllAppend(a1, b1, '<', "&lt;");
    var a3, b3 := ReplaceAll(a2, '>', "&gt;"), ReplaceAll(b2, '>', "&gt;");
    ReplaceAllAppend(a2, b2, '>', "&gt;");
    var a4, b4 := ReplaceAll(a3, '"', "&quot;"), ReplaceAll(b3, '"', "&quot;");
    ReplaceAllAppend(a3, b3, '"', "&quot;");
    ReplaceAllAppend(a4, b4, '\'', "&#039;");
  }

  lemma ReplaceAllOne(ch: char, target: char, rep: string)
    ensures ReplaceAll([ch], target, rep) == if ch == target then rep else [ch]
  {
    assert [ch][1..] == [];
  }

  /** Replacements after the one that produced `e` leave it alone, as `e` holds none of their characters. */
  lemma LaterStagesKeep(e: string, from: nat)
    requires 1 <= from <= 5
    requires forall i :: 0 <= i < |e| ==> e[i] != '\'' && (from <= 3 ==> e[i] != '"')
                                          && (from <= 2 ==> e[i] != '>') && (from <= 1 ==> e[i] != '<')
    ensures from <= 1 ==> ReplaceAll(e, '<', "&lt;") == e
    ensures from <= 2 ==> ReplaceAll(e, '>', "&gt;") == e
    ensures from <= 3 ==> ReplaceAll(e, '"', "&quot;") == e
    ensures from <= 4 ==> ReplaceAll(e, '\'', "&#039;") == e
  {
    if from <= 1 { ReplaceAllAbsent(e, '<', "&lt;"); }
    if from <= 2 { ReplaceAllAbsent(e, '>', "&gt;"); }
    if from <= 3 { ReplaceAllAbsent(e, '"', "&quot;"); }
    if from <= 4 { ReplaceAllAbsent(e, '\'', "&#039;"); }
  }

  /** Because `&` is replaced first, no later replacement touches an entity already produced. */
  lemma EscapeChainOne(ch: char)
    ensures EscapeChain([ch]) == EntityOf(ch)
  {
    ReplaceAllOne(ch, '&', "&amp;");
    if ch == '&' {
      LaterStagesKeep("&amp;", 1);
      return;
    }
    ReplaceAllOne(ch, '<', "&lt;");
    if ch == '<' {
      LaterStagesKeep("&lt;", 2);
      return;
    }
    ReplaceAllOne(ch, '>', "&gt;");
    if ch == '>' {
      LaterStagesKeep("&gt;", 3);
      return;
    }
    ReplaceAllOne(ch, '"', "&quot;");
    if ch == '"' {
      LaterStagesKeep("&quot;", 4);
      return;
    }
    ReplaceAllOne(ch, '\'', "&#039;");
  }

  /** The replacement chain equals the per-character reference escaper. */
  lemma {:induction false} EscapeChainIsPerCharacter(s: string)
    ensures EscapeChain(s) == EscapeEach(s)
    decreases |s|
  {
    if s != [] {
      assert s == [s[0]] + s[1..];
      EscapeChainAppend([s[0]], s[1..]);
      EscapeChainOne(s[0]);
      EscapeChainIsPerCharacter(s[1..]);
    }
  }

  /** Reads entities back into characters; any other character stands for itself. */
  function Unescape(s: string): string
    decreases |s|
  {
    if s == [] then []
    else if StartsWith(s, "&amp;") then "&" + Unescape(s[5..])
    else if StartsWith(s, "&lt;") then "<" + Unescape(s[4..])
    else if StartsWith(s, "&gt;") then ">" + Unescape(s[4..])
    else if StartsWith(s, "&quot;") then "\"" + Unescape(s[6..])
    else if StartsWith(s, "&#039;") then "'" + Unescape(s[6..])
    else [s[0]] + Unescape(s[1..])
  }

  lemma UnescapeAmp(rest: string)
    ensures Unescape("&amp;" + rest) == "&" + Unescape(rest)
  {
    var s := "&amp;" + rest;
    assert s[..5] == "&amp;";
    assert s[5..] == rest;
  }

  lemma UnescapeLt(rest: string)
    ensures Unescape("&lt;" + rest) == "<" + Unescape(rest)
  {
    var s := "&lt;" + rest;
    DiffersAt(s, "&amp;", 1);
    assert s[..4] == "&lt;";
    assert s[4..] == rest;
  }

  lemma UnescapeGt(rest: string)
    ensures Unescape("&gt;" + rest) == ">" + Unescape(rest)
  {
    var s := "&gt;" + rest;
    DiffersAt(s, "&amp;", 1);
    DiffersAt(s, "&lt;", 1);
    assert s[..4] == "&gt;";
    assert s[4..] == rest;
  }

  lemma UnescapeQuot(rest: string)
    ensures Unescape("&quot;" + rest) == "\"" + Unescape(rest)
  {
    var s := "&quot;" + rest;
    DiffersAt(s, "&amp;", 1);
    DiffersAt(s, "&lt;", 1);
    DiffersAt(s, "&gt;", 1);
    assert s[..6] == "&quot;";
    assert s[6..] == rest;
  }

  lemma UnescapeApos(rest: string)
    ensures Unescape("&#039;" + rest) == "'" + Unescape(rest)
  {
    var s := "&#039;" + rest;
    DiffersAt(s, "&amp;", 1);
    DiffersAt(s, "&lt;", 1);
    DiffersAt(s, "&gt;", 1);
    DiffersAt(s, "&quot;", 1);
    assert s[..6] == "&#039;";
    assert s[6..] == rest;
  }

  lemma UnescapeOther(ch: char, rest: string)
    requires ch != '&'
    ensures Unescape([ch] + rest) == [ch] + Unescape(rest)
  {
    var s := [ch] + rest;
    DiffersAt(s, "&amp;", 0);
    DiffersAt(s, "&lt;", 0);
    DiffersAt(s, "&gt;", 0);
    DiffersAt(s, "&quot;", 0);
    DiffersAt(s, "&#039;", 0);
    assert s[1..] == rest;
  }

  lemma UnescapeEntity(ch: char, rest: string)
    ensures Unescape(EntityOf(ch) + rest) == [ch] + Unescape(rest)
  {
    match ch
    case '&' => UnescapeAmp(rest);
    case '<' => UnescapeLt(rest);
    case '>' => UnescapeGt(rest);
    case '"' => UnescapeQuot(rest);
    case '\'' => UnescapeApos(rest);
    case _ => UnescapeOther(ch, rest);
  }

  /** Escaping loses nothing and never double-escapes: unescaping restores the text exactly. */
  lemma {:induction false} UnescapeEscape(s: string)
    ensures Unescape(EscapeHtml(Some(s))) == s
    decreases |s|
  {
    if s != [] {
      UnescapeEntity(s[0], EscapeEach(s[1..]));
      UnescapeEscape(s[1..]);
    }
  }

  /** Text without `&` or special characters passes through unchanged. */
  lemma {:induction false} EscapePlainText(s: string)
    requires forall i :: 0 <= i < |s| ==> s[i] != '&' && !Special(s[i])
    ensures EscapeHtml(Some(s)) == s
    decreases |s|
  {
    if s != [] {
      EscapePlainText(s[1..]);
    }
  }
}
