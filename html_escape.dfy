/**
 * `escapeHtml` of the player page: five global replacements applied one after the
 * other, '&' first, so that the result can be put into HTML as text.
 */
module HtmlEscape {
  import opened Wrappers
  import opened Text

  /** `s.replace(/c/g, rep)`: every occurrence of the character `c` replaced by `rep`. */
  function ReplaceChar(s: string, c: char, rep: string): string
    decreases |s|
  {
    if |s| == 0 then "" else (if s[0] == c then rep else [s[0]]) + ReplaceChar(s[1..], c, rep)
  }

  /** Replacing distributes over concatenation: each part is replaced on its own. */
  lemma {:induction false} ReplaceAppend(a: string, b: string, c: char, rep: string)
    ensures ReplaceChar(a + b, c, rep) == ReplaceChar(a, c, rep) + ReplaceChar(b, c, rep)
    decreases |a|
  {
    if |a| == 0 {
      assert a + b == b;
    } else {
      assert (a + b)[1..] == a[1..] + b;
      ReplaceAppend(a[1..], b, c, rep);
    }
  }

  /** A string without the character is left as it is. */
  lemma {:induction false} ReplaceAbsent(s: string, c: char, rep: string)
    requires c !in s
    ensures ReplaceChar(s, c, rep) == s
    decreases |s|
  {
    if |s| > 0 {
      ReplaceAbsent(s[1..], c, rep);
    }
  }

  /** The chain of replacements as the page writes it. */
  function EscapeChain(s: string): string {
    var amp := ReplaceChar(s, '&', "&amp;");
    var lt := ReplaceChar(amp, '<', "&lt;");
    var gt := ReplaceChar(lt, '>', "&gt;");
    var quot := ReplaceChar(gt, '"', "&quot;");
    ReplaceChar(quot, '\'', "&#039;")
  }

  /** The characters that may not appear raw in the escaped text. */
  predicate Unsafe(c: char) {
    c == '<' || c == '>' || c == '"' || c == '\''
  }

  /** The characters that are replaced by an entity. */
  predicate Special(c: char) {
    c == '&' || Unsafe(c)
  }

  /** The entity of one character: the five special ones are replaced, the rest kept. */
  function EscapeChar(c: char): (r: string)
    ensures !Special(c) ==> r == [c]
    ensures Special(c) ==> |r| >= 4 && r[0] == '&' && r[|r| - 1] == ';'
    ensures forall k :: 0 <= k < |r| ==> !Unsafe(r[k])
  {
    match c
    case '&' => "&amp;"
    case '<' => "&lt;"
    case '>' => "&gt;"
    case '"' => "&quot;"
    case '\'' => "&#039;"
    case _ => [c]
  }

  /** The escaping character by character. */
  function Escape(s: string): (r: string)
    ensures forall k :: 0 <= k < |r| ==> !Unsafe(r[k])
    decreases |s|
  {
    if |s| == 0 then "" else EscapeChar(s[0]) + Escape(s[1..])
  }

  /** The chain of replacements escapes each character on its own: '&' going first keeps the entities intact. */
  lemma {:induction false} ChainIsCharwise(s: string)
    ensures EscapeChain(s) == Escape(s)
    decreases |s|
  {
    if |s| > 0 {
      var head, tail := [s[0]], s[1..];
      assert s == head + tail;
      ReplaceAppend(head, tail, '&', "&amp;");
      var amp1, amp2 := ReplaceChar(head, '&', "&amp;"), ReplaceChar(tail, '&', "&amp;");
      ReplaceAppend(amp1, amp2, '<', "&lt;");
      var lt1, lt2 := ReplaceChar(amp1, '<', "&lt;"), ReplaceChar(amp2, '<', "&lt;");
      ReplaceAppend(lt1, lt2, '>', "&gt;");
      var gt1, gt2 := ReplaceChar(lt1, '>', "&gt;"), ReplaceChar(lt2, '>', "&gt;");
      ReplaceAppend(gt1, gt2, '"', "&quot;");
      var q1, q2 := ReplaceChar(gt1, '"', "&quot;"), ReplaceChar(gt2, '"', "&quot;");
      ReplaceAppend(q1, q2, '\'', "&#039;");
      ChainIsCharwise(tail);
      SingleCharChain(s[0]);
    }
  }

  /** Replacing in a one-character string. */
  lemma ReplaceSingle(c: char, x: char, rep: string)
    ensures ReplaceChar([c], x, rep) == (if c == x then rep else [c])
  {
    assert [c][1..] == [];
  }

  /** The rest of the chain leaves an entity that holds none of the later characters. */
  lemma ChainFrom(c: char, e: string)
    requires Special(c) && e == EscapeChar(c)
    ensures c == '&' ==> ReplaceChar(ReplaceChar(ReplaceChar(ReplaceChar(e, '<', "&lt;"), '>', "&gt;"), '"', "&quot;"), '\'', "&#039;") == e
    ensures c == '<' ==> ReplaceChar(ReplaceChar(ReplaceChar(e, '>', "&gt;"), '"', "&quot;"), '\'', "&#039;") == e
    ensures c == '>' ==> ReplaceChar(ReplaceChar(e, '"', "&quot;"), '\'', "&#039;") == e
    ensures c == '"' ==> ReplaceChar(e, '\'', "&#039;") == e
  {
    assert forall k :: 0 <= k < |e| ==> !Unsafe(e[k]);
    ReplaceAbsent(e, '<', "&lt;");
    ReplaceAbsent(e, '>', "&gt;");
    ReplaceAbsent(e, '"', "&quot;");
    ReplaceAbsent(e, '\'', "&#039;");
  }

  /** On one character the chain gives its entity. */
  lemma SingleCharChain(c: char)
    ensures EscapeChain([c]) == EscapeChar(c)
  {
    var e := EscapeChar(c);
    ReplaceSingle(c, '&', "&amp;");
    if c == '&' {
      ChainFrom(c, e);
      return;
    }
    ReplaceSingle(c, '<', "&lt;");
    if c == '<' {
      ChainFrom(c, e);
      return;
    }
    ReplaceSingle(c, '>', "&gt;");
    if c == '>' {
      ChainFrom(c, e);
      return;
    }
    ReplaceSingle(c, '"', "&quot;");
    if c == '"' {
      ChainFrom(c, e);
      return;
    }
    ReplaceSingle(c, '\'', "&#039;");
  }

  /** Decoding the five entities back, left to right. */
  function Unescape(s: string): string
    decreases |s|
  {
    if |s| == 0 then ""
    else if StartsWith(s, "&amp;") then "&" + Unescape(s[5..])
    else if StartsWith(s, "&lt;") then "<" + Unescape(s[4..])
    else if StartsWith(s, "&gt;") then ">" + Unescape(s[4..])
    else if StartsWith(s, "&quot;") then "\"" + Unescape(s[6..])
    else if StartsWith(s, "&#039;") then "'" + Unescape(s[6..])
    else [s[0]] + Unescape(s[1..])
  }

  /** Decoding an entity, followed by anything, gives its character back first. */
  lemma UnescapeSpecial(c: char, t: string)
    requires Special(c)
    ensures Unescape(EscapeChar(c) + t) == [c] + Unescape(t)
  {
    var e := EscapeChar(c) + t;
    if c == '&' {
      assert e[..5] == "&amp;" && e[5..] == t;
    } else if c == '<' {
      assert e[..4] == "&lt;" && e[4..] == t && e[1] == 'l';
    } else if c == '>' {
      assert e[..4] == "&gt;" && e[4..] == t && e[1] == 'g';
    } else if c == '"' {
      assert e[..6] == "&quot;" && e[6..] == t && e[1] == 'q';
    } else {
      assert e[..6] == "&#039;" && e[6..] == t && e[1] == '#';
    }
  }

  /** Any other character is decoded as itself. */
  lemma UnescapePlain(c: char, t: string)
    requires !Special(c)
    ensures Unescape(EscapeChar(c) + t) == [c] + Unescape(t)
  {
    var e := EscapeChar(c) + t;
    assert e[0] == c && e[1..] == t;
  }

  /** Escaping loses nothing: decoding the entities gives the text back. */
  lemma {:induction false} EscapeRoundTrip(s: string)
    ensures Unescape(Escape(s)) == s
    decreases |s|
  {
    if |s| > 0 {
      if Special(s[0]) {
        UnescapeSpecial(s[0], Escape(s[1..]));
      } else {
        UnescapePlain(s[0], Escape(s[1..]));
      }
      EscapeRoundTrip(s[1..]);
    }
  }

  /** `escapeHtml`: the empty string for a value that is not a string. */
  function EscapeHtml(text: Option<string>): (r: string)
    ensures text.None? ==> r == ""
    ensures text.Some? ==> r == Escape(text.value) && Unescape(r) == text.value
    ensures forall k :: 0 <= k < |r| ==> !Unsafe(r[k])
  {
    if text.None? then "" else
      ChainIsCharwise(text.value);
      EscapeRoundTrip(text.value);
      EscapeChain(text.value)
  }
}
