/**
 * `convertMinecraftColors`: Minecraft's '§' formatting codes turned into HTML spans.
 * `&#RRGGBB` is first rewritten to `§#RRGGBB`; the text is then split on '§', the first
 * segment is copied, and every later segment is rendered by the code it starts with.
 */
module ChatColors {
  import opened Wrappers
  import opened Text

  /** The section sign that introduces a code. */
  const Section: char := '\U{00A7}'

  /** The sixteen colour codes and their CSS colours. */
  function ColorOf(code: char): Option<string> {
    match code
    case '0' => Some("#000000") case '1' => Some("#0000AA") case '2' => Some("#00AA00") case '3' => Some("#00AAAA")
    case '4' => Some("#AA0000") case '5' => Some("#AA00AA") case '6' => Some("#FFAA00") case '7' => Some("#AAAAAA")
    case '8' => Some("#555555") case '9' => Some("#5555FF") case 'a' => Some("#55FF55") case 'b' => Some("#55FFFF")
    case 'c' => Some("#FF5555") case 'd' => Some("#FF55FF") case 'e' => Some("#FFFF55") case 'f' => Some("#FFFFFF")
    case _ => None
  }

  predicate IsHexDigit(c: char) {
    ('0' <= c <= '9') || ('a' <= c <= 'f') || ('A' <= c <= 'F')
  }

  /** `^#[0-9A-Fa-f]{6}`: a '#' followed by six hex digits. */
  predicate HexColorAt(s: string) {
    |s| >= 7 && s[0] == '#' && forall k :: 1 <= k < 7 ==> IsHexDigit(s[k])
  }

  /**
   * `text.replace(/&(#[0-9A-Fa-f]{6})/g, '§$1')`: scanning left to right, each '&' that
   * starts a match becomes '§'; nothing else changes.
   */
  function HexRewrite(s: string): (r: string)
    ensures |r| == |s|
    decreases |s|
  {
    if |s| == 0 then ""
    else if s[0] == '&' && HexColorAt(s[1..]) then [Section] + s[1..8] + HexRewrite(s[8..])
    else [s[0]] + HexRewrite(s[1..])
  }

  /** The rewrite only turns some '&' into '§'. */
  lemma {:induction false} HexRewriteChars(s: string)
    ensures forall k :: 0 <= k < |s| ==> HexRewrite(s)[k] == s[k] || (s[k] == '&' && HexRewrite(s)[k] == Section)
    decreases |s|
  {
    if |s| > 0 {
      if s[0] == '&' && HexColorAt(s[1..]) {
        HexRewriteChars(s[8..]);
        assert forall k :: 8 <= k < |s| ==> HexRewrite(s)[k] == HexRewrite(s[8..])[k - 8] && s[k] == s[8..][k - 8];
      } else {
        HexRewriteChars(s[1..]);
        assert forall k :: 1 <= k < |s| ==> HexRewrite(s)[k] == HexRewrite(s[1..])[k - 1] && s[k] == s[1..][k - 1];
      }
    }
  }

  /** Text without '&' is not rewritten. */
  lemma NoAmpersandNoRewrite(s: string)
    requires '&' !in s
    ensures HexRewrite(s) == s
  {
  }

  /** `<span style="…">text</span>`. */
  function StyleSpan(style: string, text: string): string {
    "<span style=\"" + style + "\">" + text + "</span>"
  }

  /** The span a formatting code other than a colour opens, if it is one. */
  function FormatStyle(code: char): Option<string> {
    match code
    case 'l' => Some("font-weight: bold")
    case 'n' => Some("text-decoration: underline")
    case 'o' => Some("font-style: italic")
    case 'm' => Some("text-decoration: line-through")
    case 'r' => Some("color: inherit; font-weight: normal; text-decoration: none; font-style: normal")
    case _ => None
  }

  /** Whether a segment's code is one the page renders as a span. */
  predicate Styled(segment: string) {
    |segment| > 0 &&
    (if segment[0] == '#' then HexColorAt(segment)
     else var code := LowerChar(segment[0]); ColorOf(code).Some? || code == 'k' || FormatStyle(code).Some?)
  }

  /**
   * One segment after a '§': a colour or format span around the text after the code, the
   * code lowercased in front of the text for an unknown code, '#' and the rest for a '#'
   * that does not start a colour, and nothing for an empty segment.
   */
  function RenderSegment(segment: string): (r: string)
    ensures segment == "" ==> r == ""
    ensures Styled(segment) ==> StartsWith(r, "<span")
    ensures Styled(segment) ==> EndsWith(r, "</span>")
    ensures |segment| > 0 && !Styled(segment) ==> r == [if segment[0] == '#' then '#' else LowerChar(segment[0])] + segment[1..]
  {
    if segment == "" then ""
    else if segment[0] == '#' then
      if HexColorAt(segment) then StyleSpan("color: " + segment[..7], segment[7..])
      else "#" + segment[1..]
    else
      var code := LowerChar(segment[0]);
      var text := segment[1..];
      if ColorOf(code).Some? then StyleSpan("color: " + ColorOf(code).value, text)
      else if code == 'k' then "<span class=\"obfuscated\">" + text + "</span>"
      else if FormatStyle(code).Some? then StyleSpan(FormatStyle(code).value, text)
      else [code] + text
  }

  /** An upper-case code renders as its lower-case form. */
  lemma CodesIgnoreCase(code: char, text: string)
    requires 'A' <= code <= 'Z'
    ensures RenderSegment([code] + text) == RenderSegment([LowerChar(code)] + text)
  {
    assert ([code] + text)[1..] == text;
    assert ([LowerChar(code)] + text)[1..] == text;
  }

  /** A colour code keeps its text, wrapped in a span of its colour. */
  lemma ColorCodeWraps(code: char, text: string)
    requires ColorOf(code).Some?
    ensures RenderSegment([code] + text) == StyleSpan("color: " + ColorOf(code).value, text)
  {
    assert ([code] + text)[1..] == text;
  }

  /**
   * The segments `from` up to `to` (exclusive), each rendered by `render`, one after the
   * other. The renderer is passed in so that reasoning about the sequence does not
   * unfold what a segment turns into.
   */
  function RenderRange(render: string -> string, segments: seq<string>, from: nat, to: nat): string
    requires from <= to <= |segments|
  {
    if from == to then "" else RenderRange(render, segments, from, to - 1) + render(segments[to - 1])
  }

  /** What the page shows for a non-empty text. */
  function Converted(text: string): string {
    var t := HexRewrite(text);
    var segments := Fields(t, Section);
    if |segments| == 1 then t else segments[0] + RenderRange(RenderSegment, segments, 1, |segments|)
  }

  /** Text without '§' and without '&' is shown as it is. */
  lemma PlainTextUnchanged(text: string)
    requires Section !in text && '&' !in text
    ensures Converted(text) == text
  {
    NoAmpersandNoRewrite(text);
    FieldsOfSepFree(text, Section);
  }

  /** The text before the first '§' is copied verbatim. */
  lemma FirstSegmentVerbatim(a: string, b: string)
    requires Section !in a && '&' !in a + b
    ensures StartsWith(Converted(a + [Section] + b), a)
  {
    NoAmpersandNoRewrite(a + [Section] + b);
    FieldsCons(a, Section, b);
  }

  /**
   * `convertMinecraftColors`: '' for a missing or empty text; otherwise the rewritten text
   * when it has no '§', else the first segment followed by each later one rendered.
   */
  method ConvertMinecraftColors(text: Option<string>) returns (html: string)
    ensures text.None? || text.value == "" ==> html == ""
    ensures text.Some? && text.value != "" ==> html == Converted(text.value)
  {
    if text.None? || text.value == "" {
      return "";
    }
    var t := HexRewrite(text.value);
    var segments := Fields(t, Section);
    if |segments| == 1 {
      return t;
    }
    var rendered := "";
    var i := 1;
    while i < |segments|
      invariant 1 <= i <= |segments|
      invariant rendered == RenderRange(RenderSegment, segments, 1, i)
    {
      rendered := rendered + RenderSegment(segments[i]);
      i := i + 1;
    }
    html := segments[0] + rendered;
  }
}
