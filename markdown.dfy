/**
 * `parseMarkdown` of frontend/src/App.jsx: HTML-escapes a bot message, then
 * rewrites `**bold**` and `*italic*` into tags. It is an ad-hoc rewriter,
 * not a Markdown parser: each step is a global regular-expression replace,
 * modelled here as a left-to-right scan that replaces the leftmost match and
 * resumes after it.
 */
module Markdown {
  import Text

  /** The placeholders that protect bold text from the italic pass. */
  const BoldOpen: string := "___BOLD_OPEN___"
  const BoldClose: string := "___BOLD_CLOSE___"

  // ---------------------------------------------------------------- escaping

  /** The three chained replaces `&` -> `&amp;`, `<` -> `&lt;`, `>` -> `&gt;`, in that order. */
  function EscapeHtml(s: string): string {
    Text.ReplaceAll(Text.ReplaceAll(Text.ReplaceAll(s, "&", "&amp;"), "<", "&lt;"), ">", "&gt;")
  }

  /** The entity a single character becomes. */
  function Entity(c: char): string {
    if c == '&' then "&amp;" else if c == '<' then "&lt;" else if c == '>' then "&gt;" else [c]
  }

  /** Reference definition of escaping: every character replaced by its entity, independently. */
  function EscapeEach(s: string): string {
    if s == [] then [] else Entity(s[0]) + EscapeEach(s[1..])
  }

  lemma {:induction false} EscapeEachAppend(a: string, b: string)
    ensures EscapeEach(a + b) == EscapeEach(a) + EscapeEach(b)
    decreases |a|
  {
    if a == [] {
      assert a + b == b;
    } else {
      assert (a + b)[0] == a[0] && (a + b)[1..] == a[1..] + b;
      EscapeEachAppend(a[1..], b);
    }
  }

  /**
   * Because `&` is replaced first, the `&` of `&lt;` and `&gt;` is never
   * escaped again: the chain is the same as escaping each character once.
   */
  lemma {:induction false} EscapeHtmlIsPerCharacter(s: string)
    ensures EscapeHtml(s) == EscapeEach(s)
    decreases |s|
  {
    if s == [] {
    } else {
      var c, t := s[0], s[1..];
      assert s == [c] + t;
      Text.ReplaceCharDistributes([c], t, '&', "&amp;");
      var a1 := Text.ReplaceAll([c], "&", "&amp;");
      var t1 := Text.ReplaceAll(t, "&", "&amp;");
      Text.ReplaceCharDistributes(a1, t1, '<', "&lt;");
      var a2 := Text.ReplaceAll(a1, "<", "&lt;");
      var t2 := Text.ReplaceAll(t1, "<", "&lt;");
      Text.ReplaceCharDistributes(a2, t2, '>', "&gt;");
      var a3 := Text.ReplaceAll(a2, ">", "&gt;");
      CharEscape(c);
      assert a3 == Entity(c);
      EscapeHtmlIsPerCharacter(t);
    }
  }

  /** The three replaces applied to a single character. */
  lemma CharEscape(c: char)
    ensures Text.ReplaceAll(Text.ReplaceAll(Text.ReplaceAll([c], "&", "&amp;"), "<", "&lt;"), ">", "&gt;") == Entity(c)
  {
    var amp := "&amp;";
    var lt := "&lt;";
    var gt := "&gt;";
    assert Text.ReplaceAll([], "&", amp) == [];
    if c == '&' {
      assert Text.StartsWith([c], "&") && [c][1..] == [];
      assert Text.ReplaceAll([c], "&", amp) == amp;
      Text.ReplaceAllSkipsPrefix(amp, [], "<", lt);
      Text.ReplaceAllSkipsPrefix(amp, [], ">", gt);
      assert amp + [] == amp;
    } else if c == '<' {
      assert Text.ReplaceAll([c], "&", amp) == [c];
      assert Text.StartsWith([c], "<") && [c][1..] == [];
      assert Text.ReplaceAll([c], "<", lt) == lt;
      Text.ReplaceAllSkipsPrefix(lt, [], ">", gt);
      assert lt + [] == lt;
    } else if c == '>' {
      assert Text.ReplaceAll([c], "&", amp) == [c];
      assert Text.ReplaceAll([c], "<", lt) == [c];
      assert Text.StartsWith([c], ">") && [c][1..] == [];
    } else {
      assert Text.ReplaceAll([c], "&", amp) == [c];
      assert Text.ReplaceAll([c], "<", lt) == [c];
    }
  }

  /** Escaping leaves text without `&`, `<` and `>` as it is. */
  lemma {:induction false} EscapeEachPlain(s: string)
    requires '&' !in s && '<' !in s && '>' !in s
    ensures EscapeEach(s) == s
    decreases |s|
  {
    if s != [] {
      EscapeEachPlain(s[1..]);
      assert [s[0]] + s[1..] == s;
    }
  }

  /** Escaping brings in no `*` and no `_`. */
  lemma {:induction false} EscapeEachAddsNoMarks(s: string)
    ensures '*' in EscapeEach(s) <==> '*' in s
    ensures '_' in EscapeEach(s) <==> '_' in s
    ensures |EscapeEach(s)| >= |s|
    decreases |s|
  {
    if s != [] {
      EscapeEachAddsNoMarks(s[1..]);
      assert s == [s[0]] + s[1..];
    }
  }

  // ---------------------------------------------------------------- emphasis

  /** Length of the leading run of characters other than `*` (the `[^*]+?` part). */
  function RunLength(s: string): (n: nat)
    ensures n <= |s|
    ensures forall k :: 0 <= k < n ==> s[k] != '*'
    ensures n < |s| ==> s[n] == '*'
  {
    if s == [] || s[0] == '*' then 0 else 1 + RunLength(s[1..])
  }

  lemma {:induction false} RunLengthAppend(y: string, t: string)
    requires '*' !in y
    ensures RunLength(y + t) == |y| + RunLength(t)
    decreases |y|
  {
    if y == [] {
      assert y + t == t;
    } else {
      assert (y + t)[0] == y[0] && (y + t)[1..] == y[1..] + t;
      RunLengthAppend(y[1..], t);
    }
  }

  /** The regular expression `d([^*]+?)d` matches at the start of `s` (`d` is `*` or `**`). */
  predicate Matched(s: string, d: string) {
    Text.StartsWith(s, d) && RunLength(s[|d|..]) > 0
    && Text.StartsWith(s[|d| + RunLength(s[|d|..])..], d)
  }

  /**
   * `s.replace(/d([^*]+?)d/g, open + '$1' + close)`: at each position, a
   * match there is rewritten and the scan resumes after it; otherwise the
   * character is kept and the scan moves one position on.
   */
  function Emphasis(s: string, d: string, open: string, close: string): string
    requires d != [] && d[0] == '*'
    decreases |s|
  {
    if s == [] then []
    else if Matched(s, d) then
      var n := RunLength(s[|d|..]);
      open + s[|d|..|d| + n] + close + Emphasis(s[|d| + n + |d|..], d, open, close)
    else [s[0]] + Emphasis(s[1..], d, open, close)
  }

  /** Step 1: `**x**` becomes the bold placeholders around `x`. */
  function BoldPass(s: string): string {
    Emphasis(s, "**", BoldOpen, BoldClose)
  }

  /** Step 2: the remaining `*x*` becomes `<em>x</em>`. */
  function ItalicPass(s: string): string {
    Emphasis(s, "*", "<em>", "</em>")
  }

  /** Step 3: the placeholders become `<strong>` and `</strong>`. */
  function RestoreBold(s: string): string {
    Text.ReplaceAll(Text.ReplaceAll(s, BoldOpen, "<strong>"), BoldClose, "</strong>")
  }

  /** `parseMarkdown(text)`. */
  function ParseMarkdown(text: string): string {
    if text == [] then [] else RestoreBold(ItalicPass(BoldPass(EscapeHtml(text))))
  }

  /** A prefix without `*` is copied through by either emphasis pass. */
  lemma {:induction false} EmphasisSkipsPrefix(p: string, t: string, d: string, open: string, close: string)
    requires d != [] && d[0] == '*' && '*' !in p
    ensures Emphasis(p + t, d, open, close) == p + Emphasis(t, d, open, close)
    decreases |p|
  {
    if p == [] {
      assert p + t == t;
    } else {
      assert (p + t)[0] == p[0] && (p + t)[1..] == p[1..] + t;
      assert !Text.StartsWith(p + t, d) by { assert (p + t)[0] != d[0]; }
      EmphasisSkipsPrefix(p[1..], t, d, open, close);
      assert [p[0]] + p[1..] == p;
    }
  }

  lemma EmphasisPlain(s: string, d: string, open: string, close: string)
    requires d != [] && d[0] == '*' && '*' !in s
    ensures Emphasis(s, d, open, close) == s
  {
    EmphasisSkipsPrefix(s, [], d, open, close);
    assert s + [] == s;
  }

  /** The emphasis pass rewrites `d + y + d` when `y` is a non-empty run without `*`. */
  lemma EmphasisToken(y: string, t: string, d: string, open: string, close: string)
    requires d != [] && d[0] == '*' && y != [] && '*' !in y && Text.StartsWith(t, d)
    ensures Emphasis(d + y + t, d, open, close) == open + y + close + Emphasis(t[|d|..], d, open, close)
  {
    var s := d + y + t;
    SplitThree(d, y, t);
    RunLengthAppend(y, t);
    assert RunLength(t) == 0 by { assert t[0] == d[0]; }
  }

  /** The slices of `d + y + t` the emphasis scan takes. */
  lemma SplitThree(d: string, y: string, t: string)
    requires |d| <= |t|
    ensures var s := d + y + t;
      s[..|d|] == d && s[|d|..] == y + t && s[|d|..|d| + |y|] == y
      && s[|d| + |y|..] == t && s[|d| + |y| + |d|..] == t[|d|..]
  {
  }

  // ---------------------------------------------------------------- placeholders

  lemma {:induction false} ShortNotContains(s: string, p: string)
    requires |s| < |p|
    ensures !Text.Contains(s, p)
    decreases |s|
  {
    if |s| > 0 {
      ShortNotContains(s[1..], p);
    }
  }

  /** `BoldOpen` does not start at position `i` of `BoldClose + t` when `t` has no `_`. */
  lemma OpenNotAt(t: string, i: nat)
    requires '_' !in t && i + |BoldOpen| <= |BoldClose + t|
    ensures (BoldClose + t)[i..i + |BoldOpen|] != BoldOpen
  {
    var s := BoldClose + t;
    if i >= 2 {
      assert s[i + 14] == t[i - 2];
      assert s[i..i + 15][14] != BoldOpen[14];
    } else if i == 0 {
      assert s[i..i + 15][8] != BoldOpen[8];
    } else {
      assert s[i..i + 15][2] != BoldOpen[2];
    }
  }

  /** The opening placeholder occurs neither in the closing one nor across its end into text without `_`. */
  lemma OpenNotInClose(t: string)
    requires '_' !in t
    ensures !Text.Contains(BoldClose + t, BoldOpen)
  {
    if Text.Contains(BoldClose + t, BoldOpen) {
      var i := Text.IndexOf(BoldClose + t, BoldOpen);
      OpenNotAt(t, i);
      assert false;
    }
  }

  /** Replacing a pattern in text without the pattern's first character changes nothing. */
  lemma ReplaceAllPlain(s: string, pat: string, rep: string)
    requires |pat| > 0 && pat[0] !in s
    ensures Text.ReplaceAll(s, pat, rep) == s
  {
    Text.ReplaceAllSkipsPrefix(s, [], pat, rep);
    assert s + [] == s;
    assert Text.ReplaceAll([], pat, rep) == [];
  }

  /** Replacing a whole occurrence at the front. */
  lemma ReplaceAllFront(t: string, pat: string, rep: string)
    requires |pat| > 0
    ensures Text.ReplaceAll(pat + t, pat, rep) == rep + Text.ReplaceAll(t, pat, rep)
  {
    var s := pat + t;
    assert s[..|pat|] == pat && s[|pat|..] == t;
  }

  // ---------------------------------------------------------------- properties

  /** An empty message renders as the empty string. */
  lemma EmptyMessage()
    ensures ParseMarkdown("") == ""
  {
  }

  /**
   * Text with no `*`, `&`, `<`, `>` and no placeholder string in it is
   * returned unchanged.
   */
  lemma PlainTextUnchanged(s: string)
    requires '*' !in s && '&' !in s && '<' !in s && '>' !in s
    requires !Text.Contains(s, BoldOpen) && !Text.Contains(s, BoldClose)
    ensures ParseMarkdown(s) == s
  {
    if s != [] {
      EscapeHtmlIsPerCharacter(s);
      EscapeEachPlain(s);
      EmphasisPlain(s, "**", BoldOpen, BoldClose);
      EmphasisPlain(s, "*", "<em>", "</em>");
      Text.ReplaceAllAbsent(s, BoldOpen, "<strong>");
      Text.ReplaceAllAbsent(s, BoldClose, "</strong>");
    }
  }

  /** Escaping a run between delimiters made of `*`. */
  lemma EscapeDelimited(d: string, x: string)
    requires forall k :: 0 <= k < |d| ==> d[k] == '*'
    ensures EscapeHtml(d + x + d) == d + EscapeEach(x) + d
  {
    EscapeHtmlIsPerCharacter(d + x + d);
    EscapeEachAppend(d + x, d);
    EscapeEachAppend(d, x);
    EscapeEachPlain(d);
  }

  lemma BoldPassToken(y: string)
    requires y != [] && '*' !in y
    ensures BoldPass("**" + y + "**") == BoldOpen + y + BoldClose
  {
    EmphasisToken(y, "**", "**", BoldOpen, BoldClose);
    assert "**"[2..] == [];
    assert BoldOpen + y + BoldClose + [] == BoldOpen + y + BoldClose;
  }

  /** Replacing `p` in `p + y + q` when `y` lacks `p`'s first character and `q` does not contain `p`. */
  lemma ReplaceLeading(p: string, y: string, q: string, r: string)
    requires |p| > 0 && p[0] !in y && !Text.Contains(q, p)
    ensures Text.ReplaceAll(p + y + q, p, r) == r + y + q
  {
    assert p + y + q == p + (y + q);
    ReplaceAllFront(y + q, p, r);
    Text.ReplaceAllSkipsPrefix(y, q, p, r);
    Text.ReplaceAllAbsent(q, p, r);
  }

  /** Replacing `q` in `x + q + z` when `x` and `z` lack `q`'s first character. */
  lemma ReplaceInner(x: string, q: string, z: string, r: string)
    requires |q| > 0 && q[0] !in x && q[0] !in z
    ensures Text.ReplaceAll(x + q + z, q, r) == x + r + z
  {
    Text.ReplaceAllSkipsPrefix(x, q + z, q, r);
    assert x + q + z == x + (q + z);
    ReplaceAllFront(z, q, r);
    ReplaceAllPlain(z, q, r);
  }

  /** The opening placeholder is replaced, and nothing after it, when the text after it has no `_` but the closing placeholder. */
  lemma OpenStep(y: string, t: string)
    requires '_' !in y && '_' !in t
    ensures Text.ReplaceAll(BoldOpen + y + (BoldClose + t), BoldOpen, "<strong>") == "<strong>" + y + (BoldClose + t)
  {
    OpenNotInClose(t);
    ReplaceLeading(BoldOpen, y, BoldClose + t, "<strong>");
  }

  /** The first replace of `RestoreBold` on a bold run between text without `_`. */
  lemma WrappedOpen(p: string, y: string, q: string)
    requires '_' !in p && '_' !in y && '_' !in q
    ensures Text.ReplaceAll(p + (BoldOpen + y + BoldClose) + q, BoldOpen, "<strong>")
         == (p + "<strong>" + y) + BoldClose + q
  {
    var t := BoldOpen + y + (BoldClose + q);
    RegroupOpen(p, BoldOpen, y, BoldClose, q);
    Text.ReplaceAllSkipsPrefix(p, t, BoldOpen, "<strong>");
    OpenStep(y, q);
    RegroupAfter(p, "<strong>", y, BoldClose, q);
  }

  lemma RegroupOpen(p: string, a: string, y: string, b: string, q: string)
    ensures p + (a + y + b) + q == p + (a + y + (b + q))
  {
  }

  lemma RegroupAfter(p: string, a: string, y: string, b: string, q: string)
    ensures p + (a + y + (b + q)) == (p + a + y) + b + q
  {
  }

  /** The second replace of `RestoreBold` on the same text. */
  lemma WrappedClose(p: string, y: string, q: string)
    requires '_' !in p && '_' !in y && '_' !in q
    ensures Text.ReplaceAll((p + "<strong>" + y) + BoldClose + q, BoldClose, "</strong>")
         == p + "<strong>" + y + "</strong>" + q
  {
    assert '_' !in p + "<strong>" + y;
    ReplaceInner(p + "<strong>" + y, BoldClose, q, "</strong>");
  }

  /** `RestoreBold` turns the placeholders around `y` into tags and leaves the text around them alone. */
  lemma RestoreWrapped(p: string, y: string, q: string)
    requires '_' !in p && '_' !in y && '_' !in q
    ensures RestoreBold(p + (BoldOpen + y + BoldClose) + q) == p + "<strong>" + y + "</strong>" + q
  {
    WrappedOpen(p, y, q);
    WrappedClose(p, y, q);
  }

  /** The four stages of `ParseMarkdown`, one fact each. */
  lemma Stages(s: string, e: string, b: string, i: string, r: string)
    requires s != [] && EscapeHtml(s) == e && BoldPass(e) == b && ItalicPass(b) == i && RestoreBold(i) == r
    ensures ParseMarkdown(s) == r
  {
  }

  /** The bold placeholders bring in no `*`. */
  lemma PlaceholdersNoStar(y: string)
    requires '*' !in y
    ensures '*' !in BoldOpen + y + BoldClose
  {
  }

  lemma RestoreAround(y: string)
    requires '_' !in y
    ensures RestoreBold(BoldOpen + y + BoldClose) == "<strong>" + y + "</strong>"
  {
    var b := BoldOpen + y + BoldClose;
    RestoreWrapped([], y, []);
    assert [] + b + [] == b;
    assert [] + "<strong>" + y + "</strong>" + [] == "<strong>" + y + "</strong>";
  }

  /** The bold rendering of a delimited run, once the run is escaped to `y`. */
  lemma BoldOfEscaped(s: string, y: string)
    requires s != [] && y != [] && '*' !in y && '_' !in y && EscapeHtml(s) == "**" + y + "**"
    ensures ParseMarkdown(s) == "<strong>" + y + "</strong>"
  {
    BoldPassToken(y);
    var b := BoldOpen + y + BoldClose;
    PlaceholdersNoStar(y);
    EmphasisPlain(b, "*", "<em>", "</em>");
    RestoreAround(y);
    Stages(s, "**" + y + "**", b, b, "<strong>" + y + "</strong>");
  }

  /** `**x**` becomes `<strong>x</strong>` (with `x` escaped). */
  lemma BoldText(x: string)
    requires x != [] && '*' !in x && '_' !in x
    ensures ParseMarkdown("**" + x + "**") == "<strong>" + EscapeEach(x) + "</strong>"
  {
    EscapeEachAddsNoMarks(x);
    EscapeDelimited("**", x);
    BoldOfEscaped("**" + x + "**", EscapeEach(x));
  }

  /** The bold pattern does not match a singly delimited run, whatever the bold pass writes. */
  lemma BoldPassSingle(y: string, open: string, close: string)
    requires y != [] && '*' !in y
    ensures Emphasis("*" + y + "*", "**", open, close) == "*" + y + "*"
  {
    var s := "*" + y + "*";
    assert !Matched(s, "**") by { assert s[1] == y[0]; }
    assert s[1..] == y + "*";
    EmphasisSkipsPrefix(y, "*", "**", open, close);
    assert !Matched("*", "**");
    assert Emphasis("*", "**", open, close) == "*";
  }

  lemma ItalicPassToken(y: string)
    requires y != [] && '*' !in y
    ensures ItalicPass("*" + y + "*") == "<em>" + y + "</em>"
  {
    EmphasisToken(y, "*", "*", "<em>", "</em>");
    assert "*"[1..] == [];
    assert "<em>" + y + "</em>" + [] == "<em>" + y + "</em>";
  }

  lemma RestorePlain(e: string)
    requires '_' !in e
    ensures RestoreBold(e) == e
  {
    ReplaceAllPlain(e, BoldOpen, "<strong>");
    ReplaceAllPlain(e, BoldClose, "</strong>");
  }

  /** The italic rendering of a delimited run, once the run is escaped to `y`. */
  lemma ItalicOfEscaped(s: string, y: string)
    requires s != [] && y != [] && '*' !in y && '_' !in y && EscapeHtml(s) == "*" + y + "*"
    ensures ParseMarkdown(s) == "<em>" + y + "</em>"
  {
    BoldPassSingle(y, BoldOpen, BoldClose);
    ItalicPassToken(y);
    NoUnderscoreTags(y);
    RestorePlain("<em>" + y + "</em>");
    Stages(s, "*" + y + "*", "*" + y + "*", "<em>" + y + "</em>", "<em>" + y + "</em>");
  }

  lemma NoUnderscoreTags(y: string)
    requires '_' !in y
    ensures '_' !in "<em>" + y + "</em>"
  {
  }

  /** `*x*` becomes `<em>x</em>` (with `x` escaped). */
  lemma ItalicText(x: string)
    requires x != [] && '*' !in x && '_' !in x
    ensures ParseMarkdown("*" + x + "*") == "<em>" + EscapeEach(x) + "</em>"
  {
    EscapeEachAddsNoMarks(x);
    EscapeDelimited("*", x);
    ItalicOfEscaped("*" + x + "*", EscapeEach(x));
  }

  /** On a triply delimited run the bold pattern matches one position in, leaving a `*` on each side. */
  lemma BoldPassTriple(y: string, open: string, close: string)
    requires y != [] && '*' !in y
    ensures Emphasis("***" + y + "***", "**", open, close) == "*" + (open + y + close) + "*"
  {
    var s := "***" + y + "***";
    assert s[2..] == "*" + y + "***";
    assert RunLength(s[2..]) == 0;
    assert !Matched(s, "**");
    assert s[1..] == "**" + y + "***";
    EmphasisToken(y, "***", "**", open, close);
    assert "***"[2..] == "*";
    assert !Matched("*", "**");
    assert Emphasis("*", "**", open, close) == "*";
  }

  /** The nested rendering of a triply delimited run, once the run is escaped to `y`. */
  lemma BoldItalicOfEscaped(s: string, y: string)
    requires s != [] && y != [] && '*' !in y && '_' !in y && EscapeHtml(s) == "***" + y + "***"
    ensures ParseMarkdown(s) == "<em><strong>" + y + "</strong></em>"
  {
    BoldPassTriple(y, BoldOpen, BoldClose);
    var inner := BoldOpen + y + BoldClose;
    PlaceholdersNoStar(y);
    ItalicPassToken(inner);
    RestoreWrapped("<em>", y, "</em>");
    TagsJoin(y);
    Stages(s, "***" + y + "***", "*" + inner + "*", "<em>" + inner + "</em>",
           "<em><strong>" + y + "</strong></em>");
  }

  lemma TagsJoin(y: string)
    ensures "<em>" + "<strong>" + y + "</strong>" + "</em>" == "<em><strong>" + y + "</strong></em>"
  {
  }

  /** `***x***` becomes `<em><strong>x</strong></em>`: bold is resolved before italic. */
  lemma BoldBeforeItalic(x: string)
    requires x != [] && '*' !in x && '_' !in x
    ensures ParseMarkdown("***" + x + "***") == "<em><strong>" + EscapeEach(x) + "</strong></em>"
  {
    EscapeEachAddsNoMarks(x);
    EscapeDelimited("***", x);
    BoldItalicOfEscaped("***" + x + "***", EscapeEach(x));
  }

  // ---------------------------------------------------------------- placeholder collision

  /**
   * The restoring replaces run over the whole text, so underscores in a
   * message can complete a placeholder: in `**a___BOLD_OPEN**` the text's
   * `___BOLD_OPEN` and the first underscores of the closing placeholder form
   * a second opening one, and the closing placeholder is lost.
   */
  lemma PlaceholderCollision()
    ensures ParseMarkdown("**a___BOLD_OPEN**") == "<strong>a<strong>BOLD_CLOSE___"
    ensures ParseMarkdown("**a___BOLD_OPEN**") != "<strong>" + EscapeEach("a___BOLD_OPEN") + "</strong>"
  {
    var x, tail, s, bad := "a___BOLD_OPEN", "BOLD_CLOSE___", "**a___BOLD_OPEN**", "<strong>a<strong>BOLD_CLOSE___";
    CollisionFacts(x, tail, s, bad);
    CollisionAt(x, tail, s, bad);
  }

  /** `PlaceholderCollision` from the character-level facts about its strings. */
  lemma CollisionAt(x: string, tail: string, s: string, bad: string)
    requires s == "**" + x + "**" && x != [] && '*' !in x
    requires '&' !in s && '<' !in s && '>' !in s && '&' !in x && '<' !in x && '>' !in x
    requires BoldOpen + x + BoldClose == BoldOpen + ("a" + (BoldOpen + tail))
    requires "<strong>" + ("a" + ("<strong>" + tail)) == bad
    requires '_' !in "<strong>a<strong>" && |tail| < |BoldOpen| && |tail| < |BoldClose|
    requires bad[9] != ("<strong>" + x + "</strong>")[9]
    ensures ParseMarkdown(s) == bad && bad != "<strong>" + EscapeEach(x) + "</strong>"
  {
    var b := BoldOpen + x + BoldClose;
    CollisionEscape(s);
    BoldPassToken(x);
    CollisionItalic(x);
    CollisionRestore(b, "a", tail, bad);
    Stages(s, s, b, b, bad);
    EscapeEachPlain(x);
  }

  lemma CollisionEscape(s: string)
    requires '&' !in s && '<' !in s && '>' !in s
    ensures EscapeHtml(s) == s
  {
    EscapeHtmlIsPerCharacter(s);
    EscapeEachPlain(s);
  }

  lemma CollisionItalic(x: string)
    requires '*' !in x
    ensures ItalicPass(BoldOpen + x + BoldClose) == BoldOpen + x + BoldClose
  {
    PlaceholdersNoStar(x);
    EmphasisPlain(BoldOpen + x + BoldClose, "*", "<em>", "</em>");
  }

  /** The restoring replaces on an opening placeholder, one character and the text's own placeholder. */
  lemma CollisionRestore(b: string, c: string, tail: string, bad: string)
    requires |c| == 1 && '_' !in c && |tail| < |BoldOpen| && |tail| < |BoldClose|
    requires b == BoldOpen + (c + (BoldOpen + tail)) && bad == "<strong>" + (c + ("<strong>" + tail))
    ensures RestoreBold(b) == bad
  {
    var p := "<strong>" + c + "<strong>";
    OpenTwice(c, tail);
    assert bad == p + tail;
    CloseAbsent(p, tail);
  }

  /** The character-level facts about the counterexample's strings. */
  lemma CollisionFacts(x: string, tail: string, s: string, bad: string)
    requires x == "a___BOLD_OPEN" && tail == "BOLD_CLOSE___"
    requires s == "**a___BOLD_OPEN**" && bad == "<strong>a<strong>BOLD_CLOSE___"
    ensures s == "**" + x + "**" && x != [] && '*' !in x
    ensures '&' !in s && '<' !in s && '>' !in s && '&' !in x && '<' !in x && '>' !in x
    ensures BoldOpen + x + BoldClose == BoldOpen + ("a" + (BoldOpen + tail))
    ensures "<strong>" + ("a" + ("<strong>" + tail)) == bad
    ensures '_' !in "<strong>a<strong>" && |tail| < |BoldOpen| && |tail| < |BoldClose|
    ensures bad[9] != ("<strong>" + x + "</strong>")[9]
  {
    CF1(x, s);
    CF2(x, s);
    CF3(x, tail);
    CF4(tail, bad);
    CF5(x, bad);
  }

  lemma CF1(x: string, s: string)
    requires x == "a___BOLD_OPEN" && s == "**a___BOLD_OPEN**"
    ensures s == "**" + x + "**" && x != [] && '*' !in x
  {
  }

  lemma CF2(x: string, s: string)
    requires x == "a___BOLD_OPEN" && s == "**a___BOLD_OPEN**"
    ensures '&' !in s && '<' !in s && '>' !in s && '&' !in x && '<' !in x && '>' !in x
  {
  }

  lemma CF3(x: string, tail: string)
    requires x == "a___BOLD_OPEN" && tail == "BOLD_CLOSE___"
    ensures BoldOpen + x + BoldClose == BoldOpen + ("a" + (BoldOpen + tail))
  {
  }

  lemma CF4(tail: string, bad: string)
    requires tail == "BOLD_CLOSE___" && bad == "<strong>a<strong>BOLD_CLOSE___"
    ensures "<strong>" + ("a" + ("<strong>" + tail)) == bad
    ensures '_' !in "<strong>a<strong>" && |tail| < |BoldOpen| && |tail| < |BoldClose|
  {
  }

  lemma CF5(x: string, bad: string)
    requires x == "a___BOLD_OPEN" && bad == "<strong>a<strong>BOLD_CLOSE___"
    ensures bad[9] != ("<strong>" + x + "</strong>")[9]
  {
  }

  /** An opening placeholder, one character without `_`, and a second one before a short tail: both are replaced. */
  lemma OpenTwice(c: string, tail: string)
    requires |c| == 1 && '_' !in c && |tail| < |BoldOpen|
    ensures Text.ReplaceAll(BoldOpen + (c + (BoldOpen + tail)), BoldOpen, "<strong>") == "<strong>" + (c + ("<strong>" + tail))
  {
    ReplaceAllFront(c + (BoldOpen + tail), BoldOpen, "<strong>");
    Text.ReplaceAllSkipsPrefix(c, BoldOpen + tail, BoldOpen, "<strong>");
    ReplaceAllFront(tail, BoldOpen, "<strong>");
    ShortNotContains(tail, BoldOpen);
    Text.ReplaceAllAbsent(tail, BoldOpen, "<strong>");
  }

  /** Text without `_` before a tail shorter than the closing placeholder holds no closing placeholder. */
  lemma CloseAbsent(p: string, tail: string)
    requires '_' !in p && |tail| < |BoldClose|
    ensures Text.ReplaceAll(p + tail, BoldClose, "</strong>") == p + tail
  {
    Text.ReplaceAllSkipsPrefix(p, tail, BoldClose, "</strong>");
    ShortNotContains(tail, BoldClose);
    Text.ReplaceAllAbsent(tail, BoldClose, "</strong>");
  }

  /**
   * `parseMarkdown` as evidently intended: the bold pass writes the tags
   * itself. They hold no `*`, so the italic pass leaves them alone as the
   * placeholders were meant to make it, and no text can collide with them.
   */
  function ParseMarkdownIntended(text: string): string {
    if text == [] then [] else ItalicPass(Emphasis(EscapeHtml(text), "**", "<strong>", "</strong>"))
  }

  /** The three stages of `ParseMarkdownIntended`, one fact each. */
  lemma IntendedStages(s: string, e: string, b: string, i: string)
    requires s != [] && EscapeHtml(s) == e && Emphasis(e, "**", "<strong>", "</strong>") == b && ItalicPass(b) == i
    ensures ParseMarkdownIntended(s) == i
  {
  }

  /** The bold pass on a doubly delimited run, for any tags. */
  lemma DoubleToken(y: string, open: string, close: string)
    requires y != [] && '*' !in y
    ensures Emphasis("**" + y + "**", "**", open, close) == open + y + close
  {
    EmphasisToken(y, "**", "**", open, close);
    assert "**"[2..] == [];
    assert open + y + close + [] == open + y + close;
  }

  lemma StrongNoStar(y: string)
    requires '*' !in y
    ensures '*' !in "<strong>" + y + "</strong>"
  {
  }

  /** In the intended rendering `**x**` becomes `<strong>x</strong>` whatever `x` holds besides `*`. */
  lemma IntendedBoldText(x: string)
    requires x != [] && '*' !in x
    ensures ParseMarkdownIntended("**" + x + "**") == "<strong>" + EscapeEach(x) + "</strong>"
  {
    EscapeEachAddsNoMarks(x);
    EscapeDelimited("**", x);
    IntendedBoldOfEscaped("**" + x + "**", EscapeEach(x));
  }

  lemma IntendedBoldOfEscaped(s: string, y: string)
    requires s != [] && y != [] && '*' !in y && EscapeHtml(s) == "**" + y + "**"
    ensures ParseMarkdownIntended(s) == "<strong>" + y + "</strong>"
  {
    var b := "<strong>" + y + "</strong>";
    DoubleToken(y, "<strong>", "</strong>");
    StrongNoStar(y);
    EmphasisPlain(b, "*", "<em>", "</em>");
    IntendedStages(s, "**" + y + "**", b, b);
  }

  /** In the intended rendering `*x*` becomes `<em>x</em>`. */
  lemma IntendedItalicText(x: string)
    requires x != [] && '*' !in x
    ensures ParseMarkdownIntended("*" + x + "*") == "<em>" + EscapeEach(x) + "</em>"
  {
    EscapeEachAddsNoMarks(x);
    EscapeDelimited("*", x);
    IntendedItalicOfEscaped("*" + x + "*", EscapeEach(x));
  }

  lemma IntendedItalicOfEscaped(s: string, y: string)
    requires s != [] && y != [] && '*' !in y && EscapeHtml(s) == "*" + y + "*"
    ensures ParseMarkdownIntended(s) == "<em>" + y + "</em>"
  {
    BoldPassSingle(y, "<strong>", "</strong>");
    ItalicPassToken(y);
    IntendedStages(s, "*" + y + "*", "*" + y + "*", "<em>" + y + "</em>");
  }

  lemma NestedTags(y: string)
    ensures "<em>" + ("<strong>" + y + "</strong>") + "</em>" == "<em><strong>" + y + "</strong></em>"
  {
  }

  /** In the intended rendering `***x***` becomes `<em><strong>x</strong></em>`. */
  lemma IntendedBoldBeforeItalic(x: string)
    requires x != [] && '*' !in x
    ensures ParseMarkdownIntended("***" + x + "***") == "<em><strong>" + EscapeEach(x) + "</strong></em>"
  {
    EscapeEachAddsNoMarks(x);
    EscapeDelimited("***", x);
    IntendedBoldItalicOfEscaped("***" + x + "***", EscapeEach(x));
  }

  lemma IntendedBoldItalicOfEscaped(s: string, y: string)
    requires s != [] && y != [] && '*' !in y && EscapeHtml(s) == "***" + y + "***"
    ensures ParseMarkdownIntended(s) == "<em><strong>" + y + "</strong></em>"
  {
    var inner := "<strong>" + y + "</strong>";
    BoldPassTriple(y, "<strong>", "</strong>");
    StrongNoStar(y);
    ItalicPassToken(inner);
    NestedTags(y);
    IntendedStages(s, "***" + y + "***", "*" + inner + "*", "<em><strong>" + y + "</strong></em>");
  }
}
