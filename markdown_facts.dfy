/** What the markdown converter does with particular shapes of input,
    proved by composing the per-pass lemmas of `Markdown`. */
module MarkdownFacts {
  import opened Text
  import opened Markdown

  /** `s` does not begin with `p`: there is a position where they differ,
      or `s` is too short. */
  lemma MismatchCI(s: string, p: string, k: nat)
    requires k < |p| && (k >= |s| || !CharEqCI(s[k], p[k]))
    ensures !StartsCI(s, p)
  {
  }

  // ---------------------------------------------------------------------
  // Empty and plain input

  /** Empty content renders as nothing: the wrapped `<p></p>` is removed. */
  lemma RenderEmpty()
    ensures Render("") == ""
  {
    assert Inline("") == "";
    assert Breaks("") == "";
    assert "<p>" + "" + "</p>" == "<p></p>";
    assert StartsCI("<p></p>", "<p></p>");
    assert LiteralScan("<p></p>", "<p></p>", "") == "";
  }

  /** The inline passes leave text alone that has none of their trigger
      characters. */
  lemma InlinePlain(t: string)
    requires '#' !in t && '*' !in t && '`' !in t && '[' !in t
    ensures Inline(t) == t
  {
    assert t + [] == t;
    HeaderSkip(t, [], "### ", "<h3>", "</h3>", true);
    HeaderSkip(t, [], "## ", "<h2>", "</h2>", true);
    HeaderSkip(t, [], "# ", "<h1>", "</h1>", true);
    DelimSkip(t, [], "**", "<strong>", "</strong>", false);
    DelimSkip(t, [], "*", "<em>", "</em>", false);
    DelimSkip(t, [], "```", "<pre><code>", "</code></pre>", true);
    DelimSkip(t, [], "`", "<code>", "</code>", false);
    LinkSkip(t, []);
  }

  lemma BreaksPlain(t: string)
    requires '\n' !in t
    ensures Breaks(t) == t
  {
    assert t + [] == t;
    LiteralSkip(t, [], "\n\n", "</p><p>");
    LiteralSkip(t, [], "\n", "<br>");
  }

  lemma Cleanup1Plain(t: string)
    requires t != [] && '<' !in t
    ensures LiteralScan("<p>" + t + "</p>", "<p></p>", "") == "<p>" + t + "</p>"
  {
    var a := "<p>" + t;
    assert a + "</p>" == "<p>" + t + "</p>";
    assert a[1..] == "p>" + t;
    NonLetterCI(t[0], '<');
    MismatchCI(a + "</p>", "<p></p>", 3);
    LiteralChunk(a, "</p>", "<p></p>", "");
    assert "</p>" + [] == "</p>";
    LiteralChunk("</p>", [], "<p></p>", "");
  }

  lemma Cleanup2Plain(t: string)
    requires t != [] && '<' !in t
    ensures DigitScan("<p>" + t + "</p>", "<p><h", ">", "<h", ">") == "<p>" + t + "</p>"
  {
    var a := "<p>" + t;
    assert a + "</p>" == "<p>" + t + "</p>";
    assert a[1..] == "p>" + t;
    NonLetterCI(t[0], '<');
    MismatchCI(a + "</p>", "<p><h", 3);
    DigitChunk(a, "</p>", "<p><h", ">", "<h", ">");
    assert "</p>" + [] == "</p>";
    MismatchCI("</p>", "<p><h", 1);
    DigitChunk("</p>", [], "<p><h", ">", "<h", ">");
  }

  lemma Cleanup3Plain(t: string)
    requires t != [] && '<' !in t
    ensures DigitScan("<p>" + t + "</p>", "</h", "></p>", "</h", ">") == "<p>" + t + "</p>"
  {
    var a := "<p>" + t;
    assert a + "</p>" == "<p>" + t + "</p>";
    assert a[1..] == "p>" + t;
    MismatchCI(a + "</p>", "</h", 1);
    DigitChunk(a, "</p>", "</h", "></p>", "</h", ">");
    assert "</p>" + [] == "</p>";
    MismatchCI("</p>", "</h", 2);
    DigitChunk("</p>", [], "</h", "></p>", "</h", ">");
  }

  lemma Cleanup4Plain(t: string)
    requires t != [] && '<' !in t
    ensures LiteralScan("<p>" + t + "</p>", "<p><pre>", "<pre>") == "<p>" + t + "</p>"
  {
    var a := "<p>" + t;
    assert a + "</p>" == "<p>" + t + "</p>";
    assert a[1..] == "p>" + t;
    assert "</p>" + [] == "</p>";
    NonLetterCI(t[0], '<');
    MismatchCI(a + "</p>", "<p><pre>", 3);
    LiteralChunk(a, "</p>", "<p><pre>", "<pre>");
    LiteralChunk("</p>", [], "<p><pre>", "<pre>");
  }

  lemma Cleanup5Plain(t: string)
    requires t != [] && '<' !in t
    ensures LiteralScan("<p>" + t + "</p>", "</pre></p>", "</pre>") == "<p>" + t + "</p>"
  {
    var a := "<p>" + t;
    assert a + "</p>" == "<p>" + t + "</p>";
    assert a[1..] == "p>" + t;
    assert "</p>" + [] == "</p>";
    MismatchCI(a + "</p>", "</pre></p>", 1);
    LiteralChunk(a, "</p>", "</pre></p>", "</pre>");
    LiteralChunk("</p>", [], "</pre></p>", "</pre>");
  }

  /** The clean-up passes leave a single paragraph alone. */
  lemma CleanupPlain(t: string)
    requires t != [] && '<' !in t
    ensures Cleanup("<p>" + t + "</p>") == "<p>" + t + "</p>"
  {
    Cleanup1Plain(t);
    Cleanup2Plain(t);
    Cleanup3Plain(t);
    Cleanup4Plain(t);
    Cleanup5Plain(t);
  }

  /** Text without markdown or markup characters becomes one paragraph. */
  lemma RenderPlain(t: string)
    requires t != []
    requires '#' !in t && '*' !in t && '`' !in t && '[' !in t && '\n' !in t && '<' !in t
    ensures Render(t) == "<p>" + t + "</p>"
  {
    InlinePlain(t);
    BreaksPlain(t);
    CleanupPlain(t);
  }

  // ---------------------------------------------------------------------
  // Emphasis

  lemma SecondMismatch(s: string, p: string)
    requires 2 <= |p| && 2 <= |s| && s[1] != p[1]
    ensures !StartsWith(s, p)
  {
    if |p| <= |s| {
      assert s[..|p|][1] == s[1];
    }
  }

  /** One character that starts no replaced span. */
  lemma DelimMiss(s: string, d: string, rest: string, open: string, close: string, dotAll: bool)
    requires d != [] && s != [] && rest == s[1..]
    requires !StartsWith(s, d) || FindClose(s[|d|..], d, dotAll).None?
    ensures DelimScan(s, d, open, close, dotAll) == [s[0]] + DelimScan(rest, d, open, close, dotAll)
  {
    assert DelimMatch(s, d, dotAll).NoSpan?;
  }

  /** A span of the first pass holds no trigger of the second, which then
      leaves it alone. */
  lemma SpanThenSkip(d: string, e: string, a: string, open1: string, close1: string,
                     open2: string, close2: string, dotAll1: bool, dotAll2: bool)
    requires d != [] && d[0] !in a
    requires !dotAll1 ==> forall k :: 0 <= k < |a| ==> !IsLineTerminator(a[k])
    requires e != [] && e[0] !in open1 && e[0] !in a && e[0] !in close1
    ensures DelimScan(DelimScan(d + a + d, d, open1, close1, dotAll1), e, open2, close2, dotAll2)
         == open1 + a + close1
  {
    assert d + a + d + [] == d + a + d;
    DelimSpan(d, a, [], open1, close1, dotAll1);
    var r := open1 + a + close1;
    assert r + [] == r;
    DelimSkip(r, [], e, open2, close2, dotAll2);
  }

  /** `**a**` becomes bold, and the italic pass that follows leaves it
      alone. */
  lemma BoldBeforeItalic(a: string)
    requires '*' !in a
    requires forall k :: 0 <= k < |a| ==> !IsLineTerminator(a[k])
    ensures DelimScan(DelimScan("**" + a + "**", "**", "<strong>", "</strong>", false), "*", "<em>", "</em>", false)
         == "<strong>" + a + "</strong>"
  {
    SpanThenSkip("**", "*", a, "<strong>", "</strong>", "<em>", "</em>", false, false);
  }

  /** The bold pass leaves `*a*` alone. */
  lemma BoldMissesSingle(a: string)
    requires a != [] && '*' !in a
    ensures DelimScan("*" + a + "*", "**", "<strong>", "</strong>", false) == "*" + a + "*"
  {
    PairMissesSingle('*', a, "<strong>", "</strong>");
  }

  /** A doubled delimiter character finds nothing in `c a c`. */
  lemma PairMissesSingle(c: char, a: string, open: string, close: string)
    requires a != [] && c !in a
    ensures DelimScan([c] + a + [c], [c, c], open, close, false) == [c] + a + [c]
  {
    var d := [c, c];
    var s := [c] + (a + [c]);
    assert [c] + a + [c] == s;
    assert s[1] == a[0];
    SecondMismatch(s, d);
    DelimMiss(s, d, a + [c], open, close, false);
    DelimSkip(a, [c], d, open, close, false);
    DelimMiss([c], d, [], open, close, false);
  }

  /** A single `*` does not open a bold span, so `*a*` reaches the italic
      pass. */
  lemma ItalicAfterBold(a: string)
    requires a != [] && '*' !in a
    requires forall k :: 0 <= k < |a| ==> !IsLineTerminator(a[k])
    ensures DelimScan(DelimScan("*" + a + "*", "**", "<strong>", "</strong>", false), "*", "<em>", "</em>", false)
         == "<em>" + a + "</em>"
  {
    SingleAfterPair('*', a, "<strong>", "</strong>", "<em>", "</em>");
  }

  /** `c a c` passes the doubled pass and becomes a span of the single
      one. */
  lemma SingleAfterPair(c: char, a: string, open1: string, close1: string, open2: string, close2: string)
    requires a != [] && c !in a
    requires forall k :: 0 <= k < |a| ==> !IsLineTerminator(a[k])
    ensures DelimScan(DelimScan([c] + a + [c], [c, c], open1, close1, false), [c], open2, close2, false)
         == open2 + a + close2
  {
    PairMissesSingle(c, a, open1, close1);
    assert [c] + a + [c] == [c] + a + [c] + [];
    DelimSpan([c], a, [], open2, close2, false);
    assert open2 + a + close2 + [] == open2 + a + close2;
  }

  /** Two stars alone open nothing. */
  lemma BoldPairAlone()
    ensures DelimScan("**", "**", "<strong>", "</strong>", false) == "**"
  {
    PairAlone('*', "<strong>", "</strong>");
  }

  /** A doubled delimiter character alone opens nothing. */
  lemma PairAlone(c: char, open: string, close: string)
    ensures DelimScan([c, c], [c, c], open, close, false) == [c, c]
  {
    var d := [c, c];
    assert FindClose([], d, false).None?;
    assert d[2..] == [] && d[1..] == [c];
    DelimMiss(d, d, [c], open, close, false);
    DelimMiss([c], d, [], open, close, false);
  }

  /** Bold does not reach across a line break: the pattern's `.` stops at
      line terminators, so the text is left as it is. */
  lemma BoldStopsAtLineEnd(a: string)
    requires '*' !in a
    requires exists k :: 0 <= k < |a| && IsLineTerminator(a[k])
    ensures DelimScan("**" + a + "**", "**", "<strong>", "</strong>", false) == "**" + a + "**"
  {
    PairStopsAtLineEnd('*', a, "<strong>", "</strong>");
  }

  /** A doubled delimiter character opens no span across a line break. */
  lemma PairStopsAtLineEnd(c: char, a: string, open: string, close: string)
    requires c !in a
    requires exists k :: 0 <= k < |a| && IsLineTerminator(a[k])
    ensures DelimScan([c, c] + a + [c, c], [c, c], open, close, false) == [c, c] + a + [c, c]
  {
    var d := [c, c];
    var s1 := [c] + (a + d);
    var s := [c] + s1;
    assert d + a + d == s;
    assert s[2..] == a + d;
    FindCloseBlocked(a, d, d);
    DelimMiss(s, d, s1, open, close, false);
    assert s1[1] == a[0];
    SecondMismatch(s1, d);
    DelimMiss(s1, d, a + d, open, close, false);
    DelimSkip(a, d, d, open, close, false);
    PairAlone(c, open, close);
  }

  // ---------------------------------------------------------------------
  // Code

  /** A fenced block may span lines, and the inline-code pass after it
      leaves the block alone. */
  lemma FencedBeforeInline(a: string)
    requires '`' !in a
    ensures DelimScan(DelimScan("```" + a + "```", "```", "<pre><code>", "</code></pre>", true), "`", "<code>", "</code>", false)
         == "<pre><code>" + a + "</code></pre>"
  {
    SpanThenSkip("```", "`", a, "<pre><code>", "</code></pre>", "<code>", "</code>", true, false);
  }

  // ---------------------------------------------------------------------
  // A whole document: a heading, a blank line, a paragraph ending in bold

  predicate PlainChar(c: char)
  {
    c != '#' && c != '*' && c != '`' && c != '[' && c != '<' && !IsLineTerminator(c)
  }

  /** Non-empty text that no pass reacts to. */
  predicate Plain(t: string)
  {
    t != [] && forall k :: 0 <= k < |t| ==> PlainChar(t[k])
  }

  lemma PlainFacts(t: string)
    requires Plain(t)
    ensures '#' !in t && '*' !in t && '`' !in t && '[' !in t && '<' !in t && '\n' !in t
    ensures forall k :: 0 <= k < |t| ==> !IsLineTerminator(t[k])
  {
    forall c | c in t
      ensures PlainChar(c)
    {
      var k :| 0 <= k < |t| && t[k] == c;
    }
  }

  /** `# h`, a blank line, then `w**b**`. */
  function Doc(h: string, w: string, b: string): string
  {
    "# " + (h + ("\n\n" + (w + ("**" + (b + "**")))))
  }

  lemma DocDeeperHeadings(h: string, w: string, b: string)
    requires Plain(h) && Plain(w) && Plain(b)
    ensures HeaderScan(Doc(h, w, b), "### ", "<h3>", "</h3>", true) == Doc(h, w, b)
    ensures HeaderScan(Doc(h, w, b), "## ", "<h2>", "</h2>", true) == Doc(h, w, b)
  {
    PlainFacts(h);
    PlainFacts(w);
    PlainFacts(b);
    var tail := " " + (h + ("\n\n" + (w + ("**" + (b + "**")))));
    var s := "#" + tail;
    assert Doc(h, w, b) == s && s[1..] == tail && tail + [] == tail;
    assert '#' !in tail;
    SecondMismatch(s, "### ");
    HeaderSkip(tail, [], "### ", "<h3>", "</h3>", false);
    SecondMismatch(s, "## ");
    HeaderSkip(tail, [], "## ", "<h2>", "</h2>", false);
  }

  /** The body under the heading holds no heading marker. */
  lemma HeadingRest(w: string, b: string)
    requires Plain(w) && Plain(b)
    ensures HeaderScan("\n\n" + (w + ("**" + (b + "**"))), "# ", "<h1>", "</h1>", false)
         == "\n\n" + (w + ("**" + (b + "**")))
  {
    PlainFacts(w);
    PlainFacts(b);
    var rest := "\n\n" + (w + ("**" + (b + "**")));
    assert rest + [] == rest;
    assert '#' !in rest;
    HeaderSkip(rest, [], "# ", "<h1>", "</h1>", false);
  }

  /** A plain first line after `# ` becomes an `<h1>` element. */
  lemma HeadingOf(h: string, rest: string)
    requires Plain(h) && (rest == [] || IsLineTerminator(rest[0]))
    ensures HeaderScan("# " + (h + rest), "# ", "<h1>", "</h1>", true)
         == "<h1>" + (h + ("</h1>" + HeaderScan(rest, "# ", "<h1>", "</h1>", false)))
  {
    PlainFacts(h);
    assert "# " + (h + rest) == "# " + h + rest;
    HeaderLine("# ", h, rest, "<h1>", "</h1>");
  }

  lemma DocHeading(h: string, w: string, b: string)
    requires Plain(h) && Plain(w) && Plain(b)
    ensures HeaderScan(Doc(h, w, b), "# ", "<h1>", "</h1>", true)
         == "<h1>" + (h + ("</h1>" + ("\n\n" + (w + ("**" + (b + "**"))))))
  {
    var rest := "\n\n" + (w + ("**" + (b + "**")));
    assert rest[0] == '\n';
    HeadingOf(h, rest);
    HeadingRest(w, b);
  }

  /** `**b**` becomes a `<strong>` element. */
  lemma BoldSpan(b: string)
    requires Plain(b)
    ensures DelimScan("**" + (b + "**"), "**", "<strong>", "</strong>", false) == "<strong>" + (b + "</strong>")
  {
    PlainFacts(b);
    assert "**" + (b + "**") == "**" + b + "**" + [];
    DelimSpan("**", b, [], "<strong>", "</strong>", false);
    assert "<strong>" + b + "</strong>" + [] == "<strong>" + (b + "</strong>");
  }

  /** The paragraph after the blank line gets its bold span. */
  lemma BoldBody(w: string, b: string)
    requires Plain(w) && Plain(b)
    ensures DelimScan("\n\n" + (w + ("**" + (b + "**"))), "**", "<strong>", "</strong>", false)
         == "\n\n" + (w + ("<strong>" + (b + "</strong>")))
  {
    PlainFacts(w);
    var bold := "**" + (b + "**");
    BoldSpan(b);
    DelimSkip(w, bold, "**", "<strong>", "</strong>", false);
    DelimSkip("\n\n", w + bold, "**", "<strong>", "</strong>", false);
  }

  /** The heading element holds no `*`. */
  lemma HeadingNoBold(h: string, x: string)
    requires Plain(h)
    ensures DelimScan("<h1>" + (h + ("</h1>" + x)), "**", "<strong>", "</strong>", false)
         == "<h1>" + (h + ("</h1>" + DelimScan(x, "**", "<strong>", "</strong>", false)))
  {
    PlainFacts(h);
    DelimSkip("</h1>", x, "**", "<strong>", "</strong>", false);
    DelimSkip(h, "</h1>" + x, "**", "<strong>", "</strong>", false);
    DelimSkip("<h1>", h + ("</h1>" + x), "**", "<strong>", "</strong>", false);
  }

  lemma DocBold(h: string, w: string, b: string)
    requires Plain(h) && Plain(w) && Plain(b)
    ensures DelimScan("<h1>" + (h + ("</h1>" + ("\n\n" + (w + ("**" + (b + "**")))))), "**", "<strong>", "</strong>", false)
         == "<h1>" + (h + ("</h1>" + ("\n\n" + (w + ("<strong>" + (b + "</strong>"))))))
  {
    HeadingNoBold(h, "\n\n" + (w + ("**" + (b + "**"))));
    BoldBody(w, b);
  }

  /** After the bold pass nothing is left for the later inline passes. */
  lemma DocMarked(h: string, w: string, b: string)
    requires Plain(h) && Plain(w) && Plain(b)
    ensures var t4 := "<h1>" + (h + ("</h1>" + ("\n\n" + (w + ("<strong>" + (b + "</strong>"))))));
            '*' !in t4 && '`' !in t4 && '[' !in t4
  {
    PlainFacts(h);
    PlainFacts(w);
    PlainFacts(b);
  }

  lemma DocInline(h: string, w: string, b: string)
    requires Plain(h) && Plain(w) && Plain(b)
    ensures Inline(Doc(h, w, b)) == "<h1>" + (h + ("</h1>" + ("\n\n" + (w + ("<strong>" + (b + "</strong>"))))))
  {
    var doc := Doc(h, w, b);
    DocDeeperHeadings(h, w, b);
    DocHeading(h, w, b);
    var t3 := "<h1>" + (h + ("</h1>" + ("\n\n" + (w + ("**" + (b + "**"))))));
    assert Headings(doc) == t3;
    DocBold(h, w, b);
    var t4 := "<h1>" + (h + ("</h1>" + ("\n\n" + (w + ("<strong>" + (b + "</strong>"))))));
    DocMarked(h, w, b);
    assert t4 + [] == t4;
    DelimSkip(t4, [], "*", "<em>", "</em>", false);
    assert Emphasis(t3) == t4;
    DelimSkip(t4, [], "```", "<pre><code>", "</code></pre>", true);
    DelimSkip(t4, [], "`", "<code>", "</code>", false);
    assert Code(t4) == t4;
    LinkSkip(t4, []);
  }

  lemma DocBreaks(h: string, w: string, b: string)
    requires Plain(h) && Plain(w) && Plain(b)
    ensures Breaks("<h1>" + (h + ("</h1>" + ("\n\n" + (w + ("<strong>" + (b + "</strong>")))))))
         == "<h1>" + (h + ("</h1>" + ("</p><p>" + (w + ("<strong>" + (b + "</strong>"))))))
  {
    PlainFacts(h);
    PlainFacts(w);
    PlainFacts(b);
    var pat := "\n\n";
    var rep := "</p><p>";
    var body := w + ("<strong>" + (b + "</strong>"));
    assert '\n' !in body;
    assert body + [] == body;
    LiteralSkip(body, [], pat, rep);
    var x1 := pat + body;
    assert StartsCI(x1, pat);
    assert x1[2..] == body;
    assert LiteralScan(x1, pat, rep) == rep + body;
    var x2 := "</h1>" + x1;
    LiteralSkip("</h1>", x1, pat, rep);
    var x3 := h + x2;
    LiteralSkip(h, x2, pat, rep);
    assert LiteralScan(x3, pat, rep) == h + ("</h1>" + (rep + body));
    var x4 := "<h1>" + x3;
    LiteralSkip("<h1>", x3, pat, rep);
    var t9 := "<h1>" + (h + ("</h1>" + (rep + body)));
    assert LiteralScan(x4, pat, rep) == t9;
    assert t9 + [] == t9;
    assert '\n' !in t9;
    LiteralSkip(t9, [], "\n", "<br>");
  }

  /** Seven pieces, regrouped to the right. */
  lemma Nest7(a1: string, a2: string, a3: string, a4: string, a5: string, a6: string, a7: string)
    ensures a1 + a2 + a3 + a4 + a5 + a6 + a7 == a1 + (a2 + (a3 + (a4 + (a5 + (a6 + a7)))))
  {
    Assoc(a5, a6, a7);
    Assoc(a4, a5, a6 + a7);
    Assoc(a3, a4, a5 + (a6 + a7));
    Assoc(a2, a3, a4 + (a5 + (a6 + a7)));
    Assoc(a1, a2, a3 + (a4 + (a5 + (a6 + a7))));
    Assoc(a1 + a2, a3, a4 + (a5 + (a6 + a7)));
    Assoc(a1 + a2 + a3, a4, a5 + (a6 + a7));
    Assoc(a1 + a2 + a3 + a4, a5, a6 + a7);
    Assoc(a1 + a2 + a3 + a4 + a5, a6, a7);
  }

  /** The paragraph `<p>w<strong>b</strong></p>`, nested to the right. */
  function Para(w: string, b: string): string
  {
    "<p>" + (w + ("<strong>" + (b + ("</strong>" + "</p>"))))
  }

  /** `<h1>h</h1>` followed by `rest`, nested to the right. */
  function Heading1(h: string, rest: string): string
  {
    "<h1>" + (h + ("</h1>" + rest))
  }

  /** A tag that is not an occurrence; its other characters are not `<`. */
  lemma TagLit(tag: string, rest: string, pat: string, rep: string, k: nat)
    requires pat != [] && pat[0] == '<' && tag != [] && '<' !in tag[1..]
    requires k < |pat| && (k >= |tag + rest| || !CharEqCI((tag + rest)[k], pat[k]))
    ensures LiteralScan(tag + rest, pat, rep) == tag + LiteralScan(rest, pat, rep)
  {
    MismatchCI(tag + rest, pat, k);
    LiteralChunk(tag, rest, pat, rep);
  }

  lemma TagDigit(tag: string, rest: string, pre: string, post: string, repPre: string, repPost: string, k: nat)
    requires pre != [] && pre[0] == '<' && tag != [] && '<' !in tag[1..]
    requires k < |pre| && (k >= |tag + rest| || !CharEqCI((tag + rest)[k], pre[k]))
    ensures DigitScan(tag + rest, pre, post, repPre, repPost) == tag + DigitScan(rest, pre, post, repPre, repPost)
  {
    MismatchCI(tag + rest, pre, k);
    DigitChunk(tag, rest, pre, post, repPre, repPost);
  }

  /** The paragraph holds no `<p><…` pattern such as an empty paragraph
      or `<p><pre>`. */
  lemma ParaNoParaTag(w: string, b: string, pat: string, rep: string)
    requires Plain(w) && Plain(b)
    requires |pat| > 4 && pat[0] == '<' && pat[1] == 'p' && pat[3] == '<'
    ensures LiteralScan(Para(w, b), pat, rep) == Para(w, b)
  {
    PlainFacts(w);
    PlainFacts(b);
    NonLetterCI(w[0], '<');
    var x4 := "</p>";
    var x3 := "</strong>" + x4;
    var x2 := b + x3;
    var x1 := "<strong>" + x2;
    var x0 := w + x1;
    assert x4 + [] == x4;
    assert Para(w, b) == "<p>" + x0;
    assert ("<p>" + x0)[3] == w[0];
    TagLit(x4, [], pat, rep, 4);
    TagLit("</strong>", x4, pat, rep, 1);
    LiteralSkip(b, x3, pat, rep);
    TagLit("<strong>", x2, pat, rep, 1);
    LiteralSkip(w, x1, pat, rep);
    TagLit("<p>", x0, pat, rep, 3);
  }

  /** The paragraph holds no `</pre></p>`. */
  lemma ParaNoPreClose(w: string, b: string)
    requires Plain(w) && Plain(b)
    ensures LiteralScan(Para(w, b), "</pre></p>", "</pre>") == Para(w, b)
  {
    PlainFacts(w);
    PlainFacts(b);
    NonLetterCI(w[0], '<');
    var x4 := "</p>";
    var x3 := "</strong>" + x4;
    var x2 := b + x3;
    var x1 := "<strong>" + x2;
    var x0 := w + x1;
    assert x4 + [] == x4;
    assert Para(w, b) == "<p>" + x0;
    assert ("<p>" + x0)[3] == w[0];
    TagLit(x4, [], "</pre></p>", "</pre>", 4);
    TagLit("</strong>", x4, "</pre></p>", "</pre>", 2);
    LiteralSkip(b, x3, "</pre></p>", "</pre>");
    TagLit("<strong>", x2, "</pre></p>", "</pre>", 1);
    LiteralSkip(w, x1, "</pre></p>", "</pre>");
    TagLit("<p>", x0, "</pre></p>", "</pre>", 1);
  }

  /** The paragraph holds no `<p><h` digit `>`. */
  lemma ParaNoHeadingOpen(w: string, b: string)
    requires Plain(w) && Plain(b)
    ensures DigitScan(Para(w, b), "<p><h", ">", "<h", ">") == Para(w, b)
  {
    PlainFacts(w);
    PlainFacts(b);
    NonLetterCI(w[0], '<');
    var x4 := "</p>";
    var x3 := "</strong>" + x4;
    var x2 := b + x3;
    var x1 := "<strong>" + x2;
    var x0 := w + x1;
    assert x4 + [] == x4;
    assert Para(w, b) == "<p>" + x0;
    assert ("<p>" + x0)[3] == w[0];
    TagDigit(x4, [], "<p><h", ">", "<h", ">", 1);
    TagDigit("</strong>", x4, "<p><h", ">", "<h", ">", 1);
    DigitSkip(b, x3, "<p><h", ">", "<h", ">");
    TagDigit("<strong>", x2, "<p><h", ">", "<h", ">", 1);
    DigitSkip(w, x1, "<p><h", ">", "<h", ">");
    TagDigit("<p>", x0, "<p><h", ">", "<h", ">", 3);
  }

  /** The paragraph holds no `</h` digit `></p>`. */
  lemma ParaNoHeadingClose(w: string, b: string)
    requires Plain(w) && Plain(b)
    ensures DigitScan(Para(w, b), "</h", "></p>", "</h", ">") == Para(w, b)
  {
    PlainFacts(w);
    PlainFacts(b);
    NonLetterCI(w[0], '<');
    var x4 := "</p>";
    var x3 := "</strong>" + x4;
    var x2 := b + x3;
    var x1 := "<strong>" + x2;
    var x0 := w + x1;
    assert x4 + [] == x4;
    assert Para(w, b) == "<p>" + x0;
    assert ("<p>" + x0)[3] == w[0];
    TagDigit(x4, [], "</h", "></p>", "</h", ">", 2);
    TagDigit("</strong>", x4, "</h", "></p>", "</h", ">", 2);
    DigitSkip(b, x3, "</h", "></p>", "</h", ">");
    TagDigit("<strong>", x2, "</h", "></p>", "</h", ">", 1);
    DigitSkip(w, x1, "</h", "></p>", "</h", ">");
    TagDigit("<p>", x0, "</h", "></p>", "</h", ">", 1);
  }

  /** The heading element holds no `<p></p>`. */
  lemma HeadingNoEmpty(h: string, r: string)
    requires Plain(h)
    ensures LiteralScan(Heading1(h, r), "<p></p>", "") == Heading1(h, LiteralScan(r, "<p></p>", ""))
  {
    PlainFacts(h);
    var pat := "<p></p>";
    TagLit("</h1>", r, pat, "", 1);
    LiteralSkip(h, "</h1>" + r, pat, "");
    TagLit("<h1>", h + ("</h1>" + r), pat, "", 1);
  }

  /** Nor does the paragraph's closing tag ahead of it. */
  lemma ClosedParaNoEmpty(w: string, b: string)
    requires Plain(w) && Plain(b)
    ensures LiteralScan("</p>" + Para(w, b), "<p></p>", "") == "</p>" + Para(w, b)
  {
    ParaNoParaTag(w, b, "<p></p>", "");
    assert ("</p>" + Para(w, b))[1] == '/';
    TagLit("</p>", Para(w, b), "<p></p>", "", 1);
  }

  /** A wrapped heading followed by clean text stays clean. */
  lemma WrappedHeadingNoEmpty(h: string, r: string)
    requires Plain(h) && LiteralScan(r, "<p></p>", "") == r
    ensures LiteralScan("<p>" + Heading1(h, r), "<p></p>", "") == "<p>" + Heading1(h, r)
  {
    HeadingNoEmpty(h, r);
    assert ("<p>" + Heading1(h, r))[4] == 'h';
    TagLit("<p>", Heading1(h, r), "<p></p>", "", 4);
  }

  /** The empty-paragraph pass finds nothing in the wrapped document. */
  lemma DocCleanup1(h: string, w: string, b: string)
    requires Plain(h) && Plain(w) && Plain(b)
    ensures LiteralScan("<p>" + Heading1(h, "</p>" + Para(w, b)), "<p></p>", "")
         == "<p>" + Heading1(h, "</p>" + Para(w, b))
  {
    ClosedParaNoEmpty(w, b);
    WrappedHeadingNoEmpty(h, "</p>" + Para(w, b));
  }

  /** `<p><h1>` becomes `<h1>`. */
  lemma OpenHeadingHit(x: string)
    ensures DigitScan("<p>" + ("<h1>" + x), "<p><h", ">", "<h", ">") == "<h1>" + DigitScan(x, "<p><h", ">", "<h", ">")
  {
    var pre := "<p><h";
    var y := "<h1>" + x;
    var s := "<p>" + y;
    assert s[3..] == y && y[4..] == x && s[7..] == s[3..][4..];
    assert s[5] == '1' && s[6] == '>';
    assert StartsCI(s, pre);
    assert StartsCI(s[6..], ">");
    DigitHitAt(s, pre, ">", x, "<h", ">");
    assert "<h" + [s[5]] + ">" == "<h1>";
  }

  /** The heading's opening tag loses its paragraph. */
  lemma DocCleanup2(h: string, w: string, b: string)
    requires Plain(h) && Plain(w) && Plain(b)
    ensures DigitScan("<p>" + Heading1(h, "</p>" + Para(w, b)), "<p><h", ">", "<h", ">")
         == Heading1(h, "</p>" + Para(w, b))
  {
    PlainFacts(h);
    var pre := "<p><h";
    var r := "</p>" + Para(w, b);
    ParaNoHeadingOpen(w, b);
    TagDigit("</p>", Para(w, b), pre, ">", "<h", ">", 1);
    TagDigit("</h1>", r, pre, ">", "<h", ">", 1);
    DigitSkip(h, "</h1>" + r, pre, ">", "<h", ">");
    OpenHeadingHit(h + ("</h1>" + r));
  }

  /** `</h1></p>` becomes `</h1>`. */
  lemma CloseHeadingHit(x: string)
    ensures DigitScan("</h1>" + ("</p>" + x), "</h", "></p>", "</h", ">") == "</h1>" + DigitScan(x, "</h", "></p>", "</h", ">")
  {
    var pre := "</h";
    var post := "></p>";
    var z := "</p>" + x;
    var t := "</h1>" + z;
    assert t[5..] == z && z[4..] == x && t[9..] == t[5..][4..];
    assert t[3] == '1' && t[4] == '>' && t[5] == '<' && t[6] == '/' && t[7] == 'p' && t[8] == '>';
    assert StartsCI(t, pre);
    assert StartsCI(t[4..], post);
    DigitHitAt(t, pre, post, x, "</h", ">");
    assert "</h" + [t[3]] + ">" == "</h1>";
  }

  /** The heading's closing tag loses its paragraph. */
  lemma DocCleanup3(h: string, w: string, b: string)
    requires Plain(h) && Plain(w) && Plain(b)
    ensures DigitScan(Heading1(h, "</p>" + Para(w, b)), "</h", "></p>", "</h", ">")
         == Heading1(h, Para(w, b))
  {
    PlainFacts(h);
    var pre := "</h";
    var post := "></p>";
    var t := "</h1>" + ("</p>" + Para(w, b));
    ParaNoHeadingClose(w, b);
    CloseHeadingHit(Para(w, b));
    DigitSkip(h, t, pre, post, "</h", ">");
    TagDigit("<h1>", h + t, pre, post, "</h", ">", 1);
  }

  /** The `<p><pre>` pass finds nothing. */
  lemma DocCleanup4(h: string, w: string, b: string)
    requires Plain(h) && Plain(w) && Plain(b)
    ensures LiteralScan(Heading1(h, Para(w, b)), "<p><pre>", "<pre>") == Heading1(h, Para(w, b))
  {
    PlainFacts(h);
    var r := Para(w, b);
    ParaNoParaTag(w, b, "<p><pre>", "<pre>");
    TagLit("</h1>", r, "<p><pre>", "<pre>", 1);
    LiteralSkip(h, "</h1>" + r, "<p><pre>", "<pre>");
    TagLit("<h1>", h + ("</h1>" + r), "<p><pre>", "<pre>", 1);
  }

  /** The `</pre></p>` pass finds nothing. */
  lemma DocCleanup5(h: string, w: string, b: string)
    requires Plain(h) && Plain(w) && Plain(b)
    ensures LiteralScan(Heading1(h, Para(w, b)), "</pre></p>", "</pre>") == Heading1(h, Para(w, b))
  {
    PlainFacts(h);
    var r := Para(w, b);
    ParaNoPreClose(w, b);
    TagLit("</h1>", r, "</pre></p>", "</pre>", 2);
    LiteralSkip(h, "</h1>" + r, "</pre></p>", "</pre>");
    TagLit("<h1>", h + ("</h1>" + r), "</pre></p>", "</pre>", 1);
  }

  lemma DocCleanup(h: string, w: string, b: string)
    requires Plain(h) && Plain(w) && Plain(b)
    ensures Cleanup("<p>" + Heading1(h, "</p>" + Para(w, b))) == Heading1(h, Para(w, b))
  {
    DocCleanup1(h, w, b);
    DocCleanup2(h, w, b);
    DocCleanup3(h, w, b);
    DocCleanup4(h, w, b);
    DocCleanup5(h, w, b);
  }

  /** The wrapped text after the line-break passes, regrouped. */
  lemma DocWrapped(h: string, w: string, b: string)
    ensures "<p>" + ("<h1>" + (h + ("</h1>" + ("</p><p>" + (w + ("<strong>" + (b + "</strong>"))))))) + "</p>"
         == "<p>" + Heading1(h, "</p>" + Para(w, b))
  {
    var e := "</p>";
    var x6 := b + "</strong>";
    var x5 := "<strong>" + x6;
    var x4 := w + x5;
    var x3 := "</p><p>" + x4;
    var x2 := "</h1>" + x3;
    var x1 := h + x2;
    var x0 := "<h1>" + x1;
    Assoc("<p>", x0, e);
    Assoc("<h1>", x1, e);
    Assoc(h, x2, e);
    Assoc("</h1>", x3, e);
    Assoc("</p><p>", x4, e);
    Assoc(w, x5, e);
    Assoc("<strong>", x6, e);
    Assoc(b, "</strong>", e);
    assert "</p><p>" == "</p>" + "<p>";
    Assoc("</p>", "<p>", x4 + e);
  }

  /** The expected output, regrouped. */
  lemma DocExpected(h: string, w: string, b: string)
    ensures Heading1(h, Para(w, b)) == "<h1>" + h + "</h1><p>" + w + "<strong>" + b + "</strong></p>"
  {
    Nest7("<h1>", h, "</h1><p>", w, "<strong>", b, "</strong></p>");
    var q := w + ("<strong>" + (b + ("</strong>" + "</p>")));
    assert "</h1><p>" == "</h1>" + "<p>";
    assert "</strong></p>" == "</strong>" + "</p>";
    Assoc("</h1>", "<p>", q);
  }

  /** A heading line, a blank line and a paragraph ending in bold text: the
      heading stands outside any paragraph, the blank line opens the
      paragraph, and the bold span is converted. */
  lemma RenderHeadingAndParagraph(h: string, w: string, b: string)
    requires Plain(h) && Plain(w) && Plain(b)
    ensures Render("# " + h + "\n\n" + w + "**" + b + "**")
         == "<h1>" + h + "</h1><p>" + w + "<strong>" + b + "</strong></p>"
  {
    Nest7("# ", h, "\n\n", w, "**", b, "**");
    DocInline(h, w, b);
    DocBreaks(h, w, b);
    DocWrapped(h, w, b);
    DocCleanup(h, w, b);
    DocExpected(h, w, b);
  }

  // ---------------------------------------------------------------------
  // A whole fenced block

  /** Headings and emphasis leave the block alone. */
  lemma FenceUnmarked(a: string)
    requires Plain(a)
    ensures Emphasis(Headings("```" + (a + "```"))) == "```" + (a + "```")
  {
    PlainFacts(a);
    var s := "```" + (a + "```");
    assert '#' !in s && '*' !in s;
    assert s + [] == s;
    HeaderSkip(s, [], "### ", "<h3>", "</h3>", true);
    HeaderSkip(s, [], "## ", "<h2>", "</h2>", true);
    HeaderSkip(s, [], "# ", "<h1>", "</h1>", true);
    DelimSkip(s, [], "**", "<strong>", "</strong>", false);
    DelimSkip(s, [], "*", "<em>", "</em>", false);
  }

  /** The code passes turn the fences into `<pre><code>`. */
  lemma FenceCode(a: string)
    requires Plain(a)
    ensures Code("```" + (a + "```")) == "<pre><code>" + (a + "</code></pre>")
  {
    PlainFacts(a);
    Assoc("```", a, "```");
    FencedBeforeInline(a);
    Assoc("<pre><code>", a, "</code></pre>");
  }

  /** The converted block holds no link. */
  lemma FenceNoLinks(a: string)
    requires Plain(a)
    ensures LinkScan("<pre><code>" + (a + "</code></pre>")) == "<pre><code>" + (a + "</code></pre>")
  {
    PlainFacts(a);
    var f := "<pre><code>" + (a + "</code></pre>");
    assert '[' !in f;
    assert f + [] == f;
    LinkSkip(f, []);
  }

  /** The block body after the inline passes. */
  lemma FenceInline(a: string)
    requires Plain(a)
    ensures Inline("```" + (a + "```")) == "<pre><code>" + (a + "</code></pre>")
  {
    FenceUnmarked(a);
    FenceCode(a);
    FenceNoLinks(a);
  }

  /** The wrapped block, nested to the right. */
  function FenceWrapped(a: string): string
  {
    "<p>" + ("<pre>" + ("<code>" + (a + ("</code>" + ("</pre>" + "</p>")))))
  }

  lemma FenceRegroup(a: string)
    ensures "<p>" + ("<pre><code>" + (a + "</code></pre>")) + "</p>" == FenceWrapped(a)
  {
    var e := "</p>";
    Assoc("<p>", "<pre><code>" + (a + "</code></pre>"), e);
    Assoc("<pre><code>", a + "</code></pre>", e);
    Assoc(a, "</code></pre>", e);
    assert "</code></pre>" == "</code>" + "</pre>";
    Assoc("</code>", "</pre>", e);
    assert "<pre><code>" == "<pre>" + "<code>";
    Assoc("<pre>", "<code>", a + ("</code>" + ("</pre>" + e)));
  }

  /** The block from its `<code>` tag on. */
  function FenceBody(a: string): string
  {
    "<code>" + (a + ("</code>" + ("</pre>" + "</p>")))
  }

  lemma FenceBodyNoEmpty(a: string)
    requires Plain(a)
    ensures LiteralScan(FenceBody(a), "<p></p>", "") == FenceBody(a)
  {
    PlainFacts(a);
    var x4 := "</p>";
    var x3 := "</pre>" + x4;
    var x2 := "</code>" + x3;
    assert x4 + [] == x4;
    TagLit(x4, [], "<p></p>", "", 4);
    TagLit("</pre>", x4, "<p></p>", "", 1);
    TagLit("</code>", x3, "<p></p>", "", 1);
    LiteralSkip(a, x2, "<p></p>", "");
    TagLit("<code>", a + x2, "<p></p>", "", 1);
  }

  lemma FenceBodyNoHeadingOpen(a: string)
    requires Plain(a)
    ensures DigitScan(FenceBody(a), "<p><h", ">", "<h", ">") == FenceBody(a)
  {
    PlainFacts(a);
    var x4 := "</p>";
    var x3 := "</pre>" + x4;
    var x2 := "</code>" + x3;
    assert x4 + [] == x4;
    TagDigit(x4, [], "<p><h", ">", "<h", ">", 1);
    TagDigit("</pre>", x4, "<p><h", ">", "<h", ">", 1);
    TagDigit("</code>", x3, "<p><h", ">", "<h", ">", 1);
    DigitSkip(a, x2, "<p><h", ">", "<h", ">");
    TagDigit("<code>", a + x2, "<p><h", ">", "<h", ">", 1);
  }

  lemma FenceBodyNoHeadingClose(a: string)
    requires Plain(a)
    ensures DigitScan(FenceBody(a), "</h", "></p>", "</h", ">") == FenceBody(a)
  {
    PlainFacts(a);
    var x4 := "</p>";
    var x3 := "</pre>" + x4;
    var x2 := "</code>" + x3;
    assert x4 + [] == x4;
    TagDigit(x4, [], "</h", "></p>", "</h", ">", 2);
    TagDigit("</pre>", x4, "</h", "></p>", "</h", ">", 2);
    TagDigit("</code>", x3, "</h", "></p>", "</h", ">", 2);
    DigitSkip(a, x2, "</h", "></p>", "</h", ">");
    TagDigit("<code>", a + x2, "</h", "></p>", "</h", ">", 1);
  }

  lemma FenceBodyNoPreOpen(a: string)
    requires Plain(a)
    ensures LiteralScan(FenceBody(a), "<p><pre>", "<pre>") == FenceBody(a)
  {
    PlainFacts(a);
    var pat := "<p><pre>";
    var x4 := "</p>";
    var x3 := "</pre>" + x4;
    var x2 := "</code>" + x3;
    assert x4 + [] == x4;
    TagLit(x4, [], pat, "<pre>", 4);
    TagLit("</pre>", x4, pat, "<pre>", 1);
    TagLit("</code>", x3, pat, "<pre>", 1);
    LiteralSkip(a, x2, pat, "<pre>");
    TagLit("<code>", a + x2, pat, "<pre>", 1);
  }

  /** The empty-paragraph pass leaves the wrapped block alone. */
  lemma FenceCleanup1(a: string)
    requires Plain(a)
    ensures LiteralScan(FenceWrapped(a), "<p></p>", "") == FenceWrapped(a)
  {
    var x0 := FenceBody(a);
    FenceBodyNoEmpty(a);
    TagLit("<pre>", x0, "<p></p>", "", 2);
    TagLit("<p>", "<pre>" + x0, "<p></p>", "", 4);
  }

  /** So does the pass that unwraps opening heading tags. */
  lemma FenceCleanup2(a: string)
    requires Plain(a)
    ensures DigitScan(FenceWrapped(a), "<p><h", ">", "<h", ">") == FenceWrapped(a)
  {
    var x0 := FenceBody(a);
    FenceBodyNoHeadingOpen(a);
    TagDigit("<pre>", x0, "<p><h", ">", "<h", ">", 2);
    TagDigit("<p>", "<pre>" + x0, "<p><h", ">", "<h", ">", 4);
  }

  /** And the pass that unwraps closing heading tags. */
  lemma FenceCleanup3(a: string)
    requires Plain(a)
    ensures DigitScan(FenceWrapped(a), "</h", "></p>", "</h", ">") == FenceWrapped(a)
  {
    var x0 := FenceBody(a);
    FenceBodyNoHeadingClose(a);
    TagDigit("<pre>", x0, "</h", "></p>", "</h", ">", 1);
    TagDigit("<p>", "<pre>" + x0, "</h", "></p>", "</h", ">", 1);
  }

  /** `<p><pre>` before any text. */
  lemma PreOpenHit(x: string)
    ensures LiteralScan("<p>" + ("<pre>" + x), "<p><pre>", "<pre>") == "<pre>" + LiteralScan(x, "<p><pre>", "<pre>")
  {
    var pat := "<p><pre>";
    var y := "<pre>" + x;
    var s := "<p>" + y;
    assert s[3..] == y && y[5..] == x && s[8..] == s[3..][5..];
    assert StartsCI(s, pat);
    LiteralHitAt(s, pat, "<pre>", x);
  }

  /** `<p><pre>` loses its paragraph tag. */
  lemma FenceCleanup4(a: string)
    requires Plain(a)
    ensures LiteralScan(FenceWrapped(a), "<p><pre>", "<pre>")
         == "<pre>" + ("<code>" + (a + ("</code>" + ("</pre>" + "</p>"))))
  {
    FenceBodyNoPreOpen(a);
    PreOpenHit(FenceBody(a));
  }

  /** `</pre></p>` loses its paragraph tag. */
  lemma FenceCleanup5(a: string)
    requires Plain(a)
    ensures LiteralScan("<pre>" + ("<code>" + (a + ("</code>" + ("</pre>" + "</p>")))), "</pre></p>", "</pre>")
         == "<pre>" + ("<code>" + (a + ("</code>" + "</pre>")))
  {
    PlainFacts(a);
    var pat := "</pre></p>";
    var x3 := "</pre>" + "</p>";
    assert StartsCI(x3, pat);
    assert x3[10..] == [];
    LiteralHitAt(x3, pat, "</pre>", []);
    assert "</pre>" + LiteralScan([], pat, "</pre>") == "</pre>";
    var x2 := "</code>" + x3;
    TagLit("</code>", x3, pat, "</pre>", 2);
    var x1 := a + x2;
    LiteralSkip(a, x2, pat, "</pre>");
    var x0 := "<code>" + x1;
    TagLit("<code>", x1, pat, "</pre>", 1);
    TagLit("<pre>", x0, pat, "</pre>", 1);
  }

  lemma FenceCleanup(a: string)
    requires Plain(a)
    ensures Cleanup(FenceWrapped(a)) == "<pre>" + ("<code>" + (a + ("</code>" + "</pre>")))
  {
    FenceCleanup1(a);
    FenceCleanup2(a);
    FenceCleanup3(a);
    FenceCleanup4(a);
    FenceCleanup5(a);
  }

  /** The expected output, regrouped. */
  lemma FenceExpected(a: string)
    ensures "<pre>" + ("<code>" + (a + ("</code>" + "</pre>"))) == "<pre><code>" + a + "</code></pre>"
  {
    Assoc("<pre><code>", a, "</code></pre>");
    assert "<pre><code>" == "<pre>" + "<code>";
    assert "</code></pre>" == "</code>" + "</pre>";
    Assoc("<pre>", "<code>", a + "</code></pre>");
  }

  /** The converted block holds no line feed. */
  lemma FenceNoBreaks(a: string)
    requires Plain(a)
    ensures Breaks("<pre><code>" + (a + "</code></pre>")) == "<pre><code>" + (a + "</code></pre>")
  {
    PlainFacts(a);
    var f := "<pre><code>" + (a + "</code></pre>");
    assert '\n' !in f;
    BreaksPlain(f);
  }

  /** A fenced block is rendered as preformatted code, outside any
      paragraph. */
  lemma RenderFencedBlock(a: string)
    requires Plain(a)
    ensures Render("```" + a + "```") == "<pre><code>" + a + "</code></pre>"
  {
    Assoc("```", a, "```");
    FenceInline(a);
    FenceNoBreaks(a);
    FenceRegroup(a);
    FenceCleanup(a);
    FenceExpected(a);
  }
}
