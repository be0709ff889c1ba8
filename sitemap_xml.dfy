/** The document shape shared by both sitemap serialisers: a `urlset` of
    the Sitemaps XML format, protocol 0.9, written as text, and a reader
    that recovers the text of each element from it. */
module SitemapXml {
  import opened Text
  import opened Types

  /** The declaration, spelt as a bracketed body so that its shape is
      evident to the verifier. */
  const XmlDeclarationBody: string := "?xml version=\"1.0\" encoding=\"UTF-8\"?"
  const XmlDeclaration: string := "<" + XmlDeclarationBody + ">"
  const SitemapNamespace: string := "http://www.sitemaps.org/schemas/sitemap/0.9"
  const UrlsetOpenBody: string := "urlset xmlns=\"" + SitemapNamespace + "\""
  const UrlsetOpen: string := "<" + UrlsetOpenBody + ">"
  const UrlsetClose: string := "</urlset>"

  /** One `<url>` element of the protocol. */
  datatype UrlEntry = UrlEntry(loc: string, lastmod: string, changefreq: string, priority: string)

  /** The four child elements of `<url>`. */
  datatype Field = Loc | Lastmod | Changefreq | Priority

  function OpenTag(f: Field): string
  {
    match f
    case Loc => "<loc>"
    case Lastmod => "<lastmod>"
    case Changefreq => "<changefreq>"
    case Priority => "<priority>"
  }

  function FieldOf(e: UrlEntry, f: Field): string
  {
    match f
    case Loc => e.loc
    case Lastmod => e.lastmod
    case Changefreq => e.changefreq
    case Priority => e.priority
  }

  /** Text that cannot open or close a tag. */
  predicate NoMarkup(s: string)
  {
    '<' !in s
  }

  predicate EntryNoMarkup(e: UrlEntry)
  {
    NoMarkup(e.loc) && NoMarkup(e.lastmod) && NoMarkup(e.changefreq) && NoMarkup(e.priority)
  }

  predicate EntriesNoMarkup(es: seq<UrlEntry>)
  {
    forall k :: 0 <= k < |es| ==> EntryNoMarkup(es[k])
  }

  /** No identifier or stamp of a post holds a `<`. */
  predicate PostNoMarkup(p: BlogPost)
  {
    NoMarkup(p.id) && NoMarkup(p.createdAt) && NoMarkup(p.updatedAt)
  }

  predicate PostsNoMarkup(posts: seq<BlogPost>)
  {
    forall k :: 0 <= k < |posts| ==> PostNoMarkup(posts[k])
  }

  /** A tag: `<`, then characters other than `<` and `>`, then `>`. */
  predicate IsTag(t: string)
  {
    |t| >= 2 && t[0] == '<' && t[|t| - 1] == '>' && '<' !in t[1..|t| - 1] && '>' !in t[1..|t| - 1]
  }

  lemma TagInner(t: string, k: nat)
    requires IsTag(t) && 0 < k < |t| - 1
    ensures t[k] != '<' && t[k] != '>'
  {
    assert t[1..|t| - 1][k - 1] == t[k];
  }

  lemma TagTail(t: string)
    requires IsTag(t)
    ensures '<' !in t[1..]
  {
    assert t[1..] == t[1..|t| - 1] + [t[|t| - 1]];
  }

  // ---------------------------------------------------------------------
  // Writing

  /** A run of tags, each followed by its text. */
  function Markup(tokens: seq<(string, string)>): string
  {
    if tokens == [] then "" else tokens[0].0 + (tokens[0].1 + Markup(tokens[1..]))
  }

  /** The tags and texts of one `<url>` element, with the template's
      indentation inside the element. */
  function UrlTokens(e: UrlEntry): seq<(string, string)>
  {
    [("<url>", "\n    "),
     ("<loc>", e.loc), ("</loc>", "\n    "),
     ("<lastmod>", e.lastmod), ("</lastmod>", "\n    "),
     ("<changefreq>", e.changefreq), ("</changefreq>", "\n    "),
     ("<priority>", e.priority), ("</priority>", "\n  "),
     ("</url>", "")]
  }

  /** The `<url>` element, after `indent`. */
  function UrlXml(indent: string, e: UrlEntry): string
  {
    indent + Markup(UrlTokens(e))
  }

  /** Three tags and the texts between them, spelt as one literal. */
  lemma Glue(a: string, b: string, c: string, y: string)
    ensures a + (b + (c + y)) == (a + b + c) + y
  {
  }

  /** The last two fields of the block. */
  lemma UrlXmlTail(e: UrlEntry)
    ensures Markup(UrlTokens(e)[5..]) ==
      "<changefreq>" + (e.changefreq + ("</changefreq>\n    <priority>" + (e.priority + "</priority>\n  </url>")))
  {
    var ts := UrlTokens(e);
    assert ts[10..] == [];
    MarkupCons(ts, 9);
    MarkupCons(ts, 8);
    var t8 := "</priority>" + ("\n  " + ("</url>" + ("" + [])));
    assert Markup(ts[8..]) == t8;
    assert t8 == "</priority>\n  </url>";
    MarkupCons(ts, 7);
    MarkupCons(ts, 6);
    MarkupCons(ts, 5);
    Glue("</changefreq>", "\n    ", "<priority>", e.priority + t8);
    assert "</changefreq>" + "\n    " + "<priority>" == "</changefreq>\n    <priority>";
  }

  /** The second field of the block. */
  lemma UrlXmlLastmod(e: UrlEntry)
    ensures Markup(UrlTokens(e)[3..]) ==
      "<lastmod>" + (e.lastmod + ("</lastmod>\n    " + Markup(UrlTokens(e)[5..])))
  {
    var ts := UrlTokens(e);
    var m5 := Markup(ts[5..]);
    MarkupCons(ts, 4);
    MarkupCons(ts, 3);
    Assoc("</lastmod>", "\n    ", m5);
  }

  /** The first field of the block. */
  lemma UrlXmlLoc(e: UrlEntry)
    ensures Markup(UrlTokens(e)[1..]) ==
      "<loc>" + (e.loc + ("</loc>\n    <lastmod>" + (e.lastmod + ("</lastmod>\n    " + Markup(UrlTokens(e)[5..])))))
  {
    var ts := UrlTokens(e);
    var m5 := Markup(ts[5..]);
    UrlXmlLastmod(e);
    MarkupCons(ts, 2);
    MarkupCons(ts, 1);
    Glue("</loc>", "\n    ", "<lastmod>", e.lastmod + ("</lastmod>\n    " + m5));
    assert "</loc>" + "\n    " + "<lastmod>" == "</loc>\n    <lastmod>";
  }

  /** The first two fields of the block, after the start tag. */
  lemma UrlXmlHead(e: UrlEntry)
    ensures Markup(UrlTokens(e)) ==
      "<url>\n    <loc>" + (e.loc + ("</loc>\n    <lastmod>" + (e.lastmod + ("</lastmod>\n    " + Markup(UrlTokens(e)[5..])))))
  {
    var ts := UrlTokens(e);
    UrlXmlLoc(e);
    MarkupCons(ts, 0);
    assert ts[0..] == ts;
    Glue("<url>", "\n    ", "<loc>", e.loc + ("</loc>\n    <lastmod>" + (e.lastmod + ("</lastmod>\n    " + Markup(ts[5..])))));
    assert "<url>" + "\n    " + "<loc>" == "<url>\n    <loc>";
  }

  /** The `<url>` element is the five-line block of the templates. */
  lemma UrlXmlText(indent: string, e: UrlEntry)
    ensures UrlXml(indent, e) ==
      indent + "<url>\n    <loc>" + e.loc + "</loc>\n    <lastmod>" + e.lastmod +
      "</lastmod>\n    <changefreq>" + e.changefreq + "</changefreq>\n    <priority>" +
      e.priority + "</priority>\n  </url>"
  {
    UrlXmlHead(e);
    UrlXmlTail(e);
    var m5 := Markup(UrlTokens(e)[5..]);
    Glue("</lastmod>\n    ", "<changefreq>", e.changefreq, "</changefreq>\n    <priority>" + (e.priority + "</priority>\n  </url>"));
    Assoc("</lastmod>\n    " + "<changefreq>", e.changefreq, "</changefreq>\n    <priority>" + (e.priority + "</priority>\n  </url>"));
    assert "</lastmod>\n    " + "<changefreq>" == "</lastmod>\n    <changefreq>";
    Nest9(indent, "<url>\n    <loc>", e.loc, "</loc>\n    <lastmod>", e.lastmod,
          "</lastmod>\n    <changefreq>", e.changefreq, "</changefreq>\n    <priority>", e.priority + "</priority>\n  </url>");
    Assoc(indent + "<url>\n    <loc>" + e.loc + "</loc>\n    <lastmod>" + e.lastmod +
      "</lastmod>\n    <changefreq>" + e.changefreq + "</changefreq>\n    <priority>", e.priority, "</priority>\n  </url>");
  }

  lemma MarkupCons(tokens: seq<(string, string)>, i: nat)
    requires i < |tokens|
    ensures Markup(tokens[i..]) == tokens[i].0 + (tokens[i].1 + Markup(tokens[i + 1..]))
  {
    assert tokens[i..][1..] == tokens[i + 1..];
  }

  lemma Nest9(a1: string, a2: string, a3: string, a4: string, a5: string, a6: string, a7: string, a8: string, a9: string)
    ensures a1 + a2 + a3 + a4 + a5 + a6 + a7 + a8 + a9 == a1 + (a2 + (a3 + (a4 + (a5 + (a6 + (a7 + (a8 + a9)))))))
  {
  }

  function UrlXmls(indent: string, es: seq<UrlEntry>): (r: seq<string>)
    ensures |r| == |es|
  {
    if es == [] then [] else [UrlXml(indent, es[0])] + UrlXmls(indent, es[1..])
  }

  /** The document of both serialisers: the declaration, the `urlset`, two
      fixed entries, then the joined entries of the posts. */
  function Urlset(first: UrlEntry, second: UrlEntry, indent: string, sep: string, posts: seq<UrlEntry>): string
  {
    XmlDeclaration + ("\n" + (UrlsetOpen + ("\n" + (UrlXml("  ", first) + ("\n" + (UrlXml("  ", second) +
      ("\n  " + (Join(UrlXmls(indent, posts), sep) + ("\n" + UrlsetClose)))))))))
  }

  // ---------------------------------------------------------------------
  // Reading back

  /** The text of every element that `open` starts, in document order: what
      follows the tag up to the next `<`. */
  function ElementTexts(s: string, open: string): seq<string>
    requires open != []
    decreases |s|
  {
    if s == [] then []
    else if StartsWith(s, open) then
      var t := s[|open|..];
      [t[..RunLength(t, '<')]] + ElementTexts(s[1..], open)
    else ElementTexts(s[1..], open)
  }

  /** One text per occurrence of the tag. */
  lemma {:induction false} ElementTextsCount(s: string, open: string)
    requires open != []
    ensures |ElementTexts(s, open)| == Occurrences(s, open)
    decreases |s|
  {
    if s != [] {
      ElementTextsCount(s[1..], open);
    }
  }

  /** Text without `<` holds no element. */
  lemma {:induction false} TextsSkip(a: string, b: string, open: string)
    requires open != [] && open[0] == '<' && '<' !in a
    ensures ElementTexts(a + b, open) == ElementTexts(b, open)
    decreases |a|
  {
    if a == [] {
      assert a + b == b;
    } else {
      assert (a + b)[0] == a[0];
      assert !StartsWith(a + b, open);
      assert (a + b)[1..] == a[1..] + b;
      TextsSkip(a[1..], b, open);
    }
  }

  /** Of two different tags neither begins the other. */
  lemma TagsDiffer(name: string, rest: string, open: string)
    requires IsTag(name) && IsTag(open) && name != open
    ensures !StartsWith(name + rest, open)
  {
    var s := name + rest;
    if |open| < |name| {
      TagInner(name, |open| - 1);
      assert s[|open| - 1] == name[|open| - 1];
      assert |open| <= |s| ==> s[..|open|][|open| - 1] == s[|open| - 1];
    } else if |open| == |name| {
      assert s[..|open|] == name;
    } else {
      TagInner(open, |name| - 1);
      assert s[|name| - 1] == '>';
      assert |open| <= |s| ==> s[..|open|][|name| - 1] == s[|name| - 1];
    }
  }

  /** One tag and its text. The text of the tag `open` runs to the next
      `<`, so what follows must begin with one. */
  lemma TagToken(name: string, c: string, b: string, open: string)
    requires IsTag(name) && IsTag(open) && '<' !in c
    requires name == open ==> b == [] || b[0] == '<'
    ensures ElementTexts(name + (c + b), open) == (if name == open then [c] else []) + ElementTexts(b, open)
  {
    var s := name + (c + b);
    assert s[1..] == name[1..] + (c + b);
    assert s[1..] == (name[1..] + c) + b;
    TagTail(name);
    TextsSkip(name[1..] + c, b, open);
    if name == open {
      assert s[..|open|] == open;
      var t := s[|open|..];
      assert t == c + b;
      if b == [] {
        assert c + b == c;
        RunLengthAll(c, '<');
      } else {
        RunLengthOf(c, b, '<');
      }
      assert t[..|c|] == c;
    } else {
      TagsDiffer(name, c + b, open);
    }
  }

  /** The texts of a run of tags; `Markup` text always begins with `<`. */
  function TokenTexts(tokens: seq<(string, string)>, open: string): seq<string>
  {
    if tokens == [] then [] else Pick(tokens[0], open) + TokenTexts(tokens[1..], open)
  }

  /** The text of one tag, when it is `open`. */
  function Pick(token: (string, string), open: string): seq<string>
  {
    if token.0 == open then [token.1] else []
  }

  predicate TokensWellFormed(tokens: seq<(string, string)>)
  {
    forall k :: 0 <= k < |tokens| ==> IsTag(tokens[k].0) && '<' !in tokens[k].1
  }

  lemma MarkupHead(tokens: seq<(string, string)>)
    requires tokens != [] && TokensWellFormed(tokens)
    ensures Markup(tokens) != [] && Markup(tokens)[0] == '<'
  {
    assert IsTag(tokens[0].0);
  }

  lemma TokensTail(tokens: seq<(string, string)>)
    requires tokens != [] && TokensWellFormed(tokens)
    ensures TokensWellFormed(tokens[1..])
  {
    forall k | 0 <= k < |tokens[1..]|
      ensures IsTag(tokens[1..][k].0) && '<' !in tokens[1..][k].1
    {
      assert tokens[1..][k] == tokens[k + 1];
    }
  }

  /** One tag and its text, before the rest of the markup. */
  lemma TokenThen(name: string, c: string, rest: string, b: string, open: string)
    requires IsTag(name) && IsTag(open) && '<' !in c
    requires name == open ==> rest + b == [] || (rest + b)[0] == '<'
    ensures ElementTexts(name + (c + rest) + b, open) == Pick((name, c), open) + ElementTexts(rest + b, open)
  {
    Assoc(name, c + rest, b);
    Assoc(c, rest, b);
    TagToken(name, c, rest + b, open);
  }

  /** Reading a run of tags gives back the texts of its `open` tags. */
  lemma {:induction false} MarkupTexts(tokens: seq<(string, string)>, b: string, open: string)
    requires TokensWellFormed(tokens) && IsTag(open)
    requires b == [] || b[0] == '<' || tokens == [] || tokens[|tokens| - 1].0 != open
    ensures ElementTexts(Markup(tokens) + b, open) == TokenTexts(tokens, open) + ElementTexts(b, open)
    decreases |tokens|
  {
    if tokens == [] {
      assert Markup(tokens) + b == b;
    } else {
      MarkupStepReady(tokens, b, open);
      MarkupTexts(tokens[1..], b, open);
      TokenThen(tokens[0].0, tokens[0].1, Markup(tokens[1..]), b, open);
      MarkupTextsStep(tokens, b, open);
    }
  }

  /** The texts of the first token, then those of the rest. */
  lemma MarkupTextsStep(tokens: seq<(string, string)>, b: string, open: string)
    requires tokens != [] && open != []
    requires ElementTexts(tokens[0].0 + (tokens[0].1 + Markup(tokens[1..])) + b, open)
          == Pick((tokens[0].0, tokens[0].1), open) + ElementTexts(Markup(tokens[1..]) + b, open)
    requires ElementTexts(Markup(tokens[1..]) + b, open) == TokenTexts(tokens[1..], open) + ElementTexts(b, open)
    ensures ElementTexts(Markup(tokens) + b, open) == TokenTexts(tokens, open) + ElementTexts(b, open)
  {
    assert (tokens[0].0, tokens[0].1) == tokens[0];
    var p := Pick(tokens[0], open);
    var x := TokenTexts(tokens[1..], open);
    var y := ElementTexts(b, open);
    assert p + (x + y) == (p + x) + y;
  }

  /** The first token may be read off, and the rest meets the conditions
      again. */
  lemma MarkupStepReady(tokens: seq<(string, string)>, b: string, open: string)
    requires tokens != [] && TokensWellFormed(tokens) && IsTag(open)
    requires b == [] || b[0] == '<' || tokens[|tokens| - 1].0 != open
    ensures TokensWellFormed(tokens[1..]) && IsTag(tokens[0].0) && '<' !in tokens[0].1
    ensures b == [] || b[0] == '<' || tokens[1..] == [] || tokens[1..][|tokens[1..]| - 1].0 != open
    ensures tokens[0].0 == open ==> Markup(tokens[1..]) + b == [] || (Markup(tokens[1..]) + b)[0] == '<'
  {
    var tail := tokens[1..];
    TokensTail(tokens);
    if tail != [] {
      MarkupHead(tail);
      assert tail[|tail| - 1] == tokens[|tokens| - 1];
    } else {
      assert Markup(tail) + b == b;
    }
  }

  /** The entry tags that a reader may ask for. */
  predicate IsEntryTag(open: string)
  {
    open == "<url>" || open == "<loc>" || open == "<lastmod>" || open == "<changefreq>" || open == "<priority>"
  }

  /** The element texts of one entry, for any entry tag. */
  function EntryTexts(e: UrlEntry, open: string): seq<string>
  {
    TokenTexts(UrlTokens(e), open)
  }

  lemma TokenTextsCons(tokens: seq<(string, string)>, i: nat, open: string)
    requires i < |tokens|
    ensures TokenTexts(tokens[i..], open) == Pick(tokens[i], open) + TokenTexts(tokens[i + 1..], open)
  {
    assert tokens[i..][1..] == tokens[i + 1..];
  }

  lemma TokenTextsBack(tokens: seq<(string, string)>, open: string)
    requires |tokens| == 10
    ensures TokenTexts(tokens[5..], open) ==
      Pick(tokens[5], open) + (Pick(tokens[6], open) + (Pick(tokens[7], open) + (Pick(tokens[8], open) + Pick(tokens[9], open))))
  {
    assert tokens[10..] == [];
    assert Pick(tokens[9], open) + [] == Pick(tokens[9], open);
    TokenTextsCons(tokens, 9, open);
    TokenTextsCons(tokens, 8, open);
    TokenTextsCons(tokens, 7, open);
    TokenTextsCons(tokens, 6, open);
    TokenTextsCons(tokens, 5, open);
  }

  /** The texts of ten tags, tag by tag. */
  lemma TokenTextsTen(tokens: seq<(string, string)>, open: string)
    requires |tokens| == 10
    ensures TokenTexts(tokens, open) ==
      Pick(tokens[0], open) + (Pick(tokens[1], open) + (Pick(tokens[2], open) + (Pick(tokens[3], open) + (Pick(tokens[4], open) +
      (Pick(tokens[5], open) + (Pick(tokens[6], open) + (Pick(tokens[7], open) + (Pick(tokens[8], open) + Pick(tokens[9], open)))))))))
  {
    TokenTextsBack(tokens, open);
    TokenTextsCons(tokens, 4, open);
    TokenTextsCons(tokens, 3, open);
    TokenTextsCons(tokens, 2, open);
    TokenTextsCons(tokens, 1, open);
    TokenTextsCons(tokens, 0, open);
    assert tokens[0..] == tokens;
  }

  lemma EntryLoc(e: UrlEntry)
    ensures EntryTexts(e, "<loc>") == [e.loc]
  {
    TokenTextsTen(UrlTokens(e), "<loc>");
  }

  lemma EntryLastmod(e: UrlEntry)
    ensures EntryTexts(e, "<lastmod>") == [e.lastmod]
  {
    TokenTextsTen(UrlTokens(e), "<lastmod>");
  }

  lemma EntryChangefreq(e: UrlEntry)
    ensures EntryTexts(e, "<changefreq>") == [e.changefreq]
  {
    TokenTextsTen(UrlTokens(e), "<changefreq>");
  }

  lemma EntryPriority(e: UrlEntry)
    ensures EntryTexts(e, "<priority>") == [e.priority]
  {
    TokenTextsTen(UrlTokens(e), "<priority>");
  }

  /** Each field tag occurs once in an entry, holding that field. */
  lemma EntryField(e: UrlEntry, f: Field)
    ensures EntryTexts(e, OpenTag(f)) == [FieldOf(e, f)]
  {
    match f
    case Loc => EntryLoc(e);
    case Lastmod => EntryLastmod(e);
    case Changefreq => EntryChangefreq(e);
    case Priority => EntryPriority(e);
  }

  /** `<url>` occurs once in an entry. */
  lemma EntryOpens(e: UrlEntry)
    ensures EntryTexts(e, "<url>") == ["\n    "]
  {
    TokenTextsTen(UrlTokens(e), "<url>");
  }

  /** The start tags of an entry are tags. */
  lemma OpenTagsAreTags()
    ensures IsTag("<url>") && IsTag("<loc>") && IsTag("<lastmod>") && IsTag("<changefreq>") && IsTag("<priority>")
  {
  }

  /** The end tags of an entry are tags. */
  lemma CloseTagsAreTags()
    ensures IsTag("</url>") && IsTag("</loc>") && IsTag("</lastmod>") && IsTag("</changefreq>") && IsTag("</priority>")
  {
  }

  lemma UrlTokensWellFormed(e: UrlEntry)
    requires EntryNoMarkup(e)
    ensures TokensWellFormed(UrlTokens(e))
  {
    var ts := UrlTokens(e);
    OpenTagsAreTags();
    CloseTagsAreTags();
    assert '<' !in "\n    " && '<' !in "\n  " && '<' !in "";
    forall k | 0 <= k < |ts|
      ensures IsTag(ts[k].0) && '<' !in ts[k].1
    {
    }
  }

  /** Reading one entry with whatever follows it. */
  lemma UrlXmlTexts(indent: string, e: UrlEntry, b: string, open: string)
    requires NoMarkup(indent) && EntryNoMarkup(e) && IsEntryTag(open)
    ensures ElementTexts(UrlXml(indent, e) + b, open) == EntryTexts(e, open) + ElementTexts(b, open)
  {
    UrlTokensWellFormed(e);
    OpenTagsAreTags();
    MarkupTexts(UrlTokens(e), b, open);
    assert UrlXml(indent, e) + b == indent + (Markup(UrlTokens(e)) + b);
    TextsSkip(indent, Markup(UrlTokens(e)) + b, open);
  }

  /** The element texts of a list of entries, concatenated. */
  function EntriesTexts(es: seq<UrlEntry>, open: string): seq<string>
  {
    if es == [] then [] else EntryTexts(es[0], open) + EntriesTexts(es[1..], open)
  }

  lemma EntriesTail(es: seq<UrlEntry>)
    requires es != [] && EntriesNoMarkup(es)
    ensures EntriesNoMarkup(es[1..])
  {
    forall k | 0 <= k < |es[1..]|
      ensures EntryNoMarkup(es[1..][k])
    {
      assert es[1..][k] == es[k + 1];
    }
  }

  /** One entry, the separator, then the rest. */
  lemma EntrySepTexts(indent: string, sep: string, e: UrlEntry, j: string, tail: string, open: string)
    requires NoMarkup(indent) && NoMarkup(sep) && EntryNoMarkup(e) && IsEntryTag(open)
    ensures ElementTexts(UrlXml(indent, e) + sep + j + tail, open) == EntryTexts(e, open) + ElementTexts(j + tail, open)
  {
    var x := UrlXml(indent, e);
    OpenTagsAreTags();
    TextsSkip(sep, j + tail, open);
    UrlXmlTexts(indent, e, sep + (j + tail), open);
    Assoc(x + sep, j, tail);
    Assoc(x, sep, j + tail);
  }

  /** Reading the joined entries. */
  lemma {:induction false} JoinTexts(indent: string, sep: string, es: seq<UrlEntry>, tail: string, open: string)
    requires NoMarkup(indent) && NoMarkup(sep) && EntriesNoMarkup(es) && IsEntryTag(open)
    ensures ElementTexts(Join(UrlXmls(indent, es), sep) + tail, open) == EntriesTexts(es, open) + ElementTexts(tail, open)
    decreases |es|
  {
    var xs := UrlXmls(indent, es);
    if es == [] {
      assert Join(xs, sep) + tail == tail;
    } else {
      var x := UrlXml(indent, es[0]);
      assert xs == [x] + UrlXmls(indent, es[1..]);
      assert EntryNoMarkup(es[0]);
      if |es| == 1 {
        UrlXmlTexts(indent, es[0], tail, open);
        assert EntriesTexts(es[1..], open) == [];
      } else {
        EntriesTail(es);
        assert xs[1..] == UrlXmls(indent, es[1..]);
        JoinTexts(indent, sep, es[1..], tail, open);
        EntrySepTexts(indent, sep, es[0], Join(xs[1..], sep), tail, open);
      }
    }
  }

  /** A bracketed name is a tag. */
  lemma Bracketed(body: string)
    requires '<' !in body && '>' !in body
    ensures IsTag("<" + body + ">")
  {
    var t := "<" + body + ">";
    assert t[1..|t| - 1] == body;
  }

  lemma NamespacePlain()
    ensures '<' !in SitemapNamespace && '>' !in SitemapNamespace
  {
  }

  lemma UrlsetOpenIsTag()
    ensures IsTag(UrlsetOpen)
  {
    NamespacePlain();
    assert '<' !in UrlsetOpenBody && '>' !in UrlsetOpenBody;
    Bracketed(UrlsetOpenBody);
  }

  lemma XmlDeclarationIsTag()
    ensures IsTag(XmlDeclaration)
  {
    assert '<' !in XmlDeclarationBody && '>' !in XmlDeclarationBody;
    Bracketed(XmlDeclarationBody);
  }

  /** The end of the document holds no entry element. */
  lemma CloseTexts(open: string)
    requires IsEntryTag(open)
    ensures ElementTexts("\n" + UrlsetClose, open) == []
  {
    OpenTagsAreTags();
    Bracketed("/urlset");
    assert UrlsetClose == "<" + "/urlset" + ">";
    TextsSkip("\n", UrlsetClose, open);
    TagToken(UrlsetClose, "", [], open);
    assert UrlsetClose + ("" + []) == UrlsetClose;
    assert ElementTexts([], open) == [];
  }

  /** The entries of the posts, after the two fixed entries. */
  lemma PostsTexts(indent: string, sep: string, posts: seq<UrlEntry>, open: string)
    requires EntriesNoMarkup(posts) && NoMarkup(indent) && NoMarkup(sep) && IsEntryTag(open)
    ensures ElementTexts("\n  " + (Join(UrlXmls(indent, posts), sep) + ("\n" + UrlsetClose)), open)
         == EntriesTexts(posts, open)
  {
    OpenTagsAreTags();
    var close := "\n" + UrlsetClose;
    CloseTexts(open);
    var j := Join(UrlXmls(indent, posts), sep) + close;
    JoinTexts(indent, sep, posts, close, open);
    TextsSkip("\n  ", j, open);
  }

  /** The body of the document: every entry, in order. */
  lemma BodyTexts(first: UrlEntry, second: UrlEntry, indent: string, sep: string, posts: seq<UrlEntry>, open: string)
    requires EntryNoMarkup(first) && EntryNoMarkup(second) && EntriesNoMarkup(posts)
    requires NoMarkup(indent) && NoMarkup(sep) && IsEntryTag(open)
    ensures ElementTexts(UrlXml("  ", first) + ("\n" + (UrlXml("  ", second) +
              ("\n  " + (Join(UrlXmls(indent, posts), sep) + ("\n" + UrlsetClose))))), open)
         == EntryTexts(first, open) + (EntryTexts(second, open) + EntriesTexts(posts, open))
  {
    OpenTagsAreTags();
    var j := "\n  " + (Join(UrlXmls(indent, posts), sep) + ("\n" + UrlsetClose));
    PostsTexts(indent, sep, posts, open);
    var x2 := UrlXml("  ", second) + j;
    UrlXmlTexts("  ", second, j, open);
    TextsSkip("\n", x2, open);
    UrlXmlTexts("  ", first, "\n" + x2, open);
  }

  /** The declaration and the `urlset` start tag hold no entry element. */
  lemma HeadTexts(x: string, open: string)
    requires IsEntryTag(open)
    ensures ElementTexts(XmlDeclaration + ("\n" + (UrlsetOpen + ("\n" + x))), open) == ElementTexts(x, open)
  {
    OpenTagsAreTags();
    XmlDeclarationIsTag();
    UrlsetOpenIsTag();
    TagToken(UrlsetOpen, "\n", x, open);
    TagToken(XmlDeclaration, "\n", UrlsetOpen + ("\n" + x), open);
  }

  lemma EntriesTextsPair(first: UrlEntry, second: UrlEntry, posts: seq<UrlEntry>, open: string)
    ensures EntriesTexts([first, second] + posts, open)
         == EntryTexts(first, open) + (EntryTexts(second, open) + EntriesTexts(posts, open))
  {
    var es := [first, second] + posts;
    assert es[1..] == [second] + posts && es[1..][1..] == posts;
  }

  /** Reading the whole document gives back the element texts of its
      entries, in order: the two fixed entries, then the posts. */
  lemma UrlsetTexts(first: UrlEntry, second: UrlEntry, indent: string, sep: string, posts: seq<UrlEntry>, open: string)
    requires EntryNoMarkup(first) && EntryNoMarkup(second) && EntriesNoMarkup(posts)
    requires NoMarkup(indent) && NoMarkup(sep) && IsEntryTag(open)
    ensures ElementTexts(Urlset(first, second, indent, sep, posts), open)
         == EntriesTexts([first, second] + posts, open)
  {
    var x1 := UrlXml("  ", first) + ("\n" + (UrlXml("  ", second) +
      ("\n  " + (Join(UrlXmls(indent, posts), sep) + ("\n" + UrlsetClose)))));
    BodyTexts(first, second, indent, sep, posts, open);
    HeadTexts(x1, open);
    EntriesTextsPair(first, second, posts, open);
  }

  /** The text of each field tag, entry by entry. */
  function FieldTexts(es: seq<UrlEntry>, f: Field): (r: seq<string>)
    ensures |r| == |es|
    ensures forall k :: 0 <= k < |es| ==> r[k] == FieldOf(es[k], f)
  {
    if es == [] then [] else [FieldOf(es[0], f)] + FieldTexts(es[1..], f)
  }

  lemma {:induction false} EntriesField(es: seq<UrlEntry>, f: Field)
    ensures EntriesTexts(es, OpenTag(f)) == FieldTexts(es, f)
    decreases |es|
  {
    if es != [] {
      EntryField(es[0], f);
      EntriesField(es[1..], f);
    }
  }

  lemma {:induction false} EntriesOpens(es: seq<UrlEntry>)
    ensures |EntriesTexts(es, "<url>")| == |es|
    decreases |es|
  {
    if es != [] {
      EntryOpens(es[0]);
      EntriesOpens(es[1..]);
    }
  }

  /** The document parses back to its entries, field by field, and holds
      one `<url>` block per entry. */
  lemma UrlsetReadsBack(first: UrlEntry, second: UrlEntry, indent: string, sep: string, posts: seq<UrlEntry>, f: Field)
    requires EntryNoMarkup(first) && EntryNoMarkup(second) && EntriesNoMarkup(posts)
    requires NoMarkup(indent) && NoMarkup(sep)
    ensures ElementTexts(Urlset(first, second, indent, sep, posts), OpenTag(f)) == FieldTexts([first, second] + posts, f)
    ensures Occurrences(Urlset(first, second, indent, sep, posts), "<url>") == 2 + |posts|
  {
    var doc := Urlset(first, second, indent, sep, posts);
    UrlsetTexts(first, second, indent, sep, posts, OpenTag(f));
    EntriesField([first, second] + posts, f);
    UrlsetTexts(first, second, indent, sep, posts, "<url>");
    EntriesOpens([first, second] + posts);
    ElementTextsCount(doc, "<url>");
  }

  predicate EndsWith(s: string, p: string)
  {
    |p| <= |s| && s[|s| - |p|..] == p
  }

  lemma EndsWithAppend(a: string, b: string, p: string)
    requires EndsWith(b, p)
    ensures EndsWith(a + b, p)
  {
    assert (a + b)[|a + b| - |p|..] == b[|b| - |p|..];
  }

  lemma PrefixOf(a: string, b: string, c: string, d: string, x: string)
    ensures StartsWith(a + (b + (c + (d + x))), a + b + c + d)
  {
    var head := a + b + c + d;
    assert a + (b + (c + (d + x))) == head + x;
    assert (head + x)[..|head|] == head;
  }

  /** The document opens with the declaration and the `urlset` start tag. */
  lemma UrlsetStart(first: UrlEntry, second: UrlEntry, indent: string, sep: string, posts: seq<UrlEntry>)
    ensures StartsWith(Urlset(first, second, indent, sep, posts), XmlDeclaration + "\n" + UrlsetOpen + "\n")
  {
    PrefixOf(XmlDeclaration, "\n", UrlsetOpen, "\n", UrlXml("  ", first) + ("\n" + (UrlXml("  ", second) +
      ("\n  " + (Join(UrlXmls(indent, posts), sep) + ("\n" + UrlsetClose))))));
  }

  /** The document closes with the `urlset` end tag. */
  lemma UrlsetEnd(first: UrlEntry, second: UrlEntry, indent: string, sep: string, posts: seq<UrlEntry>)
    ensures EndsWith(Urlset(first, second, indent, sep, posts), "\n" + UrlsetClose)
  {
    var close := "\n" + UrlsetClose;
    assert EndsWith(close, close);
    var x7 := Join(UrlXmls(indent, posts), sep) + close;
    EndsWithAppend(Join(UrlXmls(indent, posts), sep), close, close);
    var x6 := "\n  " + x7;
    EndsWithAppend("\n  ", x7, close);
    var x5 := UrlXml("  ", second) + x6;
    EndsWithAppend(UrlXml("  ", second), x6, close);
    var x4 := "\n" + x5;
    EndsWithAppend("\n", x5, close);
    var x3 := UrlXml("  ", first) + x4;
    EndsWithAppend(UrlXml("  ", first), x4, close);
    var x2 := "\n" + x3;
    EndsWithAppend("\n", x3, close);
    var x1 := UrlsetOpen + x2;
    EndsWithAppend(UrlsetOpen, x2, close);
    var x0 := "\n" + x1;
    EndsWithAppend("\n", x1, close);
    EndsWithAppend(XmlDeclaration, x0, close);
  }
}
