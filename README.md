# silentcommit blog core, in Dafny

A model of the core of the silentcommit blog: a single-page React
application with a post collection and a post editor, and a static Astro
site generated from seed posts. It covers:

- the post record (`Types`);
- the view helpers (`BlogUtils`):
  - excerpts,
  - reading time,
  - the newest-first sort,
  - tag filtering and the tag list;
- the application shell and its collection (`App`, with the class
  `PostRepository`);
- the editor dialog (`PostEditor`, with the class `Editor` for its form
  state);
- the markdown-to-HTML converter (`Markdown`, facts about it in
  `MarkdownFacts`);
- the seed collection and its queries (`SeedPosts`);
- the two sitemap serialisers: the browser one (`Sitemap`) and the Astro
  route (`SitemapRoute`). They share a document writer and a reader
  (`SitemapXml`).

`Text` holds the JavaScript string primitives the code relies on: `trim`,
`split(/\s+/)`, `join`, and the order `sort()` uses by default, taken here
as code-point order (see "Left out"). `split` is checked against an
independent definition: the words of a string, its maximal runs of
characters that are not whitespace. `Seqs`
holds the filter and subsequence facts reused by every module.

Timestamps are ISO-8601 strings; comparing two instants is comparing the
strings, which holds for the normalised `toISOString` form used
throughout. The clock (`new Date()`), the id generator (`generateId`) and
the site URL setting are parameters (`now`, `freshId`, `siteUrl`).

The markdown converter follows the fifteen `replace` calls and the
paragraph wrap one by one, sixteen reassignments in all. Each
regular expression is a scanner function:

- `HeaderScan`: `^…(.*$)` with the `m` flag;
- `DelimScan`: lazy `.*?` (or `[\s\S]*?`) between the same delimiters;
- `LinkScan`: the two greedy negated classes of the link pattern;
- `LiteralScan` and `DigitScan`: the fixed strings and the `([1-6])`
  clean-ups.

The `i` flag is modelled as ASCII case folding.

Each sitemap document is written as the template produces it; the proofs
then read it back. `ElementTexts(doc, "<loc>")` is the list of texts that
follow each `<loc>` tag up to the next `<`. The read-back lemmas state what
a crawler sees:

- how many `<url>` blocks there are;
- the location, stamp, frequency and priority of each block, in order;
- which posts are listed.

## Model

| member | source | states |
|---|---|---|
| Text.Trim | src/lib/blog-utils.ts:8 | `trim` leaves no whitespace at either end and never lengthens the string |
| Text.TrimSlice | src/lib/blog-utils.ts:8 | what `trim` keeps is one contiguous piece of the input, starting where the leading whitespace ends |
| Text.TrimDropsWhitespace | src/lib/blog-utils.ts:8 | every character `trim` drops, before or after the kept piece, is whitespace |
| Text.TrimStart | src/lib/blog-utils.ts:8 | the leading run of whitespace is dropped: the result is a suffix of the input that does not start with whitespace, and every dropped character is whitespace |
| Text.TrimEnd | src/lib/blog-utils.ts:8 | the trailing run of whitespace is dropped: the result is a prefix of the input that does not end with whitespace, and every dropped character is whitespace |
| Text.TrimIdempotent | src/components/PostEditor.tsx:44 | trimming twice is trimming once |
| Text.TrimEmptyIff | src/components/PostEditor.tsx:55 | `trim` gives the empty string exactly when every character is whitespace |
| Text.SplitWhitespace | src/lib/blog-utils.ts:23 | `split(/\s+/)` yields at least one piece and no piece holds whitespace |
| Text.SplitWordThenRest | src/lib/blog-utils.ts:23 | a word, a non-empty run of whitespace and a rest that does not start with whitespace split as the word followed by the pieces of the rest |
| Text.SplitConcat | src/lib/blog-utils.ts:23 | for every input, the pieces laid end to end are the input with its whitespace removed, in order |
| Text.WordsOf | src/lib/blog-utils.ts:23 | the reference words of a string, its maximal runs of non-whitespace characters in order: each is non-empty and holds no whitespace |
| Text.SplitIsWords | src/lib/blog-utils.ts:23 | on trimmed, non-empty input `split(/\s+/)` yields exactly the words of the input |
| Text.SplitTrimmedPieces | src/lib/blog-utils.ts:23 | on trimmed, non-empty input every piece is non-empty |
| Text.WordsOfTrim | src/lib/blog-utils.ts:23 | `trim` keeps the words of the input |
| Text.SplitSingleWord | src/lib/blog-utils.ts:23 | a string without whitespace is one piece |
| Text.StrLess | src/lib/blog-utils.ts:41 | the default `sort()` comparison: lexicographic order on characters, with a proper prefix first; its order laws are stated by the three lemmas below |
| Text.StrLessTotal | src/lib/blog-utils.ts:41 | the default `sort()` order relates any two distinct strings |
| Text.StrLessTransitive | src/lib/blog-utils.ts:41 | the default string order is transitive |
| Text.StrictlyAscendingUnique | src/lib/blog-utils.ts:41 | a strictly ascending string list is determined by its set of elements |
| Text.Join | src/lib/sitemap.ts:26 | `join` of no parts is empty and of one part is that part |
| Text.JoinAppend | src/lib/sitemap.ts:26 | joining two non-empty lists of parts is joining each, with one separator between them |
| Text.JoinLength | src/lib/sitemap.ts:26 | the joined string is as long as all parts together plus one separator between each two neighbours |
| Seqs.Filter | src/App.tsx:21 | `filter`: the result holds only elements that satisfy the predicate, holds every element of the input that does, and is never longer than the input |
| Seqs.FilterMultiset | src/App.tsx:21 | `filter` keeps every element that satisfies the predicate as often as it occurs in the input, and no other |
| Seqs.FindFirst | src/data/posts.ts:610-612 | `find`/`findIndex`: the first index whose element satisfies the predicate, or -1 exactly when none does |
| Types.PublishedPosts | src/App.tsx:21 | `filter(post => post.published)` keeps exactly the published posts, in collection order |
| BlogUtils.StripMarkup | src/lib/blog-utils.ts:8 | removing `#`, `*` and backquote leaves none of them, keeps every other character in its order, and shortens the text by exactly the number of markup characters |
| BlogUtils.NewlinesToSpaces | src/lib/blog-utils.ts:8 | every line feed becomes a space and every other character stays in place |
| BlogUtils.ExcerptText | src/lib/blog-utils.ts:8 | the excerpt source holds no markup character or line feed and is trimmed |
| BlogUtils.Truncate | src/lib/blog-utils.ts:9 | the truncated text is the first `n` characters followed by `...` |
| BlogUtils.GenerateExcerpt | src/lib/blog-utils.ts:7-10 | the excerpt is the whole cleaned text when it fits `maxLength`, else its first `maxLength` characters plus `...`; it is never longer than `maxLength + 3` |
| BlogUtils.ExcerptTextOfClean | src/lib/blog-utils.ts:8 | clean, trimmed text is its own excerpt source |
| BlogUtils.ExcerptIdempotent | src/lib/blog-utils.ts:7-10 | an excerpt that was not cut is a fixed point of `generateExcerpt` |
| BlogUtils.WordCount | src/lib/blog-utils.ts:23 | the word count is at least one |
| BlogUtils.CalculateReadingTime | src/lib/blog-utils.ts:21-25 | the reading time is the least whole number of minutes covering the words at 200 per minute, and at least one |
| BlogUtils.BlankReadingTime | src/lib/blog-utils.ts:23-24 | blank content counts one word and one minute |
| BlogUtils.WordCountIsWords | src/lib/blog-utils.ts:23 | for every content the word count is the number of its words, or one when it has none |
| BlogUtils.ReadingTimeOfWords | src/lib/blog-utils.ts:21-25 | for every content the reading time is the least number of minutes covering its words at 200 per minute, and one minute exactly when it has at most 200 words |
| BlogUtils.InsertByDate | src/lib/blog-utils.ts:28 | one insertion adds exactly that post to the sorted list |
| BlogUtils.SortByDate | src/lib/blog-utils.ts:28 | the newest-first sort is a permutation of its input |
| BlogUtils.SortByDateSorted | src/lib/blog-utils.ts:28 | the sorted list has non-increasing `createdAt` |
| BlogUtils.SortByDateStable | src/lib/blog-utils.ts:28 | posts with equal `createdAt` keep their input order |
| BlogUtils.ShiftOlder | src/lib/blog-utils.ts:28 | the shift loop moves exactly the run of posts older than the one being placed one slot right, leaves the rest of the array alone and stops at a post that is not older |
| BlogUtils.InsertStep | src/lib/blog-utils.ts:28 | one pass of the in-place insertion loop leaves the prefix equal to the specification's insertion and the rest untouched |
| BlogUtils.SortPostsByDate | src/lib/blog-utils.ts:27-29 | sorting a copy yields the stable newest-first order: sorted and a permutation of the posts |
| BlogUtils.FilterPostsByTag | src/lib/blog-utils.ts:31-34 | the empty tag returns the posts unchanged; otherwise the posts carrying the tag, in order, each as often as it occurs in the input and no other post |
| BlogUtils.SetAdd | src/lib/blog-utils.ts:39 | `Set.add` keeps the elements distinct and adds exactly the new tag |
| BlogUtils.SetAddAll | src/lib/blog-utils.ts:39 | adding a post's tags keeps the set distinct and adds exactly those tags |
| BlogUtils.CollectTags | src/lib/blog-utils.ts:37-40 | the filled set holds each tag of some post exactly once |
| BlogUtils.InsertString | src/lib/blog-utils.ts:41 | one string insertion adds exactly that string |
| BlogUtils.InsertStringAscending | src/lib/blog-utils.ts:41 | inserting into an ascending list keeps it ascending |
| BlogUtils.SortStrings | src/lib/blog-utils.ts:41 | `sort()` is an ascending permutation, strictly ascending when the input has no duplicates |
| BlogUtils.AllTags | src/lib/blog-utils.ts:36-42 | the tag list is strictly ascending and holds exactly the tags that occur on some post |
| BlogUtils.AddEach | src/lib/blog-utils.ts:39 | the inner loop adds the post's tags to the set in order |
| BlogUtils.GetAllTags | src/lib/blog-utils.ts:36-42 | the loops over posts and tags produce the sorted, duplicate-free list of every tag used |
| BlogUtils.AllTagsExample | src/lib/blog-utils.ts:36-42 | tags `b, a` and `a, c` give `a, b, c` |
| App.Upsert | src/App.tsx:28-38 | saving puts the post in the collection and grows it by at most one |
| App.UpsertReplacesFirstMatch | src/App.tsx:30-34 | a post whose id occurs replaces the post at the first index with that id and nothing else changes |
| App.UpsertAppendsNew | src/App.tsx:36 | a post with a new id is appended at the end |
| App.RemoveById | src/App.tsx:40-42 | deleting keeps exactly the posts with another id, in order, and changes nothing when no post has the id |
| App.UpsertKeepsDistinctIds | src/App.tsx:28-38 | saving keeps ids pairwise distinct |
| App.UpsertIdempotent | src/App.tsx:28-38 | saving the same post twice equals saving it once |
| App.DeleteUndoesInsert | src/App.tsx:28-42 | saving a new post and then deleting its id restores the collection |
| App.RemoveByIdCount | src/App.tsx:41 | the kept posts and the posts with the deleted id add up to the whole collection |
| App.DraftPosts | src/App.tsx:22 | the drafts are exactly the unpublished posts |
| App.PublishedDraftPartition | src/App.tsx:21-22 | published posts and drafts split the collection, each in order, with no post in both |
| App.CurrentPosts | src/App.tsx:24 | the drafts when drafts are shown, else the published posts; stated by FilteredPostsSelection |
| App.FilteredPosts | src/App.tsx:24-25 | the displayed list is sorted newest first and is a permutation of the tag-filtered current list |
| App.FilteredPostsSelection | src/App.tsx:24-25 | a post is displayed exactly when it is in the collection, in the chosen partition and matches the tag (any tag when none is selected) |
| App.DraftTagsListed | src/App.tsx:26 | the tag bar includes tags carried only by drafts |
| App.PostRepository.constructor | src/App.tsx:14 | the stored collection starts empty |
| App.PostRepository.Save | src/App.tsx:28-38 | the new collection is the save (upsert) of the post into the old one |
| App.PostRepository.Delete | src/App.tsx:40-42 | the new collection is the old one without that id |
| App.PostRepository.View | src/App.tsx:21-26 | a render derives the displayed list and the tag bar from the collection |
| PostEditor.AddedTag | src/components/PostEditor.tsx:43-48 | a non-blank, new trimmed tag is appended and the input cleared; otherwise nothing changes; a valid tag list stays valid |
| PostEditor.RemovedTag | src/components/PostEditor.tsx:50-52 | removing drops every copy of the tag, keeps every other tag in order and as often as it occurs, and keeps the list valid |
| PostEditor.EditsKeepTagsValid | src/components/PostEditor.tsx:43-52 | no sequence of typing, add and remove actions creates a blank, untrimmed or duplicate tag |
| PostEditor.BuildRecord | src/components/PostEditor.tsx:54-67 | the record a save produces, or none for a blank title or content; stated by BlankIsRejected, SavedRecordFields and SavedRecordIdentity |
| PostEditor.BlankIsRejected | src/components/PostEditor.tsx:55 | nothing is saved exactly when the title or the content is all whitespace |
| PostEditor.SavedRecordFields | src/components/PostEditor.tsx:57-67 | a saved record has trimmed non-empty title and content, the excerpt of that content, the form's tags, `updatedAt = now` and the button's flag |
| PostEditor.SavedRecordIdentity | src/components/PostEditor.tsx:59-64 | an edited post's id and creation time are kept when present; otherwise the fresh id and `now` are used |
| PostEditor.EditReplacesInPlace | src/components/PostEditor.tsx:59-69 | saving an edit replaces that post in place in the collection, keeping its id and creation time |
| PostEditor.NewPostAppended | src/components/PostEditor.tsx:59-69 | saving a new post with an unused id appends it, created and updated now |
| PostEditor.Editor.constructor | src/components/PostEditor.tsx:22-26 | the form starts blank and unpublished |
| PostEditor.Editor.Open | src/components/PostEditor.tsx:28-41 | opening with a post loads its fields and keeps the tag input; opening without one clears the form |
| PostEditor.Editor.SetTitle | src/components/PostEditor.tsx:102 | only the title changes |
| PostEditor.Editor.SetContent | src/components/PostEditor.tsx:113 | only the content changes |
| PostEditor.Editor.SetNewTag | src/components/PostEditor.tsx:125 | only the tag input changes |
| PostEditor.Editor.AddTag | src/components/PostEditor.tsx:43-48 | the tag list and input change as `AddedTag` says; nothing else changes |
| PostEditor.Editor.RemoveTag | src/components/PostEditor.tsx:50-52 | the tag list changes as `RemovedTag` says; nothing else changes |
| PostEditor.Editor.KeyDown | src/components/PostEditor.tsx:73-78 | Enter with a non-blank input adds the tag; any other key changes nothing |
| PostEditor.Editor.Save | src/components/PostEditor.tsx:54-71 | the record handed on is `BuildRecord` of the form, or none when it is blank |
| Markdown.LineLength | src/components/MarkdownRenderer.tsx:11-13 | `.*` stops at the first line terminator or the end |
| Markdown.HeaderScan | src/components/MarkdownRenderer.tsx:11-13 | the `^marker(.*$)` pass with the `m` flag; its behaviour is stated by HeaderLine and HeaderSkip |
| Markdown.HeaderLine | src/components/MarkdownRenderer.tsx:11-13 | a line starting with the marker at a line start becomes open tag, rest of the line, close tag |
| Markdown.HeaderSkip | src/components/MarkdownRenderer.tsx:11-13 | text without the marker's first character passes a heading pass unchanged |
| Markdown.FindClose | src/components/MarkdownRenderer.tsx:16-21 | a closing delimiter that is found lies wholly within the text |
| Markdown.FindCloseFirst | src/components/MarkdownRenderer.tsx:16-21 | a returned position is the first one at which the delimiter starts with no line terminator before it (unless `[\s\S]`), the laziness of `.*?`; `None` exactly when no position qualifies |
| Markdown.FindCloseAfter | src/components/MarkdownRenderer.tsx:16-21 | a closing delimiter right after inner text that holds no first character of the delimiter (and no line terminator, unless `[\s\S]`) is found there |
| Markdown.FindCloseOccurs | src/components/MarkdownRenderer.tsx:16-21 | a found closing delimiter really occurs at the reported position |
| Markdown.DelimScan | src/components/MarkdownRenderer.tsx:16-21 | the delimited-span pass; its behaviour is stated by DelimSpan, DelimSkip and FindCloseFirst |
| Markdown.DelimSpan | src/components/MarkdownRenderer.tsx:16-21 | `d inner d` becomes open tag, inner text, close tag, once the inner text has no delimiter character (and no line break without `[\s\S]`) |
| Markdown.DelimSkip | src/components/MarkdownRenderer.tsx:16-21 | text without the delimiter's first character passes a span pass unchanged |
| Markdown.FindCloseBlocked | src/components/MarkdownRenderer.tsx:16-17 | with `.` no closing delimiter is found behind a line break |
| Markdown.LinkAt | src/components/MarkdownRenderer.tsx:24 | a link match is non-empty and lies within the text |
| Markdown.LinkAtShape | src/components/MarkdownRenderer.tsx:24 | a link match is `[text](url)` at the head, with non-empty, `]`-free text and non-empty, `)`-free url, and its length is that of the matched text |
| Markdown.LinkAtOfPrefix | src/components/MarkdownRenderer.tsx:24 | conversely, any such `[text](url)` at the head is matched as that link, so no match means no such prefix |
| Markdown.LinkScan | src/components/MarkdownRenderer.tsx:24 | the link pass; its behaviour is stated by LinkSpan and LinkSkip |
| Markdown.LinkSpan | src/components/MarkdownRenderer.tsx:24 | `[label](url)` becomes an anchor with that target and label |
| Markdown.LinkSkip | src/components/MarkdownRenderer.tsx:24 | text without `[` passes the link pass unchanged |
| Markdown.LiteralScan | src/components/MarkdownRenderer.tsx:27-38 | the fixed-pattern passes, compared case-insensitively; stated by LiteralHitAt, LiteralKeepsAbsent and LiteralRemovesChar |
| Markdown.LiteralHitAt | src/components/MarkdownRenderer.tsx:27-38 | an occurrence of the pattern at the head is replaced and the scan continues behind it |
| Markdown.LiteralKeepsAbsent | src/components/MarkdownRenderer.tsx:27-38 | a character absent from the text and the replacement stays absent |
| Markdown.LiteralRemovesChar | src/components/MarkdownRenderer.tsx:28 | replacing a one-character pattern leaves none of it |
| Markdown.DigitScan | src/components/MarkdownRenderer.tsx:35-36 | the `([1-6])` heading clean-ups; stated by DigitHit and DigitKeepsAbsent |
| Markdown.DigitHit | src/components/MarkdownRenderer.tsx:35-36 | `<p><hN>` and `</hN></p>` lose their paragraph tag and keep the level digit |
| Markdown.DigitKeepsAbsent | src/components/MarkdownRenderer.tsx:35-36 | the heading clean-ups introduce no character that is not in their replacements |
| Markdown.Headings | src/components/MarkdownRenderer.tsx:11-13 | the three heading passes, deepest level first |
| Markdown.Emphasis | src/components/MarkdownRenderer.tsx:16-17 | bold before italic; stated by BoldBeforeItalic and ItalicAfterBold |
| Markdown.Code | src/components/MarkdownRenderer.tsx:20-21 | fenced blocks before inline code; stated by FencedBeforeInline |
| Markdown.Inline | src/components/MarkdownRenderer.tsx:11-24 | headings, emphasis, code and links in source order; stated by InlinePlain |
| Markdown.Breaks | src/components/MarkdownRenderer.tsx:27-28 | blank lines become paragraph breaks and other line feeds `<br>` |
| Markdown.Cleanup | src/components/MarkdownRenderer.tsx:34-38 | the five clean-up passes in source order |
| Markdown.Render | src/components/MarkdownRenderer.tsx:9-41 | `renderContent`; RenderContent proves the reassignment chain equal to it, and the MarkdownFacts lemmas state its output |
| Markdown.RenderContent | src/components/MarkdownRenderer.tsx:9-41 | the sixteen reassignments in order yield `Render(content)`, which holds no line feed |
| Markdown.RenderNoNewline | src/components/MarkdownRenderer.tsx:27-28 | no line feed survives the rendering |
| MarkdownFacts.RenderEmpty | src/components/MarkdownRenderer.tsx:31-34 | empty content renders as the empty string |
| MarkdownFacts.InlinePlain | src/components/MarkdownRenderer.tsx:11-24 | text without `#`, `*`, backquote or `[` passes the inline passes unchanged |
| MarkdownFacts.RenderPlain | src/components/MarkdownRenderer.tsx:9-41 | one line of plain text becomes one paragraph |
| MarkdownFacts.BoldBeforeItalic | src/components/MarkdownRenderer.tsx:16-17 | `**a**` becomes bold and the italic pass leaves it alone |
| MarkdownFacts.BoldMissesSingle | src/components/MarkdownRenderer.tsx:16 | the bold pass leaves `*a*` alone |
| MarkdownFacts.ItalicAfterBold | src/components/MarkdownRenderer.tsx:16-17 | `*a*` becomes italic |
| MarkdownFacts.BoldPairAlone | src/components/MarkdownRenderer.tsx:16 | `**` alone opens no span |
| MarkdownFacts.BoldStopsAtLineEnd | src/components/MarkdownRenderer.tsx:16 | bold does not reach across a line break |
| MarkdownFacts.FencedBeforeInline | src/components/MarkdownRenderer.tsx:20-21 | a fenced block may span lines and the inline-code pass leaves it alone |
| MarkdownFacts.RenderHeadingAndParagraph | src/components/MarkdownRenderer.tsx:9-41 | a heading, a blank line and a paragraph with bold text render as the heading outside any paragraph followed by the paragraph |
| MarkdownFacts.RenderFencedBlock | src/components/MarkdownRenderer.tsx:20-38 | a fenced block renders as `<pre><code>…</code></pre>` outside any paragraph |
| SeedPosts.PostByIdOf | src/data/posts.ts:610-612 | the lookup finds the first post with the id, drafts included, and nothing exactly when no post has it |
| SeedPosts.PostsByTagOf | src/data/posts.ts:614-618 | the published posts carrying the tag, in order, each as often as it occurs in the input and no other post |
| SeedPosts.PostsByTagIsFilteredPublished | src/data/posts.ts:614-618 | for a non-empty tag the query equals the tag filter over the published posts |
| SeedPosts.PublishedTagsOf | src/data/posts.ts:620-628 | the tag list is strictly ascending and holds exactly the tags of published posts |
| SeedPosts.PublishedTagsExactly | src/data/posts.ts:620-628 | a tag is listed exactly when some published post carries it |
| SeedPosts.DraftOnlyTagsExcluded | src/data/posts.ts:623 | a tag carried only by drafts is not listed |
| SeedPosts.CollectPublishedTags | src/data/posts.ts:620-628 | the loops over the posts fill the set with the published posts' tags and sort it |
| SeedPosts.GetAllTags | src/data/posts.ts:620-628 | `getAllTags()` is the published tag list of the seeds |
| SeedPosts.GetAllPosts | src/data/posts.ts:606-608 | `getAllPosts()`; stated by AllSeedsListed |
| SeedPosts.GetPostById | src/data/posts.ts:610-612 | `getPostById(id)` over the seeds; stated by PostByIdOf and SeedLookup |
| SeedPosts.GetPostsByTag | src/data/posts.ts:614-618 | `getPostsByTag(tag)` over the seeds; stated by PostsByTagOf |
| SeedPosts.SeedFacts | src/data/posts.ts:3-604 | there are five seeds with distinct ids, all published, each updated when created |
| SeedPosts.AllSeedsListed | src/data/posts.ts:606-608 | `getAllPosts()` returns every seed in array order |
| SeedPosts.LookupDistinct | src/data/posts.ts:610-612 | in a collection with distinct ids, looking up a post's id finds that post |
| SeedPosts.SeedLookup | src/data/posts.ts:610-612 | looking up a seed's id finds that seed |
| SitemapXml.Urlset | src/lib/sitemap.ts:7-27 | the document both serialisers write; stated by UrlsetReadsBack, UrlsetStart and UrlsetEnd |
| SitemapXml.UrlXmlText | src/lib/sitemap.ts:21-26 | a `<url>` block is the five-line template with the entry's four fields |
| SitemapXml.UrlsetReadsBack | src/lib/sitemap.ts:7-27 | reading any field of the document back gives that field of each entry in order, and the document holds one `<url>` per entry |
| SitemapXml.UrlsetStart | src/lib/sitemap.ts:7-8 | the document opens with the XML declaration and the `urlset` tag of the sitemap namespace |
| SitemapXml.UrlsetEnd | src/lib/sitemap.ts:27 | the document closes with `</urlset>` |
| SitemapXml.ElementTextsCount | src/lib/sitemap.ts:7-27 | the reader yields one text per occurrence of the tag |
| Sitemap.LastModified | src/lib/sitemap.ts:23 | `updatedAt || createdAt`; stated by SitemapLastModified |
| Sitemap.PostEntry | src/lib/sitemap.ts:21-25 | the entry of one published post; stated by SitemapLocations, SitemapLastModified and SitemapSchedule |
| Sitemap.GenerateSitemap | src/lib/sitemap.ts:4-30 | `generateSitemap(posts)`; stated by the lemmas below |
| Sitemap.SitemapReadsBack | src/lib/sitemap.ts:4-30 | the sitemap reads back as the root, the index and one entry per published post in collection order, with `2 + published` blocks |
| Sitemap.SitemapLocations | src/lib/sitemap.ts:10-22 | the locations are the site URL, `/posts`, then `/post/<id>` of each published post |
| Sitemap.SitemapLastModified | src/lib/sitemap.ts:11-23 | the root and index carry the generation time; a post carries `updatedAt`, or `createdAt` when that is empty |
| Sitemap.SitemapSchedule | src/lib/sitemap.ts:12-25 | weekly 1.0 and weekly 0.8 for the root and index, monthly 0.6 for every post |
| Sitemap.DraftsNotListed | src/lib/sitemap.ts:5 | with distinct ids, a post's location is listed exactly when it is published |
| Sitemap.SitemapFrame | src/lib/sitemap.ts:7-27 | the sitemap is framed by the declaration, the `urlset` start tag and its end tag |
| SitemapRoute.RouteEntry | src/pages/sitemap.xml.ts:22-26 | the entry of one post; stated by RouteLocationsAndStamps and RouteSchedule |
| SitemapRoute.RouteSitemapOf | src/pages/sitemap.xml.ts:8-28 | the route body over a given post list; stated by RouteReadsBack |
| SitemapRoute.RouteSitemap | src/pages/sitemap.xml.ts:4-28 | the body `GET` returns, over `getAllPosts()`; stated by RouteOfSeeds |
| SitemapRoute.RouteReadsBack | src/pages/sitemap.xml.ts:8-28 | the route body reads back as the two fixed entries and one entry per post in list order, with `2 + posts` blocks |
| SitemapRoute.RouteLocationsAndStamps | src/pages/sitemap.xml.ts:6-24 | posts sit under `/posts/` of the fixed site and carry `updatedAt` as it is, with no fallback |
| SitemapRoute.RouteSchedule | src/pages/sitemap.xml.ts:13-26 | weekly 1.0 and weekly 0.8 for the fixed entries, monthly 0.7 for every post |
| SitemapRoute.RouteOfSeeds | src/pages/sitemap.xml.ts:5 | over the seed collection the route lists one block for the root, one for the index and then one for every seed, in seed order under `/posts/<id>` |
| SitemapRoute.RouteFrame | src/pages/sitemap.xml.ts:8-28 | the route body is framed by the declaration and the `urlset` tags |

## Left out

- `generateId` (src/lib/blog-utils.ts:3-5) reads the clock and a random source; the editor takes its value as the parameter `freshId`.
- `formatDate` (src/lib/blog-utils.ts:12-19) depends on locale data of the JavaScript runtime (`toLocaleDateString`), which is not modelled.
- `new Date()` is the parameter `now`. `generateSitemap` and the route call it once per fixed entry; the model uses one reading for both.
- Date parsing: times are compared as ISO strings, and `new Date(s).toISOString()` is taken to return `s`. So invalid dates (NaN ordering, and the throw for an empty stamp in the sitemap) are not modelled.
- `siteConfig.url` is the parameter `siteUrl`. The environment fallback in src/config/site.ts is not modelled.
- Strings are sequences of code points, not UTF-16 code units. So lengths in `substring` and the excerpt differ for characters outside the Basic Multilingual Plane.
- Text.StrLess: compares code points, while the default `sort()` compares UTF-16 code units. The two orders differ only between a character above U+FFFF and one from U+E000 to U+FFFF. For example, `sort()` puts "😀" (code units 0xD83D 0xDE00) before "\uFFFD", and the model puts it after. This affects the tag lists of `BlogUtils.SortStrings`, `BlogUtils.AllTags`, `BlogUtils.GetAllTags`, `SeedPosts.PublishedTagsOf` and `SeedPosts.GetAllTags` for such tags.
- The `i` flag is modelled as ASCII case folding. This is exact for the patterns used, whose letters are ASCII.
- Not modelled:
  - storage (`useKV`) beyond the collection field;
  - React rendering, dialogs and routing;
  - the hooks in src/hooks;
  - `downloadSitemap` (browser file download);
  - the `Response` wrapper of the route.
- The optional `author` and `readingTime` fields of src/data/types.ts are not modelled.
- The seed bodies and excerpts are abbreviated to the empty string; ids, titles, tags, stamps and flags are as in the source.
- Sitemap.SitemapReadsBack: requires that the site URL, the time and post ids and stamps hold no `<`. Otherwise the text reader cannot separate fields; the writer itself has no such restriction.
- SitemapRoute.RouteReadsBack: the same `<`-free condition as the browser sitemap.
- BlogUtils.CalculateReadingTime: follows the code, so empty content still counts one word and one minute.
- SeedPosts.GetPostsByTag: for the empty tag it selects only published posts that carry the empty string as a tag, while `filterPostsByTag` returns all posts. The model keeps both behaviours, and `PostsByTagIsFilteredPublished` relates them for non-empty tags only.
