/** `generateSitemap` of `src/lib/sitemap.ts`: the site root, the post
    index, then one entry per published post under `/post/`. */
module Sitemap {
  import opened Text
  import opened Types
  import opened SitemapXml

  /** `post.updatedAt || post.createdAt`. The `Date` round trip is the
      identity on the normalised stamps of the model. */
  function LastModified(p: BlogPost): Timestamp
  {
    if p.updatedAt != "" then p.updatedAt else p.createdAt
  }

  function HomeEntry(siteUrl: string, now: Timestamp): UrlEntry
  {
    UrlEntry(siteUrl, now, "weekly", "1.0")
  }

  function IndexEntry(siteUrl: string, now: Timestamp): UrlEntry
  {
    UrlEntry(siteUrl + "/posts", now, "weekly", "0.8")
  }

  function PostEntry(siteUrl: string, p: BlogPost): UrlEntry
  {
    UrlEntry(siteUrl + "/post/" + p.id, LastModified(p), "monthly", "0.6")
  }

  /** `publishedPosts.map(...)`. */
  function PostEntries(siteUrl: string, posts: seq<BlogPost>): (r: seq<UrlEntry>)
    ensures |r| == |posts|
    ensures forall k :: 0 <= k < |posts| ==> r[k] == PostEntry(siteUrl, posts[k])
  {
    if posts == [] then [] else [PostEntry(siteUrl, posts[0])] + PostEntries(siteUrl, posts[1..])
  }

  /** The entries of the document, in order. */
  function Entries(siteUrl: string, now: Timestamp, posts: seq<BlogPost>): seq<UrlEntry>
  {
    [HomeEntry(siteUrl, now), IndexEntry(siteUrl, now)] + PostEntries(siteUrl, PublishedPosts(posts))
  }

  /** `generateSitemap(posts)`, with `siteConfig.url` as `siteUrl` and the
      clock reading `new Date().toISOString()` as `now`: the entries of the
      published posts are indented by two spaces and joined by a line
      feed. */
  function GenerateSitemap(siteUrl: string, now: Timestamp, posts: seq<BlogPost>): string
  {
    Urlset(HomeEntry(siteUrl, now), IndexEntry(siteUrl, now), "  ", "\n", PostEntries(siteUrl, PublishedPosts(posts)))
  }

  lemma PostEntryPlain(siteUrl: string, p: BlogPost)
    requires NoMarkup(siteUrl) && PostNoMarkup(p)
    ensures EntryNoMarkup(PostEntry(siteUrl, p))
  {
    assert '<' !in "/post/";
    assert PostEntry(siteUrl, p).loc == siteUrl + "/post/" + p.id;
  }

  lemma EntriesPlain(siteUrl: string, posts: seq<BlogPost>)
    requires NoMarkup(siteUrl) && PostsNoMarkup(posts)
    ensures EntriesNoMarkup(PostEntries(siteUrl, PublishedPosts(posts)))
  {
    var published := PublishedPosts(posts);
    var es := PostEntries(siteUrl, published);
    forall k | 0 <= k < |es|
      ensures EntryNoMarkup(es[k])
    {
      assert published[k] in posts;
      var i :| 0 <= i < |posts| && posts[i] == published[k];
      PostEntryPlain(siteUrl, published[k]);
    }
  }

  /** Reading the document back gives, field by field, the entries of the
      root, the index and each published post in collection order, and the
      document holds one `<url>` block for each of them. */
  lemma SitemapReadsBack(siteUrl: string, now: Timestamp, posts: seq<BlogPost>, f: Field)
    requires NoMarkup(siteUrl) && NoMarkup(now) && PostsNoMarkup(posts)
    ensures ElementTexts(GenerateSitemap(siteUrl, now, posts), OpenTag(f)) == FieldTexts(Entries(siteUrl, now, posts), f)
    ensures Occurrences(GenerateSitemap(siteUrl, now, posts), "<url>") == 2 + |PublishedPosts(posts)|
  {
    EntriesPlain(siteUrl, posts);
    UrlsetReadsBack(HomeEntry(siteUrl, now), IndexEntry(siteUrl, now), "  ", "\n", PostEntries(siteUrl, PublishedPosts(posts)), f);
  }

  /** The locations: the root, `/posts`, then `/post/<id>` of each
      published post. */
  lemma SitemapLocations(siteUrl: string, now: Timestamp, posts: seq<BlogPost>)
    requires NoMarkup(siteUrl) && NoMarkup(now) && PostsNoMarkup(posts)
    ensures var locs := ElementTexts(GenerateSitemap(siteUrl, now, posts), "<loc>");
      var published := PublishedPosts(posts);
      |locs| == 2 + |published| && locs[0] == siteUrl && locs[1] == siteUrl + "/posts" &&
      forall k :: 0 <= k < |published| ==> locs[k + 2] == siteUrl + "/post/" + published[k].id
  {
    SitemapReadsBack(siteUrl, now, posts, Loc);
  }

  /** The root and the index carry the generation time; a post carries its
      update stamp, or its creation stamp when the update stamp is empty. */
  lemma SitemapLastModified(siteUrl: string, now: Timestamp, posts: seq<BlogPost>)
    requires NoMarkup(siteUrl) && NoMarkup(now) && PostsNoMarkup(posts)
    ensures var mods := ElementTexts(GenerateSitemap(siteUrl, now, posts), "<lastmod>");
      var published := PublishedPosts(posts);
      |mods| == 2 + |published| && mods[0] == now && mods[1] == now &&
      forall k :: 0 <= k < |published| ==>
        mods[k + 2] == (if published[k].updatedAt != "" then published[k].updatedAt else published[k].createdAt)
  {
    SitemapReadsBack(siteUrl, now, posts, Lastmod);
  }

  /** The root and the index are weekly with priorities 1.0 and 0.8; every
      post is monthly with priority 0.6. */
  lemma SitemapSchedule(siteUrl: string, now: Timestamp, posts: seq<BlogPost>)
    requires NoMarkup(siteUrl) && NoMarkup(now) && PostsNoMarkup(posts)
    ensures var doc := GenerateSitemap(siteUrl, now, posts);
      var freqs := ElementTexts(doc, "<changefreq>");
      var prios := ElementTexts(doc, "<priority>");
      |freqs| == |prios| == 2 + |PublishedPosts(posts)| &&
      freqs[0] == freqs[1] == "weekly" && prios[0] == "1.0" && prios[1] == "0.8" &&
      forall k :: 2 <= k < |freqs| ==> freqs[k] == "monthly" && prios[k] == "0.6"
  {
    SitemapReadsBack(siteUrl, now, posts, Changefreq);
    SitemapReadsBack(siteUrl, now, posts, Priority);
  }

  /** A draft's location is never listed, while every published post's is. */
  lemma DraftsNotListed(siteUrl: string, now: Timestamp, posts: seq<BlogPost>, p: BlogPost)
    requires NoMarkup(siteUrl) && NoMarkup(now) && PostsNoMarkup(posts)
    requires DistinctIds(posts) && p in posts
    ensures siteUrl + "/post/" + p.id in ElementTexts(GenerateSitemap(siteUrl, now, posts), "<loc>") <==> p.published
  {
    SitemapLocations(siteUrl, now, posts);
    var locs := ElementTexts(GenerateSitemap(siteUrl, now, posts), "<loc>");
    var published := PublishedPosts(posts);
    var target := siteUrl + "/post/" + p.id;
    var b :| 0 <= b < |posts| && posts[b] == p;
    if p.published {
      var k :| 0 <= k < |published| && published[k] == p;
      assert locs[k + 2] == target;
    } else {
      forall j | 0 <= j < |locs|
        ensures locs[j] != target
      {
        if j == 0 {
          assert |locs[j]| < |target|;
        } else if j == 1 {
          assert locs[j][|siteUrl| + 5] == 's';
          assert target[|siteUrl| + 5] == '/';
        } else {
          var q := published[j - 2];
          var a :| 0 <= a < |posts| && posts[a] == q;
          assert q.published;
          assert a != b;
          assert IdOf(posts[a]) != IdOf(posts[b]);
          var pre := siteUrl + "/post/";
          assert locs[j] == pre + q.id;
          assert target == pre + p.id;
          assert locs[j][|pre|..] == q.id;
          assert target[|pre|..] == p.id;
        }
      }
    }
  }

  /** The document is a `urlset` of the sitemap protocol. */
  lemma SitemapFrame(siteUrl: string, now: Timestamp, posts: seq<BlogPost>)
    ensures StartsWith(GenerateSitemap(siteUrl, now, posts), XmlDeclaration + "\n" + UrlsetOpen + "\n")
    ensures EndsWith(GenerateSitemap(siteUrl, now, posts), "\n" + UrlsetClose)
  {
    UrlsetStart(HomeEntry(siteUrl, now), IndexEntry(siteUrl, now), "  ", "\n", PostEntries(siteUrl, PublishedPosts(posts)));
    UrlsetEnd(HomeEntry(siteUrl, now), IndexEntry(siteUrl, now), "  ", "\n", PostEntries(siteUrl, PublishedPosts(posts)));
  }
}
