/** The sitemap route of `src/pages/sitemap.xml.ts`: the same two fixed
    entries, then one entry per post of `getAllPosts()` under `/posts/`. */
module SitemapRoute {
  import opened Text
  import opened Types
  import opened SitemapXml
  import SeedPosts

  const Site: string := "https://silentcommit.com"

  function RouteEntry(p: BlogPost): UrlEntry
  {
    UrlEntry(Site + "/posts/" + p.id, p.updatedAt, "monthly", "0.7")
  }

  /** `posts.map(...)`. */
  function RouteEntries(posts: seq<BlogPost>): (r: seq<UrlEntry>)
    ensures |r| == |posts|
    ensures forall k :: 0 <= k < |posts| ==> r[k] == RouteEntry(posts[k])
  {
    if posts == [] then [] else [RouteEntry(posts[0])] + RouteEntries(posts[1..])
  }

  function Entries(now: Timestamp, posts: seq<BlogPost>): seq<UrlEntry>
  {
    [UrlEntry(Site, now, "weekly", "1.0"), UrlEntry(Site + "/posts", now, "weekly", "0.8")] + RouteEntries(posts)
  }

  /** The route body over a given post list: the post entries start
      their own line unindented and are joined by a line feed and two
      spaces. */
  function RouteSitemapOf(now: Timestamp, posts: seq<BlogPost>): string
  {
    Urlset(UrlEntry(Site, now, "weekly", "1.0"), UrlEntry(Site + "/posts", now, "weekly", "0.8"), "", "\n  ", RouteEntries(posts))
  }

  /** The body that `GET` returns, with the clock reading
      `new Date().toISOString()` as `now`. */
  function RouteSitemap(now: Timestamp): string
  {
    RouteSitemapOf(now, SeedPosts.GetAllPosts())
  }

  lemma SitePlain()
    ensures NoMarkup(Site) && NoMarkup(Site + "/posts") && NoMarkup("/posts/")
  {
  }

  lemma EntriesPlain(posts: seq<BlogPost>)
    requires PostsNoMarkup(posts)
    ensures EntriesNoMarkup(RouteEntries(posts))
  {
    SitePlain();
    var es := RouteEntries(posts);
    forall k | 0 <= k < |es|
      ensures EntryNoMarkup(es[k])
    {
      assert PostNoMarkup(posts[k]);
      assert es[k].loc == Site + "/posts/" + posts[k].id;
    }
  }

  /** Reading the body back gives, field by field, the two fixed entries
      and then one entry per post in list order, and the body holds one
      `<url>` block for each. */
  lemma RouteReadsBack(now: Timestamp, posts: seq<BlogPost>, f: Field)
    requires NoMarkup(now) && PostsNoMarkup(posts)
    ensures ElementTexts(RouteSitemapOf(now, posts), OpenTag(f)) == FieldTexts(Entries(now, posts), f)
    ensures Occurrences(RouteSitemapOf(now, posts), "<url>") == 2 + |posts|
  {
    SitePlain();
    EntriesPlain(posts);
    UrlsetReadsBack(UrlEntry(Site, now, "weekly", "1.0"), UrlEntry(Site + "/posts", now, "weekly", "0.8"), "", "\n  ", RouteEntries(posts), f);
  }

  /** A post entry is located under `/posts/` of the fixed site and carries
      the post's update stamp as it is, with no fallback. */
  lemma RouteLocationsAndStamps(now: Timestamp, posts: seq<BlogPost>)
    requires NoMarkup(now) && PostsNoMarkup(posts)
    ensures var doc := RouteSitemapOf(now, posts);
      var locs := ElementTexts(doc, "<loc>");
      var mods := ElementTexts(doc, "<lastmod>");
      |locs| == |mods| == 2 + |posts| &&
      locs[0] == Site && locs[1] == Site + "/posts" && mods[0] == now && mods[1] == now &&
      forall k :: 0 <= k < |posts| ==> locs[k + 2] == Site + "/posts/" + posts[k].id && mods[k + 2] == posts[k].updatedAt
  {
    RouteReadsBack(now, posts, Loc);
    RouteReadsBack(now, posts, Lastmod);
  }

  /** The fixed entries are weekly with priorities 1.0 and 0.8; every post
      is monthly with priority 0.7. */
  lemma RouteSchedule(now: Timestamp, posts: seq<BlogPost>)
    requires NoMarkup(now) && PostsNoMarkup(posts)
    ensures var doc := RouteSitemapOf(now, posts);
      var freqs := ElementTexts(doc, "<changefreq>");
      var prios := ElementTexts(doc, "<priority>");
      |freqs| == |prios| == 2 + |posts| &&
      freqs[0] == freqs[1] == "weekly" && prios[0] == "1.0" && prios[1] == "0.8" &&
      forall k :: 2 <= k < |freqs| ==> freqs[k] == "monthly" && prios[k] == "0.7"
  {
    RouteReadsBack(now, posts, Changefreq);
    RouteReadsBack(now, posts, Priority);
  }

  lemma PostPlain(p: BlogPost, id: string, at: Timestamp)
    requires NoMarkup(id) && NoMarkup(at)
    requires p.id == id && p.createdAt == at && p.updatedAt == at
    ensures PostNoMarkup(p)
  {
  }

  // The seed identifiers and stamps hold no markup, one seed at a time.
  lemma Seed0Plain()
    ensures PostNoMarkup(SeedPosts.BlogPosts[0])
  {
    var id, at := "building-resilient-systems", "2024-01-15T10:00:00.000Z";
    assert NoMarkup(id) && NoMarkup(at);
    var p := SeedPosts.BlogPosts[0];
    assert p.id == id && p.createdAt == at && p.updatedAt == at;
    PostPlain(p, id, at);
  }

  lemma Seed1Plain()
    ensures PostNoMarkup(SeedPosts.BlogPosts[1])
  {
    var id, at := "typescript-patterns-real-world", "2024-01-20T14:30:00.000Z";
    assert NoMarkup(id) && NoMarkup(at);
    var p := SeedPosts.BlogPosts[1];
    assert p.id == id && p.createdAt == at && p.updatedAt == at;
    PostPlain(p, id, at);
  }

  lemma Seed2Plain()
    ensures PostNoMarkup(SeedPosts.BlogPosts[2])
  {
    var id, at := "react-performance-guide", "2024-01-25T09:15:00.000Z";
    assert NoMarkup(id) && NoMarkup(at);
    var p := SeedPosts.BlogPosts[2];
    assert p.id == id && p.createdAt == at && p.updatedAt == at;
    PostPlain(p, id, at);
  }

  lemma Seed3Plain()
    ensures PostNoMarkup(SeedPosts.BlogPosts[3])
  {
    var id, at := "microservices-lessons-learned", "2024-02-01T16:45:00.000Z";
    assert NoMarkup(id) && NoMarkup(at);
    var p := SeedPosts.BlogPosts[3];
    assert p.id == id && p.createdAt == at && p.updatedAt == at;
    PostPlain(p, id, at);
  }

  lemma Seed4Plain()
    ensures PostNoMarkup(SeedPosts.BlogPosts[4])
  {
    var id, at := "debugging-production-issues", "2024-02-10T11:20:00.000Z";
    assert NoMarkup(id) && NoMarkup(at);
    var p := SeedPosts.BlogPosts[4];
    assert p.id == id && p.createdAt == at && p.updatedAt == at;
    PostPlain(p, id, at);
  }

  lemma SeedsPlain()
    ensures PostsNoMarkup(SeedPosts.BlogPosts)
  {
    SeedPosts.SeedFacts();
    Seed0Plain();
    Seed1Plain();
    Seed2Plain();
    Seed3Plain();
    Seed4Plain();
  }

  /** The route lists the root, the index and every seed, in seed order. */
  lemma RouteOfSeeds(now: Timestamp)
    requires NoMarkup(now)
    ensures Occurrences(RouteSitemap(now), "<url>") == 2 + |SeedPosts.BlogPosts|
    ensures var locs := ElementTexts(RouteSitemap(now), "<loc>");
      |locs| == 2 + |SeedPosts.BlogPosts| &&
      forall k :: 0 <= k < |SeedPosts.BlogPosts| ==> locs[k + 2] == Site + "/posts/" + SeedPosts.BlogPosts[k].id
  {
    SeedPosts.AllSeedsListed();
    SeedsPlain();
    RouteLocations(now, SeedPosts.BlogPosts);
  }

  /** One `<url>` block and one location per listed post. */
  lemma RouteLocations(now: Timestamp, posts: seq<BlogPost>)
    requires NoMarkup(now) && PostsNoMarkup(posts)
    ensures Occurrences(RouteSitemapOf(now, posts), "<url>") == 2 + |posts|
    ensures var locs := ElementTexts(RouteSitemapOf(now, posts), "<loc>");
      |locs| == 2 + |posts| &&
      forall k :: 0 <= k < |posts| ==> locs[k + 2] == Site + "/posts/" + posts[k].id
  {
    RouteReadsBack(now, posts, Loc);
    var es := Entries(now, posts);
    assert |es| == 2 + |posts|;
    forall k | 0 <= k < |posts|
      ensures FieldOf(es[k + 2], Loc) == Site + "/posts/" + posts[k].id
    {
      assert es[k + 2] == RouteEntries(posts)[k];
    }
  }

  /** The route body is a `urlset` of the sitemap protocol. */
  lemma RouteFrame(now: Timestamp, posts: seq<BlogPost>)
    ensures StartsWith(RouteSitemapOf(now, posts), XmlDeclaration + "\n" + UrlsetOpen + "\n")
    ensures EndsWith(RouteSitemapOf(now, posts), "\n" + UrlsetClose)
  {
    UrlsetStart(UrlEntry(Site, now, "weekly", "1.0"), UrlEntry(Site + "/posts", now, "weekly", "0.8"), "", "\n  ", RouteEntries(posts));
    UrlsetEnd(UrlEntry(Site, now, "weekly", "1.0"), UrlEntry(Site + "/posts", now, "weekly", "0.8"), "", "\n  ", RouteEntries(posts));
  }
}
