/** The static seed collection of `src/data/posts.ts` and the queries over
    it. The queries are stated over any collection (`...Of`) and then
    instantiated with the seed array. */
module SeedPosts {
  import opened Wrappers
  import opened Seqs
  import opened Text
  import opened Types
  import BlogUtils

  /** A seed entry; bodies and excerpts are abbreviated to "" and every
      seed is published with `updatedAt == createdAt`. */
  function Seed(id: string, title: string, tags: seq<string>, at: Timestamp): BlogPost
  {
    BlogPost(id, title, "", "", tags, at, at, true)
  }

  /** `blogPosts`. */
  const BlogPosts: seq<BlogPost> := [
    Seed("building-resilient-systems",
         "Building Resilient Systems: Lessons from Production",
         ["Systems Design", "Production", "Architecture", "Best Practices"],
         "2024-01-15T10:00:00.000Z"),
    Seed("typescript-patterns-real-world",
         "TypeScript Patterns That Actually Matter in Real Projects",
         ["TypeScript", "Patterns", "Best Practices", "JavaScript"],
         "2024-01-20T14:30:00.000Z"),
    Seed("react-performance-guide",
         "React Performance: What Actually Matters",
         ["React", "Performance", "Optimization", "Frontend"],
         "2024-01-25T09:15:00.000Z"),
    Seed("microservices-lessons-learned",
         "Microservices: Hard-Won Lessons from 3 Years in Production",
         ["Microservices", "Architecture", "Production", "Lessons Learned"],
         "2024-02-01T16:45:00.000Z"),
    Seed("debugging-production-issues",
         "Debugging Production Issues: A Systematic Approach",
         ["Debugging", "Production", "DevOps", "Incident Response"],
         "2024-02-10T11:20:00.000Z")
  ]

  /** `find(post => post.id === id)`: drafts are not excluded. */
  function PostByIdOf(posts: seq<BlogPost>, id: string): (r: Option<BlogPost>)
    ensures r.None? <==> forall k :: 0 <= k < |posts| ==> posts[k].id != id
    ensures r.Some? ==> exists i :: 0 <= i < |posts| && posts[i] == r.value && r.value.id == id &&
                                    forall k :: 0 <= k < i ==> posts[k].id != id
  {
    var i := FindFirst(posts, SameId(id));
    assert forall k :: 0 <= k < |posts| ==> (SameId(id)(posts[k]) <==> posts[k].id == id);
    if i < 0 then None else Some(posts[i])
  }

  /** Selects the published posts carrying `tag`. */
  function PublishedWithTag(tag: string): BlogPost -> bool
  {
    (p: BlogPost) => p.published && tag in p.tags
  }

  /** `filter(post => post.published && post.tags.includes(tag))`. */
  function PostsByTagOf(posts: seq<BlogPost>, tag: string): (r: seq<BlogPost>)
    ensures forall k :: 0 <= k < |r| ==> r[k].published && tag in r[k].tags && r[k] in posts
    ensures forall k :: 0 <= k < |posts| && posts[k].published && tag in posts[k].tags ==> posts[k] in r
    ensures IsSubsequence(r, posts)
    ensures forall p :: multiset(r)[p] == if p.published && tag in p.tags then multiset(posts)[p] else 0
  {
    FilterIsSubsequence(posts, PublishedWithTag(tag));
    FilterMultiset(posts, PublishedWithTag(tag));
    Filter(posts, PublishedWithTag(tag))
  }

  /** For a non-empty tag the query agrees with the tag filter applied to
      the published posts. */
  lemma PostsByTagIsFilteredPublished(posts: seq<BlogPost>, tag: string)
    requires tag != ""
    ensures PostsByTagOf(posts, tag) == BlogUtils.FilterPostsByTag(PublishedPosts(posts), tag)
  {
    FilterFilter(posts, IsPublished, BlogUtils.HasTag(tag), PublishedWithTag(tag));
  }

  /** The tag list over the published posts only. */
  function PublishedTagsOf(posts: seq<BlogPost>): (r: seq<string>)
    ensures StrictlyAscending(r)
    ensures forall t :: t in r <==> BlogUtils.TagOccurs(PublishedPosts(posts), t)
  {
    BlogUtils.AllTags(PublishedPosts(posts))
  }

  /** The listed tags are exactly those of published posts. */
  lemma PublishedTagsExactly(posts: seq<BlogPost>, t: string)
    ensures t in PublishedTagsOf(posts) <==>
            exists i :: 0 <= i < |posts| && posts[i].published && t in posts[i].tags
  {
    var published := PublishedPosts(posts);
    if exists i :: 0 <= i < |posts| && posts[i].published && t in posts[i].tags {
      var i :| 0 <= i < |posts| && posts[i].published && t in posts[i].tags;
      var j :| 0 <= j < |published| && published[j] == posts[i];
      assert BlogUtils.TagOccurs(published, t);
    }
    if BlogUtils.TagOccurs(published, t) {
      var j :| 0 <= j < |published| && t in published[j].tags;
      var i :| 0 <= i < |posts| && posts[i] == published[j];
      assert posts[i].published && t in posts[i].tags;
    }
  }

  /** A tag carried only by drafts is not listed. */
  lemma DraftOnlyTagsExcluded(posts: seq<BlogPost>, t: string)
    requires forall i :: 0 <= i < |posts| && t in posts[i].tags ==> !posts[i].published
    ensures t !in PublishedTagsOf(posts)
  {
    PublishedTagsExactly(posts, t);
  }

  /** One step of the outer loop: a published post adds its tags, a draft
      adds nothing. */
  lemma CollectStep(posts: seq<BlogPost>, i: nat)
    requires i < |posts|
    ensures BlogUtils.CollectTags(PublishedPosts(posts[..i + 1])) ==
      if posts[i].published
      then BlogUtils.SetAddAll(BlogUtils.CollectTags(PublishedPosts(posts[..i])), posts[i].tags)
      else BlogUtils.CollectTags(PublishedPosts(posts[..i]))
  {
    var post := posts[i];
    assert posts[..i + 1] == posts[..i] + [post];
    FilterAppend(posts[..i], [post], IsPublished);
    var published := PublishedPosts(posts[..i]);
    if post.published {
      assert PublishedPosts(posts[..i + 1]) == published + [post];
      assert (published + [post])[..|published|] == published;
    } else {
      assert PublishedPosts(posts[..i + 1]) == published;
    }
  }

  /** `getAllTags` over a collection: the loop adds the tags of the
      published posts to the set, which is then sorted. */
  method CollectPublishedTags(posts: seq<BlogPost>) returns (tags: seq<string>)
    ensures tags == PublishedTagsOf(posts)
  {
    var tagSet: seq<string> := [];
    for i := 0 to |posts|
      invariant tagSet == BlogUtils.CollectTags(PublishedPosts(posts[..i]))
    {
      CollectStep(posts, i);
      if posts[i].published {
        tagSet := BlogUtils.AddEach(tagSet, posts[i].tags);
      }
    }
    assert posts[..|posts|] == posts;
    tags := BlogUtils.SortStrings(tagSet);
  }

  // ---------------------------------------------------------------------
  // The seed queries

  /** `getAllPosts()`. */
  function GetAllPosts(): seq<BlogPost> { PublishedPosts(BlogPosts) }

  /** `getPostById(id)`. */
  function GetPostById(id: string): Option<BlogPost> { PostByIdOf(BlogPosts, id) }

  /** `getPostsByTag(tag)`. */
  function GetPostsByTag(tag: string): seq<BlogPost> { PostsByTagOf(BlogPosts, tag) }

  /** `getAllTags()`. */
  method GetAllTags() returns (tags: seq<string>)
    ensures tags == PublishedTagsOf(BlogPosts)
  {
    tags := CollectPublishedTags(BlogPosts);
  }

  /** Five seeds with pairwise distinct ids, all published, each created
      and last updated at the same instant. */
  lemma SeedFacts()
    ensures |BlogPosts| == 5
    ensures DistinctIds(BlogPosts)
    ensures forall k :: 0 <= k < |BlogPosts| ==> BlogPosts[k].published
    ensures forall k :: 0 <= k < |BlogPosts| ==> BlogPosts[k].createdAt == BlogPosts[k].updatedAt
  {
    assert BlogPosts[0].id[0] == 'b' && BlogPosts[1].id[0] == 't' && BlogPosts[2].id[0] == 'r' &&
           BlogPosts[3].id[0] == 'm' && BlogPosts[4].id[0] == 'd';
  }

  /** Every seed is listed by `getAllPosts`, in array order. */
  lemma AllSeedsListed()
    ensures GetAllPosts() == BlogPosts
  {
    SeedFacts();
    FilterAll(BlogPosts, IsPublished);
  }

  /** In a collection with distinct ids, looking up a post's id finds
      that post. */
  lemma LookupDistinct(posts: seq<BlogPost>, k: nat)
    requires DistinctIds(posts) && k < |posts|
    ensures PostByIdOf(posts, posts[k].id) == Some(posts[k])
  {
    var r := PostByIdOf(posts, posts[k].id);
    var i :| 0 <= i < |posts| && posts[i] == r.value && r.value.id == posts[k].id &&
             forall m :: 0 <= m < i ==> posts[m].id != posts[k].id;
    assert IdOf(posts[i]) == IdOf(posts[k]);
  }

  /** Looking up the id of a seed finds that seed. */
  lemma SeedLookup(k: nat)
    requires k < |BlogPosts|
    ensures GetPostById(BlogPosts[k].id) == Some(BlogPosts[k])
  {
    SeedFacts();
    LookupDistinct(BlogPosts, k);
  }
}
