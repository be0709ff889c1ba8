/** The post collection held by the application shell (`src/App.tsx`):
    upsert by id, delete by id, and the views derived on every render. */
module App {
  import opened Seqs
  import opened Text
  import opened Types
  import opened BlogUtils

  /** The collection after saving `post`: `findIndex` by id, then either
      an assignment at that index or an append. */
  function Upsert(posts: seq<BlogPost>, post: BlogPost): (r: seq<BlogPost>)
    ensures post in r
    ensures |posts| <= |r| <= |posts| + 1
  {
    var i := FindFirst(posts, SameId(post.id));
    if i >= 0 then
      assert posts[i := post][i] == post;
      posts[i := post]
    else
      assert (posts + [post])[|posts|] == post;
      posts + [post]
  }

  /** A post whose id occurs replaces the element at the first index with
      that id; the length and every other position are unchanged. */
  lemma UpsertReplacesFirstMatch(posts: seq<BlogPost>, post: BlogPost, i: nat)
    requires i < |posts| && posts[i].id == post.id
    requires forall k :: 0 <= k < i ==> posts[k].id != post.id
    ensures |Upsert(posts, post)| == |posts|
    ensures Upsert(posts, post)[i] == post
    ensures forall k :: 0 <= k < |posts| && k != i ==> Upsert(posts, post)[k] == posts[k]
  {
    var j := FindFirst(posts, SameId(post.id));
    assert SameId(post.id)(posts[i]);
  }

  /** A post whose id does not occur is appended. */
  lemma UpsertAppendsNew(posts: seq<BlogPost>, post: BlogPost)
    requires forall k :: 0 <= k < |posts| ==> posts[k].id != post.id
    ensures Upsert(posts, post) == posts + [post]
    ensures |Upsert(posts, post)| == |posts| + 1
  {
    assert forall k :: 0 <= k < |posts| ==> !SameId(post.id)(posts[k]);
  }

  /** The collection after deleting `id`. */
  function RemoveById(posts: seq<BlogPost>, id: string): (r: seq<BlogPost>)
    ensures forall k :: 0 <= k < |r| ==> r[k].id != id && r[k] in posts
    ensures forall k :: 0 <= k < |posts| && posts[k].id != id ==> posts[k] in r
    ensures IsSubsequence(r, posts)
    ensures (forall k :: 0 <= k < |posts| ==> posts[k].id != id) ==> r == posts
  {
    FilterIsSubsequence(posts, OtherId(id));
    FilterAll(posts, OtherId(id));
    Filter(posts, OtherId(id))
  }

  /** Saving keeps the ids pairwise distinct. */
  lemma UpsertKeepsDistinctIds(posts: seq<BlogPost>, post: BlogPost)
    requires DistinctIds(posts)
    ensures DistinctIds(Upsert(posts, post))
  {
    var r := Upsert(posts, post);
    var i := FindFirst(posts, SameId(post.id));
    forall a, b | 0 <= a < b < |r|
      ensures IdOf(r[a]) != IdOf(r[b])
    {
      if i >= 0 {
        assert r[a].id == (if a == i then post.id else posts[a].id);
        assert r[b].id == (if b == i then post.id else posts[b].id);
        assert posts[i].id == post.id;
      } else if b == |posts| {
        assert r[a] == posts[a];
      } else {
        assert r[a] == posts[a] && r[b] == posts[b];
      }
    }
  }

  /** Saving the same post twice gives what saving it once gives. */
  lemma UpsertIdempotent(posts: seq<BlogPost>, post: BlogPost)
    ensures Upsert(Upsert(posts, post), post) == Upsert(posts, post)
  {
    var r := Upsert(posts, post);
    var i := FindFirst(posts, SameId(post.id));
    var j := FindFirst(r, SameId(post.id));
    if i >= 0 {
      assert j == i by {
        assert r[i] == post;
        assert forall k :: 0 <= k < i ==> r[k] == posts[k];
      }
      assert r[i := post] == r;
    } else {
      assert j == |posts| by {
        assert r[|posts|] == post;
        assert forall k :: 0 <= k < |posts| ==> r[k] == posts[k];
      }
      assert r[|posts| := post] == r;
    }
  }

  /** Saving a new post and then deleting its id restores the collection. */
  lemma DeleteUndoesInsert(posts: seq<BlogPost>, post: BlogPost)
    requires forall k :: 0 <= k < |posts| ==> posts[k].id != post.id
    ensures RemoveById(Upsert(posts, post), post.id) == posts
  {
    FilterAppend(posts, [post], OtherId(post.id));
    FilterAll(posts, OtherId(post.id));
  }

  /** Deleting removes exactly the posts with that id: the others are kept,
      and their number is what is left. */
  lemma RemoveByIdCount(posts: seq<BlogPost>, id: string)
    ensures |RemoveById(posts, id)| + |Filter(posts, SameId(id))| == |posts|
  {
    FilterComplementCount(posts, SameId(id), OtherId(id));
  }

  // ---------------------------------------------------------------------
  // Views

  /** `posts.filter(post => !post.published)`. */
  function DraftPosts(posts: seq<BlogPost>): (r: seq<BlogPost>)
    ensures forall k :: 0 <= k < |r| ==> !r[k].published && r[k] in posts
    ensures forall k :: 0 <= k < |posts| && !posts[k].published ==> posts[k] in r
  {
    Filter(posts, IsDraft)
  }

  /** Published and drafts partition the collection: both keep the order
      of the collection, their sizes add up and no post is in both. */
  lemma PublishedDraftPartition(posts: seq<BlogPost>)
    ensures IsSubsequence(PublishedPosts(posts), posts)
    ensures IsSubsequence(DraftPosts(posts), posts)
    ensures |PublishedPosts(posts)| + |DraftPosts(posts)| == |posts|
    ensures forall p :: p in PublishedPosts(posts) ==> p !in DraftPosts(posts)
  {
    FilterIsSubsequence(posts, IsPublished);
    FilterIsSubsequence(posts, IsDraft);
    FilterComplementCount(posts, IsPublished, IsDraft);
  }

  /** `showDrafts ? draftPosts : publishedPosts`. */
  function CurrentPosts(posts: seq<BlogPost>, showDrafts: bool): seq<BlogPost>
  {
    if showDrafts then DraftPosts(posts) else PublishedPosts(posts)
  }

  /** `sortPostsByDate(filterPostsByTag(currentPosts, selectedTag))`. */
  function FilteredPosts(posts: seq<BlogPost>, showDrafts: bool, selectedTag: string): (r: seq<BlogPost>)
    ensures SortedByDate(r)
    ensures multiset(r) == multiset(FilterPostsByTag(CurrentPosts(posts, showDrafts), selectedTag))
  {
    SortByDateSorted(FilterPostsByTag(CurrentPosts(posts, showDrafts), selectedTag));
    SortByDate(FilterPostsByTag(CurrentPosts(posts, showDrafts), selectedTag))
  }

  /** The displayed list holds only posts of the collection from the
      selected group and, for a non-empty tag, only posts carrying it; every
      such post is displayed. */
  lemma FilteredPostsSelection(posts: seq<BlogPost>, showDrafts: bool, selectedTag: string, p: BlogPost)
    ensures p in FilteredPosts(posts, showDrafts, selectedTag) <==>
      p in posts && p.published == !showDrafts && (selectedTag == "" || selectedTag in p.tags)
  {
    var group := CurrentPosts(posts, showDrafts);
    var r := FilteredPosts(posts, showDrafts, selectedTag);
    var tagged := FilterPostsByTag(group, selectedTag);
    assert p in r <==> p in tagged by {
      assert p in r <==> p in multiset(r);
    }
    if p in posts && p.published == !showDrafts {
      var k :| 0 <= k < |posts| && posts[k] == p;
      assert p in group;
    }
  }

  /** The tag bar is built from the whole collection, drafts included. */
  lemma DraftTagsListed(posts: seq<BlogPost>, t: string)
    requires TagOccurs(DraftPosts(posts), t)
    ensures t in AllTags(posts)
  {
    var drafts := DraftPosts(posts);
    var i :| 0 <= i < |drafts| && t in drafts[i].tags;
    assert drafts[i] in posts;
    var k :| 0 <= k < |posts| && posts[k] == drafts[i];
  }

  /** The canonical collection (`useKV('blog-posts', [])`), written only
      through whole-collection replacement. */
  class PostRepository {
    var posts: seq<BlogPost>

    constructor ()
      ensures posts == []
    {
      posts := [];
    }

    /** `handleSavePost`: copies the collection and assigns the post at the
        first index with its id, or appends it. */
    method Save(post: BlogPost)
      modifies this
      ensures posts == Upsert(old(posts), post)
    {
      var current := posts;
      var existingIndex := FindFirst(current, SameId(post.id));
      if existingIndex >= 0 {
        var updated := new BlogPost[|current|](k requires 0 <= k < |current| => current[k]);
        updated[existingIndex] := post;
        assert updated[..] == current[existingIndex := post];
        posts := updated[..];
      } else {
        posts := current + [post];
      }
    }

    /** `handleDeletePost`. */
    method Delete(postId: string)
      modifies this
      ensures posts == RemoveById(old(posts), postId)
    {
      posts := RemoveById(posts, postId);
    }

    /** What a render derives from the collection: the displayed list and
        the tag bar. */
    method View(showDrafts: bool, selectedTag: string) returns (filtered: seq<BlogPost>, allTags: seq<string>)
      ensures filtered == FilteredPosts(posts, showDrafts, selectedTag)
      ensures allTags == AllTags(posts)
    {
      var publishedPosts := PublishedPosts(posts);
      var draftPosts := DraftPosts(posts);
      var current := if showDrafts then draftPosts else publishedPosts;
      filtered := SortPostsByDate(FilterPostsByTag(current, selectedTag));
      allTags := GetAllTags(posts);
    }
  }
}
