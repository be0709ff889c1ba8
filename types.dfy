/** The blog's single entity. */
module Types {
  import opened Seqs

  /** An instant as `Date.prototype.toISOString` writes it
      (`YYYY-MM-DDTHH:mm:ss.sssZ`, UTC). On strings of that one fixed format
      string order is chronological order, so the model compares timestamps
      as strings instead of parsing them. */
  type Timestamp = string

  /** `BlogPost`: `tags` is kept in the editor's insertion order. */
  datatype BlogPost = BlogPost(
    id: string,
    title: string,
    content: string,
    excerpt: string,
    tags: seq<string>,
    createdAt: Timestamp,
    updatedAt: Timestamp,
    published: bool)

  function IdOf(p: BlogPost): string { p.id }

  /** No two posts of the collection share an id. */
  predicate DistinctIds(posts: seq<BlogPost>)
  {
    DistinctBy(posts, IdOf)
  }

  /** Selects the posts whose id is `id`. */
  function SameId(id: string): BlogPost -> bool
  {
    (p: BlogPost) => p.id == id
  }

  /** Selects the posts whose id is not `id`. */
  function OtherId(id: string): BlogPost -> bool
  {
    (p: BlogPost) => p.id != id
  }

  function IsPublished(p: BlogPost): bool { p.published }
  function IsDraft(p: BlogPost): bool { !p.published }

  /** `filter(post => post.published)`, which the shell, the seed queries
      and the sitemap apply alike: the published posts, in collection
      order. */
  function PublishedPosts(posts: seq<BlogPost>): (r: seq<BlogPost>)
    ensures forall k :: 0 <= k < |r| ==> r[k].published && r[k] in posts
    ensures forall k :: 0 <= k < |posts| && posts[k].published ==> posts[k] in r
    ensures IsSubsequence(r, posts)
  {
    FilterIsSubsequence(posts, IsPublished);
    Filter(posts, IsPublished)
  }
}
