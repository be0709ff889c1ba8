/** The post editor dialog (`src/components/PostEditor.tsx`): five form
    cells, the tag handlers, and the record a save hands to the
    collection. */
module PostEditor {
  import opened Wrappers
  import opened Seqs
  import opened Text
  import opened Types
  import BlogUtils
  import App

  /** The tag list the editor keeps: no duplicates, and every tag trimmed
      and non-empty. */
  predicate ValidTags(tags: seq<string>)
  {
    NoDuplicates(tags) && forall k :: 0 <= k < |tags| ==> tags[k] != "" && IsTrimmed(tags[k])
  }

  /** `handleAddTag` on (tags, tag input): the trimmed input is appended and
      the input cleared when it is non-empty and new; otherwise nothing
      changes. */
  function AddedTag(tags: seq<string>, newTag: string): (r: (seq<string>, string))
    ensures ValidTags(tags) ==> ValidTags(r.0)
    ensures Trim(newTag) == "" || Trim(newTag) in r.0
    ensures r == (tags, newTag) ||
            (Trim(newTag) != "" && Trim(newTag) !in tags && r.0 == tags + [Trim(newTag)] && r.1 == "")
  {
    var t := Trim(newTag);
    if t != "" && t !in tags then (tags + [t], "")
    else (tags, newTag)
  }

  /** Selects the tags different from `t`. */
  function Other(t: string): string -> bool
  {
    (u: string) => u != t
  }

  /** `handleRemoveTag`. */
  function RemovedTag(tags: seq<string>, tagToRemove: string): (r: seq<string>)
    ensures tagToRemove !in r
    ensures forall k :: 0 <= k < |tags| && tags[k] != tagToRemove ==> tags[k] in r
    ensures forall k :: 0 <= k < |r| ==> r[k] in tags
    ensures IsSubsequence(r, tags)
    ensures ValidTags(tags) ==> ValidTags(r)
    ensures forall u :: multiset(r)[u] == if u != tagToRemove then multiset(tags)[u] else 0
  {
    FilterIsSubsequence(tags, Other(tagToRemove));
    FilterNoDuplicates(tags, Other(tagToRemove));
    FilterMultiset(tags, Other(tagToRemove));
    Filter(tags, Other(tagToRemove))
  }

  /** What the user can do to the tag part of the form. */
  datatype TagEdit = TypeTag(text: string) | AddTag | RemoveTag(tag: string)

  /** The tag list and tag input after `edits`, applied in order. */
  function ApplyEdits(tags: seq<string>, newTag: string, edits: seq<TagEdit>): (seq<string>, string)
    decreases |edits|
  {
    if edits == [] then (tags, newTag)
    else
      var next := match edits[0]
        case TypeTag(text) => (tags, text)
        case AddTag => AddedTag(tags, newTag)
        case RemoveTag(t) => (RemovedTag(tags, t), newTag);
      ApplyEdits(next.0, next.1, edits[1..])
  }

  /** Starting from a valid list, no sequence of edits produces a duplicate,
      an empty or an untrimmed tag. */
  lemma {:induction false} EditsKeepTagsValid(tags: seq<string>, newTag: string, edits: seq<TagEdit>)
    requires ValidTags(tags)
    ensures ValidTags(ApplyEdits(tags, newTag, edits).0)
    decreases |edits|
  {
    if edits != [] {
      var next := match edits[0]
        case TypeTag(text) => (tags, text)
        case AddTag => AddedTag(tags, newTag)
        case RemoveTag(t) => (RemovedTag(tags, t), newTag);
      EditsKeepTagsValid(next.0, next.1, edits[1..]);
    }
  }

  /** The record `handleSave(saveAsPublished)` passes on, or `None` when the
      title or the content is blank. `editing` is the post the dialog was
      opened with; `freshId` and `now` stand for `generateId()` and the
      current instant. */
  function BuildRecord(title: string, content: string, tags: seq<string>, editing: Option<BlogPost>,
                       saveAsPublished: bool, freshId: string, now: Timestamp): Option<BlogPost>
  {
    if Trim(title) == "" || Trim(content) == "" then None
    else
      Some(BlogPost(
        id := if editing.Some? && editing.value.id != "" then editing.value.id else freshId,
        title := Trim(title),
        content := Trim(content),
        excerpt := BlogUtils.GenerateExcerpt(Trim(content), BlogUtils.DefaultExcerptLength),
        tags := tags,
        createdAt := if editing.Some? && editing.value.createdAt != "" then editing.value.createdAt else now,
        updatedAt := now,
        published := saveAsPublished))
  }

  /** Nothing is saved exactly when the title or the content trims to
      empty. */
  lemma BlankIsRejected(title: string, content: string, tags: seq<string>, editing: Option<BlogPost>,
                        saveAsPublished: bool, freshId: string, now: Timestamp)
    ensures BuildRecord(title, content, tags, editing, saveAsPublished, freshId, now).None?
        <==> (forall k :: 0 <= k < |title| ==> IsWhitespace(title[k])) ||
             (forall k :: 0 <= k < |content| ==> IsWhitespace(content[k]))
  {
    TrimEmptyIff(title);
    TrimEmptyIff(content);
  }

  /** A saved record has a trimmed, non-empty title and content, the
      excerpt of that content, the form's tags, `updatedAt = now` and the
      button's flag. */
  lemma SavedRecordFields(title: string, content: string, tags: seq<string>, editing: Option<BlogPost>,
                          saveAsPublished: bool, freshId: string, now: Timestamp)
    requires BuildRecord(title, content, tags, editing, saveAsPublished, freshId, now).Some?
    ensures var p := BuildRecord(title, content, tags, editing, saveAsPublished, freshId, now).value;
      p.title != "" && IsTrimmed(p.title) && Trim(p.title) == Trim(title) &&
      p.content != "" && IsTrimmed(p.content) && Trim(p.content) == Trim(content) &&
      p.excerpt == BlogUtils.GenerateExcerpt(p.content, BlogUtils.DefaultExcerptLength) &&
      BlogUtils.ExcerptClean(p.excerpt) && |p.excerpt| <= BlogUtils.DefaultExcerptLength + 3 &&
      p.tags == tags && p.updatedAt == now && p.published == saveAsPublished
  {
    TrimIdempotent(title);
    TrimIdempotent(content);
  }

  /** Identity: editing a post with an id and a creation time keeps both;
      otherwise the fresh id and `now` are used. */
  lemma SavedRecordIdentity(title: string, content: string, tags: seq<string>, editing: Option<BlogPost>,
                            saveAsPublished: bool, freshId: string, now: Timestamp)
    requires BuildRecord(title, content, tags, editing, saveAsPublished, freshId, now).Some?
    ensures var p := BuildRecord(title, content, tags, editing, saveAsPublished, freshId, now).value;
      (editing.Some? && editing.value.id != "" ==> p.id == editing.value.id) &&
      (editing.None? || editing.value.id == "" ==> p.id == freshId) &&
      (editing.Some? && editing.value.createdAt != "" ==> p.createdAt == editing.value.createdAt) &&
      (editing.None? || editing.value.createdAt == "" ==> p.createdAt == now)
  {
  }

  /** Saving an edit of a post of the collection replaces that post in
      place: the collection keeps its size, and the saved post keeps the id
      and creation time of the one it replaces. */
  lemma EditReplacesInPlace(posts: seq<BlogPost>, i: nat, title: string, content: string,
                            tags: seq<string>, saveAsPublished: bool, freshId: string, now: Timestamp)
    requires DistinctIds(posts) && i < |posts| && posts[i].id != "" && posts[i].createdAt != ""
    requires BuildRecord(title, content, tags, Some(posts[i]), saveAsPublished, freshId, now).Some?
    ensures var p := BuildRecord(title, content, tags, Some(posts[i]), saveAsPublished, freshId, now).value;
      var r := App.Upsert(posts, p);
      |r| == |posts| && r[i] == p && p.id == posts[i].id && p.createdAt == posts[i].createdAt &&
      forall k :: 0 <= k < |posts| && k != i ==> r[k] == posts[k]
  {
    var p := BuildRecord(title, content, tags, Some(posts[i]), saveAsPublished, freshId, now).value;
    forall k | 0 <= k < i
      ensures posts[k].id != p.id
    {
      assert IdOf(posts[k]) != IdOf(posts[i]);
    }
    App.UpsertReplacesFirstMatch(posts, p, i);
  }

  /** Saving a new post whose fresh id is unused grows the collection by
      that one post at the end. */
  lemma NewPostAppended(posts: seq<BlogPost>, title: string, content: string,
                        tags: seq<string>, saveAsPublished: bool, freshId: string, now: Timestamp)
    requires forall k :: 0 <= k < |posts| ==> posts[k].id != freshId
    requires BuildRecord(title, content, tags, None, saveAsPublished, freshId, now).Some?
    ensures var p := BuildRecord(title, content, tags, None, saveAsPublished, freshId, now).value;
      App.Upsert(posts, p) == posts + [p] && p.createdAt == now && p.updatedAt == now
  {
    var p := BuildRecord(title, content, tags, None, saveAsPublished, freshId, now).value;
    App.UpsertAppendsNew(posts, p);
  }

  /** The form state of the dialog. */
  class Editor {
    var title: string
    var content: string
    var tags: seq<string>
    var newTag: string
    var published: bool

    /** The initial `useState` values. */
    constructor ()
      ensures title == "" && content == "" && tags == [] && newTag == "" && !published
    {
      title := "";
      content := "";
      tags := [];
      newTag := "";
      published := false;
    }

    /** The reset effect: a post loads its fields (the tag input is kept);
        no post clears the form. */
    method Open(post: Option<BlogPost>)
      modifies this
      ensures post.Some? ==>
        title == post.value.title && content == post.value.content && tags == post.value.tags &&
        published == post.value.published && newTag == old(newTag)
      ensures post.None? ==> title == "" && content == "" && tags == [] && newTag == "" && !published
    {
      if post.Some? {
        title := post.value.title;
        content := post.value.content;
        tags := post.value.tags;
        published := post.value.published;
      } else {
        title := "";
        content := "";
        tags := [];
        newTag := "";
        published := false;
      }
    }

    /** The `onChange` handlers of the three text inputs. */
    method SetTitle(value: string)
      modifies this
      ensures title == value
      ensures content == old(content) && tags == old(tags) && newTag == old(newTag) && published == old(published)
    {
      title := value;
    }

    method SetContent(value: string)
      modifies this
      ensures content == value
      ensures title == old(title) && tags == old(tags) && newTag == old(newTag) && published == old(published)
    {
      content := value;
    }

    method SetNewTag(value: string)
      modifies this
      ensures newTag == value
      ensures title == old(title) && content == old(content) && tags == old(tags) && published == old(published)
    {
      newTag := value;
    }

    /** `handleAddTag`. */
    method AddTag()
      modifies this
      ensures (tags, newTag) == AddedTag(old(tags), old(newTag))
      ensures title == old(title) && content == old(content) && published == old(published)
    {
      var trimmed := Trim(newTag);
      if trimmed != "" && trimmed !in tags {
        tags := tags + [trimmed];
        newTag := "";
      }
    }

    /** `handleRemoveTag`. */
    method RemoveTag(tagToRemove: string)
      modifies this
      ensures tags == RemovedTag(old(tags), tagToRemove)
      ensures title == old(title) && content == old(content) && newTag == old(newTag) && published == old(published)
    {
      tags := RemovedTag(tags, tagToRemove);
    }

    /** `handleKeyDown`: Enter with a non-blank input adds the tag. */
    method KeyDown(key: string)
      modifies this
      ensures key == "Enter" && Trim(old(newTag)) != "" ==> (tags, newTag) == AddedTag(old(tags), old(newTag))
      ensures !(key == "Enter" && Trim(old(newTag)) != "") ==> tags == old(tags) && newTag == old(newTag)
      ensures title == old(title) && content == old(content) && published == old(published)
    {
      if key == "Enter" && Trim(newTag) != "" {
        AddTag();
      }
    }

    /** `handleSave(saveAsPublished)`: the record handed to `onSave`, if
        any; the form itself is not changed. */
    method Save(editing: Option<BlogPost>, saveAsPublished: bool, freshId: string, now: Timestamp)
      returns (saved: Option<BlogPost>)
      ensures saved == BuildRecord(title, content, tags, editing, saveAsPublished, freshId, now)
    {
      saved := BuildRecord(title, content, tags, editing, saveAsPublished, freshId, now);
    }
  }
}
