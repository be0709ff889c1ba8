/** The view helpers of `src/lib/blog-utils.ts`: excerpt, reading time,
    newest-first sort, tag filter and the sorted tag list. */
module BlogUtils {
  import opened Text
  import opened Seqs
  import opened Types

  /** Default `maxLength` of the excerpt. */
  const DefaultExcerptLength := 160
  /** Reading speed used for the reading time. */
  const WordsPerMinute := 200

  // ---------------------------------------------------------------------
  // Excerpt

  /** The characters `/[#*`]/` matches. */
  predicate IsMarkupChar(c: char)
  {
    c == '#' || c == '*' || c == '`'
  }

  predicate KeptByStrip(c: char)
  {
    !IsMarkupChar(c)
  }

  /** `replace(/[#*`]/g, '')`. */
  function StripMarkup(s: string): (r: string)
    ensures forall k :: 0 <= k < |r| ==> !IsMarkupChar(r[k]) && r[k] in s
    ensures IsSubsequence(r, s)
    ensures |r| == |s| - |Filter(s, IsMarkupChar)|
  {
    FilterIsSubsequence(s, KeptByStrip);
    FilterComplementCount(s, KeptByStrip, IsMarkupChar);
    Filter(s, KeptByStrip)
  }

  /** `replace(/\n/g, ' ')`: only line feeds, not other line breaks. */
  function NewlinesToSpaces(s: string): (r: string)
    ensures |r| == |s|
    ensures forall k :: 0 <= k < |s| ==> r[k] == (if s[k] == '\n' then ' ' else s[k])
  {
    seq(|s|, k requires 0 <= k < |s| => if s[k] == '\n' then ' ' else s[k])
  }

  /** Holds no character the excerpt removes or folds. */
  predicate ExcerptClean(s: string)
  {
    forall k :: 0 <= k < |s| ==> !IsMarkupChar(s[k]) && s[k] != '\n'
  }

  /** The text an excerpt is cut from: markup characters removed, line
      feeds turned into spaces, then trimmed. */
  function ExcerptText(content: string): (t: string)
    ensures ExcerptClean(t) && IsTrimmed(t)
  {
    var u := NewlinesToSpaces(StripMarkup(content));
    FoldedClean(StripMarkup(content));
    TrimClean(u);
    Trim(u)
  }

  /** Trimming clean text leaves it clean. */
  lemma TrimClean(u: string)
    requires ExcerptClean(u)
    ensures ExcerptClean(Trim(u))
  {
    TrimSlice(u);
    CleanSlice(u, |u| - |TrimStart(u)|, |Trim(u)|);
  }

  /** A slice of clean text is clean. */
  lemma CleanSlice(u: string, i: nat, n: nat)
    requires ExcerptClean(u) && i + n <= |u|
    ensures ExcerptClean(u[i..i + n])
  {
    var w := u[i..i + n];
    forall k | 0 <= k < |w|
      ensures !IsMarkupChar(w[k]) && w[k] != '\n'
    {
      assert w[k] == u[i + k];
    }
  }

  /** Stripped text with its line feeds folded is clean. */
  lemma FoldedClean(v: string)
    requires forall k :: 0 <= k < |v| ==> !IsMarkupChar(v[k])
    ensures ExcerptClean(NewlinesToSpaces(v))
  {
  }

  /** `substring(0, n)` treats a negative end as 0. */
  function NonNegative(n: int): nat
  {
    if n < 0 then 0 else n
  }

  /** `text.substring(0, n) + '...'`. */
  function Truncate(text: string, n: nat): (r: string)
    requires n <= |text|
    ensures |r| == n + 3
    ensures StartsWith(text, r[..n]) && r[n..] == "..."
    ensures ExcerptClean(text) ==> ExcerptClean(r)
  {
    var r := text[..n] + "...";
    assert r[..n] == text[..n] && r[n..] == "...";
    assert forall k :: 0 <= k < n ==> r[k] == text[k];
    r
  }

  /** `generateExcerpt(content, maxLength)`. */
  function GenerateExcerpt(content: string, maxLength: int): (r: string)
    ensures ExcerptClean(r)
    ensures |ExcerptText(content)| <= maxLength ==> r == ExcerptText(content)
    ensures |ExcerptText(content)| > maxLength ==>
      |r| == NonNegative(maxLength) + 3 &&
      StartsWith(ExcerptText(content), r[..|r| - 3]) &&
      r[|r| - 3..] == "..."
    ensures |r| <= NonNegative(maxLength) + 3
  {
    var text := ExcerptText(content);
    if |text| > maxLength then Truncate(text, NonNegative(maxLength)) else text
  }

  /** Clean, trimmed text is its own excerpt source. */
  lemma ExcerptTextOfClean(t: string)
    requires ExcerptClean(t) && IsTrimmed(t)
    ensures ExcerptText(t) == t
  {
    FilterAll(t, KeptByStrip);
    assert NewlinesToSpaces(t) == t;
    TrimOfTrimmed(t);
  }

  /** An excerpt that was not truncated is a fixed point. */
  lemma ExcerptIdempotent(content: string, maxLength: int)
    requires |ExcerptText(content)| <= maxLength
    ensures GenerateExcerpt(GenerateExcerpt(content, maxLength), maxLength)
         == GenerateExcerpt(content, maxLength)
  {
    ExcerptTextOfClean(ExcerptText(content));
  }

  // ---------------------------------------------------------------------
  // Reading time

  /** `content.trim().split(/\s+/).length`. */
  function WordCount(content: string): (n: nat)
    ensures n >= 1
  {
    |SplitWhitespace(Trim(content))|
  }

  /** `Math.ceil(words / 200)`. */
  function CalculateReadingTime(content: string): (minutes: int)
    ensures minutes >= 1
    ensures (minutes - 1) * WordsPerMinute < WordCount(content) <= minutes * WordsPerMinute
  {
    (WordCount(content) + WordsPerMinute - 1) / WordsPerMinute
  }

  /** Empty or blank content still counts one (empty) word. */
  lemma BlankReadingTime(content: string)
    requires forall k :: 0 <= k < |content| ==> IsWhitespace(content[k])
    ensures WordCount(content) == 1
    ensures CalculateReadingTime(content) == 1
  {
    TrimEmptyIff(content);
  }

  /** The word count is the number of words of the content, or one when
      the content has none: the blank string still splits into one
      (empty) piece. */
  lemma WordCountIsWords(content: string)
    ensures WordCount(content) == if WordsOf(content) == [] then 1 else |WordsOf(content)|
  {
    var t := Trim(content);
    WordsOfTrim(content);
    if t != [] {
      SplitIsWords(t);
    }
  }

  /** The reading time is the least number of minutes that covers the words
      of the content at 200 per minute, and one minute for content of up to
      200 words, including blank content. */
  lemma ReadingTimeOfWords(content: string)
    ensures var w := |WordsOf(content)|;
      var m := CalculateReadingTime(content);
      (m - 1) * WordsPerMinute < (if w == 0 then 1 else w) <= m * WordsPerMinute
    ensures CalculateReadingTime(content) == 1 <==> |WordsOf(content)| <= WordsPerMinute
  {
    WordCountIsWords(content);
  }

  // ---------------------------------------------------------------------
  // Newest first

  /** `a` was created strictly before `b`. */
  predicate OlderThan(a: BlogPost, b: BlogPost)
  {
    StrLess(a.createdAt, b.createdAt)
  }

  /** Non-increasing `createdAt`. */
  predicate SortedByDate(s: seq<BlogPost>)
  {
    forall i, j :: 0 <= i < j < |s| ==> !OlderThan(s[i], s[j])
  }

  /** Inserts `x` into `r` behind every post that is not older than it. */
  function InsertByDate(r: seq<BlogPost>, x: BlogPost): (q: seq<BlogPost>)
    ensures multiset(q) == multiset(r) + multiset{x}
    ensures |q| == |r| + 1
  {
    if r == [] || !OlderThan(r[|r| - 1], x) then r + [x]
    else
      assert r == r[..|r| - 1] + [r[|r| - 1]];
      InsertByDate(r[..|r| - 1], x) + [r[|r| - 1]]
  }

  /** The result of the stable newest-first sort
      `[...posts].sort((a, b) => time(b) - time(a))`. */
  function SortByDate(s: seq<BlogPost>): (r: seq<BlogPost>)
    ensures multiset(r) == multiset(s)
  {
    if s == [] then []
    else
      assert s == s[..|s| - 1] + [s[|s| - 1]];
      InsertByDate(SortByDate(s[..|s| - 1]), s[|s| - 1])
  }

  lemma {:induction false} InsertByDateSorted(r: seq<BlogPost>, x: BlogPost)
    requires SortedByDate(r)
    ensures SortedByDate(InsertByDate(r, x))
    decreases |r|
  {
    if r == [] || !OlderThan(r[|r| - 1], x) {
      forall i | 0 <= i < |r|
        ensures !OlderThan(r[i], x)
      {
        if i < |r| - 1 {
          StrLeqTransitive(x.createdAt, r[|r| - 1].createdAt, r[i].createdAt);
        }
      }
    } else {
      var init := r[..|r| - 1];
      var last := r[|r| - 1];
      InsertByDateSorted(init, x);
      var q := InsertByDate(init, x);
      forall i | 0 <= i < |q|
        ensures !OlderThan(q[i], last)
      {
        assert q[i] in multiset(q);
        if q[i] == x {
          StrLessAsymmetric(last.createdAt, x.createdAt);
        } else {
          assert q[i] in init;
          var m :| 0 <= m < |init| && init[m] == q[i];
          assert r[m] == q[i];
        }
      }
    }
  }

  lemma {:induction false} SortByDateSorted(s: seq<BlogPost>)
    ensures SortedByDate(SortByDate(s))
    decreases |s|
  {
    if s != [] {
      SortByDateSorted(s[..|s| - 1]);
      InsertByDateSorted(SortByDate(s[..|s| - 1]), s[|s| - 1]);
    }
  }

  /** Selects the posts created at instant `t`. */
  function CreatedAt(t: Timestamp): BlogPost -> bool
  {
    (p: BlogPost) => p.createdAt == t
  }

  lemma {:induction false} InsertByDateStable(r: seq<BlogPost>, x: BlogPost, t: Timestamp)
    ensures Filter(InsertByDate(r, x), CreatedAt(t)) == Filter(r, CreatedAt(t)) + Filter([x], CreatedAt(t))
    decreases |r|
  {
    if r == [] || !OlderThan(r[|r| - 1], x) {
      FilterAppend(r, [x], CreatedAt(t));
    } else {
      var init := r[..|r| - 1];
      var last := r[|r| - 1];
      InsertByDateStable(init, x, t);
      FilterAppend(InsertByDate(init, x), [last], CreatedAt(t));
      FilterLast(r, CreatedAt(t));
      StrLessIrreflexive(x.createdAt);
      assert !(last.createdAt == t && x.createdAt == t);
      SwapLast(Filter(init, CreatedAt(t)), Filter([x], CreatedAt(t)), Filter([last], CreatedAt(t)));
    }
  }

  /** Two pieces of which one is empty commute behind a common front. */
  lemma SwapLast<T>(a: seq<T>, x: seq<T>, l: seq<T>)
    requires x == [] || l == []
    ensures a + x + l == a + l + x
  {
  }

  /** Ties keep their input order: among posts with equal `createdAt` the
      sorted order is the input order. */
  lemma {:induction false} SortByDateStable(s: seq<BlogPost>, t: Timestamp)
    ensures Filter(SortByDate(s), CreatedAt(t)) == Filter(s, CreatedAt(t))
    decreases |s|
  {
    if s != [] {
      var init := s[..|s| - 1];
      SortByDateStable(init, t);
      InsertByDateStable(SortByDate(init), s[|s| - 1], t);
      FilterLast(s, CreatedAt(t));
    }
  }

  /** Where the insertion loop stops, `InsertByDate` puts `x` too. */
  lemma {:induction false} InsertByDateAt(r: seq<BlogPost>, x: BlogPost, j: nat)
    requires j <= |r|
    requires forall k :: j <= k < |r| ==> OlderThan(r[k], x)
    requires j == 0 || !OlderThan(r[j - 1], x)
    ensures InsertByDate(r, x) == r[..j] + [x] + r[j..]
    decreases |r|
  {
    if j == |r| {
      assert r[..j] == r && r[j..] == [];
    } else {
      var init := r[..|r| - 1];
      var last := r[|r| - 1];
      assert OlderThan(last, x);
      assert InsertByDate(r, x) == InsertByDate(init, x) + [last];
      assert j == 0 || init[j - 1] == r[j - 1];
      InsertByDateAt(init, x, j);
      SpliceLast(r, x, j);
    }
  }

  /** Moving the last element behind the splice point. */
  lemma SpliceLast(r: seq<BlogPost>, x: BlogPost, j: nat)
    requires j < |r|
    ensures r[..|r| - 1][..j] + [x] + r[..|r| - 1][j..] + [r[|r| - 1]] == r[..j] + [x] + r[j..]
  {
    var init := r[..|r| - 1];
    assert init[..j] == r[..j];
    assert init[j..] + [r[|r| - 1]] == r[j..];
  }

  /** The array after the shift loop and the final store holds `x` spliced
      into `done` at `j`. */
  lemma Spliced(b: seq<BlogPost>, done: seq<BlogPost>, x: BlogPost, j: nat)
    requires j <= |done| < |b|
    requires forall k :: 0 <= k < j ==> b[k] == done[k]
    requires b[j] == x
    requires forall k :: j < k <= |done| ==> b[k] == done[k - 1]
    ensures b[..|done| + 1] == done[..j] + [x] + done[j..]
  {
    var m := done[..j] + [x] + done[j..];
    assert |m| == |done| + 1;
    forall k | 0 <= k <= |done|
      ensures b[k] == m[k]
    {
      if k < j {
        assert m[k] == done[k];
      } else if k > j {
        assert m[k] == done[j..][k - j - 1];
      }
    }
  }

  lemma SortByDatePrefix(s: seq<BlogPost>, i: nat)
    requires i < |s|
    ensures SortByDate(s[..i + 1]) == InsertByDate(SortByDate(s[..i]), s[i])
  {
    assert s[..i + 1][..i] == s[..i];
  }

  /** The shift loop of one insertion step: moves the posts of `a[..i]`
      older than `x`, from the back, one place right, and returns the gap
      it leaves. */
  method ShiftOlder(a: array<BlogPost>, i: nat, x: BlogPost) returns (j: nat)
    requires i < a.Length
    modifies a
    ensures j <= i
    ensures forall k :: 0 <= k < j ==> a[k] == old(a[k])
    ensures forall k :: j < k <= i ==> a[k] == old(a[k - 1])
    ensures forall k :: i < k < a.Length ==> a[k] == old(a[k])
    ensures forall k :: j <= k < i ==> OlderThan(old(a[k]), x)
    ensures j == 0 || !OlderThan(old(a[j - 1]), x)
  {
    j := i;
    while j > 0 && OlderThan(a[j - 1], x)
      invariant 0 <= j <= i
      invariant forall k :: 0 <= k < j ==> a[k] == old(a[k])
      invariant forall k :: j < k <= i ==> a[k] == old(a[k - 1])
      invariant forall k :: i < k < a.Length ==> a[k] == old(a[k])
      invariant forall k :: j <= k < i ==> OlderThan(old(a[k]), x)
    {
      a[j] := a[j - 1];
      j := j - 1;
    }
  }

  /** One insertion step: shifts the older posts of the sorted prefix
      `a[..i]` one place right and stores `a[i]` in the gap. */
  method InsertStep(a: array<BlogPost>, i: nat)
    requires i < a.Length
    modifies a
    ensures a[..i + 1] == InsertByDate(old(a[..i]), old(a[i]))
    ensures forall k :: i < k < a.Length ==> a[k] == old(a[k])
  {
    ghost var done := a[..i];
    var x := a[i];
    var j := ShiftOlder(a, i, x);
    InsertByDateAt(done, x, j);
    a[j] := x;
    ghost var b := a[..];
    Spliced(b, done, x, j);
    assert a[..i + 1] == b[..|done| + 1];
  }

  /** `sortPostsByDate`: copies the posts into a fresh array and
      insertion-sorts it newest first; the input is left as it is. */
  method SortPostsByDate(posts: seq<BlogPost>) returns (sorted: seq<BlogPost>)
    ensures sorted == SortByDate(posts)
    ensures SortedByDate(sorted) && multiset(sorted) == multiset(posts)
  {
    var a := new BlogPost[|posts|](k requires 0 <= k < |posts| => posts[k]);
    for i := 0 to a.Length
      invariant a[..i] == SortByDate(posts[..i])
      invariant forall k :: i <= k < a.Length ==> a[k] == posts[k]
    {
      InsertStep(a, i);
      SortByDatePrefix(posts, i);
    }
    assert posts[..a.Length] == posts;
    sorted := a[..];
    SortByDateSorted(posts);
  }

  // ---------------------------------------------------------------------
  // Tag filter

  /** Selects the posts whose tags include `tag` exactly. */
  function HasTag(tag: string): BlogPost -> bool
  {
    (p: BlogPost) => tag in p.tags
  }

  /** `filterPostsByTag(posts, tag)`: the empty tag selects everything. */
  function FilterPostsByTag(posts: seq<BlogPost>, tag: string): (r: seq<BlogPost>)
    ensures tag == "" ==> r == posts
    ensures tag != "" ==> forall i :: 0 <= i < |r| ==> tag in r[i].tags && r[i] in posts
    ensures tag != "" ==> forall i :: 0 <= i < |posts| && tag in posts[i].tags ==> posts[i] in r
    ensures IsSubsequence(r, posts)
    ensures forall p :: multiset(r)[p] == if tag == "" || tag in p.tags then multiset(posts)[p] else 0
  {
    if tag == "" then
      SubsequenceReflexive(posts);
      posts
    else
      FilterIsSubsequence(posts, HasTag(tag));
      FilterMultiset(posts, HasTag(tag));
      Filter(posts, HasTag(tag))
  }

  // ---------------------------------------------------------------------
  // Tag list

  /** Some post of `posts` carries the tag `t`. */
  predicate TagOccurs(posts: seq<BlogPost>, t: string)
  {
    exists i :: 0 <= i < |posts| && t in posts[i].tags
  }

  /** `tagSet.add(t)` on a `Set` listed in insertion order. */
  function SetAdd(acc: seq<string>, t: string): (r: seq<string>)
    ensures NoDuplicates(acc) ==> NoDuplicates(r)
    ensures forall u :: u in r <==> u in acc || u == t
  {
    if t in acc then acc else acc + [t]
  }

  /** Adding `tags` to the set one after another. */
  function SetAddAll(acc: seq<string>, tags: seq<string>): (r: seq<string>)
    ensures NoDuplicates(acc) ==> NoDuplicates(r)
    ensures forall u :: u in r <==> u in acc || u in tags
    decreases |tags|
  {
    if tags == [] then acc
    else
      assert tags == tags[..|tags| - 1] + [tags[|tags| - 1]];
      SetAdd(SetAddAll(acc, tags[..|tags| - 1]), tags[|tags| - 1])
  }

  /** The `Set` filled by visiting every tag of every post in order. */
  function CollectTags(posts: seq<BlogPost>): (r: seq<string>)
    ensures NoDuplicates(r)
    ensures forall t :: t in r <==> TagOccurs(posts, t)
    decreases |posts|
  {
    if posts == [] then []
    else
      var init := posts[..|posts| - 1];
      var last := posts[|posts| - 1];
      assert forall t :: TagOccurs(posts, t) <==> TagOccurs(init, t) || t in last.tags by {
        forall t | TagOccurs(init, t)
          ensures TagOccurs(posts, t)
        {
          var i :| 0 <= i < |init| && t in init[i].tags;
          assert posts[i] == init[i];
        }
      }
      SetAddAll(CollectTags(init), last.tags)
  }

  /** Inserts `x` in front of the first element not less than it. */
  function InsertString(x: string, r: seq<string>): (q: seq<string>)
    ensures multiset(q) == multiset(r) + multiset{x}
  {
    if r == [] || !StrLess(r[0], x) then [x] + r
    else
      assert r == [r[0]] + r[1..];
      [r[0]] + InsertString(x, r[1..])
  }

  lemma {:induction false} InsertStringAscending(x: string, r: seq<string>)
    requires Ascending(r)
    ensures Ascending(InsertString(x, r))
    decreases |r|
  {
    var q := InsertString(x, r);
    if r == [] || !StrLess(r[0], x) {
      forall j | 0 < j < |q|
        ensures !StrLess(q[j], x)
      {
        assert q[j] == r[j - 1];
        if j > 1 {
          StrLeqTransitive(x, r[0], r[j - 1]);
        }
      }
    } else {
      var rest := InsertString(x, r[1..]);
      InsertStringAscending(x, r[1..]);
      forall j | 0 <= j < |rest|
        ensures !StrLess(rest[j], r[0])
      {
        assert rest[j] in multiset(rest);
        if rest[j] == x {
          StrLessAsymmetric(r[0], x);
        } else {
          var m :| 0 <= m < |r[1..]| && r[1..][m] == rest[j];
          assert r[m + 1] == rest[j];
        }
      }
    }
  }

  lemma {:induction false} InsertStringNoDuplicates(x: string, r: seq<string>)
    requires NoDuplicates(r) && x !in r
    ensures NoDuplicates(InsertString(x, r))
    decreases |r|
  {
    if !(r == [] || !StrLess(r[0], x)) {
      var rest := InsertString(x, r[1..]);
      InsertStringNoDuplicates(x, r[1..]);
      assert r[0] !in r[1..];
      assert r[0] !in multiset(rest);
    }
  }

  /** `Array.prototype.sort()` with the default string order. */
  function SortStrings(s: seq<string>): (r: seq<string>)
    ensures multiset(r) == multiset(s)
    ensures Ascending(r)
    ensures NoDuplicates(s) ==> StrictlyAscending(r)
    decreases |s|
  {
    if s == [] then []
    else
      var rest := SortStrings(s[1..]);
      assert s == [s[0]] + s[1..];
      InsertStringAscending(s[0], rest);
      InsertStringStrict(s, rest);
      InsertString(s[0], rest)
  }

  /** Inserting the head of a duplicate-free list into the sorted tail keeps
      the order strict. */
  lemma InsertStringStrict(s: seq<string>, rest: seq<string>)
    requires s != [] && multiset(rest) == multiset(s[1..]) && Ascending(rest)
    requires NoDuplicates(s[1..]) ==> StrictlyAscending(rest)
    ensures NoDuplicates(s) ==> StrictlyAscending(InsertString(s[0], rest))
  {
    if NoDuplicates(s) {
      assert NoDuplicates(s[1..]) by {
        forall i, j | 0 <= i < j < |s[1..]|
          ensures s[1..][i] != s[1..][j]
        {
          assert s[1..][i] == s[i + 1] && s[1..][j] == s[j + 1];
        }
      }
      StrictImpliesNoDuplicates(rest);
      assert s[0] !in s[1..];
      assert s[0] !in multiset(rest);
      InsertStringAscending(s[0], rest);
      InsertStringNoDuplicates(s[0], rest);
      AscendingNoDuplicatesStrict(InsertString(s[0], rest));
    }
  }

  lemma StrictImpliesNoDuplicates(r: seq<string>)
    requires StrictlyAscending(r)
    ensures NoDuplicates(r)
  {
    forall i, j | 0 <= i < j < |r|
      ensures r[i] != r[j]
    {
      StrLessIrreflexive(r[i]);
    }
  }

  lemma AscendingNoDuplicatesStrict(r: seq<string>)
    requires Ascending(r) && NoDuplicates(r)
    ensures StrictlyAscending(r)
  {
    forall i, j | 0 <= i < j < |r|
      ensures StrLess(r[i], r[j])
    {
      StrLessTotal(r[i], r[j]);
    }
  }

  /** `Array.from(tagSet).sort()`. */
  function AllTags(posts: seq<BlogPost>): (r: seq<string>)
    ensures StrictlyAscending(r)
    ensures forall t :: t in r <==> TagOccurs(posts, t)
  {
    var tags := CollectTags(posts);
    var r := SortStrings(tags);
    assert forall t :: t in r <==> t in multiset(tags);
    r
  }

  /** `tags.forEach(tag => tagSet.add(tag))`. */
  method AddEach(tagSet: seq<string>, tags: seq<string>) returns (r: seq<string>)
    ensures r == SetAddAll(tagSet, tags)
  {
    r := tagSet;
    for j := 0 to |tags|
      invariant r == SetAddAll(tagSet, tags[..j])
    {
      assert tags[..j + 1][..j] == tags[..j];
      if tags[j] !in r {
        r := r + [tags[j]];
      }
    }
    assert tags[..|tags|] == tags;
  }

  /** `getAllTags`: the loop fills the set post by post, then it is
      sorted. */
  method GetAllTags(posts: seq<BlogPost>) returns (tags: seq<string>)
    ensures tags == AllTags(posts)
    ensures StrictlyAscending(tags)
    ensures forall t :: t in tags <==> TagOccurs(posts, t)
  {
    var tagSet: seq<string> := [];
    for i := 0 to |posts|
      invariant tagSet == CollectTags(posts[..i])
    {
      tagSet := AddEach(tagSet, posts[i].tags);
      assert posts[..i + 1][..i] == posts[..i];
    }
    assert posts[..|posts|] == posts;
    tags := SortStrings(tagSet);
  }

  /** Tags `['b', 'a']` and `['a', 'c']` give `['a', 'b', 'c']`. */
  lemma AllTagsExample(p: BlogPost, q: BlogPost)
    requires p.tags == ["b", "a"] && q.tags == ["a", "c"]
    ensures AllTags([p, q]) == ["a", "b", "c"]
  {
    var posts := [p, q];
    var expected := ["a", "b", "c"];
    assert StrLess("a", "b") && StrLess("b", "c") && StrLess("a", "c");
    forall t
      ensures t in AllTags(posts) <==> t in expected
    {
      if t in expected {
        assert t in posts[0].tags || t in posts[1].tags;
      }
      if TagOccurs(posts, t) {
        var i :| 0 <= i < |posts| && t in posts[i].tags;
        assert i == 0 || i == 1;
      }
    }
    StrictlyAscendingUnique(AllTags(posts), expected);
  }
}
