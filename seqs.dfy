/** `Array.prototype.filter` and the facts about it that the views rely on. */
module Seqs {

  /** `s.filter(f)`: the elements satisfying `f`, in their order in `s`. */
  function Filter<T>(s: seq<T>, f: T -> bool): (r: seq<T>)
    ensures |r| <= |s|
    ensures forall i :: 0 <= i < |r| ==> r[i] in s && f(r[i])
    ensures forall i :: 0 <= i < |s| && f(s[i]) ==> s[i] in r
  {
    if s == [] then [] else (if f(s[0]) then [s[0]] else []) + Filter(s[1..], f)
  }

  /** `b` arises from `a` by deleting elements: the relative order of what
      remains is the order in `a`. */
  ghost predicate IsSubsequence<T>(b: seq<T>, a: seq<T>)
    decreases |a|
  {
    if b == [] then true
    else if a == [] then false
    else if b[0] == a[0] then IsSubsequence(b[1..], a[1..])
    else IsSubsequence(b, a[1..])
  }

  lemma {:induction false} SubsequenceReflexive<T>(a: seq<T>)
    ensures IsSubsequence(a, a)
    decreases |a|
  {
    if a != [] {
      SubsequenceReflexive(a[1..]);
    }
  }

  lemma {:induction false} FilterIsSubsequence<T>(s: seq<T>, f: T -> bool)
    ensures IsSubsequence(Filter(s, f), s)
    decreases |s|
  {
    if s != [] {
      FilterIsSubsequence(s[1..], f);
      if f(s[0]) {
        assert Filter(s, f) == [s[0]] + Filter(s[1..], f);
        assert Filter(s, f)[1..] == Filter(s[1..], f);
      } else {
        assert Filter(s, f) == Filter(s[1..], f);
        SubsequenceDropHead(Filter(s[1..], f), s);
      }
    }
  }

  /** A subsequence of `a[1..]` is a subsequence of `a`. */
  lemma {:induction false} SubsequenceDropHead<T>(b: seq<T>, a: seq<T>)
    requires a != [] && IsSubsequence(b, a[1..])
    ensures IsSubsequence(b, a)
    decreases |a|, 1
  {
    if b != [] && b[0] == a[0] {
      SubsequenceTail(b, a[1..]);
    }
  }

  /** Dropping the head of a subsequence keeps it a subsequence. */
  lemma {:induction false} SubsequenceTail<T>(b: seq<T>, a: seq<T>)
    requires b != [] && IsSubsequence(b, a)
    ensures IsSubsequence(b[1..], a)
    decreases |a|, 2
  {
    assert a != [];
    if b[0] == a[0] {
      assert IsSubsequence(b[1..], a[1..]);
      SubsequenceDropHead(b[1..], a);
    } else {
      SubsequenceTail(b, a[1..]);
      SubsequenceDropHead(b[1..], a);
    }
  }

  lemma {:induction false} FilterAppend<T>(a: seq<T>, b: seq<T>, f: T -> bool)
    ensures Filter(a + b, f) == Filter(a, f) + Filter(b, f)
    decreases |a|
  {
    if a == [] {
      assert a + b == b;
    } else {
      assert (a + b)[0] == a[0];
      assert (a + b)[1..] == a[1..] + b;
      FilterAppend(a[1..], b, f);
    }
  }

  /** Filtering a non-empty sequence: its front, then its last element. */
  lemma FilterLast<T>(s: seq<T>, f: T -> bool)
    requires s != []
    ensures Filter(s, f) == Filter(s[..|s| - 1], f) + Filter([s[|s| - 1]], f)
  {
    InitLast(s);
    FilterAppend(s[..|s| - 1], [s[|s| - 1]], f);
  }

  /** A non-empty sequence is its front followed by its last element. */
  lemma InitLast<T>(s: seq<T>)
    requires s != []
    ensures s[..|s| - 1] + [s[|s| - 1]] == s
  {
  }

  /** Filtering keeps everything when every element satisfies `f`. */
  lemma {:induction false} FilterAll<T>(s: seq<T>, f: T -> bool)
    ensures (forall i :: 0 <= i < |s| ==> f(s[i])) ==> Filter(s, f) == s
    decreases |s|
  {
    if s != [] && forall i :: 0 <= i < |s| ==> f(s[i]) {
      assert forall i :: 0 <= i < |s[1..]| ==> s[1..][i] == s[i + 1];
      FilterAll(s[1..], f);
      assert s == [s[0]] + s[1..];
    }
  }

  /** Each value is kept as often as it occurs in `s` when it satisfies
      `f`, and not at all otherwise. */
  lemma {:induction false} FilterMultiset<T>(s: seq<T>, f: T -> bool)
    ensures forall x :: multiset(Filter(s, f))[x] == if f(x) then multiset(s)[x] else 0
    decreases |s|
  {
    if s != [] {
      FilterMultiset(s[1..], f);
      assert s == [s[0]] + s[1..];
    }
  }

  /** Filtering with `f` and with its negation `g` splits `s` into two
      parts whose sizes add up to `|s|`. */
  lemma {:induction false} FilterComplementCount<T>(s: seq<T>, f: T -> bool, g: T -> bool)
    requires forall x :: g(x) == !f(x)
    ensures |Filter(s, f)| + |Filter(s, g)| == |s|
    decreases |s|
  {
    if s != [] {
      FilterComplementCount(s[1..], f, g);
    }
  }

  /** Filtering keeps nothing when no element satisfies `f`. */
  lemma {:induction false} FilterNone<T>(s: seq<T>, f: T -> bool)
    requires forall i :: 0 <= i < |s| ==> !f(s[i])
    ensures Filter(s, f) == []
    decreases |s|
  {
    if s != [] {
      assert forall i :: 0 <= i < |s[1..]| ==> s[1..][i] == s[i + 1];
      FilterNone(s[1..], f);
    }
  }

  /** `s.findIndex(f)`: the first index whose element satisfies `f`, or
      -1 when there is none. */
  function FindFirst<T>(s: seq<T>, f: T -> bool): (i: int)
    ensures -1 <= i < |s|
    ensures i >= 0 ==> f(s[i]) && forall k :: 0 <= k < i ==> !f(s[k])
    ensures i == -1 <==> forall k :: 0 <= k < |s| ==> !f(s[k])
  {
    if s == [] then -1
    else if f(s[0]) then 0
    else
      var r := FindFirst(s[1..], f);
      assert forall k :: 0 < k < |s| ==> s[k] == s[1..][k - 1];
      if r < 0 then -1 else r + 1
  }

  /** No element occurs twice. */
  predicate NoDuplicates<T(==)>(s: seq<T>)
  {
    forall i, j :: 0 <= i < j < |s| ==> s[i] != s[j]
  }

  /** The elements of `s` are pairwise distinct under the key `k`. */
  predicate DistinctBy<T, K(==)>(s: seq<T>, k: T -> K)
  {
    forall i, j :: 0 <= i < j < |s| ==> k(s[i]) != k(s[j])
  }

  lemma {:induction false} FilterDistinctBy<T, K>(s: seq<T>, f: T -> bool, k: T -> K)
    requires DistinctBy(s, k)
    ensures DistinctBy(Filter(s, f), k)
    decreases |s|
  {
    if s != [] {
      assert DistinctBy(s[1..], k) by {
        forall i, j | 0 <= i < j < |s[1..]|
          ensures k(s[1..][i]) != k(s[1..][j])
        {
          assert s[1..][i] == s[i + 1] && s[1..][j] == s[j + 1];
        }
      }
      FilterDistinctBy(s[1..], f, k);
      var rest := Filter(s[1..], f);
      if f(s[0]) {
        var r := [s[0]] + rest;
        forall i, j | 0 <= i < j < |r|
          ensures k(r[i]) != k(r[j])
        {
          if i == 0 {
            assert r[j] == rest[j - 1] && rest[j - 1] in s[1..] by {
              assert 0 <= j - 1 < |rest|;
            }
            var m :| 0 <= m < |s[1..]| && s[1..][m] == r[j];
            assert s[m + 1] == r[j];
          } else {
            assert r[i] == rest[i - 1] && r[j] == rest[j - 1];
          }
        }
      }
    }
  }

  lemma FilterNoDuplicates<T>(s: seq<T>, f: T -> bool)
    ensures NoDuplicates(s) ==> NoDuplicates(Filter(s, f))
  {
    if NoDuplicates(s) {
      FilterDistinctBy(s, f, (x: T) => x);
    }
  }

  /** Filtering twice is filtering once by the conjunction. */
  lemma {:induction false} FilterFilter<T>(s: seq<T>, f: T -> bool, g: T -> bool, h: T -> bool)
    requires forall x :: h(x) == (f(x) && g(x))
    ensures Filter(Filter(s, f), g) == Filter(s, h)
    decreases |s|
  {
    if s != [] {
      FilterFilter(s[1..], f, g, h);
      assert h(s[0]) == (f(s[0]) && g(s[0]));
      var x := Filter(s, f);
      if f(s[0]) {
        assert x == [s[0]] + Filter(s[1..], f);
        assert x[0] == s[0] && x[1..] == Filter(s[1..], f);
        assert Filter(x, g) == (if g(s[0]) then [s[0]] else []) + Filter(x[1..], g);
      } else {
        assert x == Filter(s[1..], f);
        assert Filter(s, h) == Filter(s[1..], h);
      }
    }
  }
}
