/** String primitives of the JavaScript runtime that the blog relies on:
    `trim`, `split(/\s+/)`, `join`, the default string order of `sort`, and
    substring counting. A string is a sequence of Unicode code points. */
module Text {

  /** The characters matched by the regular-expression class `\s` and removed
      by `String.prototype.trim`: ECMAScript WhiteSpace and LineTerminator. */
  predicate IsWhitespace(c: char)
  {
    || c == '\t' || c == '\n' || c == '\U{000B}' || c == '\U{000C}' || c == '\r'
    || c == ' ' || c == '\U{00A0}' || c == '\U{1680}'
    || ('\U{2000}' <= c <= '\U{200A}')
    || c == '\U{2028}' || c == '\U{2029}' || c == '\U{202F}' || c == '\U{205F}'
    || c == '\U{3000}' || c == '\U{FEFF}'
  }

  /** ECMAScript LineTerminator: the characters `.` does not match and that
      `^` and `$` recognise in multiline mode. */
  predicate IsLineTerminator(c: char)
  {
    c == '\n' || c == '\r' || c == '\U{2028}' || c == '\U{2029}'
  }

  lemma LineTerminatorIsWhitespace(c: char)
    requires IsLineTerminator(c)
    ensures IsWhitespace(c)
  {
  }

  predicate NoWhitespace(s: string)
  {
    forall k :: 0 <= k < |s| ==> !IsWhitespace(s[k])
  }

  /** Neither end of `s` is whitespace: what `trim` produces. */
  predicate IsTrimmed(s: string)
  {
    s == [] || (!IsWhitespace(s[0]) && !IsWhitespace(s[|s| - 1]))
  }

  /** Drops the leading run of whitespace. */
  function TrimStart(s: string): (r: string)
    ensures |r| <= |s| && r == s[|s| - |r|..]
    ensures r == [] || !IsWhitespace(r[0])
    ensures forall k :: 0 <= k < |s| - |r| ==> IsWhitespace(s[k])
  {
    if |s| > 0 && IsWhitespace(s[0]) then TrimStart(s[1..]) else s
  }

  /** Drops the trailing run of whitespace. */
  function TrimEnd(s: string): (r: string)
    ensures |r| <= |s| && r == s[..|r|]
    ensures r == [] || !IsWhitespace(r[|r| - 1])
    ensures forall k :: |r| <= k < |s| ==> IsWhitespace(s[k])
  {
    if |s| > 0 && IsWhitespace(s[|s| - 1]) then TrimEnd(s[..|s| - 1]) else s
  }

  /** `String.prototype.trim`. */
  function Trim(s: string): (r: string)
    ensures IsTrimmed(r)
    ensures |r| <= |s|
  {
    var t := TrimStart(s);
    var r := TrimEnd(t);
    assert r != [] ==> r[0] == t[0];
    r
  }

  /** What `trim` keeps is a contiguous slice of the input, starting where
      the leading whitespace ends. */
  lemma TrimSlice(s: string)
    ensures |s| - |TrimStart(s)| + |Trim(s)| <= |s|
    ensures Trim(s) == s[|s| - |TrimStart(s)|..|s| - |TrimStart(s)| + |Trim(s)|]
  {
    SliceOfSuffix(s, |s| - |TrimStart(s)|, |Trim(s)|);
  }

  /** Everything `trim` drops is whitespace. */
  lemma TrimDropsWhitespace(s: string)
    ensures forall k :: 0 <= k < |s| - |TrimStart(s)| ==> IsWhitespace(s[k])
    ensures forall k :: |s| - |TrimStart(s)| + |Trim(s)| <= k < |s| ==> IsWhitespace(s[k])
  {
    var t := TrimStart(s);
    var i := |s| - |t|;
    forall k | i + |Trim(s)| <= k < |s|
      ensures IsWhitespace(s[k])
    {
      assert s[k] == t[k - i];
    }
  }

  /** A prefix of a suffix is a slice. */
  lemma SliceOfSuffix(s: string, i: nat, n: nat)
    requires i + n <= |s|
    ensures s[i..i + n] == s[i..][..n]
  {
  }

  lemma {:induction false} TrimStartOfTrimmed(s: string)
    requires s == [] || !IsWhitespace(s[0])
    ensures TrimStart(s) == s
  {
  }

  lemma {:induction false} TrimEndOfTrimmed(s: string)
    requires s == [] || !IsWhitespace(s[|s| - 1])
    ensures TrimEnd(s) == s
  {
  }

  /** Trimming a string whose ends are not whitespace changes nothing. */
  lemma TrimOfTrimmed(s: string)
    requires IsTrimmed(s)
    ensures Trim(s) == s
  {
    TrimStartOfTrimmed(s);
    TrimEndOfTrimmed(s);
  }

  /** `trim` is idempotent. */
  lemma TrimIdempotent(s: string)
    ensures Trim(Trim(s)) == Trim(s)
  {
    TrimOfTrimmed(Trim(s));
  }

  /** `trim` gives the empty string exactly when every character is whitespace. */
  lemma {:induction false} TrimEmptyIff(s: string)
    ensures Trim(s) == [] <==> forall k :: 0 <= k < |s| ==> IsWhitespace(s[k])
  {
    var t := TrimStart(s);
    if t != [] {
      assert !IsWhitespace(t[0]);
      assert t[0] == s[|s| - |t|];
      assert TrimEnd(t) != [];
    }
  }

  /** Removes a prefix of whitespace characters. */
  lemma {:induction false} TrimStartSkips(w: string, s: string)
    requires forall k :: 0 <= k < |w| ==> IsWhitespace(w[k])
    requires s == [] || !IsWhitespace(s[0])
    ensures TrimStart(w + s) == s
    decreases |w|
  {
    if w == [] {
      assert w + s == s;
      TrimStartOfTrimmed(s);
    } else {
      assert (w + s)[1..] == w[1..] + s;
      TrimStartSkips(w[1..], s);
    }
  }

  // ---------------------------------------------------------------------
  // split(/\s+/)

  /** `s.split(/\s+/)`: the pieces between maximal runs of whitespace. A
      leading or trailing run yields an empty first or last piece, and the
      empty string splits into one empty piece. */
  function SplitWhitespace(s: string): (r: seq<string>)
    ensures |r| >= 1
    ensures forall k :: 0 <= k < |r| ==> NoWhitespace(r[k])
    decreases |s|, 1
  {
    SplitPiece(s, "")
  }

  /** Continues splitting `s` when the piece read so far is `cur`. */
  function SplitPiece(s: string, cur: string): (r: seq<string>)
    requires NoWhitespace(cur)
    ensures |r| >= 1
    ensures forall k :: 0 <= k < |r| ==> NoWhitespace(r[k])
    decreases |s|, 0
  {
    if s == [] then [cur]
    else if IsWhitespace(s[0]) then [cur] + SplitWhitespace(TrimStart(s))
    else SplitPiece(s[1..], cur + [s[0]])
  }

  /** A word followed by a run of whitespace and a string that does not
      start with whitespace splits into that word and the pieces of the
      rest: `/\s+/` consumes the whole run. */
  lemma {:induction false} SplitWordThenRest(word: string, run: string, rest: string)
    requires NoWhitespace(word) && run != [] && forall k :: 0 <= k < |run| ==> IsWhitespace(run[k])
    requires rest == [] || !IsWhitespace(rest[0])
    ensures SplitWhitespace(word + run + rest) == [word] + SplitWhitespace(rest)
  {
    assert (run + rest)[0] == run[0];
    SplitPieceWord(word, "", run + rest);
    assert word + run + rest == word + (run + rest);
    assert "" + word == word;
    TrimStartSkips(run, rest);
  }

  lemma {:induction false} SplitPieceWord(word: string, cur: string, tail: string)
    requires NoWhitespace(word) && NoWhitespace(cur)
    requires NoWhitespace(cur + word)
    requires tail != [] && IsWhitespace(tail[0])
    ensures SplitPiece(word + tail, cur) == [cur + word] + SplitWhitespace(TrimStart(tail))
    decreases |word|
  {
    if word == [] {
      assert word + tail == tail;
      assert cur + word == cur;
    } else {
      assert (word + tail)[0] == word[0];
      assert (word + tail)[1..] == word[1..] + tail;
      assert cur + [word[0]] + word[1..] == cur + word;
      SplitPieceWord(word[1..], cur + [word[0]], tail);
    }
  }

  /** A string without whitespace is a single piece. */
  lemma {:induction false} SplitSingleWord(word: string)
    requires NoWhitespace(word)
    ensures SplitWhitespace(word) == [word]
  {
    SplitPieceAll(word, "");
    assert "" + word == word;
  }

  lemma {:induction false} SplitPieceAll(word: string, cur: string)
    requires NoWhitespace(word) && NoWhitespace(cur)
    ensures SplitPiece(word, cur) == [cur + word]
    decreases |word|
  {
    if word == [] {
      assert cur + word == cur;
    } else {
      assert cur + [word[0]] + word[1..] == cur + word;
      SplitPieceAll(word[1..], cur + [word[0]]);
    }
  }

  /** The characters of `s` that are not whitespace, in order. */
  function RemoveWhitespace(s: string): string
  {
    if s == [] then [] else (if IsWhitespace(s[0]) then [] else [s[0]]) + RemoveWhitespace(s[1..])
  }

  /** The pieces laid end to end. */
  function Concat(parts: seq<string>): string
  {
    if parts == [] then "" else parts[0] + Concat(parts[1..])
  }

  lemma ConcatCons(a: string, r: seq<string>)
    ensures Concat([a] + r) == a + Concat(r)
  {
    assert ([a] + r)[1..] == r;
  }

  /** Leading whitespace contributes nothing to `RemoveWhitespace`. */
  lemma {:induction false} RemoveWhitespaceTrimStart(s: string)
    ensures RemoveWhitespace(TrimStart(s)) == RemoveWhitespace(s)
    decreases |s|
  {
    if |s| > 0 && IsWhitespace(s[0]) {
      RemoveWhitespaceTrimStart(s[1..]);
      assert RemoveWhitespace(s) == [] + RemoveWhitespace(s[1..]);
    }
  }

  lemma {:induction false} SplitPieceConcat(s: string, cur: string)
    requires NoWhitespace(cur)
    ensures Concat(SplitPiece(s, cur)) == cur + RemoveWhitespace(s)
    decreases |s|
  {
    if s == [] {
      ConcatCons(cur, []);
    } else if IsWhitespace(s[0]) {
      var t := TrimStart(s);
      SplitPieceConcat(t, "");
      ConcatCons(cur, SplitWhitespace(t));
      RemoveWhitespaceTrimStart(s);
      assert "" + RemoveWhitespace(t) == RemoveWhitespace(t);
    } else {
      SplitPieceConcat(s[1..], cur + [s[0]]);
      assert RemoveWhitespace(s) == [s[0]] + RemoveWhitespace(s[1..]);
      assert cur + [s[0]] + RemoveWhitespace(s[1..]) == cur + ([s[0]] + RemoveWhitespace(s[1..]));
    }
  }

  /** Laid end to end, the pieces of `split(/\s+/)` are the input with its
      whitespace removed: the split loses only whitespace and keeps the
      order of everything else. */
  lemma SplitConcat(s: string)
    ensures Concat(SplitWhitespace(s)) == RemoveWhitespace(s)
  {
    SplitPieceConcat(s, "");
    assert "" + RemoveWhitespace(s) == RemoveWhitespace(s);
  }

  /** Length of the leading run of characters that are not whitespace. */
  function WordLength(s: string): (n: nat)
    ensures n <= |s|
    ensures NoWhitespace(s[..n])
    ensures n < |s| ==> IsWhitespace(s[n])
  {
    if s == [] || IsWhitespace(s[0]) then 0
    else
      1 + WordLength(s[1..])
  }

  /** The words of `s`, a reference for the split: its maximal runs of
      characters that are not whitespace, in order. */
  function WordsOf(s: string): (r: seq<string>)
    ensures forall k :: 0 <= k < |r| ==> r[k] != [] && NoWhitespace(r[k])
    decreases |s|
  {
    if s == [] then []
    else if IsWhitespace(s[0]) then WordsOf(s[1..])
    else
      var n := WordLength(s);
      [s[..n]] + WordsOf(s[n..])
  }

  /** Leading whitespace holds no word. */
  lemma {:induction false} WordsOfTrimStart(s: string)
    ensures WordsOf(TrimStart(s)) == WordsOf(s)
    decreases |s|
  {
    if |s| > 0 && IsWhitespace(s[0]) {
      WordsOfTrimStart(s[1..]);
    }
  }

  /** A run of whitespace holds no word. */
  lemma {:induction false} WordsOfBlank(w: string)
    requires forall k :: 0 <= k < |w| ==> IsWhitespace(w[k])
    ensures WordsOf(w) == []
    decreases |w|
  {
    if w != [] {
      WordsOfBlank(w[1..]);
    }
  }

  /** A word is not extended by what follows a whitespace character. */
  lemma {:induction false} WordLengthAppend(s: string, w: string)
    requires w == [] || IsWhitespace(w[0])
    ensures WordLength(s + w) == WordLength(s)
    decreases |s|
  {
    if s == [] {
      assert s + w == w;
    } else {
      assert (s + w)[0] == s[0] && (s + w)[1..] == s[1..] + w;
      if !IsWhitespace(s[0]) {
        WordLengthAppend(s[1..], w);
      }
    }
  }

  /** Whitespace appended holds no word. */
  lemma {:induction false} WordsAppendBlank(s: string, w: string)
    requires forall k :: 0 <= k < |w| ==> IsWhitespace(w[k])
    ensures WordsOf(s + w) == WordsOf(s)
    decreases |s|
  {
    if s == [] {
      assert s + w == w;
      WordsOfBlank(w);
    } else {
      assert (s + w)[0] == s[0];
      if IsWhitespace(s[0]) {
        assert (s + w)[1..] == s[1..] + w;
        WordsAppendBlank(s[1..], w);
      } else {
        var n := WordLength(s);
        WordLengthAppend(s, w);
        assert (s + w)[..n] == s[..n];
        assert (s + w)[n..] == s[n..] + w;
        WordsAppendBlank(s[n..], w);
      }
    }
  }

  /** Trimming keeps the words. */
  lemma WordsOfTrim(s: string)
    ensures WordsOf(Trim(s)) == WordsOf(s)
  {
    WordsOfTrimEnd(TrimStart(s));
    WordsOfTrimStart(s);
  }

  /** Trailing whitespace holds no word. */
  lemma WordsOfTrimEnd(t: string)
    ensures WordsOf(TrimEnd(t)) == WordsOf(t)
  {
    var r := TrimEnd(t);
    var w := t[|r|..];
    assert t == r + w;
    assert forall k :: 0 <= k < |w| ==> w[k] == t[|r| + k];
    WordsAppendBlank(r, w);
  }

  /** On trimmed, non-empty input `split(/\s+/)` yields exactly the words,
      so every piece is non-empty. */
  lemma {:induction false} SplitIsWords(s: string)
    requires s != [] && IsTrimmed(s)
    ensures SplitWhitespace(s) == WordsOf(s)
    decreases |s|
  {
    var n := WordLength(s);
    var word := s[..n];
    if n == |s| {
      assert word == s && s[n..] == [];
      SplitSingleWord(s);
    } else {
      var rest := TrimStart(s[n..]);
      WordCut(s, n, rest);
      CutAt(s, n, rest);
      var run := s[n..|s| - |rest|];
      assert forall k :: 0 <= k < |run| ==> run[k] == s[n + k];
      SplitWordThenRest(word, run, rest);
      SplitIsWords(rest);
      WordsOfTrimStart(s[n..]);
    }
  }

  /** What follows the first word of trimmed text that goes on, once its
      whitespace is dropped, is trimmed and non-empty. */
  lemma WordCut(s: string, n: nat, rest: string)
    requires s != [] && IsTrimmed(s) && n == WordLength(s) && n < |s| && rest == TrimStart(s[n..])
    ensures rest != [] && IsTrimmed(rest) && |rest| < |s| - n
  {
    var t := s[n..];
    assert t[|t| - 1] == s[|s| - 1];
    TrimStartTrimmed(t);
  }

  /** `s` cut at `n` into a front, a run of whitespace and a suffix of what
      follows the front. */
  lemma CutAt(s: string, n: nat, rest: string)
    requires n <= |s| && |rest| <= |s| - n && rest == s[n..][|s| - n - |rest|..]
    requires forall k :: 0 <= k < |s| - n - |rest| ==> IsWhitespace(s[n..][k])
    ensures s == s[..n] + s[n..|s| - |rest|] + rest
    ensures forall k :: n <= k < |s| - |rest| ==> IsWhitespace(s[k])
  {
    assert rest == s[|s| - |rest|..];
    SliceThree(s, n, |s| - |rest|);
    assert forall k :: n <= k < |s| - |rest| ==> s[k] == s[n..][k - n];
  }

  /** Text that does not end in whitespace trims at the start to trimmed,
      non-empty text. */
  lemma TrimStartTrimmed(t: string)
    requires t != [] && !IsWhitespace(t[|t| - 1])
    ensures TrimStart(t) != [] && IsTrimmed(TrimStart(t))
  {
    var r := TrimStart(t);
    assert r != [] by {
      assert !IsWhitespace(t[|t| - 1]);
    }
    assert r[|r| - 1] == t[|t| - 1];
  }

  lemma SliceThree(s: string, n: nat, m: nat)
    requires n <= m <= |s|
    ensures s == s[..n] + s[n..m] + s[m..]
  {
  }

  /** The pieces of trimmed, non-empty input are all non-empty. */
  lemma SplitTrimmedPieces(s: string)
    requires s != [] && IsTrimmed(s)
    ensures forall k :: 0 <= k < |SplitWhitespace(s)| ==> SplitWhitespace(s)[k] != []
  {
    SplitIsWords(s);
  }

  // ---------------------------------------------------------------------
  // Default string order

  /** The default comparator of `Array.prototype.sort`, taken as
      lexicographic order on code points with a proper prefix coming
      first. JavaScript compares UTF-16 code units instead; the two agree
      except between a character above U+FFFF and one from U+E000 to
      U+FFFF. */
  predicate StrLess(a: string, b: string)
  {
    if |a| == 0 then |b| > 0
    else if |b| == 0 then false
    else if a[0] == b[0] then StrLess(a[1..], b[1..])
    else a[0] < b[0]
  }

  lemma {:induction false} StrLessIrreflexive(a: string)
    ensures !StrLess(a, a)
  {
    if |a| > 0 {
      StrLessIrreflexive(a[1..]);
    }
  }

  lemma {:induction false} StrLessTransitive(a: string, b: string, c: string)
    requires StrLess(a, b) && StrLess(b, c)
    ensures StrLess(a, c)
  {
    if |a| > 0 && a[0] == b[0] && b[0] == c[0] {
      StrLessTransitive(a[1..], b[1..], c[1..]);
    }
  }

  lemma {:induction false} StrLessTotal(a: string, b: string)
    ensures StrLess(a, b) || a == b || StrLess(b, a)
  {
    if |a| > 0 && |b| > 0 && a[0] == b[0] {
      StrLessTotal(a[1..], b[1..]);
      if a[1..] == b[1..] {
        assert a == [a[0]] + a[1..] && b == [b[0]] + b[1..];
      }
    }
  }

  lemma StrLessAsymmetric(a: string, b: string)
    requires StrLess(a, b)
    ensures !StrLess(b, a)
  {
    if StrLess(b, a) {
      StrLessTransitive(a, b, a);
      StrLessIrreflexive(a);
    }
  }

  /** `a <= b` and `b <= c` give `a <= c`. */
  lemma StrLeqTransitive(a: string, b: string, c: string)
    requires !StrLess(b, a) && !StrLess(c, b)
    ensures !StrLess(c, a)
  {
    StrLessTotal(a, b);
    if StrLess(c, a) && StrLess(a, b) {
      StrLessTransitive(c, a, b);
    }
  }

  /** Non-decreasing in string order. */
  predicate Ascending(s: seq<string>)
  {
    forall i, j :: 0 <= i < j < |s| ==> !StrLess(s[j], s[i])
  }

  /** Strictly increasing in string order, hence without duplicates. */
  predicate StrictlyAscending(s: seq<string>)
  {
    forall i, j :: 0 <= i < j < |s| ==> StrLess(s[i], s[j])
  }

  /** A strictly ascending sequence is determined by its elements. */
  lemma {:induction false} StrictlyAscendingUnique(a: seq<string>, b: seq<string>)
    requires StrictlyAscending(a) && StrictlyAscending(b)
    requires forall x :: x in a <==> x in b
    ensures a == b
    decreases |a|
  {
    if a != [] {
      assert a[0] in b;
    }
    if b != [] {
      assert b[0] in a;
    }
    if a != [] {
      assert a[0] == b[0] by {
        assert b[0] in b && a[0] in a;
        var i :| 0 <= i < |a| && a[i] == b[0];
        var j :| 0 <= j < |b| && b[j] == a[0];
        if a[0] != b[0] {
          assert i > 0 && j > 0;
          StrLessTransitive(a[0], a[i], a[0]);
          StrLessIrreflexive(a[0]);
        }
      }
      forall x
        ensures x in a[1..] <==> x in b[1..]
      {
        StrLessIrreflexive(x);
        if x in a[1..] {
          var i :| 1 <= i < |a| && a[i] == x;
          assert x != a[0];
          assert x in b;
          var j :| 0 <= j < |b| && b[j] == x;
          assert j != 0;
          assert b[1..][j - 1] == x;
        }
        if x in b[1..] {
          var j :| 1 <= j < |b| && b[j] == x;
          assert x != b[0];
          assert x in a;
          var i :| 0 <= i < |a| && a[i] == x;
          assert i != 0;
          assert a[1..][i - 1] == x;
        }
      }
      StrictlyAscendingUnique(a[1..], b[1..]);
      assert a == [a[0]] + a[1..] && b == [b[0]] + b[1..];
    }
  }

  // ---------------------------------------------------------------------
  // Joining and counting

  /** `Array.prototype.join(sep)`. */
  function Join(parts: seq<string>, sep: string): (r: string)
    ensures parts == [] ==> r == ""
    ensures |parts| == 1 ==> r == parts[0]
  {
    if parts == [] then ""
    else if |parts| == 1 then parts[0]
    else parts[0] + sep + Join(parts[1..], sep)
  }

  /** Joining two non-empty lists of parts is joining each and putting one
      separator between them. */
  lemma {:induction false} JoinAppend(a: seq<string>, b: seq<string>, sep: string)
    requires a != [] && b != []
    ensures Join(a + b, sep) == Join(a, sep) + sep + Join(b, sep)
    decreases |a|
  {
    assert (a + b)[0] == a[0];
    assert (a + b)[1..] == a[1..] + b;
    if |a| > 1 {
      JoinAppend(a[1..], b, sep);
    }
  }

  /** The total length of the parts. */
  function TotalLength(parts: seq<string>): nat
  {
    if parts == [] then 0 else |parts[0]| + TotalLength(parts[1..])
  }

  /** The joined string is the parts plus one separator between each two
      neighbours. */
  lemma {:induction false} JoinLength(parts: seq<string>, sep: string)
    requires parts != []
    ensures |Join(parts, sep)| == TotalLength(parts) + (|parts| - 1) * |sep|
    decreases |parts|
  {
    if |parts| > 1 {
      JoinLength(parts[1..], sep);
    }
  }

  /** Concatenation regrouped to the right. */
  lemma Assoc(a: string, b: string, c: string)
    ensures a + b + c == a + (b + c)
  {
  }

  predicate StartsWith(s: string, p: string)
  {
    |p| <= |s| && s[..|p|] == p
  }

  /** The number of positions of `s` at which `p` occurs. */
  function Occurrences(s: string, p: string): (n: nat)
    requires p != []
    ensures n <= |s|
  {
    if s == [] then 0
    else (if StartsWith(s, p) then 1 else 0) + Occurrences(s[1..], p)
  }

  /** Length of the leading run of characters other than `stop`. */
  function RunLength(t: string, stop: char): (n: nat)
    ensures n <= |t|
  {
    if t == [] || t[0] == stop then 0 else 1 + RunLength(t[1..], stop)
  }

  /** The run holds no `stop` and, unless it reaches the end, is followed
      by one. */
  lemma {:induction false} RunLengthStops(t: string, stop: char)
    ensures forall k :: 0 <= k < RunLength(t, stop) ==> t[k] != stop
    ensures RunLength(t, stop) < |t| ==> t[RunLength(t, stop)] == stop
    decreases |t|
  {
    if t != [] && t[0] != stop {
      RunLengthStops(t[1..], stop);
      assert forall k :: 0 < k < |t| ==> t[k] == t[1..][k - 1];
    }
  }

  /** The run ends at the first `stop`. */
  lemma {:induction false} RunLengthOf(run: string, rest: string, stop: char)
    requires stop !in run && rest != [] && rest[0] == stop
    ensures RunLength(run + rest, stop) == |run|
    decreases |run|
  {
    if run == [] {
      assert run + rest == rest;
    } else {
      assert (run + rest)[1..] == run[1..] + rest;
      RunLengthOf(run[1..], rest, stop);
    }
  }

  /** Without a `stop` the run is the whole string. */
  lemma {:induction false} RunLengthAll(run: string, stop: char)
    requires stop !in run
    ensures RunLength(run, stop) == |run|
    decreases |run|
  {
    if run != [] {
      RunLengthAll(run[1..], stop);
    }
  }
}
