/** The markdown converter of `src/components/MarkdownRenderer.tsx`: an
    ordered chain of global regular-expression substitutions. Each kind of
    regular expression becomes one scanner that walks the input from left
    to right, replaces a match and resumes behind it, as
    `String.prototype.replace` with the `g` flag does. */
module Markdown {
  import opened Wrappers
  import opened Text

  // ---------------------------------------------------------------------
  // The `i` flag

  predicate IsAsciiLetter(c: char)
  {
    'a' <= c <= 'z' || 'A' <= c <= 'Z'
  }

  /** Case folding of the `i` flag without `u`. Only ASCII letters occur in
      the patterns, and no non-ASCII character folds onto an ASCII one, so
      folding the ASCII letters alone decides every comparison made here. */
  function Upper(c: char): char
  {
    if 'a' <= c <= 'z' then (c as int - 32) as char else c
  }

  predicate CharEqCI(a: char, b: char)
  {
    Upper(a) == Upper(b)
  }

  lemma NonLetterCI(c: char, p: char)
    requires !IsAsciiLetter(p)
    ensures CharEqCI(c, p) <==> c == p
  {
  }

  /** `s` begins with `p`, letters compared case-insensitively. */
  predicate StartsCI(s: string, p: string)
  {
    |p| <= |s| && forall k :: 0 <= k < |p| ==> CharEqCI(s[k], p[k])
  }

  lemma HeadMismatch(s: string, p: string)
    requires p != [] && s != [] && s[0] != p[0]
    ensures !StartsWith(s, p)
  {
    if |p| <= |s| {
      assert s[..|p|][0] == s[0];
    }
  }

  lemma HeadMismatchCI(s: string, p: string)
    requires p != [] && s != [] && !CharEqCI(s[0], p[0])
    ensures !StartsCI(s, p)
  {
  }

  lemma StartsWithPrefix(p: string, rest: string)
    ensures StartsWith(p + rest, p)
  {
    assert (p + rest)[..|p|] == p;
  }

  // ---------------------------------------------------------------------
  // Headers: /^<marker>(.*$)/gim

  /** How many leading characters of `t` the regular-expression `.`
      accepts: everything up to the first line terminator. */
  function LineLength(t: string): (n: nat)
    ensures n <= |t|
    ensures forall k :: 0 <= k < n ==> !IsLineTerminator(t[k])
    ensures n == |t| || IsLineTerminator(t[n])
  {
    if t == [] || IsLineTerminator(t[0]) then 0 else 1 + LineLength(t[1..])
  }

  /** Replaces every line that starts with `marker` by `open`, the rest of
      the line, and `close`. `atStart` says whether the current position is
      one where `^` matches under the `m` flag: the start of the input or
      just behind a line terminator. */
  function HeaderScan(s: string, marker: string, open: string, close: string, atStart: bool): string
    decreases |s|
  {
    if s == [] then []
    else if atStart && StartsWith(s, marker) && marker != [] then
      var rest := s[|marker|..];
      var n := LineLength(rest);
      open + rest[..n] + close + HeaderScan(rest[n..], marker, open, close, false)
    else
      [s[0]] + HeaderScan(s[1..], marker, open, close, IsLineTerminator(s[0]))
  }

  /** Whether `^` matches behind `a`, starting from `atStart`. */
  function AtStartAfter(a: string, atStart: bool): bool
  {
    if a == [] then atStart else IsLineTerminator(a[|a| - 1])
  }

  /** Text without the marker's first character passes unchanged. */
  lemma {:induction false} HeaderSkip(a: string, b: string, marker: string, open: string, close: string, atStart: bool)
    requires marker != [] && marker[0] !in a
    ensures HeaderScan(a + b, marker, open, close, atStart)
         == a + HeaderScan(b, marker, open, close, AtStartAfter(a, atStart))
    decreases |a|
  {
    if a != [] {
      assert (a + b)[0] == a[0] && (a + b)[1..] == a[1..] + b;
      HeadMismatch(a + b, marker);
      HeaderSkip(a[1..], b, marker, open, close, IsLineTerminator(a[0]));
      assert a == [a[0]] + a[1..];
      if |a| > 1 {
        assert a[1..][|a[1..]| - 1] == a[|a| - 1];
      }
    } else {
      assert a + b == b;
    }
  }

  /** A line that starts with the marker at a line start becomes a
      heading around the rest of that line. */
  lemma HeaderLine(marker: string, line: string, rest: string, open: string, close: string)
    requires marker != []
    requires forall k :: 0 <= k < |line| ==> !IsLineTerminator(line[k])
    requires rest == [] || IsLineTerminator(rest[0])
    ensures HeaderScan(marker + line + rest, marker, open, close, true)
         == open + line + close + HeaderScan(rest, marker, open, close, false)
  {
    var s := marker + line + rest;
    assert s[..|marker|] == marker;
    assert s[|marker|..] == line + rest;
    LineLengthOf(line, rest);
    assert (line + rest)[..|line|] == line && (line + rest)[|line|..] == rest;
  }

  lemma {:induction false} LineLengthOf(line: string, rest: string)
    requires forall k :: 0 <= k < |line| ==> !IsLineTerminator(line[k])
    requires rest == [] || IsLineTerminator(rest[0])
    ensures LineLength(line + rest) == |line|
    decreases |line|
  {
    if line == [] {
      assert line + rest == rest;
    } else {
      assert (line + rest)[1..] == line[1..] + rest;
      LineLengthOf(line[1..], rest);
    }
  }

  // ---------------------------------------------------------------------
  // Delimited spans: /<d>(.*?)<d>/gim and /<d>([\s\S]*?)<d>/gim

  /** The lazy `.*?` (or `[\s\S]*?` when `dotAll`) followed by the closing
      delimiter: the first `k` at which `d` starts in `t` such that the
      characters before it do not include a line terminator. */
  function FindClose(t: string, d: string, dotAll: bool): (r: Option<nat>)
    ensures r.Some? ==> r.value + |d| <= |t|
    decreases |t|
  {
    if StartsWith(t, d) then Some(0)
    else if |t| == 0 || (!dotAll && IsLineTerminator(t[0])) then None
    else
      var r := FindClose(t[1..], d, dotAll);
      if r.None? then None else Some(r.value + 1)
  }

  /** A found closing delimiter really occurs at the reported position. */
  lemma {:induction false} FindCloseOccurs(t: string, d: string, dotAll: bool)
    requires FindClose(t, d, dotAll).Some?
    ensures t[FindClose(t, d, dotAll).value..FindClose(t, d, dotAll).value + |d|] == d
    decreases |t|
  {
    if !StartsWith(t, d) {
      var k := FindClose(t[1..], d, dotAll).value;
      FindCloseOccurs(t[1..], d, dotAll);
      assert t[1..][k..k + |d|] == t[k + 1..k + 1 + |d|];
    }
  }

  /** `d` can close a span at position `j` of `t`: it starts there and,
      unless `dotAll`, no line terminator lies before it. */
  predicate Closes(t: string, d: string, dotAll: bool, j: nat)
  {
    j <= |t| && StartsWith(t[j..], d) &&
    (dotAll || forall i :: 0 <= i < j ==> !IsLineTerminator(t[i]))
  }

  /** Past a first character that `.` matches, closing positions move one
      place left. */
  lemma ClosesShift(t: string, d: string, dotAll: bool, j: nat)
    requires t != [] && (dotAll || !IsLineTerminator(t[0]))
    ensures Closes(t, d, dotAll, j + 1) <==> Closes(t[1..], d, dotAll, j)
  {
    if j + 1 <= |t| {
      assert t[j + 1..] == t[1..][j..];
      assert forall i :: 0 < i < j + 1 ==> t[i] == t[1..][i - 1];
    }
  }

  /** `FindClose` is the lazy match: it returns the first position at
      which `d` can close, and `None` exactly when there is none. */
  lemma {:induction false} FindCloseFirst(t: string, d: string, dotAll: bool)
    ensures FindClose(t, d, dotAll).Some? ==>
      Closes(t, d, dotAll, FindClose(t, d, dotAll).value) &&
      forall j :: 0 <= j < FindClose(t, d, dotAll).value ==> !Closes(t, d, dotAll, j)
    ensures FindClose(t, d, dotAll).None? <==> forall j :: 0 <= j <= |t| ==> !Closes(t, d, dotAll, j)
    decreases |t|
  {
    assert t[0..] == t;
    if StartsWith(t, d) {
      assert Closes(t, d, dotAll, 0);
    } else if |t| == 0 {
    } else if !dotAll && IsLineTerminator(t[0]) {
      forall j | 0 < j <= |t|
        ensures !Closes(t, d, dotAll, j)
      {
        assert 0 < j && IsLineTerminator(t[0]);
      }
    } else {
      FindCloseFirst(t[1..], d, dotAll);
      forall j | 0 <= j <= |t[1..]|
        ensures Closes(t, d, dotAll, j + 1) <==> Closes(t[1..], d, dotAll, j)
      {
        ClosesShift(t, d, dotAll, j);
      }
      assert !Closes(t, d, dotAll, 0);
      if FindClose(t, d, dotAll).None? {
        forall j | 0 <= j <= |t|
          ensures !Closes(t, d, dotAll, j)
        {
          if j > 0 {
            assert !Closes(t[1..], d, dotAll, j - 1);
          }
        }
      } else {
        var k := FindClose(t[1..], d, dotAll).value;
        assert Closes(t, d, dotAll, k + 1);
        forall j | 0 <= j < k + 1
          ensures !Closes(t, d, dotAll, j)
        {
          if j > 0 {
            assert !Closes(t[1..], d, dotAll, j - 1);
          }
        }
        assert Closes(t, d, dotAll, k + 1);
      }
    }
  }

  /** A span found at the head of the input: its inner text and what
      follows its closing delimiter. */
  datatype Span = Span(inner: string, rest: string) | NoSpan

  /** The span that starts `s`, if one does. */
  function DelimMatch(s: string, d: string, dotAll: bool): (r: Span)
    ensures r.Span? ==> s == d + r.inner + d + r.rest
  {
    if StartsWith(s, d) then
      match FindClose(s[|d|..], d, dotAll)
      case Some(k) =>
        FindCloseOccurs(s[|d|..], d, dotAll);
        SliceSplit(s, d, k);
        Span(s[|d|..|d| + k], s[|d| + k + |d|..])
      case None => NoSpan
    else NoSpan
  }

  /** Replaces every span `d`…`d` by `open`, the inner text, and `close`. */
  function DelimScan(s: string, d: string, open: string, close: string, dotAll: bool): string
    requires d != []
    decreases |s|
  {
    if |s| == 0 then []
    else match DelimMatch(s, d, dotAll)
      case Span(inner, rest) => open + inner + close + DelimScan(rest, d, open, close, dotAll)
      case NoSpan => [s[0]] + DelimScan(s[1..], d, open, close, dotAll)
  }

  lemma {:induction false} DelimSkip(a: string, b: string, d: string, open: string, close: string, dotAll: bool)
    requires d != [] && d[0] !in a
    ensures DelimScan(a + b, d, open, close, dotAll) == a + DelimScan(b, d, open, close, dotAll)
    decreases |a|
  {
    if a != [] {
      assert (a + b)[0] == a[0] && (a + b)[1..] == a[1..] + b;
      HeadMismatch(a + b, d);
      DelimSkip(a[1..], b, d, open, close, dotAll);
      assert a == [a[0]] + a[1..];
    } else {
      assert a + b == b;
    }
  }

  /** The closing delimiter is found right behind an inner text that holds
      neither its first character nor, unless `dotAll`, a line
      terminator. */
  lemma {:induction false} FindCloseAfter(inner: string, rest: string, d: string, dotAll: bool)
    requires d != [] && d[0] !in inner && StartsWith(rest, d)
    requires !dotAll ==> forall k :: 0 <= k < |inner| ==> !IsLineTerminator(inner[k])
    ensures FindClose(inner + rest, d, dotAll) == Some(|inner|)
    decreases |inner|
  {
    if inner == [] {
      assert inner + rest == rest;
    } else {
      var t := inner + rest;
      assert t[0] == inner[0] && t[0] != d[0];
      assert !StartsWith(t, d);
      assert t[1..] == inner[1..] + rest;
      FindCloseAfter(inner[1..], rest, d, dotAll);
    }
  }

  /** `d inner d` becomes `open inner close`. */
  lemma DelimSpan(d: string, inner: string, b: string, open: string, close: string, dotAll: bool)
    requires d != [] && d[0] !in inner
    requires !dotAll ==> forall k :: 0 <= k < |inner| ==> !IsLineTerminator(inner[k])
    ensures DelimScan(d + inner + d + b, d, open, close, dotAll)
         == open + inner + close + DelimScan(b, d, open, close, dotAll)
  {
    var t := inner + (d + b);
    var s := d + t;
    Assoc(d, inner, d);
    Assoc(d + inner, d, b);
    Assoc(d, inner, d + b);
    StartsWithPrefix(d, t);
    StartsWithPrefix(d, b);
    assert s[|d|..] == t;
    FindCloseAfter(inner, d + b, d, dotAll);
    SplitThree(d, inner, d + b);
    assert (d + b)[|d|..] == b;
    assert s[|d| + |inner| + |d|..] == b;
    assert DelimMatch(s, d, dotAll) == Span(inner, b);
    DelimHit(s, d, inner, b, open, close, dotAll);
  }

  /** One replaced span. */
  lemma DelimHit(s: string, d: string, inner: string, rest: string, open: string, close: string, dotAll: bool)
    requires d != [] && DelimMatch(s, d, dotAll) == Span(inner, rest)
    ensures DelimScan(s, d, open, close, dotAll) == open + inner + close + DelimScan(rest, d, open, close, dotAll)
  {
    assert |s| != 0;
  }

  /** A delimiter at the head, an inner text and a closing delimiter cut
      `s` into four pieces. */
  lemma SliceSplit(s: string, d: string, k: nat)
    requires StartsWith(s, d) && k + |d| <= |s| - |d| && s[|d|..][k..k + |d|] == d
    ensures s == d + s[|d|..|d| + k] + d + s[|d| + k + |d|..]
  {
    assert s[|d|..][k..k + |d|] == s[|d| + k..|d| + k + |d|];
    assert s == s[..|d|] + s[|d|..|d| + k] + s[|d| + k..|d| + k + |d|] + s[|d| + k + |d|..];
  }

  /** Slices of `x + y + z` at the seams. */
  lemma SplitThree(x: string, y: string, z: string)
    ensures (x + (y + z))[|x|..|x| + |y|] == y
    ensures (x + (y + z))[|x| + |y|..] == z
  {
  }

  /** Without `dotAll` no closing delimiter is found behind a line
      terminator. */
  lemma {:induction false} FindCloseBlocked(a: string, rest: string, d: string)
    requires d != [] && d[0] !in a
    requires exists k :: 0 <= k < |a| && IsLineTerminator(a[k])
    ensures FindClose(a + rest, d, false) == None
    decreases |a|
  {
    var t := a + rest;
    assert t[0] == a[0] && t[0] != d[0];
    assert !StartsWith(t, d);
    if !IsLineTerminator(a[0]) {
      var k :| 0 <= k < |a| && IsLineTerminator(a[k]);
      assert a[1..][k - 1] == a[k];
      assert t[1..] == a[1..] + rest;
      FindCloseBlocked(a[1..], rest, d);
    }
  }

  // ---------------------------------------------------------------------
  // Links: /\[([^\]]+)\]\(([^)]+)\)/gim

  /** A link starting at the head of `s`: its label, its target and the
      length of the matched text. Both character classes of the pattern are
      greedy and can only be followed by their own stop character, so the
      leading run up to that character (`RunLength`) is the only candidate
      the matcher can accept. */
  datatype Link = Link(text: string, url: string, length: nat)

  function LinkAt(s: string): (r: Option<Link>)
    ensures r.Some? ==> 0 < r.value.length <= |s|
  {
    if s == [] || s[0] != '[' then None
    else
      var a := RunLength(s[1..], ']');
      if a == 0 || 2 + a >= |s| || s[1 + a] != ']' || s[2 + a] != '(' then None
      else
        var u := RunLength(s[3 + a..], ')');
        if u == 0 || 3 + a + u >= |s| then None
        else Some(Link(s[1..1 + a], s[3 + a..3 + a + u], 4 + a + u))
  }

  /** A link match is `[text](url)` at the head of `s`, with a non-empty
      text free of `]` and a non-empty target free of `)`. */
  lemma LinkAtShape(s: string)
    ensures LinkAt(s).Some? ==>
      var l := LinkAt(s).value;
      l.text != [] && ']' !in l.text && l.url != [] && ')' !in l.url &&
      l.length == 4 + |l.text| + |l.url| &&
      s == "[" + l.text + "](" + l.url + ")" + s[l.length..]
  {
    if LinkAt(s).Some? {
      var a := RunLength(s[1..], ']');
      var u := RunLength(s[3 + a..], ')');
      RunLengthStops(s[1..], ']');
      RunLengthStops(s[3 + a..], ')');
      var text := s[1..1 + a];
      var url := s[3 + a..3 + a + u];
      assert forall k :: 0 <= k < |text| ==> text[k] == s[1..][k];
      assert forall k :: 0 <= k < |url| ==> url[k] == s[3 + a..][k];
      assert s[3 + a + u] == s[3 + a..][u];
      LinkCut(s, a, u);
    }
  }

  /** The five pieces of a link and what follows it. */
  lemma LinkCut(s: string, a: nat, u: nat)
    requires 4 + a + u <= |s| && s[0] == '[' && s[1 + a] == ']' && s[2 + a] == '(' && s[3 + a + u] == ')'
    ensures s == "[" + s[1..1 + a] + "](" + s[3 + a..3 + a + u] + ")" + s[4 + a + u..]
  {
    assert s[..1] == "[";
    assert s[1 + a..3 + a] == "](";
    assert s[3 + a + u..4 + a + u] == ")";
    assert s == s[..1] + s[1..1 + a] + s[1 + a..3 + a] + s[3 + a..3 + a + u] + s[3 + a + u..4 + a + u] + s[4 + a + u..];
  }

  /** Conversely, text that starts with `[text](url)`, the text non-empty
      and free of `]` and the target non-empty and free of `)`, is matched
      as that link; so `None` means no such prefix exists. */
  lemma LinkAtOfPrefix(s: string, text: string, url: string)
    requires text != [] && ']' !in text && url != [] && ')' !in url
    requires StartsWith(s, "[" + text + "](" + url + ")")
    ensures LinkAt(s) == Some(Link(text, url, 4 + |text| + |url|))
  {
    var p := "[" + text + "](" + url + ")";
    var b := s[|p|..];
    assert s == p + b;
    var tail := url + (")" + b);
    var afterName := "](" + tail;
    Assoc("[" + text + "](" + url, ")", b);
    Assoc("[" + text + "](", url, ")" + b);
    Assoc("[" + text, "](", tail);
    Assoc("[", text, afterName);
    LinkAtSpan(s, text, url, b);
  }

  function LinkScan(s: string): string
    decreases |s|
  {
    if s == [] then []
    else if LinkAt(s).Some? then
      var l := LinkAt(s).value;
      "<a href=\"" + l.url + "\">" + l.text + "</a>" + LinkScan(s[l.length..])
    else
      [s[0]] + LinkScan(s[1..])
  }

  lemma {:induction false} LinkSkip(a: string, b: string)
    requires '[' !in a
    ensures LinkScan(a + b) == a + LinkScan(b)
    decreases |a|
  {
    if a != [] {
      assert (a + b)[0] == a[0] && (a + b)[1..] == a[1..] + b;
      assert LinkAt(a + b).None?;
      LinkSkip(a[1..], b);
      assert a == [a[0]] + a[1..];
    } else {
      assert a + b == b;
    }
  }

  /** `[label](url)` becomes an anchor. */
  lemma LinkSpan(name: string, url: string, b: string)
    requires name != [] && ']' !in name
    requires url != [] && ')' !in url
    ensures LinkScan("[" + name + "](" + url + ")" + b)
         == "<a href=\"" + url + "\">" + name + "</a>" + LinkScan(b)
  {
    var tail := url + (")" + b);
    var afterName := "](" + tail;
    Assoc("[" + name + "](" + url, ")", b);
    Assoc("[" + name + "](", url, ")" + b);
    Assoc("[" + name, "](", tail);
    Assoc("[", name, afterName);
    LinkSpanOf("[" + (name + afterName), name, url, b);
  }

  /** The same link, its text nested to the right. */
  lemma LinkSpanOf(s: string, name: string, url: string, b: string)
    requires name != [] && ']' !in name
    requires url != [] && ')' !in url
    requires s == "[" + (name + ("](" + (url + (")" + b))))
    ensures LinkScan(s) == "<a href=\"" + url + "\">" + name + "</a>" + LinkScan(b)
  {
    LinkAtSpan(s, name, url, b);
    LinkHit(s, Link(name, url, 4 + |name| + |url|), b);
  }

  /** The link pattern matches the whole `[name](url)` at the head. */
  lemma LinkAtSpan(s: string, name: string, url: string, b: string)
    requires name != [] && ']' !in name
    requires url != [] && ')' !in url
    requires s == "[" + (name + ("](" + (url + (")" + b))))
    ensures LinkAt(s) == Some(Link(name, url, 4 + |name| + |url|))
    ensures s[4 + |name| + |url|..] == b
  {
    var a := |name|;
    LinkNameAt(s, name, "](" + (url + (")" + b)));
    LinkUrlAt(s, a, url, b);
    LinkAtOf(s, a, |url|);
  }

  /** The label run of a link. */
  lemma LinkNameAt(s: string, name: string, rest: string)
    requires ']' !in name && rest != [] && rest[0] == ']'
    requires s == "[" + (name + rest)
    ensures RunLength(s[1..], ']') == |name| && s[1..1 + |name|] == name && s[1 + |name|..] == rest
  {
    Parts("[", name + rest);
    RunPart(name, rest, ']');
    SliceOfSuffix(s, 1, |name|);
  }

  /** The target run of a link whose label run ends at `1 + a`. */
  lemma LinkUrlAt(s: string, a: nat, url: string, b: string)
    requires ')' !in url && 1 + a <= |s| && s[1 + a..] == "](" + (url + (")" + b))
    ensures s[1 + a] == ']' && s[2 + a] == '(' && 3 + a + |url| < |s|
    ensures RunLength(s[3 + a..], ')') == |url| && s[3 + a..3 + a + |url|] == url
    ensures s[4 + a + |url|..] == b
  {
    var t := url + (")" + b);
    assert s[3 + a..] == t;
    RunPart(url, ")" + b, ')');
    SliceOfSuffix(s, 3 + a, |url|);
    assert s[4 + a + |url|..] == t[|url| + 1..];
  }

  /** The match found once both runs are known. */
  lemma LinkAtOf(s: string, a: nat, u: nat)
    requires s != [] && s[0] == '['
    requires RunLength(s[1..], ']') == a && 0 < a && 3 + a <= |s| && s[1 + a] == ']' && s[2 + a] == '('
    requires RunLength(s[3 + a..], ')') == u && 0 < u && 3 + a + u < |s|
    ensures LinkAt(s) == Some(Link(s[1..1 + a], s[3 + a..3 + a + u], 4 + a + u))
  {
  }

  lemma Parts(x: string, y: string)
    ensures (x + y)[..|x|] == x && (x + y)[|x|..] == y
  {
  }

  /** A run up to its stop character, and what follows it. */
  lemma RunPart(run: string, rest: string, stop: char)
    requires stop !in run && rest != [] && rest[0] == stop
    ensures RunLength(run + rest, stop) == |run|
    ensures (run + rest)[..|run|] == run && (run + rest)[|run|] == stop
    ensures (run + rest)[|run| + 1..] == rest[1..]
  {
    RunLengthOf(run, rest, stop);
    Parts(run, rest);
  }

  /** One replaced link, the rest of the input named by the caller. */
  lemma LinkHit(s: string, l: Link, rest: string)
    requires LinkAt(s) == Some(l) && rest == s[l.length..]
    ensures LinkScan(s) == "<a href=\"" + l.url + "\">" + l.text + "</a>" + LinkScan(rest)
  {
  }

  // ---------------------------------------------------------------------
  // Literal patterns, compared case-insensitively

  /** Replaces every occurrence of `pat` by `rep`. */
  function LiteralScan(s: string, pat: string, rep: string): string
    requires pat != []
    decreases |s|
  {
    if s == [] then []
    else if StartsCI(s, pat) then rep + LiteralScan(s[|pat|..], pat, rep)
    else [s[0]] + LiteralScan(s[1..], pat, rep)
  }

  lemma {:induction false} LiteralSkip(a: string, b: string, pat: string, rep: string)
    requires pat != [] && !IsAsciiLetter(pat[0]) && pat[0] !in a
    ensures LiteralScan(a + b, pat, rep) == a + LiteralScan(b, pat, rep)
    decreases |a|
  {
    if a != [] {
      NonLetterCI(a[0], pat[0]);
      assert (a + b)[0] == a[0] && (a + b)[1..] == a[1..] + b;
      HeadMismatchCI(a + b, pat);
      LiteralSkip(a[1..], b, pat, rep);
      assert a == [a[0]] + a[1..];
    } else {
      assert a + b == b;
    }
  }

  /** A piece that does not start an occurrence and holds no further
      character that could start one passes unchanged. */
  lemma LiteralChunk(a: string, b: string, pat: string, rep: string)
    requires pat != [] && !IsAsciiLetter(pat[0])
    requires a != [] && !StartsCI(a + b, pat) && pat[0] !in a[1..]
    ensures LiteralScan(a + b, pat, rep) == a + LiteralScan(b, pat, rep)
  {
    LiteralStep(a + b, pat, rep);
    assert (a + b)[1..] == a[1..] + b;
    LiteralSkip(a[1..], b, pat, rep);
    HeadRejoin(a, LiteralScan(b, pat, rep));
  }

  /** One character kept by the literal scan. */
  lemma LiteralStep(s: string, pat: string, rep: string)
    requires pat != [] && s != [] && !StartsCI(s, pat)
    ensures LiteralScan(s, pat, rep) == [s[0]] + LiteralScan(s[1..], pat, rep)
  {
  }

  /** One replaced occurrence at the head of `s`. */
  lemma LiteralHitAt(s: string, pat: string, rep: string, rest: string)
    requires pat != [] && StartsCI(s, pat) && rest == s[|pat|..]
    ensures LiteralScan(s, pat, rep) == rep + LiteralScan(rest, pat, rep)
  {
  }

  /** A character absent from the input and from the replacement is absent
      from the output. */
  lemma {:induction false} LiteralKeepsAbsent(s: string, pat: string, rep: string, c: char)
    requires pat != [] && c !in s && c !in rep
    ensures c !in LiteralScan(s, pat, rep)
    decreases |s|
  {
    if s != [] {
      if StartsCI(s, pat) {
        LiteralKeepsAbsent(s[|pat|..], pat, rep, c);
      } else {
        LiteralKeepsAbsent(s[1..], pat, rep, c);
      }
    }
  }

  /** Replacing a one-character pattern removes that character. */
  lemma {:induction false} LiteralRemovesChar(s: string, c: char, rep: string)
    requires !IsAsciiLetter(c) && c !in rep
    ensures c !in LiteralScan(s, [c], rep)
    decreases |s|
  {
    if s != [] {
      NonLetterCI(s[0], c);
      LiteralRemovesChar(s[1..], c, rep);
    }
  }

  // ---------------------------------------------------------------------
  // Heading-tag patterns: /<pre>([1-6])<post>/gim

  predicate IsHeadingDigit(c: char)
  {
    '1' <= c <= '6'
  }

  predicate DigitMatch(s: string, pre: string, post: string)
  {
    StartsCI(s, pre) && |pre| < |s| && IsHeadingDigit(s[|pre|]) && StartsCI(s[|pre| + 1..], post)
  }

  /** Replaces every `pre` digit `post` by `repPre` digit `repPost`. */
  function DigitScan(s: string, pre: string, post: string, repPre: string, repPost: string): string
    decreases |s|
  {
    if s == [] then []
    else if DigitMatch(s, pre, post) then
      repPre + [s[|pre|]] + repPost + DigitScan(s[|pre| + 1 + |post|..], pre, post, repPre, repPost)
    else [s[0]] + DigitScan(s[1..], pre, post, repPre, repPost)
  }

  lemma {:induction false} DigitSkip(a: string, b: string, pre: string, post: string, repPre: string, repPost: string)
    requires pre != [] && !IsAsciiLetter(pre[0]) && pre[0] !in a
    ensures DigitScan(a + b, pre, post, repPre, repPost) == a + DigitScan(b, pre, post, repPre, repPost)
    decreases |a|
  {
    if a != [] {
      NonLetterCI(a[0], pre[0]);
      assert (a + b)[0] == a[0] && (a + b)[1..] == a[1..] + b;
      HeadMismatchCI(a + b, pre);
      DigitSkip(a[1..], b, pre, post, repPre, repPost);
      assert a == [a[0]] + a[1..];
    } else {
      assert a + b == b;
    }
  }

  lemma DigitChunk(a: string, b: string, pre: string, post: string, repPre: string, repPost: string)
    requires pre != [] && !IsAsciiLetter(pre[0])
    requires a != [] && !DigitMatch(a + b, pre, post) && pre[0] !in a[1..]
    ensures DigitScan(a + b, pre, post, repPre, repPost) == a + DigitScan(b, pre, post, repPre, repPost)
  {
    DigitStep(a + b, pre, post, repPre, repPost);
    assert (a + b)[1..] == a[1..] + b;
    DigitSkip(a[1..], b, pre, post, repPre, repPost);
    HeadRejoin(a, DigitScan(b, pre, post, repPre, repPost));
  }

  /** One character kept by the heading-tag scan. */
  lemma DigitStep(s: string, pre: string, post: string, repPre: string, repPost: string)
    requires s != [] && !DigitMatch(s, pre, post)
    ensures DigitScan(s, pre, post, repPre, repPost) == [s[0]] + DigitScan(s[1..], pre, post, repPre, repPost)
  {
  }

  /** The head of a non-empty text put back in front of the rest. */
  lemma HeadRejoin(a: string, x: string)
    requires a != []
    ensures [a[0]] + (a[1..] + x) == a + x
  {
    assert [a[0]] + (a[1..] + x) == ([a[0]] + a[1..]) + x;
    assert [a[0]] + a[1..] == a;
  }

  /** `pre d post` becomes `repPre d repPost`. */
  lemma DigitHit(pre: string, d: char, post: string, b: string, repPre: string, repPost: string)
    requires IsHeadingDigit(d)
    ensures DigitScan(pre + [d] + post + b, pre, post, repPre, repPost)
         == repPre + [d] + repPost + DigitScan(b, pre, post, repPre, repPost)
  {
    var s := pre + [d] + post + b;
    assert s[..|pre|] == pre && s[|pre|] == d;
    assert s[|pre| + 1..] == post + b;
    assert (post + b)[..|post|] == post;
    assert s[|pre| + 1 + |post|..] == b;
    assert StartsCI(s, pre);
    assert StartsCI(s[|pre| + 1..], post);
  }

  /** One replaced heading tag, found at the head of `s`. */
  lemma DigitHitAt(s: string, pre: string, post: string, rest: string, repPre: string, repPost: string)
    requires DigitMatch(s, pre, post) && rest == s[|pre| + 1 + |post|..]
    ensures DigitScan(s, pre, post, repPre, repPost) == repPre + [s[|pre|]] + repPost + DigitScan(rest, pre, post, repPre, repPost)
  {
  }

  lemma {:induction false} DigitKeepsAbsent(s: string, pre: string, post: string, repPre: string, repPost: string, c: char)
    requires c !in s && c !in repPre && c !in repPost
    ensures c !in DigitScan(s, pre, post, repPre, repPost)
    decreases |s|
  {
    if s != [] {
      if DigitMatch(s, pre, post) {
        DigitKeepsAbsent(s[|pre| + 1 + |post|..], pre, post, repPre, repPost, c);
      } else {
        DigitKeepsAbsent(s[1..], pre, post, repPre, repPost, c);
      }
    }
  }

  // ---------------------------------------------------------------------
  // The pipeline

  /** The three heading passes, deepest level first. */
  function Headings(text: string): string
  {
    var t1 := HeaderScan(text, "### ", "<h3>", "</h3>", true);
    var t2 := HeaderScan(t1, "## ", "<h2>", "</h2>", true);
    HeaderScan(t2, "# ", "<h1>", "</h1>", true)
  }

  /** Bold before italic. */
  function Emphasis(text: string): string
  {
    DelimScan(DelimScan(text, "**", "<strong>", "</strong>", false), "*", "<em>", "</em>", false)
  }

  /** Fenced blocks before inline code. */
  function Code(text: string): string
  {
    DelimScan(DelimScan(text, "```", "<pre><code>", "</code></pre>", true), "`", "<code>", "</code>", false)
  }

  /** The passes up to the line breaks, in source order. */
  function Inline(text: string): string
  {
    LinkScan(Code(Emphasis(Headings(text))))
  }

  /** Blank lines become paragraph breaks, other line feeds `<br>`. */
  function Breaks(text: string): string
  {
    LiteralScan(LiteralScan(text, "\n\n", "</p><p>"), "\n", "<br>")
  }

  /** The five clean-up passes over the wrapped text. */
  function Cleanup(text: string): string
  {
    var c1 := LiteralScan(text, "<p></p>", "");
    var c2 := DigitScan(c1, "<p><h", ">", "<h", ">");
    var c3 := DigitScan(c2, "</h", "></p>", "</h", ">");
    var c4 := LiteralScan(c3, "<p><pre>", "<pre>");
    LiteralScan(c4, "</pre></p>", "</pre>")
  }

  /** `renderContent(text)`. */
  function Render(text: string): string
  {
    Cleanup("<p>" + Breaks(Inline(text)) + "</p>")
  }

  /** `renderContent`: the local `text` is reassigned pass after pass. */
  method RenderContent(content: string) returns (text: string)
    ensures text == Render(content)
    ensures '\n' !in text
  {
    text := content;
    text := HeaderScan(text, "### ", "<h3>", "</h3>", true);
    text := HeaderScan(text, "## ", "<h2>", "</h2>", true);
    text := HeaderScan(text, "# ", "<h1>", "</h1>", true);
    text := DelimScan(text, "**", "<strong>", "</strong>", false);
    text := DelimScan(text, "*", "<em>", "</em>", false);
    text := DelimScan(text, "```", "<pre><code>", "</code></pre>", true);
    text := DelimScan(text, "`", "<code>", "</code>", false);
    text := LinkScan(text);
    text := LiteralScan(text, "\n\n", "</p><p>");
    text := LiteralScan(text, "\n", "<br>");
    text := "<p>" + text + "</p>";
    text := LiteralScan(text, "<p></p>", "");
    text := DigitScan(text, "<p><h", ">", "<h", ">");
    text := DigitScan(text, "</h", "></p>", "</h", ">");
    text := LiteralScan(text, "<p><pre>", "<pre>");
    text := LiteralScan(text, "</pre></p>", "</pre>");
    RenderNoNewline(content);
  }

  /** No line feed survives: blank lines and single line feeds are both
      replaced, and nothing later introduces one. */
  lemma RenderNoNewline(text: string)
    ensures '\n' !in Render(text)
  {
    var b0 := LiteralScan(Inline(text), "\n\n", "</p><p>");
    LiteralRemovesChar(b0, '\n', "<br>");
    var w := "<p>" + Breaks(Inline(text)) + "</p>";
    assert '\n' !in w;
    var c1 := LiteralScan(w, "<p></p>", "");
    LiteralKeepsAbsent(w, "<p></p>", "", '\n');
    var c2 := DigitScan(c1, "<p><h", ">", "<h", ">");
    DigitKeepsAbsent(c1, "<p><h", ">", "<h", ">", '\n');
    var c3 := DigitScan(c2, "</h", "></p>", "</h", ">");
    DigitKeepsAbsent(c2, "</h", "></p>", "</h", ">", '\n');
    var c4 := LiteralScan(c3, "<p><pre>", "<pre>");
    LiteralKeepsAbsent(c3, "<p><pre>", "<pre>", '\n');
    LiteralKeepsAbsent(c4, "</pre></p>", "</pre>", '\n');
  }
}
