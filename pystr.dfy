/**
  The Python `str` operations the finding adapters depend on, written out
  with the same character classes CPython uses: `isspace`, `strip`,
  `splitlines`, `split()`, `split(sep, maxsplit)`, `in`, `find`, `rfind`.
*/
module PyStr {
  import opened Wrappers

  /** `c.isspace()`: the characters `strip` and `split()` treat as white space. */
  predicate IsSpace(c: char) {
    c == ' ' || c == '\t' || c == '\n' || c == '\r' || c == '\U{B}' || c == '\U{C}'
    || ('\U{1C}' <= c <= '\U{1F}') || c == '\U{85}' || c == '\U{A0}' || c == '\U{1680}'
    || ('\U{2000}' <= c <= '\U{200A}') || c == '\U{2028}' || c == '\U{2029}'
    || c == '\U{202F}' || c == '\U{205F}' || c == '\U{3000}'
  }

  /** The characters at which `str.splitlines()` ends a line ("\r\n" counts as one break). */
  predicate IsLineBreak(c: char) {
    c == '\n' || c == '\r' || c == '\U{B}' || c == '\U{C}' || ('\U{1C}' <= c <= '\U{1E}')
    || c == '\U{85}' || c == '\U{2028}' || c == '\U{2029}'
  }

  /** Every line break is white space, so `strip` removes surrounding breaks too. */
  lemma LineBreakIsSpace(c: char)
    ensures IsLineBreak(c) ==> IsSpace(c)
  {
  }

  /** `not s.strip()`: `s` is empty or made of white space only. */
  predicate IsBlank(s: string) {
    forall i :: 0 <= i < |s| ==> IsSpace(s[i])
  }

  /** The index of the first character of `s` at or after `i` that is not white space, or `|s|`. */
  function SpaceEnd(s: string, i: nat): (n: nat)
    requires i <= |s|
    ensures i <= n <= |s|
    ensures forall k :: i <= k < n ==> IsSpace(s[k])
    ensures n < |s| ==> !IsSpace(s[n])
    decreases |s| - i
  {
    if i < |s| && IsSpace(s[i]) then SpaceEnd(s, i + 1) else i
  }

  /** The index just after the last character of `s[..j]` that is not white space, or 0. */
  function SpaceStart(s: string, j: nat): (n: nat)
    requires j <= |s|
    ensures n <= j
    ensures forall k :: n <= k < j ==> IsSpace(s[k])
    ensures n > 0 ==> !IsSpace(s[n - 1])
  {
    if j > 0 && IsSpace(s[j - 1]) then SpaceStart(s, j - 1) else j
  }

  /** The conditions that `SpaceStart` meets determine it. */
  lemma {:induction false} SpaceStartUnique(s: string, j: nat, n: nat)
    requires n <= j <= |s|
    requires forall k :: n <= k < j ==> IsSpace(s[k])
    requires n > 0 ==> !IsSpace(s[n - 1])
    ensures SpaceStart(s, j) == n
    decreases j
  {
    if n < j {
      SpaceStartUnique(s, j - 1, n);
    }
  }

  /** The conditions that `SpaceEnd` meets determine it. */
  lemma {:induction false} SpaceEndUnique(s: string, i: nat, n: nat)
    requires i <= n <= |s|
    requires forall k :: i <= k < n ==> IsSpace(s[k])
    requires n < |s| ==> !IsSpace(s[n])
    ensures SpaceEnd(s, i) == n
    decreases n - i
  {
    if i < n {
      SpaceEndUnique(s, i + 1, n);
    }
  }

  /** `s.lstrip()`: the suffix of `s` left once its leading white space is removed. */
  function TrimStart(s: string): (r: string)
    ensures |r| <= |s| && r == s[|s| - |r|..]
    ensures IsBlank(s[..|s| - |r|])
    ensures r == [] || !IsSpace(r[0])
  {
    s[SpaceEnd(s, 0)..]
  }

  /**
    `s.strip()`: `s` without its leading and trailing white space. The result
    is empty exactly when `s` is blank, and otherwise starts and ends with a
    character that is not white space.
  */
  function Strip(s: string): (r: string)
    ensures r == [] <==> IsBlank(s)
    ensures r == [] || (!IsSpace(r[0]) && !IsSpace(r[|r| - 1]))
  {
    var i := SpaceEnd(s, 0);
    if i == |s| then []
    else
      var j := SpaceStart(s, |s|);
      assert i < j;
      s[i..j]
  }

  /** A string that neither starts nor ends with white space is its own strip. */
  lemma StripUnchanged(s: string)
    requires s == [] || (!IsSpace(s[0]) && !IsSpace(s[|s| - 1]))
    ensures Strip(s) == s
  {
    if s != [] {
      assert SpaceEnd(s, 0) == 0;
      assert SpaceStart(s, |s|) == |s|;
      assert s[0..|s|] == s;
    }
  }

  /** `strip` removes white space at the two ends and nothing else: the result is a slice with blank margins. */
  lemma StripTrims(s: string)
    ensures exists i: nat, j: nat ::
              i <= j <= |s| && Strip(s) == s[i..j] && IsBlank(s[..i]) && IsBlank(s[j..])
  {
    var i := SpaceEnd(s, 0);
    if i == |s| {
      assert Strip(s) == s[i..i] && IsBlank(s[..i]) && IsBlank(s[i..]);
    } else {
      var j := SpaceStart(s, |s|);
      assert IsBlank(s[..i]) && IsBlank(s[j..]);
    }
  }

  /** And conversely: text that neither starts nor ends with white space survives blank margins unchanged. */
  lemma StripPadded(pre: string, t: string, post: string)
    requires IsBlank(pre) && IsBlank(post)
    requires t == [] || (!IsSpace(t[0]) && !IsSpace(t[|t| - 1]))
    ensures Strip(pre + t + post) == t
  {
    var s := pre + t + post;
    assert forall k :: 0 <= k < |pre| ==> s[k] == pre[k];
    assert forall k :: |pre| + |t| <= k < |s| ==> s[k] == post[k - |pre| - |t|];
    if t == [] {
      assert IsBlank(s);
    } else {
      assert s[|pre|] == t[0] && s[|pre| + |t| - 1] == t[|t| - 1];
      SpaceEndUnique(s, 0, |pre|);
      SpaceStartUnique(s, |s|, |pre| + |t|);
      assert s[|pre|..|pre| + |t|] == t;
    }
  }

  /** Stripping twice is stripping once. */
  lemma StripIdempotent(s: string)
    ensures Strip(Strip(s)) == Strip(s)
  {
    StripUnchanged(Strip(s));
  }

  /** `sub` occurs in `s` starting at index `i`. */
  predicate OccursAt(s: string, sub: string, i: nat) {
    i + |sub| <= |s| && s[i..i + |sub|] == sub
  }

  /** The lowest index at or after `k` at which `sub` occurs in `s`. */
  function FindFrom(s: string, sub: string, k: nat): (r: Option<nat>)
    ensures r.Some? ==> k <= r.value && OccursAt(s, sub, r.value)
    ensures r.Some? ==> forall j: nat :: k <= j < r.value ==> !OccursAt(s, sub, j)
    ensures r.None? ==> forall j: nat :: k <= j ==> !OccursAt(s, sub, j)
    decreases |s| - k
  {
    if k + |sub| > |s| then None
    else if s[k..k + |sub|] == sub then Some(k)
    else FindFrom(s, sub, k + 1)
  }

  /** `s.find(sub)`, with `None` for Python's -1: the first occurrence of `sub` in `s`. */
  function Find(s: string, sub: string): (r: Option<nat>)
    ensures r.Some? ==> OccursAt(s, sub, r.value)
    ensures r.Some? ==> forall j: nat :: j < r.value ==> !OccursAt(s, sub, j)
    ensures r.None? ==> forall j: nat :: !OccursAt(s, sub, j)
  {
    FindFrom(s, sub, 0)
  }

  /** `s.endswith(suffix)`. */
  predicate EndsWith(s: string, suffix: string) {
    |suffix| <= |s| && s[|s| - |suffix|..] == suffix
  }

  /** `sub in s`. */
  predicate Contains(s: string, sub: string) {
    Find(s, sub).Some?
  }

  /** `sub in s` holds when `sub` occurs at some index of `s`. */
  lemma ContainsOccurs(s: string, sub: string, i: nat)
    requires OccursAt(s, sub, i)
    ensures Contains(s, sub)
  {
  }

  /** `sub in s` holds exactly when `sub` occurs at some index of `s`. */
  lemma ContainsIff(s: string, sub: string)
    ensures Contains(s, sub) <==> exists i: nat :: OccursAt(s, sub, i)
  {
    if Contains(s, sub) {
      assert OccursAt(s, sub, Find(s, sub).value);
    }
  }

  /** `s.endswith(suffix)` holds exactly when `s` is some text followed by `suffix`. */
  lemma EndsWithIff(s: string, suffix: string)
    ensures EndsWith(s, suffix) <==> exists p :: s == p + suffix
  {
    if EndsWith(s, suffix) {
      assert s == s[..|s| - |suffix|] + suffix;
    }
    if p :| s == p + suffix {
      assert s[|s| - |suffix|..] == suffix;
    }
  }

  /** The first index of `c` in `s`. */
  function IndexOf(s: string, c: char): (r: Option<nat>)
    ensures r.Some? ==> r.value < |s| && s[r.value] == c && c !in s[..r.value]
    ensures r.None? <==> c !in s
  {
    var i := IndexFrom(s, c, 0);
    if i == |s| then None else Some(i)
  }

  /** The index of the first `c` of `s` at or after `i`, or `|s|`. */
  function IndexFrom(s: string, c: char, i: nat): (n: nat)
    requires i <= |s|
    ensures i <= n <= |s|
    ensures forall k :: i <= k < n ==> s[k] != c
    ensures n < |s| ==> s[n] == c
    decreases |s| - i
  {
    if i < |s| && s[i] != c then IndexFrom(s, c, i + 1) else i
  }

  /** `s.rfind(c)`, with `None` for -1: the last index of `c` in `s`. */
  function LastIndexOf(s: string, c: char): (r: Option<nat>)
    ensures r.Some? ==> r.value < |s| && s[r.value] == c && c !in s[r.value + 1..]
    ensures r.None? <==> c !in s
  {
    if s == [] then None
    else if s[|s| - 1] == c then Some(|s| - 1)
    else
      var r := LastIndexOf(s[..|s| - 1], c);
      assert r.None? ==> s == s[..|s| - 1] + [s[|s| - 1]];
      assert r.Some? ==> s[r.value + 1..] == s[..|s| - 1][r.value + 1..] + [s[|s| - 1]];
      r
  }

  /** Python's slice `s[lo:hi]` for bounds inside the string: empty when `lo >= hi`. */
  function Slice(s: string, lo: nat, hi: nat): (r: string)
    requires lo <= |s| && hi <= |s|
    ensures |r| == if lo < hi then hi - lo else 0
    ensures forall k :: 0 <= k < |r| ==> r[k] == s[lo + k]
  {
    if lo < hi then s[lo..hi] else []
  }

  /**
    `head, tail = s.split(sep, 1)`: the text before and after the FIRST
    occurrence of `sep`. `None` when `sep` does not occur, where Python's
    unpacking raises `ValueError`.
  */
  function SplitOnce(s: string, sep: string): (r: Option<(string, string)>)
    ensures r.None? <==> !Contains(s, sep)
    ensures r.Some? ==> s == r.value.0 + sep + r.value.1
    ensures r.Some? ==> forall j: nat :: j < |r.value.0| ==> !OccursAt(s, sep, j)
  {
    match Find(s, sep)
    case None => None
    case Some(i) =>
      assert s == s[..i] + sep + s[i + |sep|..] by {
        assert s[i..i + |sep|] == sep;
        assert s == s[..i] + s[i..i + |sep|] + s[i + |sep|..];
      }
      Some((s[..i], s[i + |sep|..]))
  }

  /** The pieces of a split joined back together with the separator. */
  function JoinWith(parts: seq<string>, c: char): string
    requires |parts| >= 1
  {
    if |parts| == 1 then parts[0] else parts[0] + [c] + JoinWith(parts[1..], c)
  }

  /** `s.split(c, maxsplit)`: at most `maxsplit` cuts, made at the leftmost occurrences of `c`. */
  function SplitMax(s: string, c: char, maxsplit: nat): (r: seq<string>)
    ensures 1 <= |r| <= maxsplit + 1
    decreases |s|
  {
    var i := IndexFrom(s, c, 0);
    if i == |s| || maxsplit == 0 then [s]
    else [s[..i]] + SplitMax(s[i + 1..], c, maxsplit - 1)
  }

  /** Joining the pieces of a split with `c` gives the text back. */
  lemma {:induction false} SplitMaxJoins(s: string, c: char, maxsplit: nat)
    ensures JoinWith(SplitMax(s, c, maxsplit), c) == s
    decreases |s|
  {
    var i := IndexFrom(s, c, 0);
    if i < |s| && maxsplit > 0 {
      SplitMaxJoins(s[i + 1..], c, maxsplit - 1);
      SplitMaxJoinsCut(s, c, maxsplit, i);
    } else {
      SplitMaxWhole(s, c, maxsplit);
    }
  }

  /** A split that makes no cut is the text alone. */
  lemma SplitMaxWhole(s: string, c: char, maxsplit: nat)
    requires IndexFrom(s, c, 0) == |s| || maxsplit == 0
    ensures JoinWith(SplitMax(s, c, maxsplit), c) == s
  {
    assert SplitMax(s, c, maxsplit) == [s];
  }

  /** A split that cuts at `i` joins back to the text when the split of the text after `i` does. */
  lemma SplitMaxJoinsCut(s: string, c: char, maxsplit: nat, i: nat)
    requires i < |s| && IndexFrom(s, c, 0) == i && maxsplit > 0
    requires JoinWith(SplitMax(s[i + 1..], c, maxsplit - 1), c) == s[i + 1..]
    ensures JoinWith(SplitMax(s, c, maxsplit), c) == s
  {
    var rest := SplitMax(s[i + 1..], c, maxsplit - 1);
    SplitMaxCut(s, c, maxsplit, i);
    JoinCut(s, c, i, rest, SplitMax(s, c, maxsplit));
  }

  /** A split that cuts at `i` is the text before it followed by the split of the text after it. */
  lemma SplitMaxCut(s: string, c: char, maxsplit: nat, i: nat)
    requires i < |s| && IndexFrom(s, c, 0) == i && maxsplit > 0
    ensures s[i] == c
    ensures SplitMax(s, c, maxsplit) == [s[..i]] + SplitMax(s[i + 1..], c, maxsplit - 1)
  {
  }

  /** The text before a `c`, joined to pieces that join back to the text after it, is the whole text. */
  lemma JoinCut(s: string, c: char, i: nat, rest: seq<string>, parts: seq<string>)
    requires i < |s| && s[i] == c && |rest| >= 1 && JoinWith(rest, c) == s[i + 1..]
    requires parts == [s[..i]] + rest
    ensures JoinWith(parts, c) == s
  {
    CutAt(s, i);
    JoinWithFront(s[..i], rest, c);
  }

  /**
    No piece of a split but the last contains `c`, and the last contains
    none when fewer than `maxsplit` cuts were made.
  */
  lemma {:induction false} SplitMaxPieces(s: string, c: char, maxsplit: nat)
    ensures var r := SplitMax(s, c, maxsplit);
      && (forall k :: 0 <= k < |r| - 1 ==> c !in r[k])
      && (|r| <= maxsplit ==> c !in r[|r| - 1])
    decreases |s|
  {
    var i := IndexFrom(s, c, 0);
    if i < |s| && maxsplit > 0 {
      var rest := SplitMax(s[i + 1..], c, maxsplit - 1);
      assert c !in s[..i];
      SplitMaxPieces(s[i + 1..], c, maxsplit - 1);
      ConsPieces(s[..i], rest, c, maxsplit);
    } else if i == |s| {
      assert c !in s;
    }
  }

  /** A first piece without `c` in front of clean pieces keeps them clean. */
  lemma ConsPieces(x: string, rest: seq<string>, c: char, maxsplit: nat)
    requires maxsplit > 0 && c !in x && |rest| >= 1
    requires forall k :: 0 <= k < |rest| - 1 ==> c !in rest[k]
    requires |rest| <= maxsplit - 1 ==> c !in rest[|rest| - 1]
    ensures var r := [x] + rest;
      && (forall k :: 0 <= k < |r| - 1 ==> c !in r[k])
      && (|r| <= maxsplit ==> c !in r[|r| - 1])
  {
    var r := [x] + rest;
    assert forall k :: 1 <= k < |r| ==> r[k] == rest[k - 1];
  }

  /** Text is the part before index `i`, the character there, and the part after. */
  lemma CutAt(s: string, i: nat)
    requires i < |s|
    ensures s == s[..i] + [s[i]] + s[i + 1..]
  {
  }

  /** Joining a piece in front of pieces puts the separator between it and their join. */
  lemma JoinWithFront(x: string, rest: seq<string>, c: char)
    requires |rest| >= 1
    ensures JoinWith([x] + rest, c) == x + [c] + JoinWith(rest, c)
  {
    assert ([x] + rest)[1..] == rest;
  }

  /** The index of the first white-space character of `s`, or `|s|`. */
  function WordEnd(s: string): (n: nat)
    ensures n <= |s|
    ensures forall j :: 0 <= j < n ==> !IsSpace(s[j])
    ensures n < |s| ==> IsSpace(s[n])
  {
    if s == [] || IsSpace(s[0]) then 0 else WordEnd(s[1..]) + 1
  }

  /** `w` is a non-empty run of characters none of which is white space. */
  predicate IsWord(w: string) {
    w != [] && forall j :: 0 <= j < |w| ==> !IsSpace(w[j])
  }

  /**
    `s.split()`: the maximal runs of non-white-space characters, in order.
    Every piece is a word; there are none exactly when `s` is blank.
  */
  function SplitWhitespace(s: string): (r: seq<string>)
    ensures AllWords(r)
    ensures r == [] <==> IsBlank(s)
    decreases |s|
  {
    var t := TrimStart(s);
    if t == [] then
      assert s[..|s|] == s;
      []
    else
      var n := WordEnd(t);
      FirstWord(s, t, n);
      var rest := SplitWhitespace(t[n..]);
      AllWordsCons(t[..n], rest);
      [t[..n]] + rest
  }

  /** Every piece is a word. */
  predicate AllWords(ws: seq<string>) {
    forall k :: 0 <= k < |ws| ==> IsWord(ws[k])
  }

  lemma AllWordsCons(w: string, ws: seq<string>)
    requires IsWord(w) && AllWords(ws)
    ensures AllWords([w] + ws)
  {
    forall k | 0 <= k < |[w] + ws| ensures IsWord(([w] + ws)[k]) {
      if k > 0 { assert ([w] + ws)[k] == ws[k - 1]; }
    }
  }

  /** After the leading white space of a non-blank `s` comes a word. */
  lemma FirstWord(s: string, t: string, n: nat)
    requires t == TrimStart(s) && t != [] && n == WordEnd(t)
    ensures 1 <= n && IsWord(t[..n]) && !IsBlank(s)
  {
    assert s[|s| - |t|] == t[0];
  }

  /** A string that starts with `p` contains `p`, first at index 0. */
  lemma FindPrefix(p: string, s: string)
    ensures Find(p + s, p) == Some(0)
    ensures Contains(p + s, p)
  {
    assert (p + s)[0..|p|] == p;
  }

  /** Splitting once on a separator the string starts with leaves an empty head. */
  lemma SplitOnceAtStart(sep: string, rest: string)
    ensures SplitOnce(sep + rest, sep) == Some(([], rest))
  {
    FindPrefix(sep, rest);
    assert (sep + rest)[|sep|..] == rest;
  }

  /** The first `c` of `a + [c] + b` is the one after `a` when `a` has none. */
  lemma IndexAfter(a: string, c: char, b: string)
    requires c !in a
    ensures IndexFrom(a + [c] + b, c, 0) == |a|
  {
    var s := a + [c] + b;
    assert s[|a|] == c;
    assert forall k :: 0 <= k < |a| ==> s[k] == a[k];
  }

  /** A split with cuts left to make takes the text before the first `c` as its first piece. */
  lemma SplitMaxCons(a: string, c: char, b: string, n: nat)
    requires c !in a
    ensures SplitMax(a + [c] + b, c, n + 1) == [a] + SplitMax(b, c, n)
  {
    var s := a + [c] + b;
    IndexAfter(a, c, b);
    assert s[..|a|] == a;
    assert s[|a| + 1..] == b;
  }

  /** `w + rest` with `rest` empty or starting with white space splits into `w` and the words of `rest`. */
  lemma SplitWordCons(w: string, rest: string)
    requires IsWord(w) && (rest == [] || IsSpace(rest[0]))
    ensures SplitWhitespace(w + rest) == [w] + SplitWhitespace(rest)
  {
    var s := w + rest;
    assert s[0] == w[0];
    assert SpaceEnd(s, 0) == 0;
    WordEndUnique(s, |w|);
    assert s[..|w|] == w;
    assert s[|w|..] == rest;
  }

  /** Leading white space does not change the words. */
  lemma SplitLeadingSpace(c: char, s: string)
    requires IsSpace(c)
    ensures SplitWhitespace([c] + s) == SplitWhitespace(s)
  {
    TrimStartCons(c, s);
  }

  /** A leading white-space character is trimmed with the rest. */
  lemma TrimStartCons(c: char, s: string)
    requires IsSpace(c)
    ensures TrimStart([c] + s) == TrimStart(s)
  {
    var t := [c] + s;
    var n := SpaceEnd(s, 0);
    assert forall k :: 1 <= k < n + 1 ==> t[k] == s[k - 1];
    SpaceEndUnique(t, 0, n + 1);
    assert t[n + 1..] == s[n..];
  }

  lemma WordEndUnique(s: string, n: nat)
    requires n <= |s|
    requires forall j :: 0 <= j < n ==> !IsSpace(s[j])
    requires n < |s| ==> IsSpace(s[n])
    ensures WordEnd(s) == n
  {
  }

  /** A single word splits into itself. */
  lemma SplitOneWord(w: string)
    requires IsWord(w)
    ensures SplitWhitespace(w) == [w]
  {
    SplitWordCons(w, []);
    assert w + [] == w;
    assert SplitWhitespace([]) == [];
  }

  /** Joining a word onto further words puts one separator between them. */
  lemma JoinWithCons(ws: seq<string>, c: char)
    requires |ws| >= 2
    ensures JoinWith(ws, c) == ws[0] + ([c] + JoinWith(ws[1..], c))
  {
  }

  /** One more word in front of words that split back keeps them splitting back. */
  lemma JoinedWordsStep(w: string, tail: seq<string>)
    requires IsWord(w) && |tail| >= 1
    requires SplitWhitespace(JoinWith(tail, ' ')) == tail
    ensures SplitWhitespace(JoinWith([w] + tail, ' ')) == [w] + tail
  {
    var ws := [w] + tail;
    assert ws[1..] == tail;
    var rest := JoinWith(tail, ' ');
    JoinWithCons(ws, ' ');
    SplitWordCons(w, [' '] + rest);
    SplitLeadingSpace(' ', rest);
  }

  lemma HeadTail<T>(xs: seq<T>)
    requires |xs| >= 1
    ensures xs == [xs[0]] + xs[1..]
  {
  }

  lemma AllWordsSplit(ws: seq<string>)
    requires |ws| >= 1 && AllWords(ws)
    ensures IsWord(ws[0]) && AllWords(ws[1..])
  {
    assert forall k :: 0 <= k < |ws| - 1 ==> ws[1..][k] == ws[k + 1];
  }

  /** Words joined by single spaces split back into the same words. */
  lemma {:induction false} SplitJoinedWords(ws: seq<string>)
    requires |ws| >= 1 && AllWords(ws)
    ensures SplitWhitespace(JoinWith(ws, ' ')) == ws
    decreases |ws|
  {
    AllWordsSplit(ws);
    if |ws| == 1 {
      SplitOneWord(ws[0]);
    } else {
      var tail := ws[1..];
      SplitJoinedWords(tail);
      JoinedWordsStep(ws[0], tail);
      HeadTail(ws);
    }
  }

  /** The index of the first line break of `s`, or `|s|`. */
  function LineEnd(s: string): (n: nat)
    ensures n <= |s|
    ensures forall j :: 0 <= j < n ==> !IsLineBreak(s[j])
    ensures n < |s| ==> IsLineBreak(s[n])
  {
    if s == [] || IsLineBreak(s[0]) then 0 else LineEnd(s[1..]) + 1
  }

  /** Where the next line starts after the break at `i`: "\r\n" is one break. */
  function AfterBreak(s: string, i: nat): (j: nat)
    requires i < |s|
    ensures i < j <= |s|
  {
    if s[i] == '\r' && i + 1 < |s| && s[i + 1] == '\n' then i + 2 else i + 1
  }

  /** No character of `line` is a line break. */
  predicate Unbroken(line: string) {
    forall j :: 0 <= j < |line| ==> !IsLineBreak(line[j])
  }

  predicate AllUnbroken(lines: seq<string>) {
    forall k :: 0 <= k < |lines| ==> Unbroken(lines[k])
  }

  lemma AllUnbrokenCons(line: string, lines: seq<string>)
    requires Unbroken(line) && AllUnbroken(lines)
    ensures AllUnbroken([line] + lines)
  {
    assert forall k :: 1 <= k < |lines| + 1 ==> ([line] + lines)[k] == lines[k - 1];
  }

  /**
    `s.splitlines()`: the lines of `s` without their line breaks. No line
    holds a break character; there are none exactly when `s` is empty; the
    first line is the text before the first break, and a non-empty text
    without a break is one line. `SplitJoinedLines` states the lines after
    the first.
  */
  function SplitLines(s: string): (r: seq<string>)
    ensures AllUnbroken(r)
    ensures r == [] <==> s == []
    ensures r != [] ==> r[0] == s[..LineEnd(s)]
    ensures s != [] && LineEnd(s) == |s| ==> r == [s]
    decreases |s|
  {
    if s == [] then []
    else
      var i := LineEnd(s);
      if i == |s| then [s]
      else
        var rest := SplitLines(s[AfterBreak(s, i)..]);
        AllUnbrokenCons(s[..i], rest);
        [s[..i]] + rest
  }

  lemma AppendAssoc<T>(x: seq<T>, y: seq<T>, z: seq<T>)
    ensures x + (y + z) == (x + y) + z
  {
  }

  /** `LineEnd` is the only index its postcondition allows. */
  lemma LineEndUnique(s: string, n: nat)
    requires n <= |s|
    requires forall j :: 0 <= j < n ==> !IsLineBreak(s[j])
    requires n < |s| ==> IsLineBreak(s[n])
    ensures LineEnd(s) == n
  {
  }

  /** A line of `s` that ends at a break is followed by the lines after that break. */
  lemma SplitLinesAt(s: string, i: nat)
    requires i == LineEnd(s) && i < |s|
    ensures SplitLines(s) == [s[..i]] + SplitLines(s[AfterBreak(s, i)..])
  {
  }

  /** When `a` holds no break, the joined text's first line is `a` and the rest is `b`. */
  lemma BreakAfter(a: string, b: string)
    requires LineEnd(a) == |a|
    ensures LineEnd(a + "\n" + b) == |a| && AfterBreak(a + "\n" + b, |a|) == |a| + 1
  {
    var s := a + "\n" + b;
    assert s[|a|] == '\n';
    assert forall j :: 0 <= j < |a| ==> s[j] == a[j];
    LineEndUnique(s, |a|);
  }

  /** When `a` holds no break, the joined text splits into `a` and the lines of `b`. */
  lemma JoinFirstBreak(a: string, b: string)
    requires LineEnd(a) == |a|
    ensures SplitLines(a + "\n" + b) == [a] + SplitLines(b)
  {
    var s := a + "\n" + b;
    BreakAfter(a, b);
    SplitLinesAt(s, |a|);
    assert s[..|a|] == a;
    assert s[|a| + 1..] == b;
  }

  /** When `a` holds no break, the joined text's first break is the added "\n". */
  lemma JoinUnbroken(a: string, b: string)
    requires LineEnd(a) == |a|
    ensures a == [] ==> SplitLines(a + "\n" + b) == SplitLines(a) + [""] + SplitLines(b)
    ensures a != [] ==> SplitLines(a + "\n" + b) == SplitLines(a) + SplitLines(b)
  {
    JoinFirstBreak(a, b);
    if a != [] {
      assert SplitLines(a) == [a];
    }
  }

  /**
    Lines without breaks, joined with "\n", split back into the same lines,
    provided the last one is not empty (a final "\n" ends a line and starts no new one).
  */
  lemma {:induction false} SplitJoinedLines(lines: seq<string>)
    requires |lines| >= 1 && AllUnbroken(lines) && lines[|lines| - 1] != []
    ensures SplitLines(JoinWith(lines, '\n')) == lines
    decreases |lines|
  {
    var a := lines[0];
    assert Unbroken(a);
    LineEndUnique(a, |a|);
    if |lines| == 1 {
      assert JoinWith(lines, '\n') == a;
    } else {
      var tail := lines[1..];
      assert AllUnbroken(tail) by {
        assert forall k :: 0 <= k < |tail| ==> tail[k] == lines[k + 1];
      }
      assert tail[|tail| - 1] == lines[|lines| - 1];
      SplitJoinedLines(tail);
      assert lines == [a] + tail;
      JoinWithFront(a, tail, '\n');
      JoinFirstBreak(a, JoinWith(tail, '\n'));
    }
  }

  /** A lone '\r' ending `a` merges with the added "\n" into one break. */
  lemma ReturnBreak(a: string, b: string)
    requires LineEnd(a) == |a| - 1 && a[|a| - 1] == '\r'
    ensures LineEnd(a + "\n" + b) == |a| - 1 && AfterBreak(a + "\n" + b, |a| - 1) == |a| + 1
  {
    var s := a + "\n" + b;
    var i := |a| - 1;
    assert s[i] == '\r' && s[i + 1] == '\n';
    assert forall j :: 0 <= j < i ==> s[j] == a[j];
    LineEndUnique(s, i);
  }

  /** When `a` ends in a lone '\r', the added "\n" joins it into one "\r\n" break. */
  lemma JoinAfterReturn(a: string, b: string)
    requires LineEnd(a) == |a| - 1 && a[|a| - 1] == '\r'
    ensures SplitLines(a + "\n" + b) == SplitLines(a) + SplitLines(b)
  {
    var s := a + "\n" + b;
    var i := |a| - 1;
    ReturnBreak(a, b);
    SplitLinesAt(s, i);
    assert s[..i] == a[..i];
    assert s[|a| + 1..] == b;
    assert SplitLines(a) == [a[..i]] by {
      SplitLinesAt(a, i);
      assert a[AfterBreak(a, i)..] == [];
    }
  }

  /** A break inside `a` that is not its final lone '\r' is found, and skipped, in the joined text too. */
  lemma InnerBreak(a: string, b: string)
    requires LineEnd(a) < |a|
    requires !(LineEnd(a) == |a| - 1 && a[|a| - 1] == '\r')
    ensures LineEnd(a + "\n" + b) == LineEnd(a)
    ensures AfterBreak(a + "\n" + b, LineEnd(a)) == AfterBreak(a, LineEnd(a))
  {
    var s := a + "\n" + b;
    var i := LineEnd(a);
    assert forall j :: 0 <= j <= i ==> s[j] == a[j];
    LineEndUnique(s, i);
    if i + 1 < |a| {
      assert s[i + 1] == a[i + 1];
    }
  }

  /** Dropping a prefix no longer than the first part of a concatenation. */
  lemma DropAppend<T>(x: seq<T>, y: seq<T>, j: nat)
    requires j <= |x|
    ensures (x + y)[j..] == x[j..] + y
  {
  }

  /** Taking a prefix no longer than the first part of a concatenation. */
  lemma TakeAppend<T>(x: seq<T>, y: seq<T>, i: nat)
    requires i <= |x|
    ensures (x + y)[..i] == x[..i]
  {
  }

  /** Otherwise the first line of `a` is the first line of the joined text, and the rest is `a`'s rest joined with `b`. */
  lemma JoinStep(a: string, b: string)
    requires LineEnd(a) < |a|
    requires !(LineEnd(a) == |a| - 1 && a[|a| - 1] == '\r')
    ensures SplitLines(a + "\n" + b) == [a[..LineEnd(a)]] + SplitLines(a[AfterBreak(a, LineEnd(a))..] + "\n" + b)
  {
    var s := a + "\n" + b;
    var i := LineEnd(a);
    var j := AfterBreak(a, i);
    InnerBreak(a, b);
    SplitLinesAt(s, i);
    TakeAppend(a + "\n", b, i);
    TakeAppend(a, "\n", i);
    DropAppend(a + "\n", b, j);
    DropAppend(a, "\n", j);
  }

  /**
    `(a + "\n" + b).splitlines()` is the lines of `a` followed by those of
    `b`, with at most one empty line between them (when `a` is empty or ends
    with a line break other than a lone '\r').
  */
  lemma {:induction false} SplitLinesJoin(a: string, b: string)
    ensures var whole := SplitLines(a + "\n" + b);
      whole == SplitLines(a) + SplitLines(b) || whole == SplitLines(a) + [""] + SplitLines(b)
    decreases |a|
  {
    var i := LineEnd(a);
    if i == |a| {
      JoinUnbroken(a, b);
    } else if i == |a| - 1 && a[|a| - 1] == '\r' {
      JoinAfterReturn(a, b);
    } else {
      JoinStep(a, b);
      SplitLinesAt(a, i);
      var j := AfterBreak(a, i);
      SplitLinesJoin(a[j..], b);
      var head, rest, lb := [a[..i]], SplitLines(a[j..]), SplitLines(b);
      if SplitLines(a[j..] + "\n" + b) == rest + lb {
        AppendAssoc(head, rest, lb);
      } else {
        AppendAssoc(head, rest + [""], lb);
        AppendAssoc(head, rest, [""]);
      }
    }
  }

  /**
    The first line of a text that does not start with white space: a
    non-empty prefix running up to the first line break.
  */
  lemma FirstLine(t: string)
    requires t != [] && !IsSpace(t[0])
    ensures var m := SplitLines(t)[0];
      && m != [] && Unbroken(m) && |m| <= |t| && m == t[..|m|]
      && (|m| < |t| ==> IsLineBreak(t[|m|]))
  {
    LineBreakIsSpace(t[0]);
    var lines := SplitLines(t);
    assert lines[0] == t[..LineEnd(t)];
  }

  /** A text with no line break and no white space at its ends is its own strip and its own only line. */
  lemma SingleLine(s: string)
    requires s != [] && !IsSpace(s[0]) && !IsSpace(s[|s| - 1]) && Unbroken(s)
    ensures Strip(s) == s && SplitLines(s) == [s]
  {
    StripUnchanged(s);
    LineEndUnique(s, |s|);
  }
}
