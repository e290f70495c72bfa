/** Whitespace normalisation of free-text fields (titles and summaries of papers).

    `CleanText` is the three-step pipeline of `clean_text`: every newline becomes a
    space, every run of whitespace collapses to one space, and the result is trimmed.
    The lemmas characterise the result independently of those steps: it is clean
    (no newline, only single spaces between non-whitespace characters, nothing at the
    ends), it keeps every non-whitespace character in order, it is the input's words
    joined by single spaces, and cleaning twice is the same as cleaning once. */
module Text {

  /** Whitespace as Python's `re` `\s` class (on str patterns) and `str.strip()` both
      see it: the code points for which `str.isspace()` holds. */
  const Whitespace: set<char> := {
    '\t', '\n', '\U{0B}', '\U{0C}', '\r',                // U+0009 .. U+000D
    '\U{1C}', '\U{1D}', '\U{1E}', '\U{1F}',              // file, group, record, unit separators
    ' ', '\U{85}', '\U{A0}', '\U{1680}',
    '\U{2000}', '\U{2001}', '\U{2002}', '\U{2003}', '\U{2004}', '\U{2005}',
    '\U{2006}', '\U{2007}', '\U{2008}', '\U{2009}', '\U{200A}',
    '\U{2028}', '\U{2029}', '\U{202F}', '\U{205F}', '\U{3000}'
  }

  predicate IsSpace(c: char) {
    c in Whitespace
  }

  /** The non-whitespace characters of `s`, in order. */
  function NonSpace(s: string): string {
    if s == [] then [] else (if IsSpace(s[0]) then [] else [s[0]]) + NonSpace(s[1..])
  }

  /** `s` without the occurrences of `c`. */
  function Without(s: string, c: char): string {
    if s == [] then [] else (if s[0] == c then [] else [s[0]]) + Without(s[1..], c)
  }

  /** No newline, every whitespace character is a plain space, and no two whitespace
      characters are adjacent. */
  predicate SingleSpaced(t: string) {
    && '\n' !in t
    && (forall i :: 0 <= i < |t| && IsSpace(t[i]) ==> t[i] == ' ')
    && (forall i :: 0 <= i < |t| - 1 ==> !(IsSpace(t[i]) && IsSpace(t[i + 1])))
  }

  /** A clean text: single-spaced, and neither end is whitespace. */
  predicate IsClean(t: string) {
    SingleSpaced(t) && (t == [] || (!IsSpace(t[0]) && !IsSpace(t[|t| - 1])))
  }

  /** A non-empty run of non-whitespace characters. */
  predicate IsWord(w: string) {
    w != [] && forall i :: 0 <= i < |w| ==> !IsSpace(w[i])
  }

  /** `a` and `b` have whitespace at the same places and agree everywhere else. */
  predicate SameSpacing(a: string, b: string) {
    && |a| == |b|
    && (forall i :: 0 <= i < |a| ==> (IsSpace(a[i]) <==> IsSpace(b[i])))
    && (forall i :: 0 <= i < |a| && !IsSpace(a[i]) ==> a[i] == b[i])
  }

  /** The number of whitespace characters `s` begins with. */
  function SpacePrefix(s: string): (n: nat)
    ensures n <= |s| && (n == |s| || !IsSpace(s[n]))
    ensures forall i :: 0 <= i < n ==> IsSpace(s[i])
  {
    if s != [] && IsSpace(s[0]) then 1 + SpacePrefix(s[1..]) else 0
  }

  /** The number of whitespace characters `s` ends with. */
  function SpaceSuffix(s: string): (n: nat)
    ensures n <= |s| && (n == |s| || !IsSpace(s[|s| - n - 1]))
    ensures forall i :: |s| - n <= i < |s| ==> IsSpace(s[i])
  {
    if s != [] && IsSpace(s[|s| - 1]) then 1 + SpaceSuffix(s[..|s| - 1]) else 0
  }

  /** The number of non-whitespace characters `s` begins with. */
  function WordPrefix(s: string): (n: nat)
    ensures n <= |s| && (n == |s| || IsSpace(s[n]))
    ensures forall i :: 0 <= i < n ==> !IsSpace(s[i])
  {
    if s != [] && !IsSpace(s[0]) then 1 + WordPrefix(s[1..]) else 0
  }

  /** `text.replace('\n', ' ')`. */
  function ReplaceNewlines(s: string): (r: string)
    ensures |r| == |s| && '\n' !in r
    ensures forall i :: 0 <= i < |s| ==> r[i] == if s[i] == '\n' then ' ' else s[i]
  {
    if s == [] then [] else (if s[0] == '\n' then " " else [s[0]]) + ReplaceNewlines(s[1..])
  }

  /** `s.lstrip()`. */
  function StripLeading(s: string): string {
    s[SpacePrefix(s)..]
  }

  /** `s.rstrip()`. */
  function StripTrailing(s: string): string {
    s[..|s| - SpaceSuffix(s)]
  }

  /** `s.strip()`: neither end of the result is whitespace, and no non-whitespace
      character is lost. */
  function Strip(s: string): (r: string)
    ensures |r| <= |s|
    ensures r == [] || (!IsSpace(r[0]) && !IsSpace(r[|r| - 1]))
    ensures NonSpace(r) == NonSpace(s)
  {
    NonSpaceOfStripLeading(s);
    NonSpaceOfStripTrailing(StripLeading(s));
    StripTrailing(StripLeading(s))
  }

  /** `re.sub(r'\s+', ' ', s)`: every maximal run of whitespace becomes one space. */
  function CollapseSpaces(s: string): (r: string)
    ensures s == [] <==> r == []
    ensures s != [] ==> (IsSpace(r[0]) <==> IsSpace(s[0]))
    decreases |s|
  {
    if s == [] then []
    else if IsSpace(s[0]) then " " + CollapseSpaces(s[SpacePrefix(s)..])
    else [s[0]] + CollapseSpaces(s[1..])
  }

  /** `clean_text(text)`. */
  function CleanText(s: string): (r: string)
    ensures IsClean(r)
    ensures NonSpace(r) == NonSpace(s)
  {
    var n := ReplaceNewlines(s);
    var c := CollapseSpaces(n);
    CollapseIsSingleSpaced(n);
    NonSpaceOfReplaceNewlines(s);
    StripKeepsClean(c);
    Strip(c)
  }

  // ---------------------------------------------------------------------------
  // The counting functions are determined by their contracts

  lemma SpacePrefixUnique(s: string, k: nat)
    requires k <= |s| && (k == |s| || !IsSpace(s[k]))
    requires forall i :: 0 <= i < k ==> IsSpace(s[i])
    ensures SpacePrefix(s) == k
  {
  }

  lemma SpaceSuffixUnique(s: string, k: nat)
    requires k <= |s| && (k == |s| || !IsSpace(s[|s| - k - 1]))
    requires forall i :: |s| - k <= i < |s| ==> IsSpace(s[i])
    ensures SpaceSuffix(s) == k
  {
  }

  lemma WordPrefixUnique(s: string, k: nat)
    requires k <= |s| && (k == |s| || IsSpace(s[k]))
    requires forall i :: 0 <= i < k ==> !IsSpace(s[i])
    ensures WordPrefix(s) == k
  {
  }

  // ---------------------------------------------------------------------------
  // Each step of CleanText

  lemma {:induction false} NonSpaceConcat(a: string, b: string)
    ensures NonSpace(a + b) == NonSpace(a) + NonSpace(b)
  {
    if a == [] {
      assert a + b == b;
    } else {
      assert (a + b)[0] == a[0] && (a + b)[1..] == a[1..] + b;
      NonSpaceConcat(a[1..], b);
    }
  }

  lemma {:induction false} AllSpaceHasNoNonSpace(s: string)
    requires forall i :: 0 <= i < |s| ==> IsSpace(s[i])
    ensures NonSpace(s) == []
  {
    if s != [] {
      AllSpaceHasNoNonSpace(s[1..]);
    }
  }

  lemma {:induction false} NonSpaceOfReplaceNewlines(s: string)
    ensures NonSpace(ReplaceNewlines(s)) == NonSpace(s)
  {
    if s != [] {
      NonSpaceOfReplaceNewlines(s[1..]);
    }
  }

  lemma NonSpaceOfStripLeading(s: string)
    ensures NonSpace(StripLeading(s)) == NonSpace(s)
  {
    var n := SpacePrefix(s);
    assert s == s[..n] + s[n..];
    NonSpaceConcat(s[..n], s[n..]);
    AllSpaceHasNoNonSpace(s[..n]);
  }

  lemma NonSpaceOfStripTrailing(s: string)
    ensures NonSpace(StripTrailing(s)) == NonSpace(s)
  {
    var m := |s| - SpaceSuffix(s);
    assert s == s[..m] + s[m..];
    NonSpaceConcat(s[..m], s[m..]);
    AllSpaceHasNoNonSpace(s[m..]);
  }

  /** Collapsing leaves only single plain spaces and every non-whitespace character. */
  lemma {:induction false} CollapseIsSingleSpaced(s: string)
    requires '\n' !in s
    ensures SingleSpaced(CollapseSpaces(s))
    ensures NonSpace(CollapseSpaces(s)) == NonSpace(s)
    decreases |s|
  {
    if s != [] {
      if IsSpace(s[0]) {
        var t := s[SpacePrefix(s)..];
        CollapseIsSingleSpaced(t);
        NonSpaceOfStripLeading(s);
        ConsSingleSpaced(' ', CollapseSpaces(t));
        NonSpaceConcat(" ", CollapseSpaces(t));
      } else {
        assert s == [s[0]] + s[1..];
        CollapseIsSingleSpaced(s[1..]);
        ConsSingleSpaced(s[0], CollapseSpaces(s[1..]));
        NonSpaceConcat([s[0]], CollapseSpaces(s[1..]));
        NonSpaceConcat([s[0]], s[1..]);
      }
    }
  }

  lemma ConsSingleSpaced(c: char, x: string)
    requires c != '\n' && (IsSpace(c) ==> c == ' ') && SingleSpaced(x)
    requires IsSpace(c) && x != [] ==> !IsSpace(x[0])
    ensures SingleSpaced([c] + x)
  {
    var r := [c] + x;
    assert forall i :: 1 <= i < |r| ==> r[i] == x[i - 1];
  }

  lemma SliceSingleSpaced(t: string, lo: nat, hi: nat)
    requires lo <= hi <= |t| && SingleSpaced(t)
    ensures SingleSpaced(t[lo..hi])
  {
    var u := t[lo..hi];
    assert forall i :: 0 <= i < |u| ==> u[i] == t[lo + i];
  }

  /** Stripping keeps a collapsed text's single spaces and drops only whitespace. */
  lemma StripKeepsClean(c: string)
    requires SingleSpaced(c)
    ensures IsClean(Strip(c))
    ensures NonSpace(Strip(c)) == NonSpace(c)
  {
    var l := StripLeading(c);
    SliceSingleSpaced(c, SpacePrefix(c), |c|);
    NonSpaceOfStripLeading(c);
    StripTrailingKeepsClean(l);
  }

  lemma StripTrailingKeepsClean(l: string)
    requires SingleSpaced(l) && (l == [] || !IsSpace(l[0]))
    ensures IsClean(StripTrailing(l))
    ensures NonSpace(StripTrailing(l)) == NonSpace(l)
  {
    var m := |l| - SpaceSuffix(l);
    var r := l[..m];
    SliceSingleSpaced(l, 0, m);
    var tail := l[m..];
    assert l == r + tail;
    NonSpaceConcat(r, tail);
    AllSpaceHasNoNonSpace(tail);
  }

  // ---------------------------------------------------------------------------
  // Idempotence and what survives cleaning

  /** A clean text is left as it is by every step of `CleanText`. */
  lemma CleanTextFixesClean(t: string)
    requires IsClean(t)
    ensures CleanText(t) == t
  {
    assert ReplaceNewlines(t) == t;
    CollapseFixesSingleSpaced(t);
    SpacePrefixUnique(t, 0);
    SpaceSuffixUnique(t, 0);
  }

  lemma {:induction false} CollapseFixesSingleSpaced(t: string)
    requires SingleSpaced(t)
    ensures CollapseSpaces(t) == t
    decreases |t|
  {
    if t != [] {
      SliceSingleSpaced(t, 1, |t|);
      CollapseFixesSingleSpaced(t[1..]);
      if IsSpace(t[0]) {
        SpacePrefixUnique(t, 1);
        assert CollapseSpaces(t) == " " + CollapseSpaces(t[1..]);
      } else {
        assert CollapseSpaces(t) == [t[0]] + CollapseSpaces(t[1..]);
      }
      assert t == [t[0]] + t[1..];
    }
  }

  /** `clean_text(clean_text(s)) == clean_text(s)`. */
  lemma CleanTextIdempotent(s: string)
    ensures CleanText(CleanText(s)) == CleanText(s)
  {
    CleanTextFixesClean(CleanText(s));
  }

  lemma {:induction false} WithoutSpaceOfSingleSpaced(t: string)
    requires forall i :: 0 <= i < |t| && IsSpace(t[i]) ==> t[i] == ' '
    ensures Without(t, ' ') == NonSpace(t)
  {
    if t != [] {
      WithoutSpaceOfSingleSpaced(t[1..]);
    }
  }

  /** Removing the spaces from the cleaned text leaves exactly the non-whitespace
      characters of the input, in their original order. */
  lemma CleanTextKeepsNonSpace(s: string)
    ensures Without(CleanText(s), ' ') == NonSpace(s)
  {
    WithoutSpaceOfSingleSpaced(CleanText(s));
  }

  // ---------------------------------------------------------------------------
  // Words: the cleaned text is the words of the input joined by single spaces

  /** The lengths of `parts`, added up. */
  function TotalLength(parts: seq<string>): nat {
    if parts == [] then 0 else |parts[0]| + TotalLength(parts[1..])
  }

  /** `sep.join(parts)`: every part, and one separator between each two. */
  function Join(parts: seq<string>, sep: string): (r: string)
    ensures |r| == TotalLength(parts) + if parts == [] then 0 else (|parts| - 1) * |sep|
  {
    if parts == [] then [] else if |parts| == 1 then parts[0] else parts[0] + sep + Join(parts[1..], sep)
  }

  /** Every part occurs in the joined text. */
  lemma {:induction false} JoinContainsParts(parts: seq<string>, sep: string)
    ensures forall i :: 0 <= i < |parts| ==> Contains(Join(parts, sep), parts[i])
  {
    if |parts| == 1 {
      assert OccursAt(Join(parts, sep), parts[0], 0);
    } else if |parts| > 1 {
      var head, rest := parts[0] + sep, Join(parts[1..], sep);
      assert Join(parts, sep) == head + rest;
      assert OccursAt(head + rest, parts[0], 0);
      JoinContainsParts(parts[1..], sep);
      forall i | 1 <= i < |parts|
        ensures Contains(head + rest, parts[i])
      {
        assert parts[i] == parts[1..][i - 1];
        ContainsAfter(head, rest, parts[i]);
      }
    }
  }

  /** `t` occurs in `s` starting at index `k`. */
  predicate OccursAt(s: string, t: string, k: int) {
    0 <= k <= |s| - |t| && s[k..k + |t|] == t
  }

  /** `t` occurs in `s`. */
  ghost predicate Contains(s: string, t: string) {
    exists k :: OccursAt(s, t, k)
  }

  lemma ContainsAfter(a: string, s: string, t: string)
    requires Contains(s, t)
    ensures Contains(a + s, t)
  {
    var k :| OccursAt(s, t, k);
    assert (a + s)[|a| + k..|a| + k + |t|] == s[k..k + |t|];
    assert OccursAt(a + s, t, |a| + k);
  }

  lemma ContainsBefore(s: string, b: string, t: string)
    requires Contains(s, t)
    ensures Contains(s + b, t)
  {
    var k :| OccursAt(s, t, k);
    assert (s + b)[k..k + |t|] == s[k..k + |t|];
    assert OccursAt(s + b, t, k);
  }

  /** Joining one more part adds the separator and the part. */
  lemma {:induction false} JoinSnoc(parts: seq<string>, x: string, sep: string)
    requires parts != []
    ensures Join(parts + [x], sep) == Join(parts, sep) + sep + x
  {
    if |parts| > 1 {
      assert (parts + [x])[1..] == parts[1..] + [x];
      JoinSnoc(parts[1..], x, sep);
    }
  }

  /** `s.split()`: the maximal runs of non-whitespace characters of `s`, in order. */
  function Words(s: string): seq<string>
    decreases |s|
  {
    var t := StripLeading(s);
    if t == [] then [] else var n := WordPrefix(t); [t[..n]] + Words(t[n..])
  }

  /** Every element of `s.split()` is a word. */
  lemma {:induction false} WordsAreWords(s: string)
    ensures forall k :: 0 <= k < |Words(s)| ==> IsWord(Words(s)[k])
    decreases |s|
  {
    var t := StripLeading(s);
    if t != [] {
      var n := WordPrefix(t);
      var rest := Words(t[n..]);
      WordsAreWords(t[n..]);
      assert IsWord(t[..n]);
      assert Words(s) == [t[..n]] + rest;
    }
  }

  /** The cleaned text is the input's words joined by single spaces, that is
      `clean_text(s) == ' '.join(s.split())`. */
  lemma CleanTextIsJoinedWords(s: string)
    ensures CleanText(s) == Join(Words(s), " ")
  {
    CollapseSameSpacing(ReplaceNewlines(s), s);
    StripCollapseIsJoinedWords(s);
  }

  /** Collapsing sees only where the whitespace is, not which whitespace it is. */
  lemma {:induction false} CollapseSameSpacing(a: string, b: string)
    requires SameSpacing(a, b)
    ensures CollapseSpaces(a) == CollapseSpaces(b)
    decreases |a|
  {
    if a != [] {
      if IsSpace(a[0]) {
        var n := SpacePrefix(a);
        SpacePrefixUnique(b, n);
        CollapseSameSpacing(a[n..], b[n..]);
      } else {
        CollapseSameSpacing(a[1..], b[1..]);
      }
    }
  }

  lemma StripCollapseSkipsLeading(s: string)
    ensures Strip(CollapseSpaces(s)) == Strip(CollapseSpaces(StripLeading(s)))
  {
    if s != [] && IsSpace(s[0]) {
      var x := CollapseSpaces(StripLeading(s));
      var y := " " + x;
      SpacePrefixUnique(y, 1 + SpacePrefix(x));
      assert y[1 + SpacePrefix(x)..] == x[SpacePrefix(x)..];
    } else {
      SpacePrefixUnique(s, 0);
    }
  }

  /** Collapsing a text that starts with a word emits that word unchanged first. */
  lemma {:induction false} CollapseWord(t: string)
    requires t != [] && !IsSpace(t[0])
    ensures CollapseSpaces(t) == t[..WordPrefix(t)] + CollapseSpaces(t[WordPrefix(t)..])
  {
    var n := WordPrefix(t);
    if 1 < n {
      var t' := t[1..];
      CollapseWord(t');
      assert WordPrefix(t') == n - 1;
      assert t[..n] == [t[0]] + t'[..n - 1];
      assert t[n..] == t'[n - 1..];
    }
  }

  /** `rstrip` of a text with a non-whitespace character only looks at what follows it. */
  lemma StripTrailingConcat(a: string, x: string)
    requires x != [] && !IsSpace(x[0])
    ensures StripTrailing(a + x) == a + StripTrailing(x)
  {
    var m := SpaceSuffix(x);
    var ax := a + x;
    assert forall i :: |ax| - m <= i < |ax| ==> ax[i] == x[i - |a|];
    SpaceSuffixUnique(ax, m);
    assert ax[..|ax| - m] == a + x[..|x| - m];
  }

  lemma StripWordSpace(w: string)
    requires IsWord(w)
    ensures Strip(w + " ") == w
  {
    var ws := w + " ";
    SpacePrefixUnique(ws, 0);
    SpaceSuffixUnique(ws, 1);
    assert ws[..|ws| - 1] == w;
  }

  lemma JoinedWordsStep(w: string, x: string, ws: seq<string>)
    requires IsWord(w) && x != [] && !IsSpace(x[0]) && ws != []
    requires Strip(x) == Join(ws, " ")
    ensures Strip(w + (" " + x)) == Join([w] + ws, " ")
  {
    var y := (w + " ") + x;
    assert w + (" " + x) == y;
    SpacePrefixUnique(y, 0);
    SpacePrefixUnique(x, 0);
    StripTrailingConcat(w + " ", x);
    assert ([w] + ws)[1..] == ws;
  }

  lemma {:induction false} StripCollapseIsJoinedWords(s: string)
    ensures Strip(CollapseSpaces(s)) == Join(Words(s), " ")
    decreases |s|, 2
  {
    StripCollapseSkipsLeading(s);
    var t := StripLeading(s);
    if t != [] {
      SpacePrefixUnique(t, 0);
      assert Words(s) == Words(t);
      StripCollapseOfWordStart(t);
    }
  }

  lemma {:induction false} StripCollapseOfWordStart(t: string)
    requires t != [] && !IsSpace(t[0])
    ensures Strip(CollapseSpaces(t)) == Join(Words(t), " ")
    decreases |t|, 1
  {
    SpacePrefixUnique(t, 0);
    var n := WordPrefix(t);
    CollapseWord(t);
    assert Words(t) == [t[..n]] + Words(t[n..]);
    StripCollapseAfterWord(t[..n], t[n..]);
  }

  lemma {:induction false} StripCollapseAfterWord(w: string, rest: string)
    requires IsWord(w) && (rest == [] || IsSpace(rest[0]))
    ensures Strip(w + CollapseSpaces(rest)) == Join([w] + Words(rest), " ")
    decreases |rest|, 0
  {
    if rest == [] {
      assert w + CollapseSpaces(rest) == w;
      SpacePrefixUnique(w, 0);
      SpaceSuffixUnique(w, 0);
    } else {
      var u := StripLeading(rest);
      assert CollapseSpaces(rest) == " " + CollapseSpaces(u);
      if u == [] {
        assert Words(rest) == [];
        StripWordSpace(w);
      } else {
        StripCollapseIsJoinedWords(u);
        SpacePrefixUnique(u, 0);
        assert Words(rest) == Words(u);
        JoinedWordsStep(w, CollapseSpaces(u), Words(u));
      }
    }
  }
}
