/**
 * The JavaScript string built-ins the RAG engine relies on, stated over `seq<char>`:
 * `trim`, the `/\s+/g` collapse, `indexOf`/`includes`, `replace` with a string pattern,
 * `split` on a one-character separator, `join`, `slice(0, n) + '...'`, number-to-string
 * and ASCII `toLowerCase`.
 */
module Text {

  /** The characters of ECMAScript WhiteSpace and LineTerminator: what `\s` matches and `trim` strips. */
  predicate IsWhitespace(c: char) {
    || c == '\t' || c == '\n' || c == '\U{000B}' || c == '\U{000C}' || c == '\r' || c == ' '
    || c == '\U{00A0}' || c == '\U{1680}' || ('\U{2000}' <= c <= '\U{200A}')
    || c == '\U{2028}' || c == '\U{2029}' || c == '\U{202F}' || c == '\U{205F}'
    || c == '\U{3000}' || c == '\U{FEFF}'
  }

  /** The non-whitespace characters of `s`, in order. */
  function NonWhitespace(s: string): string {
    if s == [] then []
    else if IsWhitespace(s[0]) then NonWhitespace(s[1..])
    else [s[0]] + NonWhitespace(s[1..])
  }

  lemma {:induction false} NonWhitespaceAppend(a: string, b: string)
    ensures NonWhitespace(a + b) == NonWhitespace(a) + NonWhitespace(b)
  {
    if a != [] {
      assert (a + b)[1..] == a[1..] + b;
      NonWhitespaceAppend(a[1..], b);
    } else {
      assert a + b == b;
    }
  }

  lemma {:induction false} NonWhitespaceEmpty(s: string)
    ensures NonWhitespace(s) == [] <==> forall i :: 0 <= i < |s| ==> IsWhitespace(s[i])
  {
    if s != [] {
      NonWhitespaceEmpty(s[1..]);
      assert forall i :: 1 <= i < |s| ==> s[i] == s[1..][i - 1];
    }
  }

  /** `s` with its leading whitespace removed. */
  function TrimStart(s: string): (r: string)
    ensures |r| <= |s|
  {
    if s != [] && IsWhitespace(s[0]) then TrimStart(s[1..]) else s
  }

  /** What `TrimStart` keeps is a suffix of its input that does not start with whitespace. */
  lemma {:induction false} TrimStartShape(s: string)
    ensures var r := TrimStart(s);
            && r == s[|s| - |r|..]
            && (r == [] || !IsWhitespace(r[0]))
  {
    if s != [] && IsWhitespace(s[0]) {
      TrimStartShape(s[1..]);
    }
  }

  /** `s` with its trailing whitespace removed. */
  function TrimEnd(s: string): (r: string)
    ensures |r| <= |s|
  {
    if s != [] && IsWhitespace(s[|s| - 1]) then TrimEnd(s[..|s| - 1]) else s
  }

  /** What `TrimEnd` keeps is a prefix of its input that does not end with whitespace. */
  lemma {:induction false} TrimEndShape(s: string)
    ensures var r := TrimEnd(s);
            && r == s[..|r|]
            && (r == [] || !IsWhitespace(r[|r| - 1]))
  {
    if s != [] && IsWhitespace(s[|s| - 1]) {
      TrimEndShape(s[..|s| - 1]);
    }
  }

  /** `String.prototype.trim`. */
  function Trim(s: string): (r: string)
    ensures |r| <= |s|
  {
    TrimEnd(TrimStart(s))
  }

  /** Only whitespace is removed at the front, and nothing else changes. */
  lemma {:induction false} TrimStartRemovesOnlyWhitespace(s: string)
    ensures forall i :: 0 <= i < |s| - |TrimStart(s)| ==> IsWhitespace(s[i])
    ensures NonWhitespace(TrimStart(s)) == NonWhitespace(s)
  {
    if s != [] && IsWhitespace(s[0]) {
      TrimStartRemovesOnlyWhitespace(s[1..]);
      assert forall i :: 1 <= i < |s| ==> s[i] == s[1..][i - 1];
      assert NonWhitespace(s) == NonWhitespace(s[1..]);
    }
  }

  /** Only whitespace is removed at the back, and nothing else changes. */
  lemma {:induction false} TrimEndRemovesOnlyWhitespace(s: string)
    ensures forall i :: |TrimEnd(s)| <= i < |s| ==> IsWhitespace(s[i])
    ensures NonWhitespace(TrimEnd(s)) == NonWhitespace(s)
  {
    if s != [] && IsWhitespace(s[|s| - 1]) {
      var front := s[..|s| - 1];
      TrimEndRemovesOnlyWhitespace(front);
      assert s == front + [s[|s| - 1]];
      NonWhitespaceAppend(front, [s[|s| - 1]]);
      assert NonWhitespace([s[|s| - 1]]) == [];
    }
  }

  /** `trim` keeps a contiguous slice that neither starts nor ends with whitespace and loses only whitespace. */
  lemma TrimProperties(s: string)
    ensures var r := Trim(s);
            var a := |s| - |TrimStart(s)|;
            && a + |r| <= |s| && r == s[a..a + |r|]
            && (r == [] || (!IsWhitespace(r[0]) && !IsWhitespace(r[|r| - 1])))
            && NonWhitespace(r) == NonWhitespace(s)
  {
    var t := TrimStart(s);
    var r := TrimEnd(t);
    var a := |s| - |t|;
    TrimStartShape(s);
    TrimEndShape(t);
    SliceOfSuffix(s, a, |r|);
    if r != [] {
      PrefixHead(t, |r|);
    }
    TrimStartRemovesOnlyWhitespace(s);
    TrimEndRemovesOnlyWhitespace(t);
  }

  lemma SliceOfSuffix(s: string, a: nat, n: nat)
    requires a + n <= |s|
    ensures s[a..][..n] == s[a..a + n]
  {
  }

  lemma PrefixHead(t: string, n: nat)
    requires 0 < n <= |t|
    ensures t[..n][0] == t[0]
  {
  }

  /** Two spaces stand side by side at index `i`. */
  predicate DoubleSpaceAt(s: string, i: int) {
    0 <= i && i + 1 < |s| && s[i] == ' ' && s[i + 1] == ' '
  }

  /** The only whitespace in `s` is single spaces. */
  predicate Collapsed(s: string) {
    && (forall i :: 0 <= i < |s| && IsWhitespace(s[i]) ==> s[i] == ' ')
    && (forall i :: 0 <= i < |s| ==> !DoubleSpaceAt(s, i))
  }

  /** Collapsed, and neither starting nor ending with a space. */
  predicate Normalized(s: string) {
    Collapsed(s) && (s == [] || (s[0] != ' ' && s[|s| - 1] != ' '))
  }

  /** `s.replace(/\s+/g, ' ')`: every maximal run of whitespace becomes one space. */
  function CollapseWhitespace(s: string): (r: string)
    ensures |r| <= |s|
    decreases |s|
  {
    if s == [] then []
    else if IsWhitespace(s[0]) then [' '] + CollapseWhitespace(TrimStart(s[1..]))
    else [s[0]] + CollapseWhitespace(s[1..])
  }

  lemma CollapseWhitespaceStart(s: string)
    ensures var r := CollapseWhitespace(s);
            && (r == [] <==> s == [])
            && (r != [] ==> (r[0] == ' ' <==> IsWhitespace(s[0])))
  {
  }

  /** Collapsing keeps every non-whitespace character, in order. */
  lemma {:induction false} CollapseWhitespaceKeepsText(s: string)
    ensures NonWhitespace(CollapseWhitespace(s)) == NonWhitespace(s)
    decreases |s|
  {
    if s != [] {
      var r := CollapseWhitespace(s);
      if IsWhitespace(s[0]) {
        var rest := TrimStart(s[1..]);
        CollapseWhitespaceKeepsText(rest);
        TrimStartRemovesOnlyWhitespace(s[1..]);
        assert r[1..] == CollapseWhitespace(rest);
        assert NonWhitespace(r) == NonWhitespace(r[1..]);
        assert NonWhitespace(s) == NonWhitespace(s[1..]);
      } else {
        CollapseWhitespaceKeepsText(s[1..]);
        assert r[1..] == CollapseWhitespace(s[1..]);
      }
    }
  }

  /** After collapsing, every whitespace character left is a space. */
  lemma {:induction false} CollapseLeavesOnlySpaces(s: string)
    ensures forall i :: 0 <= i < |CollapseWhitespace(s)| && IsWhitespace(CollapseWhitespace(s)[i]) ==> CollapseWhitespace(s)[i] == ' '
    decreases |s|
  {
    if s != [] {
      var rest := if IsWhitespace(s[0]) then TrimStart(s[1..]) else s[1..];
      var tail := CollapseWhitespace(rest);
      var r := CollapseWhitespace(s);
      CollapseLeavesOnlySpaces(rest);
      var head := if IsWhitespace(s[0]) then ' ' else s[0];
      assert r == [head] + tail;
      ConsOnlySpaces(head, tail);
    }
  }

  lemma ConsOnlySpaces(head: char, tail: string)
    requires IsWhitespace(head) ==> head == ' '
    requires forall j :: 0 <= j < |tail| && IsWhitespace(tail[j]) ==> tail[j] == ' '
    ensures forall i :: 0 <= i < |[head] + tail| && IsWhitespace(([head] + tail)[i]) ==> ([head] + tail)[i] == ' '
  {
    var r := [head] + tail;
    forall i | 0 <= i < |r| && IsWhitespace(r[i]) ensures r[i] == ' ' {
      if i > 0 {
        assert r[i] == tail[i - 1];
      }
    }
  }

  /** After collapsing, no two spaces stand side by side. */
  lemma {:induction false} CollapseLeavesNoDoubleSpace(s: string)
    ensures forall i :: 0 <= i < |CollapseWhitespace(s)| ==> !DoubleSpaceAt(CollapseWhitespace(s), i)
    decreases |s|
  {
    if s != [] {
      var rest := if IsWhitespace(s[0]) then TrimStart(s[1..]) else s[1..];
      var tail := CollapseWhitespace(rest);
      var r := CollapseWhitespace(s);
      CollapseLeavesNoDoubleSpace(rest);
      var head := if IsWhitespace(s[0]) then ' ' else s[0];
      assert r == [head] + tail;
      if head == ' ' {
        TrimStartShape(s[1..]);
        CollapseWhitespaceStart(rest);
      }
      ConsNoDoubleSpace(head, tail);
    }
  }

  lemma ConsNoDoubleSpace(head: char, tail: string)
    requires forall j :: 0 <= j < |tail| ==> !DoubleSpaceAt(tail, j)
    requires head == ' ' && tail != [] ==> tail[0] != ' '
    ensures forall i :: 0 <= i < |[head] + tail| ==> !DoubleSpaceAt([head] + tail, i)
  {
    var r := [head] + tail;
    forall i | 0 <= i < |r| ensures !DoubleSpaceAt(r, i) {
      if 0 < i && i + 1 < |r| {
        assert r[i] == tail[i - 1] && r[i + 1] == tail[i];
        assert !DoubleSpaceAt(tail, i - 1);
      }
    }
  }

  /** After collapsing, the only whitespace left is single spaces. */
  lemma CollapseWhitespaceIsCollapsed(s: string)
    ensures Collapsed(CollapseWhitespace(s))
  {
    CollapseLeavesOnlySpaces(s);
    CollapseLeavesNoDoubleSpace(s);
  }

  /** Trimming a collapsed string gives a normalized one. */
  lemma TrimCollapsedIsNormalized(c: string)
    requires Collapsed(c)
    ensures Normalized(Trim(c))
  {
    var t := Trim(c);
    TrimProperties(c);
    var a := |c| - |TrimStart(c)|;
    assert forall i :: 0 <= i < |t| ==> t[i] == c[a + i];
    forall i | 0 <= i < |t| ensures !DoubleSpaceAt(t, i) {
      if DoubleSpaceAt(t, i) {
        assert DoubleSpaceAt(c, a + i);
      }
    }
  }

  /** A collapsed string has no line breaks. */
  lemma CollapsedHasNoNewline(s: string)
    requires Collapsed(s)
    ensures '\n' !in s
  {
    assert forall i :: 0 <= i < |s| ==> s[i] != '\n';
  }

  /** A string that neither starts nor ends with whitespace is its own trim. */
  lemma TrimmedIsFixed(s: string)
    requires s == [] || (!IsWhitespace(s[0]) && !IsWhitespace(s[|s| - 1]))
    ensures Trim(s) == s
  {
    assert TrimStart(s) == s;
  }

  /** A non-empty string without whitespace. */
  predicate IsWord(s: string) {
    s != [] && forall i :: 0 <= i < |s| ==> !IsWhitespace(s[i])
  }

  /** `TrimStart` removes a whitespace prefix up to a character that is not whitespace. */
  lemma {:induction false} TrimStartPastWhitespace(w: string, b: string)
    requires forall i :: 0 <= i < |w| ==> IsWhitespace(w[i])
    requires b == [] || !IsWhitespace(b[0])
    ensures TrimStart(w + b) == b
  {
    if w == [] {
      assert w + b == b;
    } else {
      assert (w + b)[0] == w[0];
      assert (w + b)[1..] == w[1..] + b;
      TrimStartPastWhitespace(w[1..], b);
    }
  }

  /** Trimming the front of `a + b` stops inside `a` when `a` ends with a non-whitespace character. */
  lemma {:induction false} TrimStartAppend(a: string, b: string)
    requires a != [] && !IsWhitespace(a[|a| - 1])
    ensures TrimStart(a + b) == TrimStart(a) + b
    ensures TrimStart(a) != [] && TrimStart(a)[|TrimStart(a)| - 1] == a[|a| - 1]
  {
    assert (a + b)[0] == a[0];
    if IsWhitespace(a[0]) {
      assert (a + b)[1..] == a[1..] + b;
      TrimStartAppend(a[1..], b);
    }
  }

  /** Collapsing works piece by piece when the first piece does not end inside a whitespace run. */
  lemma {:induction false} CollapseAppend(a: string, b: string)
    requires a == [] || !IsWhitespace(a[|a| - 1])
    ensures CollapseWhitespace(a + b) == CollapseWhitespace(a) + CollapseWhitespace(b)
    decreases |a|
  {
    if a == [] {
      assert a + b == b;
    } else {
      assert (a + b)[0] == a[0];
      assert (a + b)[1..] == a[1..] + b;
      if IsWhitespace(a[0]) {
        var t := TrimStart(a[1..]);
        TrimStartAppend(a[1..], b);
        CollapseAppend(t, b);
      } else {
        CollapseAppend(a[1..], b);
      }
    }
  }

  /**
   * A whitespace run between two words becomes exactly one space: `a`, the non-empty run
   * `w`, then `b` collapse to `a` collapsed, one space, and `b` collapsed.
   */
  lemma CollapseSeparatesWords(a: string, w: string, b: string)
    requires a == [] || !IsWhitespace(a[|a| - 1])
    requires w != [] && forall i :: 0 <= i < |w| ==> IsWhitespace(w[i])
    requires b == [] || !IsWhitespace(b[0])
    ensures CollapseWhitespace(a + w + b) == CollapseWhitespace(a) + " " + CollapseWhitespace(b)
  {
    ConcatAssoc(a, w, b);
    CollapseAppend(a, w + b);
    CollapseRunThenWord(w, b);
    ConcatAssoc(CollapseWhitespace(a), " ", CollapseWhitespace(b));
  }

  lemma ConcatAssoc(x: string, y: string, z: string)
    ensures x + y + z == x + (y + z)
  {
  }

  /** A non-empty whitespace run in front of a non-whitespace start collapses to one space. */
  lemma CollapseRunThenWord(w: string, b: string)
    requires w != [] && forall i :: 0 <= i < |w| ==> IsWhitespace(w[i])
    requires b == [] || !IsWhitespace(b[0])
    ensures CollapseWhitespace(w + b) == " " + CollapseWhitespace(b)
  {
    var wb := w + b;
    assert wb[0] == w[0] && wb[1..] == w[1..] + b;
    assert TrimStart(wb[1..]) == b by {
      TrimStartPastWhitespace(w[1..], b);
    }
  }

  /** A string without whitespace collapses to itself. */
  lemma {:induction false} CollapseOfNoWhitespace(s: string)
    requires forall i :: 0 <= i < |s| ==> !IsWhitespace(s[i])
    ensures CollapseWhitespace(s) == s
  {
    if s != [] {
      CollapseOfNoWhitespace(s[1..]);
    }
  }

  /** Words joined by single spaces collapse to themselves and neither start nor end with whitespace. */
  lemma {:induction false} JoinWordsCollapse(words: seq<string>)
    requires forall k :: 0 <= k < |words| ==> IsWord(words[k])
    ensures CollapseWhitespace(Join(words, " ")) == Join(words, " ")
    ensures words != [] ==>
      var s := Join(words, " ");
      s != [] && !IsWhitespace(s[0]) && !IsWhitespace(s[|s| - 1])
  {
    if |words| == 1 {
      CollapseOfNoWhitespace(words[0]);
    } else if |words| >= 2 {
      var x := words[0];
      var j := Join(words[1..], " ");
      JoinWordsCollapse(words[1..]);
      CollapseOfNoWhitespace(x);
      CollapseSeparatesWords(x, " ", j);
      assert Join(words, " ") == x + " " + j;
      assert (x + " " + j)[0] == x[0];
      assert (x + " " + j)[|x + " " + j| - 1] == j[|j| - 1];
    }
  }

  /** `pat` occurs in `s` starting at index `i`. */
  predicate OccursAt(s: string, pat: string, i: int) {
    0 <= i && i + |pat| <= |s| && s[i..i + |pat|] == pat
  }

  function IndexOfFrom(s: string, pat: string, from: nat): (r: int)
    requires from <= |s|
    ensures r == -1 || (from <= r && OccursAt(s, pat, r))
    ensures forall j :: from <= j && (r == -1 || j < r) ==> !OccursAt(s, pat, j)
    decreases |s| - from
  {
    if OccursAt(s, pat, from) then from
    else if from == |s| then -1
    else IndexOfFrom(s, pat, from + 1)
  }

  /** `s.indexOf(pat)`: the first index where `pat` occurs, or -1. */
  function IndexOf(s: string, pat: string): (r: int)
    ensures r == -1 || OccursAt(s, pat, r)
    ensures forall j :: (r == -1 || j < r) ==> !OccursAt(s, pat, j)
  {
    IndexOfFrom(s, pat, 0)
  }

  /** `pat` occurs in `s` at `from` or later. */
  predicate ContainsFrom(s: string, pat: string, from: nat)
    requires from <= |s|
    decreases |s| - from
  {
    OccursAt(s, pat, from) || (from < |s| && ContainsFrom(s, pat, from + 1))
  }

  /** `s.includes(pat)`. */
  predicate Contains(s: string, pat: string) {
    ContainsFrom(s, pat, 0)
  }

  lemma {:induction false} ContainsFromMeans(s: string, pat: string, from: nat)
    requires from <= |s|
    ensures ContainsFrom(s, pat, from) <==> IndexOfFrom(s, pat, from) >= 0
    decreases |s| - from
  {
    if !OccursAt(s, pat, from) && from < |s| {
      ContainsFromMeans(s, pat, from + 1);
    }
  }

  /** `includes` agrees with `indexOf`: the pattern is contained exactly when it has a first index. */
  lemma ContainsMeans(s: string, pat: string)
    ensures Contains(s, pat) <==> IndexOf(s, pat) >= 0
  {
    ContainsFromMeans(s, pat, 0);
  }

  /** `s.replace(pat, rep)` with a string pattern: only the first occurrence is replaced. */
  function ReplaceFirst(s: string, pat: string, rep: string): (r: string)
    ensures IndexOf(s, pat) == -1 ==> r == s
    ensures IndexOf(s, pat) >= 0 ==>
      var i := IndexOf(s, pat);
      r == s[..i] + rep + s[i + |pat|..]
  {
    var i := IndexOf(s, pat);
    if i < 0 then s else s[..i] + rep + s[i + |pat|..]
  }

  /** `s.replace(/c/g, d)`: every `c` becomes `d`. */
  function ReplaceChar(s: string, c: char, d: char): (r: string)
    ensures |r| == |s|
    ensures forall i :: 0 <= i < |s| ==> r[i] == (if s[i] == c then d else s[i])
  {
    seq(|s|, i requires 0 <= i < |s| => if s[i] == c then d else s[i])
  }

  /** The first index of `c` in `s`, or `|s|` when there is none. */
  function FindChar(s: string, c: char): (r: nat)
    ensures r <= |s|
    ensures r < |s| ==> s[r] == c
    ensures forall j :: 0 <= j < r ==> s[j] != c
  {
    if s == [] then 0
    else if s[0] == c then 0
    else 1 + FindChar(s[1..], c)
  }

  /** `s.split(c)` for a one-character separator: always at least one piece. */
  function Split(s: string, c: char): (r: seq<string>)
    ensures |r| >= 1
    decreases |s|
  {
    var i := FindChar(s, c);
    if i == |s| then [s] else [s[..i]] + Split(s[i + 1..], c)
  }

  /** No piece of a split contains the separator. */
  lemma {:induction false} SplitPiecesLackSeparator(s: string, c: char)
    ensures forall k :: 0 <= k < |Split(s, c)| ==> c !in Split(s, c)[k]
    decreases |s|
  {
    var i := FindChar(s, c);
    if i < |s| {
      SplitPiecesLackSeparator(s[i + 1..], c);
      assert forall j :: 0 <= j < i ==> s[..i][j] != c;
    } else {
      assert forall j :: 0 <= j < |s| ==> s[j] != c;
    }
  }

  /** `xs.join(sep)`. */
  function Join(xs: seq<string>, sep: string): string {
    if |xs| == 0 then ""
    else if |xs| == 1 then xs[0]
    else xs[0] + sep + Join(xs[1..], sep)
  }

  /** Where piece `i` starts in `Join(xs, sep)`: every earlier piece, each followed by `sep`. */
  function JoinOffset(xs: seq<string>, sep: string, i: nat): nat
    requires i <= |xs|
  {
    if i == 0 then 0 else JoinOffset(xs, sep, i - 1) + |xs[i - 1]| + |sep|
  }

  /** A slice past the front `p` of `p + q` is a slice of `q`. */
  lemma SliceAfter(p: string, q: string, a: nat, b: nat)
    requires a <= b <= |q|
    ensures (p + q)[|p| + a..|p| + b] == q[a..b]
  {
  }

  /** Dropping the front `h` of a suffix `h + r` of `s` leaves `r`. */
  lemma SuffixAfter(s: string, a: nat, h: string, r: string)
    requires a <= |s| && s[a..] == h + r
    ensures a + |h| <= |s| && s[a + |h|..] == r
  {
    assert s[a + |h|..] == (h + r)[|h|..];
  }

  /** A slice of a suffix `t` of `s` is a slice of `s`, shifted. */
  lemma SliceWithinSuffix(s: string, a: nat, t: string, b: nat, c: nat)
    requires a <= |s| && s[a..] == t && b <= c <= |t|
    ensures a + c <= |s| && s[a + b..a + c] == t[b..c]
  {
    assert forall k :: 0 <= k < c - b ==> s[a + b..a + c][k] == t[b..c][k];
  }

  /** A join of two or more pieces is the first piece, `sep`, then the join of the rest. */
  lemma JoinUnfold(xs: seq<string>, sep: string)
    requires |xs| > 1
    ensures Join(xs, sep) == (xs[0] + sep) + Join(xs[1..], sep)
  {
  }

  /** The first piece of a join opens it, followed by `sep` when more pieces come. */
  lemma JoinPlacesFirst(xs: seq<string>, sep: string)
    requires |xs| > 0
    ensures |xs[0]| <= |Join(xs, sep)| && Join(xs, sep)[..|xs[0]|] == xs[0]
    ensures |xs| > 1 ==> |xs[0]| + |sep| <= |Join(xs, sep)| && Join(xs, sep)[|xs[0]|..|xs[0]| + |sep|] == sep
    ensures |xs| == 1 ==> |Join(xs, sep)| == |xs[0]|
  {
    if |xs| > 1 {
      var rest := Join(xs[1..], sep);
      JoinUnfold(xs, sep);
      SliceAfter(xs[0], sep + rest, 0, |sep|);
      assert (sep + rest)[0..|sep|] == sep;
      assert (xs[0] + (sep + rest))[..|xs[0]|] == xs[0];
      ConcatAssoc(xs[0], sep, rest);
    }
  }

  /** From the offset of piece `i` on, a join reads as the join of the pieces from `i`. */
  lemma {:induction false} JoinSuffix(xs: seq<string>, sep: string, i: nat)
    requires i < |xs|
    ensures JoinOffset(xs, sep, i) <= |Join(xs, sep)| && Join(xs, sep)[JoinOffset(xs, sep, i)..] == Join(xs[i..], sep)
    decreases i
  {
    if i > 0 {
      JoinSuffix(xs, sep, i - 1);
      var from := xs[i - 1..];
      assert from[0] == xs[i - 1] && from[1..] == xs[i..];
      assert Join(from, sep) == (xs[i - 1] + sep) + Join(xs[i..], sep) by { JoinUnfold(from, sep); }
      SuffixAfter(Join(xs, sep), JoinOffset(xs, sep, i - 1), xs[i - 1] + sep, Join(xs[i..], sep));
    }
  }

  /**
   * Piece `i` of a join sits whole at `JoinOffset(xs, sep, i)`, followed by `sep` when a piece
   * comes after it; the last piece ends the joined string.
   */
  lemma JoinPlaces(xs: seq<string>, sep: string, i: nat)
    requires i < |xs|
    ensures JoinOffset(xs, sep, i) + |xs[i]| <= |Join(xs, sep)|
    ensures Join(xs, sep)[JoinOffset(xs, sep, i)..JoinOffset(xs, sep, i) + |xs[i]|] == xs[i]
    ensures i + 1 < |xs| ==>
              JoinOffset(xs, sep, i + 1) <= |Join(xs, sep)| &&
              Join(xs, sep)[JoinOffset(xs, sep, i) + |xs[i]|..JoinOffset(xs, sep, i + 1)] == sep
    ensures i + 1 == |xs| ==> JoinOffset(xs, sep, i) + |xs[i]| == |Join(xs, sep)|
  {
    var j := Join(xs, sep);
    var off := JoinOffset(xs, sep, i);
    var t := Join(xs[i..], sep);
    var x := xs[i];
    JoinSuffix(xs, sep, i);
    assert xs[i..][0] == x;
    JoinPlacesFirst(xs[i..], sep);
    SliceWithinSuffix(j, off, t, 0, |x|);
    if i + 1 < |xs| {
      SliceWithinSuffix(j, off, t, |x|, |x| + |sep|);
    }
  }

  /** Piece `i` of a join `j`, under other names for the piece and its offset. */
  lemma JoinPieceAt(j: string, xs: seq<string>, sep: string, i: nat, x: string, off: nat)
    requires j == Join(xs, sep) && i < |xs| && x == xs[i] && off == JoinOffset(xs, sep, i)
    ensures off + |x| <= |j| && j[off..off + |x|] == x
  {
    JoinPlaces(xs, sep, i);
  }

  /** What follows piece `i` of a join `j`, under other names for the piece and the offsets. */
  lemma JoinAfterPieceAt(j: string, xs: seq<string>, sep: string, i: nat, x: string, off: nat, next: nat)
    requires j == Join(xs, sep) && i < |xs| && x == xs[i] && off == JoinOffset(xs, sep, i)
    requires i + 1 < |xs| ==> next == JoinOffset(xs, sep, i + 1)
    ensures i + 1 < |xs| ==> off + |x| <= next <= |j| && j[off + |x|..next] == sep
    ensures i + 1 == |xs| ==> off + |x| == |j|
  {
    JoinPlaces(xs, sep, i);
  }

  /** Splitting on `c` and joining with `c` gives the string back. */
  lemma {:induction false} JoinSplit(s: string, c: char)
    ensures Join(Split(s, c), [c]) == s
    decreases |s|
  {
    var i := FindChar(s, c);
    if i < |s| {
      var rest := Split(s[i + 1..], c);
      var pieces := [s[..i]] + rest;
      assert Split(s, c) == pieces;
      assert pieces[0] == s[..i] && pieces[1..] == rest && |pieces| >= 2;
      calc {
        Join(pieces, [c]);
        s[..i] + [c] + Join(rest, [c]);
        { JoinSplit(s[i + 1..], c); }
        s[..i] + [c] + s[i + 1..];
        { assert s == s[..i] + [c] + s[i + 1..]; }
        s;
      }
    }
  }

  /** A string without `c` splits into itself alone. */
  lemma SplitWithoutSeparator(s: string, c: char)
    requires c !in s
    ensures Split(s, c) == [s]
  {
    assert forall j :: 0 <= j < |s| ==> s[j] != c;
  }

  /** `s.slice(0, n) + '...'` when `s` is longer than `n`, otherwise `s`. */
  function Ellipsize(s: string, n: nat): (r: string)
    ensures |s| <= n ==> r == s
    ensures |s| > n ==> |r| == n + 3 && r[..n] == s[..n] && r[n..] == "..."
  {
    if |s| <= n then s else s[..n] + "..."
  }

  function DigitChar(d: nat): (c: char)
    requires d < 10
    ensures '0' <= c <= '9'
  {
    "0123456789"[d]
  }

  /** The decimal text of `n`, as a JavaScript template literal prints a non-negative integer. */
  function NatToString(n: nat): (r: string)
    ensures r != [] && forall i :: 0 <= i < |r| ==> '0' <= r[i] <= '9'
    ensures r[0] == '0' ==> n == 0
  {
    if n < 10 then [DigitChar(n)] else NatToString(n / 10) + [DigitChar(n % 10)]
  }

  /** The value of a string of decimal digits. */
  function DigitsValue(s: string): nat
    requires forall i :: 0 <= i < |s| ==> '0' <= s[i] <= '9'
  {
    if s == [] then 0 else 10 * DigitsValue(s[..|s| - 1]) + (s[|s| - 1] as int - '0' as int)
  }

  /** Reading back the decimal text of a page number gives the page number. */
  lemma {:induction false} NatToStringRoundTrip(n: nat)
    ensures DigitsValue(NatToString(n)) == n
  {
    if n >= 10 {
      NatToStringRoundTrip(n / 10);
      var r := NatToString(n);
      assert r[..|r| - 1] == NatToString(n / 10);
    }
  }

  function ToLowerChar(c: char): char {
    if 'A' <= c <= 'Z' then (c as int + 32) as char else c
  }

  /** `s.toLowerCase()` restricted to ASCII letters. */
  function ToLowerAscii(s: string): (r: string)
    ensures |r| == |s|
    ensures forall i :: 0 <= i < |s| ==> r[i] == ToLowerChar(s[i])
  {
    seq(|s|, i requires 0 <= i < |s| => ToLowerChar(s[i]))
  }
}
