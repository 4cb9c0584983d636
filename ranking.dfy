/**
 * Scoring and ranking in `retrieveRelevantDocuments`: cosine similarity with its
 * zero-denominator guard, the stable descending sort of `Array.prototype.sort` with the
 * comparator `b.similarity - a.similarity`, and `slice(0, k)`.
 *
 * Scores are exact reals; `Math.sqrt` is a parameter.
 */
module Ranking {
  import opened Documents

  /** The sum of `a[i] * b[i]` over the first `n` components. */
  function Dot(a: Vector, b: Vector, n: nat): real
    requires n <= |a| && n <= |b|
  {
    if n == 0 then 0.0 else Dot(a, b, n - 1) + a[n - 1] * b[n - 1]
  }

  lemma {:induction false} DotSymmetric(a: Vector, b: Vector, n: nat)
    requires n <= |a| && n <= |b|
    ensures Dot(a, b, n) == Dot(b, a, n)
  {
    if n > 0 {
      DotSymmetric(a, b, n - 1);
    }
  }

  /** An all-zero vector has squared norm 0. */
  lemma {:induction false} SquaredNormOfZeros(a: Vector, n: nat)
    requires n <= |a| && forall i :: 0 <= i < n ==> a[i] == 0.0
    ensures Dot(a, a, n) == 0.0
  {
    if n > 0 {
      SquaredNormOfZeros(a, n - 1);
      assert a[n - 1] * a[n - 1] == 0.0 * 0.0;
    }
  }

  /** `Math.sqrt` behaves as the non-negative square root. */
  ghost predicate IsSquareRoot(sqrt: real -> real) {
    && sqrt(0.0) == 0.0
    && forall x :: x > 0.0 ==> sqrt(x) > 0.0 && sqrt(x) * sqrt(x) == x
  }

  /**
   * What `cosineSimilarity(vecA, vecB)` computes: both sums run over the indexes of `vecA`,
   * and a zero denominator gives 0 instead of a division.
   */
  function Cosine(a: Vector, b: Vector, sqrt: real -> real): real
    requires |a| <= |b|
  {
    var denominator := sqrt(Dot(a, a, |a|)) * sqrt(Dot(b, b, |a|));
    if denominator == 0.0 then 0.0 else Dot(a, b, |a|) / denominator
  }

  /** `cosineSimilarity`: one loop accumulating the dot product and both squared norms. */
  method CosineSimilarity(vecA: Vector, vecB: Vector, sqrt: real -> real) returns (similarity: real)
    requires |vecA| <= |vecB|
    ensures similarity == Cosine(vecA, vecB, sqrt)
  {
    var dotProduct := 0.0;
    var normA := 0.0;
    var normB := 0.0;
    for i := 0 to |vecA|
      invariant dotProduct == Dot(vecA, vecB, i)
      invariant normA == Dot(vecA, vecA, i)
      invariant normB == Dot(vecB, vecB, i)
    {
      dotProduct := dotProduct + vecA[i] * vecB[i];
      normA := normA + vecA[i] * vecA[i];
      normB := normB + vecB[i] * vecB[i];
    }
    var denominator := sqrt(normA) * sqrt(normB);
    similarity := if denominator == 0.0 then 0.0 else dotProduct / denominator;
  }

  /** The zero-norm guard: if either vector is all zeros over the compared indexes, the similarity is 0. */
  lemma CosineOfZeroVector(a: Vector, b: Vector, sqrt: real -> real)
    requires |a| <= |b| && IsSquareRoot(sqrt)
    requires (forall i :: 0 <= i < |a| ==> a[i] == 0.0) || (forall i :: 0 <= i < |a| ==> b[i] == 0.0)
    ensures Cosine(a, b, sqrt) == 0.0
  {
    if forall i :: 0 <= i < |a| ==> a[i] == 0.0 {
      SquaredNormOfZeros(a, |a|);
    } else {
      SquaredNormOfZeros(b, |a|);
    }
    var na := sqrt(Dot(a, a, |a|));
    var nb := sqrt(Dot(b, b, |a|));
    assert na == 0.0 || nb == 0.0;
    assert na * nb == 0.0 by {
      if na == 0.0 {
        assert na * nb == 0.0 * nb;
      } else {
        assert na * nb == na * 0.0;
      }
    }
  }

  /** A vector of non-zero norm has similarity exactly 1 with itself. */
  lemma CosineWithItself(a: Vector, sqrt: real -> real)
    requires IsSquareRoot(sqrt)
    requires Dot(a, a, |a|) > 0.0
    ensures Cosine(a, a, sqrt) == 1.0
  {
    var n := Dot(a, a, |a|);
    assert sqrt(n) * sqrt(n) == n;
    DivideBySelf(n);
  }

  lemma DivideBySelf(n: real)
    requires n != 0.0
    ensures n / n == 1.0
  {
  }

  /** Over vectors of equal length the similarity does not depend on the argument order. */
  lemma CosineSymmetric(a: Vector, b: Vector, sqrt: real -> real)
    requires |a| == |b|
    ensures Cosine(a, b, sqrt) == Cosine(b, a, sqrt)
  {
    DotSymmetric(a, b, |a|);
    var na := sqrt(Dot(a, a, |a|));
    var nb := sqrt(Dot(b, b, |a|));
    assert na * nb == nb * na;
  }

  /** Every stored entry paired with its similarity to the query, in store iteration order. */
  function ScoreAll(entries: seq<StoredChunk>, query: Vector, sqrt: real -> real): seq<ScoredChunk>
    requires forall e :: e in entries ==> |query| <= |e.embedding|
  {
    seq(|entries|, i requires 0 <= i < |entries| => ScoredChunk(entries[i], Cosine(query, entries[i].embedding, sqrt)))
  }

  /** Similarity never increases along `s`. */
  predicate SortedDesc(s: seq<ScoredChunk>) {
    forall i, j :: 0 <= i < j < |s| ==> s[i].similarity >= s[j].similarity
  }

  /** Puts `x` after every element of the descending `s` whose similarity is at least its own. */
  function Insert(x: ScoredChunk, s: seq<ScoredChunk>): seq<ScoredChunk> {
    if s == [] then [x]
    else if s[0].similarity >= x.similarity then [s[0]] + Insert(x, s[1..])
    else [x] + s
  }

  /**
   * `scored.sort((a, b) => b.similarity - a.similarity)`: a stable sort into descending
   * similarity, built by inserting the elements in their original order.
   */
  function SortDesc(xs: seq<ScoredChunk>): seq<ScoredChunk> {
    if xs == [] then [] else Insert(xs[|xs| - 1], SortDesc(xs[..|xs| - 1]))
  }

  lemma {:induction false} InsertPermutes(x: ScoredChunk, s: seq<ScoredChunk>)
    ensures multiset(Insert(x, s)) == multiset(s) + multiset{x}
  {
    if s == [] {
      assert Insert(x, s) == [x];
    } else if s[0].similarity >= x.similarity {
      InsertPermutes(x, s[1..]);
      assert Insert(x, s) == [s[0]] + Insert(x, s[1..]);
      assert multiset(s) == multiset{s[0]} + multiset(s[1..]) by {
        assert s == [s[0]] + s[1..];
      }
    } else {
      assert Insert(x, s) == [x] + s;
    }
  }

  /** Inserting adds `x` and keeps every element of `s`, nothing else. */
  lemma {:induction false} InsertMembers(x: ScoredChunk, s: seq<ScoredChunk>)
    ensures forall e :: e in Insert(x, s) <==> e == x || e in s
  {
    if s != [] && s[0].similarity >= x.similarity {
      InsertMembers(x, s[1..]);
      assert s == [s[0]] + s[1..];
    }
  }

  lemma InTail(s: seq<ScoredChunk>, e: ScoredChunk) returns (i: nat)
    requires s != [] && e in s[1..]
    ensures 0 < i < |s| && s[i] == e
  {
    var j :| 0 <= j < |s[1..]| && s[1..][j] == e;
    i := j + 1;
  }

  lemma {:induction false} InsertSorted(x: ScoredChunk, s: seq<ScoredChunk>)
    requires SortedDesc(s)
    ensures SortedDesc(Insert(x, s))
  {
    if s != [] && s[0].similarity >= x.similarity {
      var rest := Insert(x, s[1..]);
      SortedDescTail(s);
      InsertSorted(x, s[1..]);
      InsertMembers(x, s[1..]);
      var r := [s[0]] + rest;
      forall j | 0 < j < |r| ensures r[0].similarity >= r[j].similarity {
        assert r[j] == rest[j - 1];
        if r[j] != x {
          var i := InTail(s, r[j]);
        }
      }
    }
  }

  /** The sort returns the scored entries rearranged: nothing added, nothing lost. */
  lemma {:induction false} SortDescPermutes(xs: seq<ScoredChunk>)
    ensures multiset(SortDesc(xs)) == multiset(xs)
  {
    if xs != [] {
      var m := |xs| - 1;
      var front := xs[..m];
      calc {
        multiset(SortDesc(xs));
        multiset(Insert(xs[m], SortDesc(front)));
        { InsertPermutes(xs[m], SortDesc(front)); }
        multiset(SortDesc(front)) + multiset{xs[m]};
        { SortDescPermutes(front); }
        multiset(front) + multiset{xs[m]};
        multiset(front + [xs[m]]);
        { assert front + [xs[m]] == xs; }
        multiset(xs);
      }
    }
  }

  /** The sort returns entries in non-increasing similarity. */
  lemma {:induction false} SortDescSorted(xs: seq<ScoredChunk>)
    ensures SortedDesc(SortDesc(xs))
  {
    if xs != [] {
      var m := |xs| - 1;
      SortDescSorted(xs[..m]);
      InsertSorted(xs[m], SortDesc(xs[..m]));
    }
  }

  /** The entries of `s` that scored exactly `v`, in their order in `s`. */
  function Ties(s: seq<ScoredChunk>, v: real): seq<ScoredChunk> {
    if s == [] then []
    else (if s[0].similarity == v then [s[0]] else []) + Ties(s[1..], v)
  }

  lemma {:induction false} TiesAppend(a: seq<ScoredChunk>, b: seq<ScoredChunk>, v: real)
    ensures Ties(a + b, v) == Ties(a, v) + Ties(b, v)
  {
    if a != [] {
      assert (a + b)[1..] == a[1..] + b;
      TiesAppend(a[1..], b, v);
    } else {
      assert a + b == b;
    }
  }

  lemma {:induction false} TiesBelow(s: seq<ScoredChunk>, v: real)
    requires forall i :: 0 <= i < |s| ==> s[i].similarity < v
    ensures Ties(s, v) == []
  {
    if s != [] {
      TiesBelow(s[1..], v);
    }
  }

  lemma SortedDescTail(s: seq<ScoredChunk>)
    requires s != [] && SortedDesc(s)
    ensures SortedDesc(s[1..])
  {
    assert forall i :: 0 <= i < |s| - 1 ==> s[1..][i] == s[i + 1];
  }

  lemma TiesCons(y: ScoredChunk, s: seq<ScoredChunk>, v: real)
    ensures Ties([y] + s, v) == (if y.similarity == v then [y] else []) + Ties(s, v)
  {
    assert ([y] + s)[0] == y && ([y] + s)[1..] == s;
  }

  lemma {:induction false} InsertTies(x: ScoredChunk, s: seq<ScoredChunk>, v: real)
    requires SortedDesc(s)
    ensures Ties(Insert(x, s), v) == Ties(s, v) + (if x.similarity == v then [x] else [])
  {
    if s == [] {
      TiesCons(x, [], v);
    } else if s[0].similarity >= x.similarity {
      SortedDescTail(s);
      InsertTies(x, s[1..], v);
      InsertBehindTies(x, s, v);
    } else {
      InsertInFrontTies(x, s, v);
    }
  }

  /** When `x` goes behind the head of `s`, the head's tie comes before the ties of the rest. */
  lemma InsertBehindTies(x: ScoredChunk, s: seq<ScoredChunk>, v: real)
    requires s != [] && s[0].similarity >= x.similarity
    requires Ties(Insert(x, s[1..]), v) == Ties(s[1..], v) + (if x.similarity == v then [x] else [])
    ensures Ties(Insert(x, s), v) == Ties(s, v) + (if x.similarity == v then [x] else [])
  {
    var head := if s[0].similarity == v then [s[0]] else [];
    var tail := if x.similarity == v then [x] else [];
    assert Insert(x, s) == [s[0]] + Insert(x, s[1..]);
    TiesCons(s[0], Insert(x, s[1..]), v);
    TiesCons(s[0], s[1..], v);
    assert [s[0]] + s[1..] == s;
    assert head + (Ties(s[1..], v) + tail) == (head + Ties(s[1..], v)) + tail;
  }

  /** When `x` goes in front of the descending `s`, any tie of `x` is below every element of `s`. */
  lemma InsertInFrontTies(x: ScoredChunk, s: seq<ScoredChunk>, v: real)
    requires SortedDesc(s) && s != [] && s[0].similarity < x.similarity
    ensures Ties(Insert(x, s), v) == Ties(s, v) + (if x.similarity == v then [x] else [])
  {
    assert Insert(x, s) == [x] + s;
    TiesCons(x, s, v);
    if x.similarity == v {
      TiesBelow(s, v);
    }
  }

  /** The sort is stable: for every score, the entries with that score keep their input order. */
  lemma {:induction false} SortDescStable(xs: seq<ScoredChunk>, v: real)
    ensures Ties(SortDesc(xs), v) == Ties(xs, v)
  {
    if xs != [] {
      var m := |xs| - 1;
      var front := xs[..m];
      calc {
        Ties(SortDesc(xs), v);
        Ties(Insert(xs[m], SortDesc(front)), v);
        { SortDescSorted(front); InsertTies(xs[m], SortDesc(front), v); }
        Ties(SortDesc(front), v) + (if xs[m].similarity == v then [xs[m]] else []);
        { SortDescStable(front, v); }
        Ties(front, v) + (if xs[m].similarity == v then [xs[m]] else []);
        { TiesCons(xs[m], [], v); }
        Ties(front, v) + Ties([xs[m]], v);
        { TiesAppend(front, [xs[m]], v); }
        Ties(front + [xs[m]], v);
        { assert front + [xs[m]] == xs; }
        Ties(xs, v);
      }
    }
  }

  /** Store ids strictly increase along `s`. */
  predicate IdsIncreasing(s: seq<ScoredChunk>) {
    forall i, j :: 0 <= i < j < |s| ==> s[i].entry.id < s[j].entry.id
  }

  /** `h` ranks before `e`: a higher score, or the same score and a lower id. */
  predicate RanksBefore(h: ScoredChunk, e: ScoredChunk) {
    h.similarity > e.similarity || (h.similarity == e.similarity && h.entry.id < e.entry.id)
  }

  /** Descending similarity, and ascending id among equal similarities. */
  predicate RankedOrder(s: seq<ScoredChunk>) {
    forall i, j :: 0 <= i < j < |s| ==> RanksBefore(s[i], s[j])
  }

  lemma RankedCons(h: ScoredChunk, rest: seq<ScoredChunk>)
    requires RankedOrder(rest)
    requires forall e :: e in rest ==> RanksBefore(h, e)
    ensures RankedOrder([h] + rest)
  {
    var r := [h] + rest;
    forall i, j | 0 <= i < j < |r| ensures RanksBefore(r[i], r[j]) {
      assert r[j] == rest[j - 1];
      if i > 0 {
        assert r[i] == rest[i - 1];
      }
    }
  }

  lemma {:induction false} InsertRanked(x: ScoredChunk, s: seq<ScoredChunk>)
    requires RankedOrder(s)
    requires forall e :: e in s ==> e.entry.id < x.entry.id
    ensures RankedOrder(Insert(x, s))
  {
    if s == [] {
      assert Insert(x, s) == [x];
    } else if s[0].similarity >= x.similarity {
      var rest := Insert(x, s[1..]);
      assert RankedOrder(s[1..]) by {
        assert forall i :: 0 <= i < |s| - 1 ==> s[1..][i] == s[i + 1];
      }
      InsertRanked(x, s[1..]);
      InsertMembers(x, s[1..]);
      forall e | e in rest ensures RanksBefore(s[0], e) {
        if e != x {
          var i := InTail(s, e);
        }
      }
      assert Insert(x, s) == [s[0]] + rest;
      RankedCons(s[0], rest);
    } else {
      forall e | e in s ensures RanksBefore(x, e) {
        var i :| 0 <= i < |s| && s[i] == e;
      }
      assert Insert(x, s) == [x] + s;
      RankedCons(x, s);
    }
  }

  /** When the input comes in increasing id order, ties end up in increasing id order. */
  lemma {:induction false} SortDescRanked(xs: seq<ScoredChunk>)
    requires IdsIncreasing(xs)
    ensures RankedOrder(SortDesc(xs))
  {
    if xs != [] {
      var m := |xs| - 1;
      var front := xs[..m];
      SortDescRanked(front);
      SortDescPermutes(front);
      forall e | e in SortDesc(front) ensures e.entry.id < xs[m].entry.id {
        assert e in multiset(front);
      }
      InsertRanked(xs[m], SortDesc(front));
    }
  }

  /** The end index of `slice(0, k)` on a list of length `n`: a negative `k` counts from the end. */
  function SliceEnd(n: nat, k: int): (e: nat)
    ensures e <= n
    ensures k >= 0 ==> e == (if k < n then k else n)
    ensures k < 0 ==> e == (if n + k > 0 then n + k else 0)
  {
    if k < 0 then (if n + k > 0 then n + k else 0) else if k < n then k else n
  }

  /** `retrieveRelevantDocuments`' ranking step: sort, then `slice(0, k)`. */
  function Rank(scored: seq<ScoredChunk>, k: int): seq<ScoredChunk> {
    var sorted := SortDesc(scored);
    sorted[..SliceEnd(|sorted|, k)]
  }

  /**
   * The ranking returns `min(k, n)` entries for `k >= 0`, drawn from the scored entries,
   * in non-increasing similarity, and no lower than any entry it leaves out.
   */
  lemma RankIsTopK(scored: seq<ScoredChunk>, k: int)
    ensures var r := Rank(scored, k);
            && (k >= 0 ==> |r| == (if k < |scored| then k else |scored|))
            && multiset(r) <= multiset(scored)
            && SortedDesc(r)
            && (forall x, y :: x in multiset(scored) - multiset(r) && y in r ==> y.similarity >= x.similarity)
  {
    var sorted := SortDesc(scored);
    var e := SliceEnd(|sorted|, k);
    var r := sorted[..e];
    var rest := sorted[e..];
    SortDescPermutes(scored);
    SortDescSorted(scored);
    SortedSplit(sorted, e);
    LeftOutIsRest(scored, sorted, e);
    forall x, y | x in multiset(scored) - multiset(r) && y in r ensures y.similarity >= x.similarity {
      assert x in rest;
    }
  }

  /** What a prefix of a rearrangement leaves out is the rest of the rearrangement. */
  lemma LeftOutIsRest(scored: seq<ScoredChunk>, sorted: seq<ScoredChunk>, e: nat)
    requires multiset(sorted) == multiset(scored) && e <= |sorted|
    ensures multiset(sorted[..e]) <= multiset(scored)
    ensures multiset(scored) - multiset(sorted[..e]) == multiset(sorted[e..])
  {
    assert sorted == sorted[..e] + sorted[e..];
  }

  /** Cutting a descending sequence: the front is descending and no lower than anything after the cut. */
  lemma SortedSplit(sorted: seq<ScoredChunk>, e: nat)
    requires SortedDesc(sorted) && e <= |sorted|
    ensures SortedDesc(sorted[..e])
    ensures forall x, y :: x in sorted[e..] && y in sorted[..e] ==> y.similarity >= x.similarity
  {
    forall x, y | x in sorted[e..] && y in sorted[..e] ensures y.similarity >= x.similarity {
      var i :| 0 <= i < e && sorted[..e][i] == y;
      var j :| 0 <= j < |sorted| - e && sorted[e..][j] == x;
      assert sorted[i] == y && sorted[e + j] == x;
    }
  }

  /** Among equal scores the ranking keeps the input order: the ties it returns are the first ties of the input. */
  lemma RankKeepsTieOrder(scored: seq<ScoredChunk>, k: int, v: real)
    ensures Ties(Rank(scored, k), v) <= Ties(scored, v)
  {
    var sorted := SortDesc(scored);
    var e := SliceEnd(|sorted|, k);
    assert sorted == sorted[..e] + sorted[e..];
    SortDescStable(scored, v);
    TiesAppend(sorted[..e], sorted[e..], v);
  }

  /** Entries scored in increasing id order come out ranked by similarity, then by id. */
  lemma RankTieBreakById(scored: seq<ScoredChunk>, k: int)
    requires IdsIncreasing(scored)
    ensures RankedOrder(Rank(scored, k))
  {
    SortDescRanked(scored);
  }

  /** Everything the ranking promises about one call, for entries scored in increasing id order. */
  lemma RankFacts(scored: seq<ScoredChunk>, k: int)
    requires IdsIncreasing(scored)
    ensures var r := Rank(scored, k);
            && (k >= 0 ==> |r| == (if k < |scored| then k else |scored|))
            && multiset(r) <= multiset(scored)
            && SortedDesc(r)
            && (forall x, y :: x in multiset(scored) - multiset(r) && y in r ==> y.similarity >= x.similarity)
            && (forall v :: Ties(r, v) <= Ties(scored, v))
            && RankedOrder(r)
  {
    RankIsTopK(scored, k);
    forall v ensures Ties(Rank(scored, k), v) <= Ties(scored, v) {
      RankKeepsTieOrder(scored, k, v);
    }
    RankTieBreakById(scored, k);
  }
}
