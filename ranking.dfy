/**
 * Hybrid re-ranking of the candidates returned by the vector index: each candidate is
 * enriched with its keyword score and `hybrid_score = distance - keyword_score`, the
 * list is sorted ascending by hybrid score with a stable sort (equal scores keep the
 * order the index returned), and the sorted list is cut with `slice(0, k ?? 8)`.
 */
module Ranking {
  import opened Wrappers
  import opened Sequences
  import opened QueryText
  import opened KeywordScoring

  /** A row of the vector index's `match_chunks` answer. */
  datatype Candidate = Candidate(
    chunkId: string,
    content: string,
    heading: Option<string>,
    documentTitle: string,
    pageStart: int,
    pageEnd: int,
    distance: real)

  /** A candidate with the two scores the route adds to it (lower `hybridScore` is better). */
  datatype Ranked = Ranked(chunk: Candidate, keywordScore: real, hybridScore: real)

  /** Candidates asked of the vector index when the request gives no `k`. */
  const DefaultMatchCount: int := 20

  /** Results returned when the request gives no `k`. */
  const DefaultResultLimit: int := 8

  /** `k ?? 20`: the request's `k` when present, otherwise the default. */
  function MatchCount(k: Option<int>): (n: int)
    ensures k.Some? ==> n == k.value
    ensures k.None? ==> n == DefaultMatchCount
  {
    match k
    case Some(n) => n
    case None => DefaultMatchCount
  }

  /** `k ?? 8`: the request's `k` when present, otherwise the default. */
  function ResultLimit(k: Option<int>): (n: int)
    ensures k.Some? ==> n == k.value
    ensures k.None? ==> n == DefaultResultLimit
  {
    match k
    case Some(n) => n
    case None => DefaultResultLimit
  }

  /**
   * How many leading elements `slice(0, end)` keeps from a list of length `len`:
   * a non-negative `end` is capped at `len`, a negative one counts back from the end.
   */
  function SliceEnd(len: nat, end: int): (n: nat)
    ensures n <= len
  {
    if end < 0 then (if len + end < 0 then 0 else len + end)
    else if end < len then end
    else len
  }

  /**
   * The enrichment step of the route's `map`: the candidate with its keyword score and a
   * hybrid score that the keyword score lowers by at most 1 below the distance.
   */
  function Enrich(c: Candidate, query: string): (r: Ranked)
    ensures r.chunk == c
    ensures r.keywordScore == KeywordScore(c.content, query)
    ensures r.hybridScore + r.keywordScore == c.distance
    ensures c.distance - 1.0 <= r.hybridScore <= c.distance
  {
    var kw := KeywordScore(c.content, query);
    Ranked(c, kw, c.distance - kw)
  }

  function EnrichAll(cs: seq<Candidate>, query: string): (rs: seq<Ranked>)
    ensures |rs| == |cs|
  {
    seq(|cs|, i requires 0 <= i < |cs| => Enrich(cs[i], query))
  }

  predicate SortedByHybrid(s: seq<Ranked>) {
    forall i, j | 0 <= i < j < |s| :: s[i].hybridScore <= s[j].hybridScore
  }

  /** The elements of `s` whose hybrid score is `v`, in their order in `s`. */
  function WithScore(s: seq<Ranked>, v: real): seq<Ranked> {
    Filter(s, (x: Ranked) => x.hybridScore == v)
  }

  /** `out` lists the elements of every score in the same order as `input` does: the stability of a sort. */
  ghost predicate KeepsTieOrder(out: seq<Ranked>, input: seq<Ranked>) {
    forall v :: WithScore(out, v) == WithScore(input, v)
  }

  // ---------------------------------------------------------------------------
  // The stable sort, as a specification

  /** Inserts `x` before the first element whose score is not below its own. */
  function InsertByScore(x: Ranked, s: seq<Ranked>): (r: seq<Ranked>)
    ensures multiset(r) == multiset(s) + multiset{x}
  {
    if s == [] || x.hybridScore <= s[0].hybridScore then [x] + s
    else
      assert s == [s[0]] + s[1..];
      [s[0]] + InsertByScore(x, s[1..])
  }

  /** Insertion sort from the back: the first element goes in front of every later one of equal score. */
  function StableSort(s: seq<Ranked>): (r: seq<Ranked>)
    ensures multiset(r) == multiset(s)
    ensures |r| == |s|
  {
    if s == [] then []
    else
      assert s == [s[0]] + s[1..];
      InsertByScore(s[0], StableSort(s[1..]))
  }

  lemma {:induction false} InsertKeepsSorted(x: Ranked, s: seq<Ranked>)
    requires SortedByHybrid(s)
    ensures SortedByHybrid(InsertByScore(x, s))
  {
    if s != [] && x.hybridScore > s[0].hybridScore {
      InsertKeepsSorted(x, s[1..]);
      var t := InsertByScore(x, s[1..]);
      forall y | y in t
        ensures s[0].hybridScore <= y.hybridScore
      {
        assert y in multiset(t);
        if y != x {
          assert y in multiset(s[1..]);
          var k :| 0 <= k < |s[1..]| && s[1..][k] == y;
          assert s[k + 1] == y;
        }
      }
    }
  }

  /** The sort's output is non-decreasing in hybrid score. */
  lemma {:induction false} StableSortSorted(s: seq<Ranked>)
    ensures SortedByHybrid(StableSort(s))
  {
    if s != [] {
      StableSortSorted(s[1..]);
      InsertKeepsSorted(s[0], StableSort(s[1..]));
    }
  }

  /** Inserting into a sorted list puts `x` in front of every element of its own score. */
  lemma {:induction false} InsertWithScore(x: Ranked, s: seq<Ranked>, v: real)
    requires SortedByHybrid(s)
    ensures WithScore(InsertByScore(x, s), v) == (if x.hybridScore == v then [x] else []) + WithScore(s, v)
  {
    if s == [] || x.hybridScore <= s[0].hybridScore {
      var r := InsertByScore(x, s);
      assert r == [x] + s;
      WithScoreCons(r, v);
      assert r[1..] == s;
    } else {
      var tail := s[1..];
      assert SortedByHybrid(tail) by {
        forall i, j | 0 <= i < j < |tail|
          ensures tail[i].hybridScore <= tail[j].hybridScore
        {
          assert tail[i] == s[i + 1] && tail[j] == s[j + 1];
        }
      }
      InsertWithScore(x, tail, v);
      InsertWithScoreStep(x, s, v);
    }
  }

  /** The step of `InsertWithScore`: `x` passes a head of lower score, which keeps its place. */
  lemma InsertWithScoreStep(x: Ranked, s: seq<Ranked>, v: real)
    requires s != [] && s[0].hybridScore < x.hybridScore
    requires WithScore(InsertByScore(x, s[1..]), v) == (if x.hybridScore == v then [x] else []) + WithScore(s[1..], v)
    ensures WithScore(InsertByScore(x, s), v) == (if x.hybridScore == v then [x] else []) + WithScore(s, v)
  {
    var h, t := s[0], InsertByScore(x, s[1..]);
    var keepX: seq<Ranked> := if x.hybridScore == v then [x] else [];
    var keepH: seq<Ranked> := if h.hybridScore == v then [h] else [];
    assert InsertByScore(x, s) == [h] + t;
    assert WithScore([h] + t, v) == keepH + WithScore(t, v) by {
      WithScoreCons([h] + t, v);
      assert ([h] + t)[0] == h && ([h] + t)[1..] == t;
    }
    assert WithScore(s, v) == keepH + WithScore(s[1..], v) by {
      WithScoreCons(s, v);
    }
    SwapEmpty(keepH, keepX, WithScore(s[1..], v));
  }

  /** Two sequences of which one is empty can be swapped in front of a third. */
  lemma SwapEmpty<T>(a: seq<T>, b: seq<T>, c: seq<T>)
    requires a == [] || b == []
    ensures a + (b + c) == b + (a + c)
  {
    if a == [] {
      assert a + (b + c) == b + c;
      assert a + c == c;
    } else {
      assert b + c == c;
      assert b + (a + c) == a + c;
    }
  }

  /** The sort is stable: elements of equal score keep their input order. */
  lemma {:induction false} StableSortKeepsTieOrder(s: seq<Ranked>)
    ensures KeepsTieOrder(StableSort(s), s)
  {
    if s != [] {
      StableSortKeepsTieOrder(s[1..]);
      StableSortSorted(s[1..]);
      forall v
        ensures WithScore(StableSort(s), v) == WithScore(s, v)
      {
        InsertWithScore(s[0], StableSort(s[1..]), v);
        WithScoreCons(s, v);
      }
    }
  }

  /** One step of `WithScore`: the head is kept exactly when it has the score. */
  lemma WithScoreCons(s: seq<Ranked>, v: real)
    requires s != []
    ensures WithScore(s, v) == (if s[0].hybridScore == v then [s[0]] else []) + WithScore(s[1..], v)
  {
  }

  /** The score of the head of a sorted list is at most the score of any member. */
  lemma SortedHeadIsLeast(s: seq<Ranked>, y: Ranked)
    requires SortedByHybrid(s) && y in s
    ensures s[0].hybridScore <= y.hybridScore
  {
    var k :| 0 <= k < |s| && s[k] == y;
  }

  /** Two sorted lists with the same elements in the same order per score are equal. */
  lemma {:induction false} SortedTieOrderUnique(a: seq<Ranked>, b: seq<Ranked>)
    requires SortedByHybrid(a) && SortedByHybrid(b)
    requires KeepsTieOrder(a, b)
    ensures a == b
    decreases |a|
  {
    if a == [] || b == [] {
      if a != [] {
        WithScoreCons(a, a[0].hybridScore);
      } else if b != [] {
        WithScoreCons(b, b[0].hybridScore);
      }
    } else {
      var m, n := a[0].hybridScore, b[0].hybridScore;
      WithScoreCons(a, m);
      WithScoreCons(b, n);
      assert a[0] in WithScore(b, m);
      SortedHeadIsLeast(b, a[0]);
      assert b[0] in WithScore(a, n);
      SortedHeadIsLeast(a, b[0]);
      assert m == n;
      assert WithScore(a, m) == WithScore(b, m);
      assert WithScore(a, m)[0] == a[0] && WithScore(b, m)[0] == b[0];
      forall v
        ensures WithScore(a[1..], v) == WithScore(b[1..], v)
      {
        WithScoreCons(a, v);
        WithScoreCons(b, v);
        var head := if m == v then [a[0]] else [];
        assert WithScore(a, v) == WithScore(b, v);
        assert WithScore(a[1..], v) == WithScore(a, v)[|head|..];
        assert WithScore(b[1..], v) == WithScore(b, v)[|head|..];
      }
      SortedTieOrderUnique(a[1..], b[1..]);
      assert a == [a[0]] + a[1..];
      assert b == [b[0]] + b[1..];
    }
  }

  /**
   * `StableSort` is the only stable sort by hybrid score: any sorted list that keeps the
   * input order among equal scores, which is what a conforming `Array.prototype.sort`
   * produces, equals it.
   */
  lemma StableSortUnique(out: seq<Ranked>, input: seq<Ranked>)
    requires SortedByHybrid(out) && KeepsTieOrder(out, input)
    ensures out == StableSort(input)
  {
    StableSortSorted(input);
    StableSortKeepsTieOrder(input);
    SortedTieOrderUnique(out, StableSort(input));
  }

  // ---------------------------------------------------------------------------
  // The sort in place, as the route does it on the enriched array

  /** Placing `x` after the `p` leading elements that score below it is `InsertByScore`. */
  lemma {:induction false} InsertAt(x: Ranked, t: seq<Ranked>, p: nat)
    requires p <= |t|
    requires forall m | 0 <= m < p :: t[m].hybridScore < x.hybridScore
    requires p < |t| ==> x.hybridScore <= t[p].hybridScore
    ensures InsertByScore(x, t) == t[..p] + [x] + t[p..]
    decreases p
  {
    if p == 0 {
      assert t[..0] + [x] + t[0..] == [x] + t;
    } else {
      var u := t[1..];
      assert forall m | 0 <= m < p - 1 :: u[m].hybridScore < x.hybridScore by {
        forall m | 0 <= m < p - 1
          ensures u[m].hybridScore < x.hybridScore
        {
          assert u[m] == t[m + 1];
        }
      }
      assert p - 1 < |u| ==> u[p - 1] == t[p];
      InsertAt(x, u, p - 1);
      InsertAtStep(x, t, p);
    }
  }

  /** The inductive step of `InsertAt`: one element scoring below `x` goes in front. */
  lemma InsertAtStep(x: Ranked, t: seq<Ranked>, p: nat)
    requires 0 < p <= |t|
    requires t[0].hybridScore < x.hybridScore
    requires InsertByScore(x, t[1..]) == t[1..][..p - 1] + [x] + t[1..][p - 1..]
    ensures InsertByScore(x, t) == t[..p] + [x] + t[p..]
  {
    var front, back := t[1..p], t[p..];
    assert InsertByScore(x, t[1..]) == front + [x] + back by {
      assert t[1..][..p - 1] == front && t[1..][p - 1..] == back;
    }
    assert t[..p] == [t[0]] + front;
    RegroupCons(t[0], front, x, back);
  }

  lemma RegroupCons<T>(h: T, front: seq<T>, x: T, back: seq<T>)
    ensures [h] + (front + [x] + back) == ([h] + front) + [x] + back
  {
  }

  /** Moves `a[i]` into the sorted part `a[i + 1..]`, shifting the lower-scoring elements down one place. */
  method InsertIntoSorted(a: array<Ranked>, i: nat)
    requires i < a.Length
    modifies a
    ensures a[..i] == old(a[..i])
    ensures a[i..] == InsertByScore(old(a[i]), old(a[i + 1..]))
  {
    var x := a[i];
    ghost var tail := a[i + 1..];
    var j := i;
    while j + 1 < a.Length && a[j + 1].hybridScore < x.hybridScore
      invariant i <= j < a.Length
      invariant forall m | 0 <= m < i :: a[m] == old(a[m])
      invariant forall m | i <= m < j :: a[m] == tail[m - i]
      invariant forall m | j < m < a.Length :: a[m] == tail[m - i - 1]
      invariant forall m | 0 <= m < j - i :: tail[m].hybridScore < x.hybridScore
    {
      a[j] := a[j + 1];
      j := j + 1;
    }
    assert j + 1 < a.Length ==> a[j + 1] == tail[j - i];
    a[j] := x;
    ShiftedIsInserted(a[..], i, j, x, tail);
    assert a[..i] == old(a[..i]) by {
      forall m | 0 <= m < i
        ensures a[m] == old(a[m])
      {
      }
    }
  }

  /** The array contents after the shifting loop of `InsertIntoSorted` spell out `InsertByScore`. */
  lemma ShiftedIsInserted(s: seq<Ranked>, i: nat, j: nat, x: Ranked, tail: seq<Ranked>)
    requires i <= j < |s| && |tail| == |s| - i - 1
    requires s[j] == x
    requires forall m | i <= m < j :: s[m] == tail[m - i]
    requires forall m | j < m < |s| :: s[m] == tail[m - i - 1]
    requires forall m | 0 <= m < j - i :: tail[m].hybridScore < x.hybridScore
    requires j + 1 < |s| ==> x.hybridScore <= tail[j - i].hybridScore
    ensures s[i..] == InsertByScore(x, tail)
  {
    InsertAt(x, tail, j - i);
    ShiftedIsPlaced(s, i, j, x, tail);
  }

  /** The array contents after the shifting loop: the tail with `x` put in at `j - i`. */
  lemma ShiftedIsPlaced(s: seq<Ranked>, i: nat, j: nat, x: Ranked, tail: seq<Ranked>)
    requires i <= j < |s| && |tail| == |s| - i - 1
    requires s[j] == x
    requires forall m | i <= m < j :: s[m] == tail[m - i]
    requires forall m | j < m < |s| :: s[m] == tail[m - i - 1]
    ensures s[i..] == tail[..j - i] + [x] + tail[j - i..]
  {
    var placed := tail[..j - i] + [x] + tail[j - i..];
    assert |placed| == |s| - i;
    forall m | i <= m < |s|
      ensures s[m] == placed[m - i]
    {
      if m < j {
        assert placed[m - i] == tail[m - i];
      } else if m > j {
        assert placed[m - i] == tail[m - i - 1];
      }
    }
  }

  /** Sorting a suffix inserts its first element into the sorted rest. */
  lemma StableSortStep(s: seq<Ranked>, i: nat)
    requires i < |s|
    ensures StableSort(s[i..]) == InsertByScore(s[i], StableSort(s[i + 1..]))
  {
    assert s[i..][1..] == s[i + 1..];
  }

  /** Sorts the array in place, stably and ascending by hybrid score. */
  method SortByHybridScore(a: array<Ranked>)
    modifies a
    ensures a[..] == StableSort(old(a[..]))
  {
    ghost var input := a[..];
    var i := a.Length;
    while i > 0
      invariant 0 <= i <= a.Length
      invariant a[..i] == input[..i]
      invariant a[i..] == StableSort(input[i..])
    {
      i := i - 1;
      ghost var before := a[..];
      assert before[i] == input[i] by {
        assert before[..i + 1][i] == input[..i + 1][i];
      }
      assert before[i + 1..] == StableSort(input[i + 1..]) by {
        assert before[i + 1..] == before[i..][1..];
        assert input[i + 1..] == input[i + 1..][..];
      }
      InsertIntoSorted(a, i);
      assert a[..i] == input[..i] by {
        assert before[..i] == before[..i + 1][..i];
        assert input[..i] == input[..i + 1][..i];
      }
      assert a[i..] == StableSort(input[i..]) by {
        StableSortStep(input, i);
      }
    }
  }

  // ---------------------------------------------------------------------------
  // Ranking: enrich, sort, truncate

  /** The route's ranked answer: the stably sorted enriched candidates, cut with `slice(0, k ?? 8)`. */
  function Rank(chunks: seq<Candidate>, query: string, k: Option<int>): (r: seq<Ranked>)
    ensures k.None? ==> |r| == if |chunks| < DefaultResultLimit then |chunks| else DefaultResultLimit
    ensures k.Some? && k.value >= 0 ==> |r| == if k.value < |chunks| then k.value else |chunks|
    ensures k.Some? && k.value < 0 ==> |r| == if |chunks| + k.value < 0 then 0 else |chunks| + k.value
  {
    var sorted := StableSort(EnrichAll(chunks, query));
    sorted[..SliceEnd(|sorted|, ResultLimit(k))]
  }

  /** Enriches the candidates into an array, sorts it in place and keeps its head. */
  method RankCandidates(chunks: seq<Candidate>, query: string, k: Option<int>) returns (results: seq<Ranked>)
    ensures results == Rank(chunks, query, k)
    ensures SortedByHybrid(results)
    ensures |results| == SliceEnd(|chunks|, ResultLimit(k))
  {
    var enriched := new Ranked[|chunks|](i requires 0 <= i < |chunks| => Enrich(chunks[i], query));
    assert enriched[..] == EnrichAll(chunks, query);
    SortByHybridScore(enriched);
    results := enriched[..SliceEnd(enriched.Length, ResultLimit(k))];
    RankIsSortedPrefix(chunks, query, k);
  }

  /** The ranking is a sorted prefix of a permutation of the enriched candidates. */
  lemma RankIsSortedPrefix(chunks: seq<Candidate>, query: string, k: Option<int>)
    ensures var sorted := StableSort(EnrichAll(chunks, query));
      && Rank(chunks, query, k) <= sorted
      && multiset(sorted) == multiset(EnrichAll(chunks, query))
      && SortedByHybrid(Rank(chunks, query, k))
      && |Rank(chunks, query, k)| == SliceEnd(|chunks|, ResultLimit(k))
  {
    StableSortSorted(EnrichAll(chunks, query));
  }

  /** Every result carries the candidate's keyword score and `distance - keyword_score`. */
  lemma RankScores(chunks: seq<Candidate>, query: string, k: Option<int>)
    ensures forall x | x in Rank(chunks, query, k) ::
      && x.chunk in chunks
      && x.keywordScore == KeywordScore(x.chunk.content, query)
      && x.hybridScore == x.chunk.distance - x.keywordScore
      && x.chunk.distance - 1.0 <= x.hybridScore <= x.chunk.distance
  {
    var e := EnrichAll(chunks, query);
    var sorted := StableSort(e);
    forall x | x in Rank(chunks, query, k)
      ensures x in e
    {
      assert x in sorted;
      assert x in multiset(e);
    }
  }

  /**
   * Ties keep the order of the vector index: among results of one score, the results
   * are the first candidates of that score, in input order.
   */
  lemma RankKeepsTieOrder(chunks: seq<Candidate>, query: string, k: Option<int>, v: real)
    ensures WithScore(Rank(chunks, query, k), v) <= WithScore(EnrichAll(chunks, query), v)
  {
    var e := EnrichAll(chunks, query);
    var sorted := StableSort(e);
    StableSortKeepsTieOrder(e);
    FilterPrefix(sorted, SliceEnd(|sorted|, ResultLimit(k)), (x: Ranked) => x.hybridScore == v);
  }

  /** Truncation keeps the best: a candidate scoring strictly below some result is itself a result. */
  lemma RankKeepsBest(chunks: seq<Candidate>, query: string, k: Option<int>, x: Ranked, y: Ranked)
    requires x in Rank(chunks, query, k)
    requires y in EnrichAll(chunks, query)
    requires y.hybridScore < x.hybridScore
    ensures y in Rank(chunks, query, k)
  {
    var e := EnrichAll(chunks, query);
    var sorted := StableSort(e);
    var n := SliceEnd(|sorted|, ResultLimit(k));
    StableSortSorted(e);
    assert y in multiset(sorted);
    var jy :| 0 <= jy < |sorted| && sorted[jy] == y;
    var ix :| 0 <= ix < n && sorted[..n][ix] == x;
    assert jy < n;
    assert sorted[..n][jy] == y;
  }

  /**
   * A keyword advantage larger than the distance gap reverses the index's order: of two
   * candidates, the one returned second is ranked first when its keyword score exceeds the
   * other's by more than it is farther away. With the query "margin call", a chunk "margin"
   * at distance 0.20 scores 1/2 (`OneOfTwoWordsScoresHalf`), a chunk "other" at 0.10 scores
   * 0 (`NeitherWordScoresZero`), so the hybrid scores -0.30 and 0.10 put the farther one first.
   */
  lemma KeywordMatchOutranksCloserChunk(a: Candidate, b: Candidate, query: string)
    requires KeywordScore(a.content, query) - KeywordScore(b.content, query) > a.distance - b.distance
    ensures Rank([b, a], query, None) == [Enrich(a, query), Enrich(b, query)]
  {
    RankSwapsPair(a, b, query);
  }

  /** Of two candidates, the one with the lower hybrid score comes first. */
  lemma RankSwapsPair(a: Candidate, b: Candidate, query: string)
    requires Enrich(a, query).hybridScore < Enrich(b, query).hybridScore
    ensures Rank([b, a], query, None) == [Enrich(a, query), Enrich(b, query)]
  {
    var ra, rb := Enrich(a, query), Enrich(b, query);
    assert EnrichAll([b, a], query) == [rb, ra];
    SortedPairHead(rb, ra);
  }

  /** Sorting and cutting at the default limit puts two out-of-order elements in order. */
  lemma SortedPairHead(x: Ranked, y: Ranked)
    requires y.hybridScore < x.hybridScore
    ensures StableSort([x, y])[..SliceEnd(2, ResultLimit(None))] == [y, x]
  {
    SortTwo(x, y);
    assert [y, x][..SliceEnd(2, ResultLimit(None))] == [y, x];
  }

  /** Two elements out of order by score are swapped. */
  lemma SortTwo(x: Ranked, y: Ranked)
    requires y.hybridScore < x.hybridScore
    ensures StableSort([x, y]) == [y, x]
  {
    assert StableSort([y]) == [y] by {
      assert [y][1..] == [];
      assert InsertByScore(y, []) == [y];
    }
    assert InsertByScore(x, [y]) == [y, x] by {
      assert [y][1..] == [];
      assert InsertByScore(x, []) == [x];
    }
    assert [x, y][1..] == [y];
  }
}
