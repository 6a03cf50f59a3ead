/**
 * The keyword-overlap score of the search route: the share of query tokens, counted
 * with multiplicity, that occur among a chunk's tokens, after lower-casing both and
 * splitting both on runs of whitespace. The division is exact (a `real`).
 */
module KeywordScoring {
  import opened Sequences
  import opened QueryText

  /** The query tokens, repetitions included, that occur among the text tokens (`filter(t => includes(t))`). */
  function MatchedTokens(queryTokens: seq<string>, textTokens: seq<string>): (m: seq<string>)
    ensures |m| <= |queryTokens|
    ensures forall t | t in m :: t in queryTokens && t in textTokens
    ensures forall t | t in queryTokens ::
      multiset(m)[t] == if t in textTokens then multiset(queryTokens)[t] else 0
  {
    FilterCounts(queryTokens, t => t in textTokens);
    Filter(queryTokens, t => t in textTokens)
  }

  /**
   * `toLowerCase().split(/\s+/)`, applied to the query and to the chunk text alike: at
   * least one token, none holding whitespace.
   */
  function Tokens(s: string): (ts: seq<string>)
    ensures |ts| >= 1
    ensures forall t | t in ts :: IsToken(t)
  {
    SplitPieces(ToLower(s));
    Split(ToLower(s))
  }

  /**
   * `keywordScore(text, query)`: matched query tokens over all query tokens. The
   * denominator is never zero, because splitting always yields at least one token.
   */
  function KeywordScore(text: string, query: string): (score: real)
    ensures 0.0 <= score <= 1.0
  {
    var queryTokens := Tokens(query);
    var matched := MatchedTokens(queryTokens, Tokens(text));
    Ratio(|matched|, |queryTokens|)
  }

  /** The exact quotient `part / whole` of two counts. */
  function Ratio(part: nat, whole: nat): (r: real)
    requires 0 < whole && part <= whole
    ensures 0.0 <= r <= 1.0
    ensures r * whole as real == part as real
    ensures r == 1.0 <==> part == whole
    ensures r == 0.0 <==> part == 0
  {
    part as real / whole as real
  }

  /** The score is 1 exactly when every query token, repeated ones included, occurs in the text. */
  lemma ScoreIsOneIff(text: string, query: string)
    ensures KeywordScore(text, query) == 1.0 <==>
      forall t | t in Tokens(query) :: t in Tokens(text)
  {
    var qs, ts := Tokens(query), Tokens(text);
    FilterKeepsAll(qs, t => t in ts);
  }

  /** The score is 0 exactly when no query token occurs in the text. */
  lemma ScoreIsZeroIff(text: string, query: string)
    ensures KeywordScore(text, query) == 0.0 <==>
      forall t | t in Tokens(query) :: t !in Tokens(text)
  {
    var qs, ts := Tokens(query), Tokens(text);
    FilterKeepsNone(qs, t => t in ts);
  }

  /** The score ignores letter case on both sides. */
  lemma ScoreIgnoresCase(text: string, query: string)
    ensures KeywordScore(text, query) == KeywordScore(ToLower(text), ToLower(query))
  {
    ToLowerIdempotent(text);
    ToLowerIdempotent(query);
  }

  /**
   * Texts and queries that differ only in the case of ASCII letters score alike, in either
   * argument: a chunk containing "Margin" matches the query "margin" as "margin" does.
   */
  lemma ScoreIgnoresAsciiCase(text: string, text': string, query: string, query': string)
    requires SameUpToAsciiCase(text, text') && SameUpToAsciiCase(query, query')
    ensures KeywordScore(text, query) == KeywordScore(text', query')
  {
    ToLowerIgnoresAsciiCase(text, text');
    ToLowerIgnoresAsciiCase(query, query');
  }

  /**
   * A repeated query token counts in the numerator as often as in the denominator:
   * the query `t t` scores 1 against any text that has `t` among its tokens, not 1/2.
   */
  lemma RepeatedTokenScoresOne(text: string, t: string)
    requires t != [] && IsToken(t) && ToLower(t) == t
    requires t in Tokens(text)
    ensures Tokens(t + " " + t) == [t, t]
    ensures KeywordScore(text, t + " " + t) == 1.0
  {
    ToLowerAppend(t + " ", t);
    ToLowerAppend(t, " ");
    assert ToLower(" ") == " ";
    assert JoinWithSpaces([t, t]) == t + " " + t by {
      assert [t, t][1..] == [t];
    }
    SplitJoinRoundTrip([t, t]);
    ScoreIsOneIff(text, t + " " + t);
  }

  /** A query whose only token is missing from the text scores 0. */
  lemma MissingTokenScoresZero(text: string, t: string)
    requires IsToken(t) && ToLower(t) == t
    requires t !in Tokens(text)
    ensures KeywordScore(text, t) == 0.0
  {
    SplitToken(t);
    ScoreIsZeroIff(text, t);
  }

  /** A two-word query of distinct lower-case words splits into those words. */
  lemma TwoWordQueryTokens(w1: string, w2: string)
    requires w1 != [] && w2 != []
    requires forall i | 0 <= i < |w1| :: 'a' <= w1[i] <= 'z'
    requires forall i | 0 <= i < |w2| :: 'a' <= w2[i] <= 'z'
    ensures Tokens(w1 + " " + w2) == [w1, w2]
  {
    var q := w1 + " " + w2;
    assert forall i | 0 <= i < |q| :: 'a' <= q[i] <= 'z' || q[i] == ' ' by {
      forall i | 0 <= i < |q|
        ensures 'a' <= q[i] <= 'z' || q[i] == ' '
      {
        if i < |w1| {
          assert q[i] == w1[i];
        } else if i > |w1| {
          assert q[i] == w2[i - |w1| - 1];
        }
      }
    }
    ToLowerOfLower(q);
    assert JoinWithSpaces([w1, w2]) == q by {
      assert [w1, w2][1..] == [w2];
    }
    LowerWordSplit(w1);
    LowerWordSplit(w2);
    SplitJoinRoundTrip([w1, w2]);
  }

  /** A text made of the first of two distinct query words scores exactly 1/2 against them. */
  lemma OneOfTwoWordsScoresHalf(w1: string, w2: string)
    requires w1 != [] && w2 != [] && w1 != w2
    requires forall i | 0 <= i < |w1| :: 'a' <= w1[i] <= 'z'
    requires forall i | 0 <= i < |w2| :: 'a' <= w2[i] <= 'z'
    ensures KeywordScore(w1, w1 + " " + w2) == 0.5
  {
    TwoWordQueryTokens(w1, w2);
    LowerWordSplit(w1);
    var present := (t: string) => t in [w1];
    assert Filter([w1, w2], present) == [w1] by {
      assert [w1, w2][1..] == [w2] && [w2][1..] == [];
    }
  }

  /** A one-word text scores 0 against a two-word query that does not contain it. */
  lemma NeitherWordScoresZero(w1: string, w2: string, text: string)
    requires w1 != [] && w2 != [] && text != []
    requires text != w1 && text != w2
    requires forall i | 0 <= i < |w1| :: 'a' <= w1[i] <= 'z'
    requires forall i | 0 <= i < |w2| :: 'a' <= w2[i] <= 'z'
    requires forall i | 0 <= i < |text| :: 'a' <= text[i] <= 'z'
    ensures KeywordScore(text, w1 + " " + w2) == 0.0
  {
    TwoWordQueryTokens(w1, w2);
    LowerWordSplit(text);
    ScoreIsZeroIff(text, w1 + " " + w2);
  }
}
