/**
 * Legal-article retrieval (`normalize`, `find_legal_articles`): every article
 * is scored against the query, the scores are sorted in descending order, and
 * the first three that clear the threshold are returned.
 *
 * The string-similarity ratio is a parameter: any function into [0, 1].
 */
module Retrieval {
  import opened Records
  import opened Text

  type Ratio = r: real | 0.0 <= r <= 1.0

  /** A similarity ratio between two strings, in [0, 1]. */
  type Similarity = (string, string) -> Ratio

  /** An article is returned only when its score is strictly above this. */
  const Threshold: real := 0.2

  /** At most this many articles are returned. */
  const MaxResults: nat := 3

  /**
   * `normalize` without its final NFKC step: lower-cased, then stripped of
   * surrounding whitespace. Every normalized string is only ever passed to
   * the similarity ratio, so NFKC is part of the `Similarity` parameter: the
   * ratio of the two strings' NFKC forms is itself a `Similarity`.
   */
  function Normalize(text: string): (r: string)
  {
    Strip(Lower(text))
  }

  /**
   * Lower-casing then stripping twice is doing it once. This is not true of
   * the program's `normalize`, whose NFKC step can produce upper-case letters
   * and new surrounding whitespace.
   */
  lemma {:induction false} NormalizeIdempotent(text: string)
    ensures Normalize(Normalize(text)) == Normalize(text)
  {
    var l := Lower(text);
    LowerIdempotent(text);
    var r := Strip(l);
    var i := StripSlice(l);
    LowerSlice(l, i, i + |r|);
    assert Lower(r) == r;
    StripIdempotent(l);
  }

  /** `article.get(key, '')`: a missing key reads as the empty string. */
  function OrEmpty(field: Option<string>): string
  {
    match field
    case Some(s) => s
    case None => ""
  }

  /**
   * An article's score against the normalized query `q`: the larger of the
   * title's and the body's similarity to it, a missing field counting as "".
   */
  function ArticleScore(sim: Similarity, q: string, a: Record): Ratio
  {
    var byTitle := sim(q, Normalize(OrEmpty(a.title)));
    var byText := sim(q, Normalize(OrEmpty(a.text)));
    if byText > byTitle then byText else byTitle
  }

  /** An article scores the larger of its title's and its body's ratio. */
  lemma {:induction false} ArticleScoreIsMax(sim: Similarity, q: string, a: Record)
    ensures var s := ArticleScore(sim, q, a);
      && (s == sim(q, Normalize(OrEmpty(a.title))) || s == sim(q, Normalize(OrEmpty(a.text))))
      && sim(q, Normalize(OrEmpty(a.title))) <= s && sim(q, Normalize(OrEmpty(a.text))) <= s
  {
  }

  /** One entry of `scored`: an article with its score. */
  datatype Scored = Scored(score: real, article: Record)

  ghost predicate NonIncreasing(s: seq<Scored>) {
    forall i, j :: 0 <= i < j < |s| ==> s[i].score >= s[j].score
  }

  /** The articles of a scored list, in order. */
  function ArticlesOf(s: seq<Scored>): (r: seq<Record>)
    ensures |r| == |s|
    ensures forall i :: 0 <= i < |s| ==> r[i] == s[i].article
  {
    seq(|s|, i requires 0 <= i < |s| => s[i].article)
  }

  lemma {:induction false} ArticlesOfConcat(a: seq<Scored>, b: seq<Scored>)
    ensures ArticlesOf(a + b) == ArticlesOf(a) + ArticlesOf(b)
  {
  }

  /**
   * Where `x` goes in a list sorted by descending score: in front of the
   * first entry that does not score higher. The list holds the entries that
   * follow `x` in the input, so `x` stays ahead of those with equal score.
   */
  function InsertPos(x: Scored, r: seq<Scored>): (p: nat)
    ensures p <= |r|
    ensures forall i :: 0 <= i < p ==> r[i].score > x.score
    ensures p < |r| ==> r[p].score <= x.score
  {
    if r == [] || r[0].score <= x.score then 0 else 1 + InsertPos(x, r[1..])
  }

  function Insert(x: Scored, r: seq<Scored>): (out: seq<Scored>)
    ensures multiset(out) == multiset(r) + multiset{x}
  {
    var p := InsertPos(x, r);
    assert r == r[..p] + r[p..];
    r[..p] + [x] + r[p..]
  }

  /** Inserting an entry adds its article to the articles of the list. */
  lemma {:induction false} InsertArticles(x: Scored, r: seq<Scored>)
    ensures multiset(ArticlesOf(Insert(x, r))) == multiset(ArticlesOf(r)) + multiset{x.article}
  {
    var p := InsertPos(x, r);
    var front, back := r[..p], r[p..];
    var af, ab := ArticlesOf(front), ArticlesOf(back);
    assert ArticlesOf(r) == af + ab by {
      assert r == front + back;
      ArticlesOfConcat(front, back);
    }
    assert ArticlesOf(Insert(x, r)) == af + [x.article] + ab by {
      assert Insert(x, r) == front + [x] + back;
      ArticlesOfConcat(front, [x]);
      ArticlesOfConcat(front + [x], back);
      assert ArticlesOf([x]) == [x.article];
    }
    assert multiset(af + [x.article] + ab) == multiset(af) + multiset{x.article} + multiset(ab);
  }

  /** Inserting into a sorted list keeps it sorted. */
  lemma {:induction false} InsertSorted(x: Scored, r: seq<Scored>)
    requires NonIncreasing(r)
    ensures NonIncreasing(Insert(x, r))
  {
    var p := InsertPos(x, r);
    assert Insert(x, r) == r[..p] + [x] + r[p..];
  }

  /**
   * `scored.sort(reverse=True, key=score)`: Python's sort is stable, also in
   * reverse, so this is insertion sort keeping the input order among ties.
   */
  function SortByScore(s: seq<Scored>): (r: seq<Scored>)
    ensures multiset(r) == multiset(s)
    ensures multiset(ArticlesOf(r)) == multiset(ArticlesOf(s))
    ensures NonIncreasing(r)
  {
    if s == [] then []
    else
      assert s == [s[0]] + s[1..];
      assert ArticlesOf(s) == [s[0].article] + ArticlesOf(s[1..]);
      InsertSorted(s[0], SortByScore(s[1..]));
      InsertArticles(s[0], SortByScore(s[1..]));
      Insert(s[0], SortByScore(s[1..]))
  }

  /** `[a for s, a in entries if s > 0.2]`. */
  function Above(entries: seq<Scored>): (r: seq<Record>)
  {
    if entries == [] then []
    else (if entries[0].score > Threshold then [entries[0].article] else []) + Above(entries[1..])
  }

  /** The length of the leading run of entries that clear the threshold. */
  function LeadingAbove(s: seq<Scored>): (k: nat)
    ensures k <= |s|
    ensures forall i :: 0 <= i < k ==> s[i].score > Threshold
    ensures k < |s| ==> s[k].score <= Threshold
  {
    if s == [] || s[0].score <= Threshold then 0 else 1 + LeadingAbove(s[1..])
  }

  /** On a list sorted by descending score the filter keeps exactly a prefix. */
  lemma {:induction false} AboveOfSorted(s: seq<Scored>)
    requires NonIncreasing(s)
    ensures Above(s) == ArticlesOf(s[..LeadingAbove(s)])
  {
    if s != [] {
      AboveOfSorted(s[1..]);
      if s[0].score > Threshold {
        assert s[..LeadingAbove(s)] == [s[0]] + s[1..][..LeadingAbove(s[1..])];
      } else {
        assert Above(s[1..]) == [] by {
          AboveNone(s[1..]);
        }
      }
    }
  }

  lemma {:induction false} AboveNone(s: seq<Scored>)
    requires forall i :: 0 <= i < |s| ==> s[i].score <= Threshold
    ensures Above(s) == []
  {
    if s != [] {
      AboveNone(s[1..]);
    }
  }

  /** The score of every article against the normalized query `q`. */
  function ScoreAgainst(sim: Similarity, q: string): (score: Record -> real)
    ensures forall a :: 0.0 <= score(a) <= 1.0
  {
    a => ArticleScore(sim, q, a)
  }

  /** Every entry carries its own article's score. */
  ghost predicate ScoredBy(score: Record -> real, s: seq<Scored>) {
    forall i :: 0 <= i < |s| ==> s[i].score == score(s[i].article)
  }

  /** Reordering the entries keeps each entry's score its article's. */
  lemma {:induction false} ScoredByPermutation(score: Record -> real, s: seq<Scored>, t: seq<Scored>)
    requires ScoredBy(score, s) && multiset(t) == multiset(s)
    ensures ScoredBy(score, t)
  {
    forall i | 0 <= i < |t| ensures t[i].score == score(t[i].article) {
      assert t[i] in multiset(s);
      var j :| 0 <= j < |s| && s[j] == t[i];
    }
  }

  /** The articles of a split list are those of its two parts. */
  lemma {:induction false} ArticlesOfSplit(s: seq<Scored>, k: nat)
    requires k <= |s|
    ensures multiset(ArticlesOf(s)) == multiset(ArticlesOf(s[..k])) + multiset(ArticlesOf(s[k..]))
  {
    assert s == s[..k] + s[k..];
    ArticlesOfConcat(s[..k], s[k..]);
  }

  /**
   * What `find_legal_articles` promises about its result, for the scores
   * `score`: at most three articles, each scoring above the threshold, in
   * non-increasing score order, drawn from the library; every library article
   * left out scores no higher than any returned one, and when a left-out
   * article clears the threshold the result is full.
   */
  ghost predicate Retrieved(score: Record -> real, library: seq<Record>, results: seq<Record>) {
    && |results| <= MaxResults
    && (forall i :: 0 <= i < |results| ==> score(results[i]) > Threshold)
    && (forall i, j :: 0 <= i < j < |results| ==> score(results[i]) >= score(results[j]))
    && multiset(results) <= multiset(library)
    && (forall a, i :: a in multiset(library) - multiset(results) && 0 <= i < |results| ==>
          score(a) <= score(results[i]))
    && (forall a :: a in multiset(library) - multiset(results) && score(a) > Threshold ==>
          |results| == MaxResults)
  }

  /** `find_legal_articles` over the loaded `library`. */
  method FindLegalArticles(sim: Similarity, library: seq<Record>, query: string) returns (results: seq<Record>)
    ensures Retrieved(ScoreAgainst(sim, Normalize(query)), library, results)
  {
    var q := Normalize(query);
    var scored := ScoreArticles(sim, q, library);
    ghost var score := ScoreAgainst(sim, q);
    ScoredAgainst(sim, q, library, scored);
    var ranked := SortByScore(scored);
    ScoredByPermutation(score, scored, ranked);
    results := Above(ranked[..Min(MaxResults, |ranked|)]);
    RankedIsRetrieved(score, library, ranked, results);
  }

  /** The loop building `scored`: each article of the library with its score, in order. */
  method ScoreArticles(sim: Similarity, q: string, library: seq<Record>) returns (scored: seq<Scored>)
    ensures |scored| == |library|
    ensures forall k :: 0 <= k < |library| ==> scored[k] == Scored(ArticleScore(sim, q, library[k]), library[k])
  {
    scored := [];
    for i := 0 to |library|
      invariant |scored| == i
      invariant forall k :: 0 <= k < i ==> scored[k] == Scored(ArticleScore(sim, q, library[k]), library[k])
    {
      scored := scored + [Scored(ArticleScore(sim, q, library[i]), library[i])];
    }
  }

  /** The entries built by the loop carry their articles' scores and list the library. */
  lemma {:induction false} ScoredAgainst(sim: Similarity, q: string, library: seq<Record>, scored: seq<Scored>)
    requires |scored| == |library|
    requires forall k :: 0 <= k < |library| ==> scored[k] == Scored(ArticleScore(sim, q, library[k]), library[k])
    ensures ScoredBy(ScoreAgainst(sim, q), scored)
    ensures ArticlesOf(scored) == library
  {
    var score := ScoreAgainst(sim, q);
    forall i | 0 <= i < |scored| ensures scored[i].score == score(scored[i].article) {
      assert scored[i].score == ArticleScore(sim, q, library[i]);
    }
  }

  /**
   * The entries that clear the threshold among the first three of a ranking
   * of the library by `score` meet `Retrieved`.
   */
  lemma {:induction false} RankedIsRetrieved(score: Record -> real, library: seq<Record>, ranked: seq<Scored>, results: seq<Record>)
    requires ScoredBy(score, ranked) && NonIncreasing(ranked)
    requires multiset(ArticlesOf(ranked)) == multiset(library)
    requires results == Above(ranked[..Min(MaxResults, |ranked|)])
    ensures Retrieved(score, library, results)
  {
    var m := Min(MaxResults, |ranked|);
    var top := ranked[..m];
    var k := LeadingAbove(top);
    AboveOfSorted(top);
    assert top[..k] == ranked[..k];
    KeptRankAbove(score, ranked, k, results);
    OmittedRankBelow(score, ranked, m, k, results);
    ArticlesOfSplit(ranked, k);
    assert multiset(library) - multiset(results) == multiset(ArticlesOf(ranked[k..]));
  }

  /** The kept entries, a leading run above the threshold, are in score order. */
  lemma {:induction false} KeptRankAbove(score: Record -> real, ranked: seq<Scored>, k: nat, results: seq<Record>)
    requires ScoredBy(score, ranked) && NonIncreasing(ranked)
    requires k <= |ranked| && forall i :: 0 <= i < k ==> ranked[..k][i].score > Threshold
    requires results == ArticlesOf(ranked[..k])
    ensures |results| == k
    ensures forall i :: 0 <= i < |results| ==> score(results[i]) > Threshold
    ensures forall i, j :: 0 <= i < j < |results| ==> score(results[i]) >= score(results[j])
  {
    assert forall i :: 0 <= i < k ==> results[i] == ranked[i].article;
  }

  /**
   * Every entry after the cut `k` scores no higher than any kept one, and
   * clears the threshold only when three were kept.
   */
  lemma {:induction false} OmittedRankBelow(score: Record -> real, ranked: seq<Scored>, m: nat, k: nat, results: seq<Record>)
    requires ScoredBy(score, ranked) && NonIncreasing(ranked)
    requires m == Min(MaxResults, |ranked|) && k == LeadingAbove(ranked[..m])
    requires results == ArticlesOf(ranked[..k])
    ensures forall a, i :: a in multiset(ArticlesOf(ranked[k..])) && 0 <= i < |results| ==> score(a) <= score(results[i])
    ensures forall a :: a in multiset(ArticlesOf(ranked[k..])) && score(a) > Threshold ==> |results| == MaxResults
  {
    var omitted := ArticlesOf(ranked[k..]);
    assert |results| == k;
    forall a | a in multiset(omitted)
      ensures forall i :: 0 <= i < |results| ==> score(a) <= score(results[i])
      ensures score(a) > Threshold ==> |results| == MaxResults
    {
      var j :| 0 <= j < |omitted| && omitted[j] == a;
      assert a == ranked[k + j].article;
      OmittedEntryBelow(ranked, m, k, k + j);
      forall i | 0 <= i < |results| ensures score(a) <= score(results[i]) {
        assert results[i] == ranked[i].article;
      }
    }
  }

  /** One entry after the cut: no higher than a kept one, and above the threshold only past a full cut. */
  lemma {:induction false} OmittedEntryBelow(ranked: seq<Scored>, m: nat, k: nat, e: nat)
    requires NonIncreasing(ranked)
    requires m == Min(MaxResults, |ranked|) && k == LeadingAbove(ranked[..m])
    requires k <= e < |ranked|
    ensures forall i :: 0 <= i < k ==> ranked[e].score <= ranked[i].score
    ensures ranked[e].score > Threshold ==> k == MaxResults
  {
    if k < m {
      assert ranked[..m][k].score <= Threshold;
      assert ranked[e].score <= ranked[k].score;
    }
  }

  /**
   * A query equal, once normalized, to an article's normalized title scores
   * that article 1.0 when the ratio of a string with itself is 1.0, and then
   * the first result scores 1.0.
   */
  lemma {:induction false} ExactTitleRanksFirst(sim: Similarity, q: string, library: seq<Record>, results: seq<Record>, a: Record)
    requires Retrieved(ScoreAgainst(sim, q), library, results)
    requires a in library && Normalize(OrEmpty(a.title)) == q && sim(q, q) == 1.0
    ensures |results| > 0 && ArticleScore(sim, q, results[0]) == 1.0
  {
    var score := ScoreAgainst(sim, q);
    assert score(a) == 1.0;
    assert a in multiset(library);
    if a in multiset(results) {
      var i :| 0 <= i < |results| && results[i] == a;
      assert score(results[0]) >= score(results[i]);
    } else {
      assert a in multiset(library) - multiset(results);
    }
    assert score(results[0]) == 1.0;
  }

  /** Every returned article is an article of the library. */
  lemma {:induction false} ResultsFromLibrary(score: Record -> real, library: seq<Record>, results: seq<Record>)
    requires Retrieved(score, library, results)
    ensures forall i :: 0 <= i < |results| ==> results[i] in library
  {
    forall i | 0 <= i < |results| ensures results[i] in library {
      assert results[i] in multiset(results);
    }
  }

  /** Nothing is returned exactly when no article scores above the threshold. */
  lemma {:induction false} NoResultsIffNoMatch(score: Record -> real, library: seq<Record>, results: seq<Record>)
    requires Retrieved(score, library, results)
    ensures results == [] <==> forall a :: a in library ==> score(a) <= Threshold
  {
    ResultsFromLibrary(score, library, results);
    assert |results| > 0 ==> results[0] in library;
    if results == [] {
      forall a | a in library ensures score(a) <= Threshold {
        assert a in multiset(library) - multiset(results);
      }
    }
  }
}
