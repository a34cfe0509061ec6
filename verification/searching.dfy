/** The `Searching` orchestrator: it tokenizes the query once, at construction,
    and hands the tokens to its BM25 ranker on `search()`. */
module Orchestrator {
  import opened Outcomes
  import opened Tokenizer
  import opened Bm25Spec
  import opened TopK
  import opened Bm25Ranker

  /** A `Searching` object: its ranker and the query's normalised tokens. */
  datatype Searching = Searching(simFunc: BM25, tokens: seq<string>)

  /** `Searching(BM25, query)`: a BM25 ranker with default constants over the
      index, and the tokens of the query. */
  function NewSearching(index: IndexStore, query: string, nz: Normaliser): (s: Searching)
    ensures s.simFunc == BM25(index, DefaultK1, DefaultB) && ParamsInRange(s.simFunc)
    ensures s.tokens == TokenizeQuery(query, nz)
    ensures |s.tokens| <= |ExtractTokens(query, nz)|
  {
    Searching(NewBM25(index), TokenizeQuery(query, nz))
  }

  /** The stored tokens are exactly the stems of the query's raw tokens that
      are not stopwords: each stored token is one, and each one is stored. */
  lemma SearchingTokensFromQuery(index: IndexStore, query: string, nz: Normaliser)
    ensures var s := NewSearching(index, query, nz);
      && (forall i :: 0 <= i < |s.tokens| ==>
            exists w :: w in ExtractTokens(query, nz) && w !in AllStopwords(nz) && s.tokens[i] == nz.stem(w))
      && (forall w :: w in ExtractTokens(query, nz) && w !in AllStopwords(nz) ==> nz.stem(w) in s.tokens)
  {
    var s := NewSearching(index, query, nz);
    var raw := ExtractTokens(query, nz);
    var stop := AllStopwords(nz);
    var kept := FilterStopwords(raw, stop);
    forall i | 0 <= i < |s.tokens|
      ensures exists w :: w in raw && w !in stop && s.tokens[i] == nz.stem(w)
    {
      FilterMembership(raw, stop, kept[i]);
    }
    forall w | w in raw && w !in stop ensures nz.stem(w) in s.tokens {
      FilterMembership(raw, stop, w);
      var j :| 0 <= j < |kept| && kept[j] == w;
      assert s.tokens[j] == nz.stem(w);
    }
  }

  /** `search()`: exactly the ranker's `calculate_scores` on the stored tokens. */
  method Search(s: Searching, log2: real -> real) returns (r: Result<seq<(string, string)>>)
    ensures r == CalculateScoresSpec(s.simFunc, log2, s.tokens)
  {
    r := CalculateScores(s.simFunc, log2, s.tokens);
  }

  /** However the query reads, a search returns at most 100 results. */
  lemma SearchResultBounded(index: IndexStore, query: string, nz: Normaliser, log2: real -> real)
    requires CalculateScoresSpec(NewSearching(index, query, nz).simFunc, log2, NewSearching(index, query, nz).tokens).Ok?
    ensures |CalculateScoresSpec(NewSearching(index, query, nz).simFunc, log2, NewSearching(index, query, nz).tokens).value|
            <= MaxResults
  {
    var s := NewSearching(index, query, nz);
    CalculateScoresLength(s.simFunc, log2, s.tokens);
  }

  /** A query made only of stopwords finds nothing, like the empty query. */
  lemma StopwordQueryFindsNothing(index: IndexStore, query: string, nz: Normaliser, log2: real -> real)
    requires forall i :: 0 <= i < |ExtractTokens(query, nz)| ==> ExtractTokens(query, nz)[i] in AllStopwords(nz)
    ensures CalculateScoresSpec(NewSearching(index, query, nz).simFunc, log2, NewSearching(index, query, nz).tokens) == Ok([])
  {
    var s := NewSearching(index, query, nz);
    AllStopwordQuery(query, nz);
    NoKnownTokensNoResults(s.simFunc, log2, s.tokens);
  }
}
