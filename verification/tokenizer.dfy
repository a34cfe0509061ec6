/** Query normalisation of `Searching.tokenize_query`: extract word tokens from
    the lower-cased query, drop stopwords, stem what is left. */
module Tokenizer {

  /** The corpus-specific stopwords added to NLTK's English list. */
  const CorpusStopwords: set<string> :=
    {"category", "references", "also", "external", "links", "may", "first", "see",
     "history", "people", "one", "two", "part", "thumb", "including", "second",
     "following", "many", "however", "would", "became"}

  /** The library behaviour the tokenizer relies on: `str.lower`, the `RE_WORD`
      regular expression's `finditer`, the Porter stemmer and NLTK's English
      stopword list. None of them is modelled; each is a parameter. */
  datatype Normaliser = Normaliser(
    lower: string -> string,
    findWords: string -> seq<string>,
    stem: string -> string,
    englishStopwords: set<string>)

  /** `all_stopwords`: the English list united with the corpus list; a word
      is a stopword only if one of the two lists has it. */
  function AllStopwords(nz: Normaliser): (r: set<string>)
    ensures nz.englishStopwords <= r && CorpusStopwords <= r
    ensures forall w :: w in r ==> w in nz.englishStopwords || w in CorpusStopwords
  {
    nz.englishStopwords + CorpusStopwords
  }

  /** `[token for token in tokens if token not in stop]`. */
  function FilterStopwords(tokens: seq<string>, stop: set<string>): (r: seq<string>)
    ensures |r| <= |tokens|
    ensures forall i :: 0 <= i < |r| ==> r[i] !in stop
  {
    if tokens == [] then []
    else if tokens[0] in stop then FilterStopwords(tokens[1..], stop)
    else [tokens[0]] + FilterStopwords(tokens[1..], stop)
  }

  /** `[stem(token) for token in tokens]`. */
  function StemAll(tokens: seq<string>, stem: string -> string): (r: seq<string>)
    ensures |r| == |tokens|
    ensures forall i :: 0 <= i < |r| ==> r[i] == stem(tokens[i])
  {
    if tokens == [] then [] else [stem(tokens[0])] + StemAll(tokens[1..], stem)
  }

  /** The raw tokens `RE_WORD.finditer(query.lower())` yields, in order.
      Matching runs on the lower-cased text, so two queries that lower-case
      alike yield the same tokens. */
  function ExtractTokens(query: string, nz: Normaliser): (r: seq<string>)
    ensures forall q :: nz.lower(q) == nz.lower(query) ==> nz.findWords(nz.lower(q)) == r
  {
    nz.findWords(nz.lower(query))
  }

  /** `tokenize_query`: stemmed stopword-free tokens, one per surviving raw token. */
  function TokenizeQuery(query: string, nz: Normaliser): (r: seq<string>)
    ensures var kept := FilterStopwords(ExtractTokens(query, nz), AllStopwords(nz));
      |r| == |kept| && forall i :: 0 <= i < |r| ==> r[i] == nz.stem(kept[i])
  {
    StemAll(FilterStopwords(ExtractTokens(query, nz), AllStopwords(nz)), nz.stem)
  }

  /** Filtering keeps a token exactly when it occurs in the input and is no stopword. */
  lemma {:induction false} FilterMembership(tokens: seq<string>, stop: set<string>, w: string)
    ensures w in FilterStopwords(tokens, stop) <==> w in tokens && w !in stop
  {
    if tokens != [] {
      FilterMembership(tokens[1..], stop, w);
      assert tokens == [tokens[0]] + tokens[1..];
    }
  }

  /** Filtering keeps every occurrence of a kept token: duplicates survive. */
  lemma {:induction false} FilterCount(tokens: seq<string>, stop: set<string>, w: string)
    ensures multiset(FilterStopwords(tokens, stop))[w] ==
            if w in stop then 0 else multiset(tokens)[w]
  {
    if tokens != [] {
      FilterCount(tokens[1..], stop, w);
      assert tokens == [tokens[0]] + tokens[1..];
    }
  }

  /** Filtering works piecewise, so it preserves the relative order of what it keeps. */
  lemma {:induction false} FilterAppend(a: seq<string>, b: seq<string>, stop: set<string>)
    ensures FilterStopwords(a + b, stop) == FilterStopwords(a, stop) + FilterStopwords(b, stop)
  {
    if a == [] {
      assert a + b == b;
    } else {
      assert (a + b)[0] == a[0] && (a + b)[1..] == a[1..] + b;
      FilterAppend(a[1..], b, stop);
    }
  }

  /** The filter is empty exactly when every raw token is a stopword. */
  lemma {:induction false} FilterEmptyIff(tokens: seq<string>, stop: set<string>)
    ensures FilterStopwords(tokens, stop) == [] <==> forall i :: 0 <= i < |tokens| ==> tokens[i] in stop
  {
    if tokens != [] {
      FilterEmptyIff(tokens[1..], stop);
      if tokens[0] in stop {
        forall i | 0 <= i < |tokens[1..]| ensures tokens[1..][i] == tokens[i + 1] { }
      }
    }
  }

  /** A query whose raw tokens are all stopwords normalises to no tokens at all,
      like the empty query. */
  lemma AllStopwordQuery(query: string, nz: Normaliser)
    requires forall i :: 0 <= i < |ExtractTokens(query, nz)| ==> ExtractTokens(query, nz)[i] in AllStopwords(nz)
    ensures TokenizeQuery(query, nz) == []
  {
    FilterEmptyIff(ExtractTokens(query, nz), AllStopwords(nz));
  }

  /** No corpus stopword ever reaches the stemmer. */
  lemma CorpusStopwordsDropped(query: string, nz: Normaliser)
    ensures forall w :: w in CorpusStopwords ==> w !in FilterStopwords(ExtractTokens(query, nz), AllStopwords(nz))
  {
    forall w | w in CorpusStopwords
      ensures w !in FilterStopwords(ExtractTokens(query, nz), AllStopwords(nz))
    {
      FilterMembership(ExtractTokens(query, nz), AllStopwords(nz), w);
    }
  }
}
