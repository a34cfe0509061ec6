/** `BM25.calculate_scores`: the accumulation loops over query tokens and
    postings, the top-100 selection and the title lookup. */
module Bm25Ranker {
  import opened Outcomes
  import opened DocIds
  import opened ScoreTables
  import opened Bm25Spec
  import opened TopK

  /** `[(str(doc_id), id_and_title[doc_id]) for doc_id, _ in selected]`; the
      first selected document without a title raises. */
  function ResolveTitles(index: IndexStore, sel: seq<(int, real)>): (r: Result<seq<(string, string)>>)
    ensures r.Ok? <==> forall i :: 0 <= i < |sel| ==> sel[i].0 in index.idAndTitle
    ensures r.Ok? ==> |r.value| == |sel|
    ensures r.Ok? ==> forall i :: 0 <= i < |sel| ==>
              r.value[i] == (IdToString(sel[i].0), index.idAndTitle[sel[i].0])
    ensures r.Err? ==>
              exists i :: (0 <= i < |sel| && sel[i].0 !in index.idAndTitle &&
                           r.error == MissingTitle(sel[i].0) &&
                           forall j :: 0 <= j < i ==> sel[j].0 in index.idAndTitle)
  {
    if sel == [] then Ok([])
    else if sel[0].0 !in index.idAndTitle then Err(MissingTitle(sel[0].0))
    else
      match ResolveTitles(index, sel[1..])
      case Err(e) =>
        assert forall j :: 1 <= j < |sel| ==> sel[j] == sel[1..][j - 1];
        Err(e)
      case Ok(rest) => Ok([(IdToString(sel[0].0), index.idAndTitle[sel[0].0])] + rest)
  }

  /** What `calculate_scores(query_tokens)` returns or raises: at most 100
      pairs; apart from a missing title, it raises exactly when scoring one of
      the tokens does. */
  function CalculateScoresSpec(bm: BM25, log2: real -> real, tokens: seq<string>): (r: Result<seq<(string, string)>>)
    ensures r.Ok? ==> |r.value| <= MaxResults
    ensures (r.Ok? || r.error.MissingTitle?) <==> forall i :: 0 <= i < |tokens| ==> TermDefined(bm, tokens[i])
  {
    match Accumulate(bm, log2, tokens)
    case Err(e) => Err(e)
    case Ok(t) => ResolveTitles(bm.index, Ranked(t))
  }

  /** `calculate_scores`: accumulate into a defaultdict, then sort, keep at most
      100 and look up the titles. Both branches of the length test return the
      same list. `log2` is `math.log2`. */
  method CalculateScores(bm: BM25, log2: real -> real, queryTokens: seq<string>)
    returns (res: Result<seq<(string, string)>>)
    ensures res == CalculateScoresSpec(bm, log2, queryTokens)
  {
    var scores := Empty();
    var n := bm.index.numOfDocs;
    var avgdl := bm.index.adl;
    var i := 0;
    while i < |queryTokens|
      invariant 0 <= i <= |queryTokens|
      invariant Accumulate(bm, log2, queryTokens) == ScoreTokens(bm, log2, scores, queryTokens[i..])
    {
      var term := queryTokens[i];
      assert queryTokens[i..][0] == term && queryTokens[i..][1..] == queryTokens[i + 1..];
      if term !in bm.index.df {
        i := i + 1;
        continue;
      }
      var df := bm.index.df[term];
      var x := IdfArgument(n, df);
      if x <= 0.0 {
        return Err(MathDomain);
      }
      var idf := log2(x);
      var postings := bm.index.postingList(term);
      ghost var before := scores;
      assert Idf(log2, n, df) == Ok(idf);
      var j := 0;
      while j < |postings|
        invariant 0 <= j <= |postings|
        invariant ScoreTerm(bm, log2, before, term) == ScorePostings(bm, idf, scores, postings[j..])
      {
        var p := postings[j];
        assert postings[j..][0] == p && postings[j..][1..] == postings[j + 1..];
        if p.docId !in bm.index.docLens {
          return Err(MissingDocLength(p.docId));
        }
        var dl := bm.index.docLens[p.docId];
        if avgdl == 0.0 {
          return Err(ZeroDivision);
        }
        if Denominator(bm, p.tf, dl) == 0.0 {
          return Err(ZeroDivision);
        }
        var score := Contribution(bm, idf, p.tf, dl);
        assert ScorePosting(bm, idf, scores, p) == Ok(scores.Add(p.docId, score));
        scores := scores.Add(p.docId, score);
        j := j + 1;
      }
      i := i + 1;
    }
    AccumulateEffect(bm, log2, queryTokens);
    SizeIsOrderLength(scores);
    if |scores.score| > MaxResults {
      var newList := SortByScoreDesc(scores.Items())[..MaxResults];
      res := ResolveTitles(bm.index, newList);
      return;
    }
    var newList := Prefix(SortByScoreDesc(scores.Items()), MaxResults);
    res := ResolveTitles(bm.index, newList);
  }

  // ---------------------------------------------------------------------------
  // What the caller gets

  /** A successful ranking returns `min(100, #candidates)` pairs. */
  lemma CalculateScoresLength(bm: BM25, log2: real -> real, tokens: seq<string>)
    requires CalculateScoresSpec(bm, log2, tokens).Ok?
    ensures var n := |Candidates(bm, tokens)|;
      |CalculateScoresSpec(bm, log2, tokens).value| == if n <= MaxResults then n else MaxResults
  {
    AccumulateEffect(bm, log2, tokens);
    RankedShape(Accumulate(bm, log2, tokens).value);
  }

  /** Each returned pair is the string id and the title of a candidate document. */
  lemma CalculateScoresEntries(bm: BM25, log2: real -> real, tokens: seq<string>)
    requires CalculateScoresSpec(bm, log2, tokens).Ok?
    ensures var out := CalculateScoresSpec(bm, log2, tokens).value;
      forall i :: 0 <= i < |out| ==>
        && ParseId(out[i].0) in Candidates(bm, tokens)
        && out[i].0 == IdToString(ParseId(out[i].0))
        && ParseId(out[i].0) in bm.index.idAndTitle
        && out[i].1 == bm.index.idAndTitle[ParseId(out[i].0)]
  {
    var t := Accumulate(bm, log2, tokens).value;
    var r := Ranked(t);
    var out := CalculateScoresSpec(bm, log2, tokens).value;
    AccumulateEffect(bm, log2, tokens);
    RankedEntries(t);
    forall i | 0 <= i < |out| ensures ParseId(out[i].0) == r[i].0 {
      IdRoundTrip(r[i].0);
    }
  }

  /** The returned ids are distinct and their BM25 totals never increase
      along the list. */
  lemma CalculateScoresOrdered(bm: BM25, log2: real -> real, tokens: seq<string>)
    requires CalculateScoresSpec(bm, log2, tokens).Ok?
    ensures var out := CalculateScoresSpec(bm, log2, tokens).value;
      forall i, j :: 0 <= i < j < |out| ==>
        && out[i].0 != out[j].0
        && TotalScore(bm, log2, tokens, ParseId(out[i].0)) >= TotalScore(bm, log2, tokens, ParseId(out[j].0))
  {
    var t := Accumulate(bm, log2, tokens).value;
    var r := Ranked(t);
    var out := CalculateScoresSpec(bm, log2, tokens).value;
    AccumulateEffect(bm, log2, tokens);
    RankedShape(t);
    RankedEntries(t);
    forall i | 0 <= i < |out| ensures ParseId(out[i].0) == r[i].0 {
      IdRoundTrip(r[i].0);
    }
  }

  /** A candidate document that is not returned has a BM25 total no higher
      than that of any returned document. */
  lemma OmittedCandidateNoHigher(bm: BM25, log2: real -> real, tokens: seq<string>, d: int)
    requires CalculateScoresSpec(bm, log2, tokens).Ok?
    requires d in Candidates(bm, tokens)
    requires forall i :: 0 <= i < |CalculateScoresSpec(bm, log2, tokens).value| ==>
               CalculateScoresSpec(bm, log2, tokens).value[i].0 != IdToString(d)
    ensures forall i :: 0 <= i < |CalculateScoresSpec(bm, log2, tokens).value| ==>
              TotalScore(bm, log2, tokens, d) <=
              TotalScore(bm, log2, tokens, ParseId(CalculateScoresSpec(bm, log2, tokens).value[i].0))
  {
    var t := Accumulate(bm, log2, tokens).value;
    var r := Ranked(t);
    var out := CalculateScoresSpec(bm, log2, tokens).value;
    AccumulateEffect(bm, log2, tokens);
    RankedEntries(t);
    forall k | 0 <= k < |r| ensures r[k].0 != d {
      assert out[k].0 == IdToString(r[k].0);
    }
    RankedOmittedNoHigher(t, d);
    forall i | 0 <= i < |out| ensures ParseId(out[i].0) == r[i].0 {
      IdRoundTrip(r[i].0);
    }
  }

  /** A query none of whose tokens has a df entry, the empty query among them,
      returns no documents. */
  lemma NoKnownTokensNoResults(bm: BM25, log2: real -> real, tokens: seq<string>)
    requires forall i :: 0 <= i < |tokens| ==> tokens[i] !in bm.index.df
    ensures CalculateScoresSpec(bm, log2, tokens) == Ok([])
  {
    UnknownTokensIgnored(bm, log2, Empty(), tokens);
    SizeIsOrderLength(Empty());
  }

  /** On a well-formed index whose every document has a title, ranking never
      raises. */
  lemma ConsistentIndexNeverRaises(bm: BM25, log2: real -> real, tokens: seq<string>)
    requires WellFormedIndex(bm)
    requires forall d :: d in bm.index.docLens ==> d in bm.index.idAndTitle
    ensures CalculateScoresSpec(bm, log2, tokens).Ok?
  {
    ScoreTokensSucceed(bm, log2, Empty(), tokens);
    AccumulateEffect(bm, log2, tokens);
    CandidatesHaveLengths(bm, tokens);
    RankedEntries(Accumulate(bm, log2, tokens).value);
  }

  /** Results with equal BM25 totals come out in the order in which the loops
      first reach their documents: token by token, posting by posting. */
  lemma TiedResultsInFirstPostingOrder(bm: BM25, log2: real -> real, tokens: seq<string>, i: int, j: int)
    requires CalculateScoresSpec(bm, log2, tokens).Ok?
    requires 0 <= i < j < |CalculateScoresSpec(bm, log2, tokens).value|
    requires TotalScore(bm, log2, tokens, ParseId(CalculateScoresSpec(bm, log2, tokens).value[i].0)) ==
             TotalScore(bm, log2, tokens, ParseId(CalculateScoresSpec(bm, log2, tokens).value[j].0))
    ensures var out := CalculateScoresSpec(bm, log2, tokens).value;
      && ParseId(out[i].0) in PostingStream(bm, tokens)
      && ParseId(out[j].0) in PostingStream(bm, tokens)
      && IndexOf(PostingStream(bm, tokens), ParseId(out[i].0)) < IndexOf(PostingStream(bm, tokens), ParseId(out[j].0))
  {
    var t := Accumulate(bm, log2, tokens).value;
    var r := Ranked(t);
    var out := CalculateScoresSpec(bm, log2, tokens).value;
    var stream := PostingStream(bm, tokens);
    AccumulateEffect(bm, log2, tokens);
    RankedEntries(t);
    IdRoundTrip(r[i].0);
    IdRoundTrip(r[j].0);
    assert ParseId(out[i].0) == r[i].0 && ParseId(out[j].0) == r[j].0;
    assert r[i].1 == r[j].1;
    RankedTieOrder(t, i, j);
    AccumulateOrder(bm, log2, tokens);
    InsertAllFirstSeen([], stream);
    var ki := IndexOf(t.order, r[i].0);
    var kj := IndexOf(t.order, r[j].0);
    assert t.order[ki] in stream && t.order[kj] in stream;
  }
}
