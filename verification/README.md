# BM25 query pipeline

A Dafny model of the query-time half of a small search engine (`backend.py`).
A `Searching` object normalises a free-text query into tokens. On `search()`
its `BM25` ranker accumulates a score per document over the postings of every
known query token, sorts the scored documents by descending score, keeps at
most 100 of them and returns `(str(doc_id), title)` pairs.

Modules, leaf first:

- `Outcomes` (`outcomes.dfy`): `Result<T>` and `RankError`, the exceptions a
  ranking pass can raise. `MissingDocLength` and `MissingTitle` are the two
  `KeyError`s. `ZeroDivision` covers `dl / avgdl` and the BM25 denominator.
  `MathDomain` is `math.log2` of a non-positive number.
- `DocIds` (`doc_ids.dfy`): `str(doc_id)` written out as decimal digits, and a
  reading of it back (`ParseId`) that proves the conversion injective.
- `Tokenizer` (`tokenizer.dfy`): `tokenize_query` as a pipeline of extraction,
  stopword filtering and stemming. Lower-casing, the `RE_WORD` regex, the
  Porter stemmer and NLTK's English stopword list are fields of a `Normaliser`
  parameter. The 21 corpus stopwords are a constant.
- `ScoreTables` (`score_tables.dfy`): the `defaultdict(float)` accumulator.
  It keeps the keys in first-insertion order, as a Python dict does, and a
  missing key reads as 0.0.
- `Bm25Spec` (`bm25_spec.dfy`): the index read interface, the idf and
  per-posting formula, the accumulation as folds over tokens and postings,
  and reference definitions (`Candidates`, `TotalScore`) with the lemmas
  that tie them together.
- `TopK` (`top_k.dfy`): `sorted(..., key=score, reverse=True)` as a stable
  insertion sort, and the `[:100]` slice.
- `Bm25Ranker` (`bm25.dfy`): `calculate_scores` as a method with the nested
  loops and both branches of the length test. It is proved equal to
  `CalculateScoresSpec`, and end-to-end lemmas describe what callers get.
- `Orchestrator` (`searching.dfy`): `Searching.__init__` and `search()`.

Parameters that stand for code outside the model: `Normaliser` (text
library behaviour), `IndexStore.postingList` (`read_a_posting_list`) and
`log2` (`math.log2`). Nothing is known about the values of `log2`. The
predicate `Log2NonNegative` (log2(x) >= 0 for every x >= 1) is a precondition
of exactly three lemmas: `IdfNonNegative`, `TotalScoreNonNegative` and
`AccumulateNonNegative`. Every other result holds for any `log2`.

Tie order is modelled exactly. The accumulator remembers first-insertion
order. `Bm25Spec.AccumulateOrder` proves that this order is the order in which
the loops first reach each document, token by token and posting by posting.
The sort is stable (`TopK.SortStable`), and the cut keeps ties in insertion
order (`TopK.RankedTieOrder`). So results with equal BM25 totals come out in
the order their documents first appear in the postings
(`Bm25Ranker.TiedResultsInFirstPostingOrder`).

Three behaviours of the code differ from what a textbook BM25 ranker might do,
and the model keeps them as written:

- The code looks up every token occurrence again (`backend.py:116-125`). It
  does not look up each distinct token once.
- Documents whose accumulated score is 0.0 are still returned. The code
  returns every key of the accumulator, not only those with a nonzero score.
- Ties keep dictionary insertion order. There is no secondary key such as
  the document id.

## Model

| member | source | states |
|---|---|---|
| `DocIds.NatToDecimal` | backend.py:129 | the string form of a natural number is a non-empty digit string with no leading zero |
| `DocIds.IdToString` | backend.py:133 | `str(doc_id)` is non-empty and starts with '-' exactly for negative ids |
| `DocIds.DecimalRoundTrip` | backend.py:133 | reading the digits of `n` back as a decimal number gives `n` |
| `DocIds.IdRoundTrip` | backend.py:129 | reading `str(doc_id)` back gives `doc_id` |
| `DocIds.IdToStringInjective` | backend.py:133 | distinct document ids have distinct string forms |
| `Tokenizer.AllStopwords` | backend.py:21-23 | the stopword set contains the English list and the corpus list, and nothing else |
| `Tokenizer.ExtractTokens` | backend.py:59 | the regex runs on the lower-cased query, so queries that lower-case alike yield the same raw tokens |
| `Tokenizer.FilterStopwords` | backend.py:60 | the filtered list is no longer than its input and contains no stopword |
| `Tokenizer.StemAll` | backend.py:62 | the stemmed list has the same length as its input, and element i is the stem of input element i |
| `Tokenizer.TokenizeQuery` | backend.py:51-63 | the query's tokens are as many as the stopword-filtered raw tokens, and token i is the stem of filtered token i |
| `Tokenizer.FilterMembership` | backend.py:60 | a token survives filtering if and only if it is among the raw tokens and is not a stopword |
| `Tokenizer.FilterCount` | backend.py:60 | a surviving token keeps every one of its occurrences, and a stopword keeps none |
| `Tokenizer.FilterAppend` | backend.py:60 | filtering a concatenation is the concatenation of the filtered parts, so relative order is preserved |
| `Tokenizer.FilterEmptyIff` | backend.py:59-60 | the filtered list is empty if and only if every raw token is a stopword |
| `Tokenizer.AllStopwordQuery` | backend.py:21-23 | a query whose raw tokens are all stopwords yields no tokens |
| `Tokenizer.CorpusStopwordsDropped` | backend.py:22-23 | none of the 21 corpus stopwords survives filtering, whatever the query |
| `ScoreTables.ScoreTable.Add` | backend.py:125 | `scores[d] += x` raises d's score by x from 0.0 if absent, leaves every other score unchanged, adds d to the keys, appends a new d to the insertion order and keeps keys distinct |
| `ScoreTables.ScoreTable.Items` | backend.py:128 | `scores.items()` lists one (key, score) pair per key, in insertion order |
| `ScoreTables.ScoreTable.Get` | backend.py:125 | reading a key gives its stored score, and 0.0 when the key is absent; on a consistent table a nonzero score belongs to an inserted key |
| `ScoreTables.Empty` | backend.py:111 | a fresh `defaultdict(float)` is consistent, has no keys, and reads 0.0 for every document |
| `ScoreTables.InsertAll` | backend.py:125 | after a series of `scores[d] += ...` the old keys keep their places, the new keys follow them, and the keys are exactly the old ones plus the inserted ids |
| `ScoreTables.InsertAllAppend` | backend.py:125 | inserting two id sequences in turn is the same as inserting their concatenation |
| `ScoreTables.InsertAllFirstSeen` | backend.py:125 | the new keys appear in the order of their first occurrence among the inserted ids |
| `ScoreTables.SizeIsOrderLength` | backend.py:127 | `len(scores)` equals the number of keys in insertion order |
| `Bm25Spec.NewBM25` | backend.py:87-98 | the ranker keeps the index and both constants; with the defaults, 0 <= b <= 1 and k1 >= 0 |
| `Bm25Spec.Idf` | backend.py:119-120 | the idf is defined exactly when the log's argument is positive; otherwise the math domain error is raised |
| `Bm25Spec.IdfArgument` | backend.py:120 | the argument of log2 equals (N + 1) / (df + 0.5), and it is at least 1 when 0 <= df <= N |
| `Bm25Spec.IdfNonNegative` | backend.py:120 | for 0 <= df <= N the idf is computed without error and is non-negative |
| `Bm25Spec.Denominator` | backend.py:124 | with 0 <= b <= 1, k1 >= 0, avgdl > 0 and dl >= 0, the BM25 denominator is at least tf |
| `Bm25Spec.Contribution` | backend.py:124 | with parameters in range, tf >= 1, dl >= 0 and idf >= 0, one posting's contribution lies between 0 and idf * (k1 + 1) |
| `Bm25Spec.ScorePosting` | backend.py:122-125 | one posting succeeds exactly when its document has a length and no division by zero occurs; a missing length raises the `KeyError` for that document, and otherwise the failure is a division by zero; on success it adds exactly its contribution to its own document, changes no other document and adds only that key |
| `Bm25Spec.ScoreTerm` | backend.py:116-118 | a token without a df entry leaves the accumulator unchanged |
| `Bm25Spec.ScorePostingsOutcome` | backend.py:122-125 | the posting loop raises exactly when some posting cannot be scored, and then with the first such posting's exception |
| `Bm25Spec.ScoreTermOutcome` | backend.py:116-125 | one token raises exactly when its log argument is not positive or one of its postings cannot be scored, with the math domain error first; the accumulator and `log2` play no part |
| `Bm25Spec.ScoreTokensOutcome` | backend.py:116-125 | the token loop raises exactly when some token raises, and then with the first such token's exception |
| `Bm25Spec.Accumulate` | backend.py:111-125 | the accumulation from an empty defaultdict raises exactly when some query token raises, with the first failing token's exception |
| `Bm25Spec.KnownTokens` | backend.py:116-118 | a word is kept exactly when it is a query token with a df entry (both directions), so none is kept when no token has one |
| `Bm25Spec.KnownTokensAppend` | backend.py:116-118 | keeping the tokens that have a df entry distributes over concatenation: the known tokens of `a + b` are those of `a` followed by those of `b` |
| `Bm25Spec.ScorePostingsEffect` | backend.py:122-125 | a posting list adds exactly its documents to the keys and exactly the sum of their contributions to each score |
| `Bm25Spec.ScoreTermEffect` | backend.py:116-125 | one token adds exactly its documents to the keys and its contribution to each score |
| `Bm25Spec.ScoreTokensEffect` | backend.py:116-125 | the token loop adds exactly the candidate documents to the keys and each document's BM25 total to its score |
| `Bm25Spec.AccumulateEffect` | backend.py:111-125 | the final accumulator's keys are exactly the documents in the postings of known query tokens, each scored by the sum over token occurrences of its contributions |
| `Bm25Spec.PostingIds` | backend.py:122 | the ids visited by the posting loop are the postings' document ids, in list order |
| `Bm25Spec.ScorePostingsOrder` | backend.py:122-125 | the posting loop inserts its documents into the accumulator in posting-list order |
| `Bm25Spec.ScoreTokensOrder` | backend.py:116-125 | the token loop inserts the documents of the whole posting stream in order |
| `Bm25Spec.AccumulateOrder` | backend.py:111-125 | the final accumulator lists each document where the loops first reach one of its postings |
| `Bm25Spec.UnknownTokensIgnored` | backend.py:116-118 | removing every token without a df entry from the query changes neither the outcome nor the accumulator |
| `Bm25Spec.TotalScoreAppend` | backend.py:116-125 | a concatenated query scores each document by the sum of the parts' scores |
| `Bm25Spec.RepeatedTokenCountsTwice` | backend.py:116-125 | a token that occurs twice contributes its term score twice; nothing is deduplicated |
| `Bm25Spec.TermOrderIrrelevant` | backend.py:116-125 | swapping two parts of the query leaves every document's score unchanged |
| `Bm25Spec.CandidatesHaveLengths` | backend.py:122-123 | on a well-formed index every candidate document has a length entry |
| `Bm25Spec.PostingsSucceed` | backend.py:122-125 | postings that name documents with lengths and have tf >= 1 never raise |
| `Bm25Spec.ScoreTokensSucceed` | backend.py:112-125 | on a well-formed index the accumulation never raises |
| `Bm25Spec.PostingsScoreNonNegative` | backend.py:122-125 | with parameters in range and idf >= 0, a posting list's contribution to any document is non-negative |
| `Bm25Spec.TotalScoreNonNegative` | backend.py:116-125 | on a well-formed index every document's BM25 total is non-negative |
| `Bm25Spec.AccumulateNonNegative` | backend.py:111-125 | on a well-formed index the accumulation succeeds and every accumulated score is non-negative |
| `TopK.Insert` | backend.py:128 | insertion adds exactly one entry, keeps the multiset, and keeps a non-increasing list non-increasing |
| `TopK.SortByScoreDesc` | backend.py:128 | the sorted list is a permutation of the items and has non-increasing scores |
| `TopK.InsertDistinct` | backend.py:128 | inserting a new document into distinct documents keeps them distinct |
| `TopK.SortDistinct` | backend.py:128 | sorting distinct documents keeps them distinct |
| `TopK.Prefix` | backend.py:132 | `s[:k]` has length min(k, len(s)) and is a prefix of `s` |
| `TopK.InsertWithScore` | backend.py:128 | among entries with any given score, the inserted entry comes first |
| `TopK.SortStable` | backend.py:128 | for every score value, the sorted entries with that score appear in their original order |
| `TopK.ItemsDistinct` | backend.py:128 | the accumulator's items name distinct documents, each with its score |
| `TopK.RankedShape` | backend.py:127-132 | the selection has min(100, len(scores)) entries, in non-increasing score order, with distinct documents |
| `TopK.RankedEntries` | backend.py:128-132 | each selected entry is a scored document paired with its accumulated score |
| `TopK.RankedOmittedNoHigher` | backend.py:128-132 | a scored document that is not selected scores no higher than any selected one |
| `TopK.Ranked` | backend.py:127-132 | the selection has min(100, number of keys) entries in non-increasing score order |
| `TopK.RankedTiesInInsertionOrder` | backend.py:128-132 | for every score, the selected documents with that score are the first ones, in insertion order, of all scored documents with that score |
| `TopK.RankedTieOrder` | backend.py:128-132 | two selected documents with equal scores are selected in the order they were inserted into the accumulator |
| `Bm25Ranker.ResolveTitles` | backend.py:129-133 | the title lookup succeeds exactly when every selected document has a title; then pair i is (str(id_i), title[id_i]); otherwise the first selected document without a title raises |
| `Bm25Ranker.CalculateScoresSpec` | backend.py:100-134 | a successful ranking returns at most 100 pairs; apart from a missing title, ranking raises exactly when some query token raises |
| `Bm25Ranker.CalculateScores` | backend.py:100-134 | the loops, the early exceptions and both branches of the length test return exactly the specified result |
| `Bm25Ranker.CalculateScoresLength` | backend.py:127-134 | a successful ranking returns min(100, number of candidate documents) pairs, so never more than 100 |
| `Bm25Ranker.CalculateScoresEntries` | backend.py:127-134 | each returned pair is (str(d), id_and_title[d]) for a candidate document d |
| `Bm25Ranker.CalculateScoresOrdered` | backend.py:116-134 | the returned ids are distinct and their BM25 totals never increase along the list |
| `Bm25Ranker.OmittedCandidateNoHigher` | backend.py:127-134 | a candidate that is not returned has a BM25 total no higher than that of any returned document |
| `Bm25Ranker.NoKnownTokensNoResults` | backend.py:116-134 | a query none of whose tokens has a df entry, the empty query included, returns an empty list |
| `Bm25Ranker.ConsistentIndexNeverRaises` | backend.py:111-134 | on a well-formed index whose documents all have titles, ranking never raises |
| `Bm25Ranker.TiedResultsInFirstPostingOrder` | backend.py:111-134 | two returned documents with equal BM25 totals come out in the order in which the loops first reach their postings |
| `Orchestrator.NewSearching` | backend.py:39-48 | the new object holds a BM25 ranker over the given index with k1 = 1.5 and b = 0.75, which are in range, and exactly the tokens `tokenize_query` computes, which are no more than the query's raw tokens |
| `Orchestrator.SearchingTokensFromQuery` | backend.py:48-63 | the stored tokens are exactly the stems of the query's raw tokens that are not stopwords, in both directions |
| `Orchestrator.Search` | backend.py:65-71 | `search()` returns exactly `calculate_scores` applied to the tokens computed at construction |
| `Orchestrator.SearchResultBounded` | backend.py:65-71 | a successful search never returns more than 100 results |
| `Orchestrator.StopwordQueryFindsNothing` | backend.py:51-71 | a query made only of stopwords returns an empty list |

## Left out

- Loading the index from the storage bucket at import time (`backend.py:27-28`). The index is an `IndexStore` value passed in.
- Fetching posting lists (`read_a_posting_list`, `backend.py:122`). This is storage I/O; `IndexStore.postingList` gives each term's postings as a sequence. Storage errors are not modelled.
- `str.lower`, the `RE_WORD` regular expression and its `finditer`, the Porter stemmer and NLTK's English stopword list. These are library behaviour and are parameters of a `Normaliser`.
- `math.log2` is a parameter `log2`. Only the non-positive argument error is modelled; the logarithm's values are not.
- Floating point. Scores are Dafny reals, so rounding, overflow to infinity and NaN are not modelled, nor does the summation order change any value.
- The pluggable similarity function. `Searching` always holds a BM25 ranker built with the default constants, as the source's only ranker is.
- Exceptions other than the four in `RankError`, such as a `TypeError` from malformed index values. Document ids, term frequencies and document lengths are integers by type.
