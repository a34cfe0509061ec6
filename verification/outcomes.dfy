/** Results of a ranking pass: either a value or the exception the ranker raises. */
module Outcomes {

  /** The exceptions `BM25.calculate_scores` can raise on an inconsistent index
      or degenerate parameters. Both `Missing…` cases are Python `KeyError`s. */
  datatype RankError =
    | MissingDocLength(docId: int)   // `doc_lens[doc_id]` for a posting's document
    | MissingTitle(docId: int)       // `id_and_title[doc_id]` for a selected document
    | ZeroDivision                   // `dl / avgdl` with avgdl == 0, or a zero BM25 denominator
    | MathDomain                     // `math.log2` of a non-positive argument

  datatype Result<+T> = Ok(value: T) | Err(error: RankError)
}
