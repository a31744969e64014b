/** The values that flow between the gates, the checker and the retry loops. */
module Types {
  import opened Wrappers

  /** A generated review (the dictionary the generators build). Keys that
      some generators leave out are optional: `provider` (only
      generator/core.py sets it), `persona` and `persona_keywords`. */
  datatype Review = Review(
    rating: real,
    reviewText: string,
    title: string,
    pros: string,
    cons: string,
    model: string,
    provider: Option<string>,
    persona: Option<string>,
    personaKeywords: Option<seq<string>>)

  /** The five-field "clean" projection written to the clean review file. */
  datatype CleanReview = CleanReview(rating: real, reviewText: string, title: string, pros: string, cons: string)

  function Clean(r: Review): CleanReview {
    CleanReview(r.rating, r.reviewText, r.title, r.pros, r.cons)
  }

  /** The `{passed, score}` dictionary every gate returns. Integer scores
      (word count, keyword matches) are carried as reals of the same value. */
  datatype GateResult = GateResult(passed: bool, score: real)

  /** The configured thresholds the gates and loops read. */
  datatype Thresholds = Thresholds(
    minWords: int,
    maxWords: int,
    maxJaccard: real,
    maxSemantic: real,
    sentimentTolerance: real,
    minRealism: real,
    minPersonaMatches: int,
    maxAttempts: int)

  /** What the TF-IDF vectorizer and cosine similarity produce: the maximum
      cosine between the candidate and the corpus, or an exception. */
  datatype VectorOutcome = MaxCosine(similarity: real) | VectorizerError

  /** The foreign scorers the gates consult. `judge` answers None when the
      judge call or the parsing of its reply raises. */
  datatype Oracles = Oracles(
    polarity: string -> real,
    cosine: (string, seq<string>) -> VectorOutcome,
    judge: string -> Option<real>)

  /** One call of the external generator: an exception, or a review and the
      time the call took. */
  datatype GenOutcome = Raised | Produced(review: Review, duration: real)

  /** The dictionary handed to a log sink: a generated review, or a stand-in
      built when generation raised. Every key may be absent. */
  datatype ReviewData = ReviewData(
    model: Option<string>,
    provider: Option<string>,
    title: Option<string>,
    rating: Option<real>,
    reviewText: Option<string>)

  function DataOf(r: Review): ReviewData {
    ReviewData(Some(r.model), r.provider, Some(r.title), Some(r.rating), Some(r.reviewText))
  }

  /** `[r["review_text"] for r in reviews]` */
  function Texts(reviews: seq<Review>): seq<string> {
    seq(|reviews|, i requires 0 <= i < |reviews| => reviews[i].reviewText)
  }
}
