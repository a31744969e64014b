/** The retry loop of the pipeline (generator/pipeline.py,
    `GenerationPipeline`): each slot generates, checks against the corpus
    `existing_reviews`, logs the attempt, and stops at the first review
    that passes, which then joins the corpus. */
module Pipeline {
  import opened Wrappers
  import opened Types
  import Retry
  import Checker
  import Storage
  import Core
  import Diversity
  import QualityUtils

  /** What `generate_one` returns: the review with `attempts`, `time`,
      `quality_scores` and `passed`. */
  datatype Accepted = Accepted(review: Review, attempts: nat, time: real, qualityScores: map<string, real>, passed: bool)

  /** `RuntimeError(f"Failed after {max_attempts} attempts")` */
  datatype RuntimeError = RuntimeError(maxAttempts: int)

  /** The dictionary logged when generation raised. */
  function ErrorData(g: Core.RawReviewGenerator, rating: real): ReviewData {
    ReviewData(Some(g.model), Some(g.provider), Some("ERROR"), Some(rating), None)
  }

  /** The log row of one attempt. */
  function AttemptRow(g: Core.RawReviewGenerator, rating: real, index: int, attempt: nat, outcome: GenOutcome,
                      check: Retry.Check, corpus: seq<Review>): Storage.LogRow
  {
    match outcome
    case Raised => Storage.Row(index, attempt, ErrorData(g, rating), false, Some("exception"), 0.0, false)
    case Produced(review, duration) =>
      var verdict := check(review, corpus);
      Storage.Row(index, attempt, DataOf(review), verdict.Passed?, verdict.FailedMetric(), duration, false)
  }

  /** The rows of the first m attempts of a slot. */
  function Rows(g: Core.RawReviewGenerator, rating: real, index: int, generate: nat -> GenOutcome,
                check: Retry.Check, corpus: seq<Review>, m: nat): (rows: seq<Storage.LogRow>)
    ensures |rows| == m
  {
    if m == 0 then []
    else Rows(g, rating, index, generate, check, corpus, m - 1) + [AttemptRow(g, rating, index, m, generate(m), check, corpus)]
  }

  class GenerationPipeline {
    const maxAttempts: int
    /** `self.quality_checker.check_all`. */
    const check: Retry.Check
    const storage: Storage.ReviewStorage
    /** The accepted reviews, the corpus later candidates are checked
        against. */
    var existingReviews: seq<Review>

    /** The pipeline of a configuration: its quality checker and its
        `max_attempts`, an empty corpus. */
    constructor (t: Thresholds, o: Oracles, storage: Storage.ReviewStorage)
      ensures check == Retry.Judge(t, o) && maxAttempts == t.maxAttempts && this.storage == storage
      ensures existingReviews == []
    {
      maxAttempts := t.maxAttempts;
      check := Retry.Judge(t, o);
      this.storage := storage;
      existingReviews := [];
    }

    /** `generate_one`: up to `max_attempts` attempts, one log row each. The
        first passing review joins the corpus and is returned with its
        attempt number; if none passes the corpus is unchanged and
        `RuntimeError` is raised. */
    method GenerateOne(g: Core.RawReviewGenerator, generate: nat -> GenOutcome, rating: real, index: int)
      returns (r: Result<Accepted, RuntimeError>)
      modifies this, storage
      ensures var corpus := old(existingReviews);
        storage.log == old(storage.log) + Rows(g, rating, index, generate, check, corpus, Retry.Made(Retry.Passes(generate, check, corpus, maxAttempts)))
      ensures var corpus := old(existingReviews);
        Retry.FirstPass(Retry.Passes(generate, check, corpus, maxAttempts)).None? ==>
          r == Err(RuntimeError(maxAttempts)) && existingReviews == corpus
      ensures var corpus := old(existingReviews);
        var first := Retry.FirstPass(Retry.Passes(generate, check, corpus, maxAttempts));
        first.Some? ==>
          var out := generate(first.value + 1);
          && out.Produced?
          && r == Ok(Accepted(out.review, first.value + 1, out.duration, check(out.review, corpus).scores, true))
          && existingReviews == corpus + [out.review]
    {
      ghost var corpus := existingReviews;
      ghost var passes := Retry.Passes(generate, check, corpus, maxAttempts);
      var attempts := 0;
      while attempts < maxAttempts
        invariant 0 <= attempts <= Retry.Budget(maxAttempts)
        invariant forall j :: 0 <= j < attempts ==> !passes[j]
        invariant storage.log == old(storage.log) + Rows(g, rating, index, generate, check, corpus, attempts)
        invariant existingReviews == corpus
      {
        attempts := attempts + 1;
        var accepted := Attempt(g, generate, rating, index, attempts);
        assert passes[attempts - 1] == accepted.Some?;
        if accepted.Some? {
          Retry.FirstPassIsUnique(passes, attempts - 1);
          assert Retry.Made(passes) == attempts;
          return Ok(accepted.value);
        }
      }
      assert Retry.FirstPass(passes).None?;
      assert Retry.Made(passes) == attempts;
      return Err(RuntimeError(maxAttempts));
    }

    /** One iteration of the loop of `generate_one`: generate, check against
        the corpus unless generation raised, log the attempt, and on a pass
        add the review to the corpus. */
    method Attempt(g: Core.RawReviewGenerator, generate: nat -> GenOutcome, rating: real, index: int, attempt: nat)
      returns (accepted: Option<Accepted>)
      modifies this, storage
      ensures var corpus := old(existingReviews);
        storage.log == old(storage.log) + [AttemptRow(g, rating, index, attempt, generate(attempt), check, corpus)]
      ensures accepted.Some? <==> Retry.AttemptPasses(generate(attempt), check, old(existingReviews))
      ensures var corpus, out := old(existingReviews), generate(attempt);
        if accepted.Some? then
          && accepted.value == Accepted(out.review, attempt, out.duration, check(out.review, corpus).scores, true)
          && existingReviews == corpus + [out.review]
        else existingReviews == corpus
    {
      var outcome := generate(attempt);
      match outcome
      case Raised => {
        storage.LogAttempt(index, attempt, ErrorData(g, rating), false, Some("exception"), 0.0, false);
        return None;
      }
      case Produced(review, duration) => {
        var result := check(review, existingReviews);
        storage.LogAttempt(index, attempt, DataOf(review), result.Passed?, result.FailedMetric(), duration, false);
        if result.Passed? {
          existingReviews := existingReviews + [review];
          return Some(Accepted(review, attempt, duration, result.scores, true));
        }
        return None;
      }
    }
  }

  /** Logged attempt numbers run 1, 2, ..., m in order, and no row is
      marked as forced. */
  lemma {:induction false} RowsNumbered(g: Core.RawReviewGenerator, rating: real, index: int, generate: nat -> GenOutcome,
                                        check: Retry.Check, corpus: seq<Review>, m: nat)
    ensures forall i :: 0 <= i < m ==>
      var row := Rows(g, rating, index, generate, check, corpus, m)[i];
      row.attempt == i + 1 && row.index == index && !row.lowQualityForced
  {
    if m > 0 {
      RowsNumbered(g, rating, index, generate, check, corpus, m - 1);
    }
  }

  /** A slot whose attempts all fail logs exactly `max_attempts` rows (none
      when it is not positive) and raises. */
  lemma ExhaustedSlot(generate: nat -> GenOutcome, check: Retry.Check, corpus: seq<Review>, maxAttempts: int)
    requires forall k :: 1 <= k <= maxAttempts ==> !Retry.AttemptPasses(generate(k), check, corpus)
    ensures Retry.FirstPass(Retry.Passes(generate, check, corpus, maxAttempts)).None?
    ensures Retry.Made(Retry.Passes(generate, check, corpus, maxAttempts)) == Retry.Budget(maxAttempts)
    ensures maxAttempts <= 0 ==> Retry.Made(Retry.Passes(generate, check, corpus, maxAttempts)) == 0
  {
    var passes := Retry.Passes(generate, check, corpus, maxAttempts);
    assert forall j :: 0 <= j < |passes| ==> !passes[j] by {
      forall j | 0 <= j < |passes| ensures !passes[j] {
        assert !Retry.AttemptPasses(generate(j + 1), check, corpus);
      }
    }
  }

  /** When generation always raises, every row is a failed "exception" row
      with time 0. */
  lemma {:induction false} AlwaysRaising(g: Core.RawReviewGenerator, rating: real, index: int, generate: nat -> GenOutcome,
                                         check: Retry.Check, corpus: seq<Review>, m: nat)
    requires forall k :: generate(k) == Raised
    ensures forall i :: 0 <= i < m ==>
      var row := Rows(g, rating, index, generate, check, corpus, m)[i];
      && !row.passed && row.failedMetric == "exception" && row.generationTime == 0.0
      && row.title == "ERROR" && row.model == g.provider + "/" + g.model
  {
    if m > 0 {
      AlwaysRaising(g, rating, index, generate, check, corpus, m - 1);
      assert generate(m) == Raised;
    }
  }

  /** The accepted review was checked against the corpus as it was before
      the review joined it, and once it has joined, a later candidate with
      the same non-empty token set is rejected whenever `max_jaccard` < 1. */
  lemma AcceptedThenDuplicateRejected(r: Review, later: Review, corpus: seq<Review>, t: Thresholds, o: Oracles)
    requires QualityUtils.TokenSet(later.reviewText) != {}
    requires QualityUtils.TokenSet(later.reviewText) == QualityUtils.TokenSet(r.reviewText)
    requires t.maxJaccard < 1.0
    ensures !Retry.Judge(t, o)(later, corpus + [r]).Passed?
  {
    Diversity.DuplicateFails(later.reviewText, corpus + [r], |corpus|, t.maxJaccard);
    Checker.EveryGateEvaluated(later, corpus + [r], t, o);
    Checker.VerdictOfAllGates(later, corpus + [r], t, o);
  }
}
