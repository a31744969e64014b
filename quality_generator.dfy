/** The quality loop of generator_with_quality.py (`ReviewGenerator`): the
    first attempt of every fifth slot uses a deliberately bad prompt, every
    checked attempt appends one row to the metrics CSV, and a slot gives up
    after `max_retries` attempts. Nothing here catches an exception: one
    raised by the generator ends `generate_one`, and with it
    `generate_all`. */
module QualityGenerator {
  import opened Wrappers
  import opened Types
  import Retry
  import Checker
  import Text

  /** One row of the metrics CSV, without its timestamp. */
  datatype CsvRow = CsvRow(
    index: int,
    attempt: nat,
    model: string,
    title: string,
    passed: bool,
    failedMetric: Option<string>,
    genTime: real,
    rating: real,
    wordCount: nat,
    lowQualityForced: bool,
    reviewPassedQuality: bool)

  /** The exception that ended a slot: the attempt whose generation raised. */
  datatype GenError = GenerationRaised(index: int, attempt: nat)

  /** The default of `max_retries`, which `generate_all` does not override. */
  const DefaultRetries: int := 3

  /** `force_bad_first_attempt and attempt == 1`, where
      `force_bad_first_attempt = review_index % 5 == 0`. */
  predicate LowQualityForced(index: int, attempt: nat) {
    index % 5 == 0 && attempt == 1
  }

  /** The answers of slot `index`, attempt by attempt, when `generate(a, low)`
      is what `generate_one_raw(low_quality=low)` answers on attempt a. */
  function Answers(generate: (nat, bool) -> GenOutcome, index: int): nat -> GenOutcome {
    (a: nat) => generate(a, LowQualityForced(index, a))
  }

  /** The row written for a checked review. */
  function Row(index: int, attempt: nat, review: Review, duration: real, result: Checker.CheckResult): CsvRow {
    var passed := result.Passed?;
    CsvRow(index, attempt, review.model, review.title, passed,
      if passed then None else Some(result.failedMetric),
      duration, review.rating, |Text.Words(review.reviewText)|,
      LowQualityForced(index, attempt), passed)
  }

  /** The rows of one attempt: none when generation raised. */
  function AttemptRows(index: int, attempt: nat, outcome: GenOutcome, check: Retry.Check, corpus: seq<Review>): seq<CsvRow> {
    match outcome
    case Raised => []
    case Produced(review, duration) => [Row(index, attempt, review, duration, check(review, corpus))]
  }

  /** The rows of the first m attempts of a slot. */
  function Rows(index: int, answers: nat -> GenOutcome, check: Retry.Check, corpus: seq<Review>, m: nat): seq<CsvRow> {
    if m == 0 then []
    else Rows(index, answers, check, corpus, m - 1) + AttemptRows(index, m, answers(m), check, corpus)
  }

  /** What one attempt of `generate_one` leads to: the exception when
      generation raised, the review when it passed the check, and `Ok(None)`
      (try again) when it failed. */
  function AttemptStop(index: int, attempt: nat, outcome: GenOutcome, check: Retry.Check, corpus: seq<Review>)
    : Result<Option<Review>, GenError>
  {
    match outcome
    case Raised => Err(GenerationRaised(index, attempt))
    case Produced(review, _) => if check(review, corpus).Passed? then Ok(Some(review)) else Ok(None)
  }

  /** Whether attempt i + 1 ends the loop, for each allowed attempt: it
      raises or it passes. */
  function Stops(index: int, answers: nat -> GenOutcome, check: Retry.Check, corpus: seq<Review>, n: int): seq<bool> {
    seq(Retry.Budget(n), i requires 0 <= i => AttemptStop(index, i + 1, answers(i + 1), check, corpus) != Ok(None))
  }

  /** The number of attempts a slot starts. */
  function SlotAttempts(index: int, answers: nat -> GenOutcome, check: Retry.Check, corpus: seq<Review>, n: int): nat {
    Retry.Made(Stops(index, answers, check, corpus, n))
  }

  /** How `generate_one` ends: what its first stopping attempt leads to, or
      `None` after n failures. */
  function SlotOutcome(index: int, answers: nat -> GenOutcome, check: Retry.Check, corpus: seq<Review>, n: int)
    : Result<Option<Review>, GenError>
  {
    match Retry.FirstPass(Stops(index, answers, check, corpus, n))
    case None => Ok(None)
    case Some(k) => AttemptStop(index, k + 1, answers(k + 1), check, corpus)
  }

  /** `generate_one` after its first m attempts: how it has ended so far
      (`Ok(None)` while it is still trying) and the rows it has written. */
  function Slot(index: int, answers: nat -> GenOutcome, check: Retry.Check, corpus: seq<Review>, m: nat)
    : (Result<Option<Review>, GenError>, seq<CsvRow>)
  {
    if m == 0 then (Ok(None), [])
    else
      var (end, rows) := Slot(index, answers, check, corpus, m - 1);
      if end != Ok(None) then (end, rows)
      else (AttemptStop(index, m, answers(m), check, corpus), rows + AttemptRows(index, m, answers(m), check, corpus))
  }

  /** What `generate_all` has done after the first `slots` slots: the
      accepted reviews, the rows written, and the exception that stopped
      it, if one did. */
  datatype Sweep = Sweep(corpus: seq<Review>, rows: seq<CsvRow>, raised: Option<GenError>)

  function Run(generate: int -> (nat, bool) -> GenOutcome, check: Retry.Check, slots: nat): Sweep {
    if slots == 0 then Sweep([], [], None)
    else
      var prev := Run(generate, check, slots - 1);
      if prev.raised.Some? then prev else Step(generate(slots - 1), check, prev, slots - 1)
  }

  /** Slot i of `generate_all`, after a sweep that has not raised. */
  function Step(generate: (nat, bool) -> GenOutcome, check: Retry.Check, prev: Sweep, i: int): Sweep {
    var (end, rows) := Slot(i, Answers(generate, i), check, prev.corpus, Retry.Budget(DefaultRetries));
    match end
    case Err(e) => Sweep(prev.corpus, prev.rows + rows, Some(e))
    case Ok(None) => Sweep(prev.corpus, prev.rows + rows, None)
    case Ok(Some(review)) => Sweep(prev.corpus + [review], prev.rows + rows, None)
  }

  /** `clean_reviews` holds the five-field projection of each review of
      `final_reviews`, position by position. */
  predicate Projected(finalReviews: seq<Review>, cleanReviews: seq<CleanReview>) {
    |cleanReviews| == |finalReviews| && forall j :: 0 <= j < |cleanReviews| ==> cleanReviews[j] == Clean(finalReviews[j])
  }

  class ReviewGenerator {
    /** `self.quality.check_all` */
    const check: Retry.Check
    /** The rows of the metrics CSV written so far, in order. */
    var csv: seq<CsvRow>

    constructor (t: Thresholds, o: Oracles)
      ensures check == Retry.Judge(t, o) && csv == []
    {
      check := Retry.Judge(t, o);
      csv := [];
    }

    /** `generate_one`: attempts 1 to `max_retries`, one row per checked
        attempt; the first passing review is returned, and an exception from
        the generator ends the slot. */
    method GenerateOne(generate: (nat, bool) -> GenOutcome, existing: seq<Review>, index: int, maxRetries: int)
      returns (r: Result<Option<Review>, GenError>)
      modifies this
      ensures var (end, rows) := Slot(index, Answers(generate, index), check, existing, Retry.Budget(maxRetries));
        r == end && csv == old(csv) + rows
    {
      ghost var answers := Answers(generate, index);
      var attempt := 0;
      while attempt < maxRetries
        invariant 0 <= attempt <= Retry.Budget(maxRetries)
        invariant Slot(index, answers, check, existing, attempt).0 == Ok(None)
        invariant csv == old(csv) + Slot(index, answers, check, existing, attempt).1
      {
        attempt := attempt + 1;
        var stop := Attempt(generate, existing, index, attempt);
        if stop != Ok(None) {
          SlotStays(index, answers, check, existing, attempt, Retry.Budget(maxRetries));
          return stop;
        }
      }
      return Ok(None);
    }

    /** One iteration of the loop of `generate_one`: generate (which may
        raise), check, write the row; the review if it passed. */
    method Attempt(generate: (nat, bool) -> GenOutcome, existing: seq<Review>, index: int, attempt: nat)
      returns (stop: Result<Option<Review>, GenError>)
      modifies this
      ensures var outcome := Answers(generate, index)(attempt);
        && csv == old(csv) + AttemptRows(index, attempt, outcome, check, existing)
        && stop == AttemptStop(index, attempt, outcome, check, existing)
    {
      var lowQualityForced := index % 5 == 0 && attempt == 1;
      assert lowQualityForced == LowQualityForced(index, attempt);
      var outcome := generate(attempt, lowQualityForced);
      match outcome
      case Raised => {
        return Err(GenerationRaised(index, attempt));
      }
      case Produced(review, genTime) => {
        var result := check(review, existing);
        var passed := result.Passed?;
        var failedMetric := if passed then None else Some(result.failedMetric);
        var reviewPassedQuality := passed;
        csv := csv + [CsvRow(index, attempt, review.model, review.title, passed, failedMetric, genTime,
                             review.rating, |Text.Words(review.reviewText)|, lowQualityForced, reviewPassedQuality)];
        if passed {
          return Ok(Some(review));
        }
        return Ok(None);
      }
    }

    /** `generate_all(count)`: slot i is generated against `final_reviews`
        so far; a returned review joins `final_reviews` and its projection
        joins `clean_reviews`; an exception ends the whole run. */
    method GenerateAll(generate: int -> (nat, bool) -> GenOutcome, count: int)
      returns (r: Result<(seq<Review>, seq<CleanReview>), GenError>)
      modifies this
      ensures var run := Run(generate, check, Retry.Budget(count));
        && csv == old(csv) + run.rows
        && (run.raised.Some? <==> r.Err?)
        && (r.Err? ==> r.error == run.raised.value)
        && (r.Ok? ==> r.value.0 == run.corpus && Projected(r.value.0, r.value.1))
    {
      var finalReviews, cleanReviews := [], [];
      var i := 0;
      while i < count
        invariant 0 <= i <= Retry.Budget(count)
        invariant Run(generate, check, i).raised.None?
        invariant finalReviews == Run(generate, check, i).corpus
        invariant csv == old(csv) + Run(generate, check, i).rows
        invariant Projected(finalReviews, cleanReviews)
      {
        var stop;
        stop, finalReviews, cleanReviews := NextSlot(generate, i, finalReviews, cleanReviews, old(csv));
        if stop.Some? {
          RaisedStays(generate, check, i + 1, Retry.Budget(count));
          return Err(stop.value);
        }
        i := i + 1;
      }
      assert i == Retry.Budget(count);
      return Ok((finalReviews, cleanReviews));
    }

    /** One pass of the loop of `generate_all`. */
    method NextSlot(generate: int -> (nat, bool) -> GenOutcome, i: nat,
                    finalReviews: seq<Review>, cleanReviews: seq<CleanReview>, ghost base: seq<CsvRow>)
      returns (stop: Option<GenError>, final2: seq<Review>, clean2: seq<CleanReview>)
      requires Run(generate, check, i).raised.None? && finalReviews == Run(generate, check, i).corpus
      requires csv == base + Run(generate, check, i).rows
      requires Projected(finalReviews, cleanReviews)
      modifies this
      ensures stop == Run(generate, check, i + 1).raised
      ensures final2 == Run(generate, check, i + 1).corpus
      ensures csv == base + Run(generate, check, i + 1).rows
      ensures Projected(final2, clean2)
    {
      AppendAssoc(base, Run(generate, check, i).rows,
        Slot(i, Answers(generate(i), i), check, finalReviews, Retry.Budget(DefaultRetries)).1);
      var review := GenerateOne(generate(i), finalReviews, i, DefaultRetries);
      final2, clean2 := finalReviews, cleanReviews;
      match review
      case Err(e) => {
        return Some(e), final2, clean2;
      }
      case Ok(None) => {
        return None, final2, clean2;
      }
      case Ok(Some(accepted)) => {
        final2 := final2 + [accepted];
        clean2 := clean2 + [Clean(accepted)];
        return None, final2, clean2;
      }
    }
  }

  /** Appending to a log in two steps is appending once. */
  lemma AppendAssoc<T>(a: seq<T>, b: seq<T>, c: seq<T>)
    ensures a + b + c == a + (b + c)
  {
  }

  /** Once a slot has ended, later attempts change nothing. */
  lemma {:induction false} SlotStays(index: int, answers: nat -> GenOutcome, check: Retry.Check, corpus: seq<Review>, s: nat, t: nat)
    requires s <= t && Slot(index, answers, check, corpus, s).0 != Ok(None)
    ensures Slot(index, answers, check, corpus, t) == Slot(index, answers, check, corpus, s)
    decreases t - s
  {
    if s < t {
      SlotStays(index, answers, check, corpus, s, t - 1);
    }
  }

  /** The loop of `generate_one` ends as its first stopping attempt decides
      (the exception, the passing review, or `None` when none stops), and
      writes the rows of exactly the attempts up to that one. */
  lemma {:induction false} SlotIsFirstStop(index: int, answers: nat -> GenOutcome, check: Retry.Check, corpus: seq<Review>, m: nat)
    ensures SlotAgrees(index, answers, check, corpus, m)
  {
    if m > 0 {
      SlotIsFirstStop(index, answers, check, corpus, m - 1);
      StopsGrow(index, answers, check, corpus, m);
      Retry.FirstPassSnoc(Stops(index, answers, check, corpus, m - 1), AttemptStop(index, m, answers(m), check, corpus) != Ok(None));
      if Retry.FirstPass(Stops(index, answers, check, corpus, m - 1)).Some? {
        StoppedSlotAgrees(index, answers, check, corpus, m);
      } else {
        RunningSlotAgrees(index, answers, check, corpus, m);
      }
    }
  }

  /** The recursive slot and its first-stop description agree after m
      attempts. */
  predicate SlotAgrees(index: int, answers: nat -> GenOutcome, check: Retry.Check, corpus: seq<Review>, m: nat) {
    && Slot(index, answers, check, corpus, m).0 == SlotOutcome(index, answers, check, corpus, m)
    && Slot(index, answers, check, corpus, m).1 == Rows(index, answers, check, corpus, SlotAttempts(index, answers, check, corpus, m))
  }

  /** The step of SlotIsFirstStop after a stop: nothing changes. */
  lemma StoppedSlotAgrees(index: int, answers: nat -> GenOutcome, check: Retry.Check, corpus: seq<Review>, m: nat)
    requires m > 0 && SlotAgrees(index, answers, check, corpus, m - 1)
    requires Retry.FirstPass(Stops(index, answers, check, corpus, m - 1)).Some?
    requires Retry.FirstPass(Stops(index, answers, check, corpus, m)) == Retry.FirstPass(Stops(index, answers, check, corpus, m - 1))
    ensures SlotAgrees(index, answers, check, corpus, m)
  {
    var k := Retry.FirstPass(Stops(index, answers, check, corpus, m - 1)).value;
    assert Stops(index, answers, check, corpus, m - 1)[k];
  }

  /** The step of SlotIsFirstStop while still trying: attempt m decides. */
  lemma RunningSlotAgrees(index: int, answers: nat -> GenOutcome, check: Retry.Check, corpus: seq<Review>, m: nat)
    requires m > 0 && SlotAgrees(index, answers, check, corpus, m - 1)
    requires Retry.FirstPass(Stops(index, answers, check, corpus, m - 1)).None?
    requires var x := AttemptStop(index, m, answers(m), check, corpus) != Ok(None);
      Retry.FirstPass(Stops(index, answers, check, corpus, m)) == if x then Some(m - 1) else None
    ensures SlotAgrees(index, answers, check, corpus, m)
  {
    assert |Stops(index, answers, check, corpus, m - 1)| == m - 1;
  }

  /** One more allowed attempt adds one entry to the stopping attempts. */
  lemma StopsGrow(index: int, answers: nat -> GenOutcome, check: Retry.Check, corpus: seq<Review>, m: nat)
    requires m > 0
    ensures Stops(index, answers, check, corpus, m) ==
      Stops(index, answers, check, corpus, m - 1) + [AttemptStop(index, m, answers(m), check, corpus) != Ok(None)]
  {
  }

  /** Once an exception has stopped `generate_all`, later slots change
      nothing. */
  lemma {:induction false} RaisedStays(generate: int -> (nat, bool) -> GenOutcome, check: Retry.Check, s: nat, t: nat)
    requires s <= t && Run(generate, check, s).raised.Some?
    ensures Run(generate, check, t) == Run(generate, check, s)
    decreases t - s
  {
    if s < t {
      RaisedStays(generate, check, s, t - 1);
    }
  }

  /** Every row of a slot whose attempts all produced a review: attempts are
      numbered 1, 2, ..., `review_passed_quality` repeats `passed`, the
      metric is None exactly on a pass and the checker's otherwise, and
      only the first attempt of every fifth slot is forced. */
  lemma {:induction false} RowsReport(index: int, answers: nat -> GenOutcome, check: Retry.Check, corpus: seq<Review>, m: nat)
    requires forall a :: 1 <= a <= m ==> answers(a).Produced?
    ensures |Rows(index, answers, check, corpus, m)| == m
    ensures forall i :: 0 <= i < m ==>
      var row, out := Rows(index, answers, check, corpus, m)[i], answers(i + 1);
      var result := check(out.review, corpus);
      && row.index == index && row.attempt == i + 1
      && row.reviewPassedQuality == row.passed == result.Passed?
      && (row.failedMetric.None? <==> row.passed)
      && (!row.passed ==> row.failedMetric == Some(result.failedMetric))
      && (row.lowQualityForced <==> index % 5 == 0 && i == 0)
      && row.model == out.review.model && row.wordCount == |Text.Words(out.review.reviewText)|
  {
    if m > 0 {
      RowsReport(index, answers, check, corpus, m - 1);
      assert answers(m).Produced?;
    }
  }

  /** A slot ends with an exception exactly when an attempt raises before
      any passes; otherwise it returns the first passing review, which
      passed the check against the corpus it was given, or `None` when all
      n attempts produced failing reviews. */
  lemma SlotOutcomeCases(index: int, answers: nat -> GenOutcome, check: Retry.Check, corpus: seq<Review>, n: int)
    ensures var out, a := SlotOutcome(index, answers, check, corpus, n), SlotAttempts(index, answers, check, corpus, n);
      && a <= Retry.Budget(n)
      && (out == Ok(None) <==> forall b :: 1 <= b <= n ==> answers(b).Produced? && !Retry.AttemptPasses(answers(b), check, corpus))
      && (out == Ok(None) ==> a == Retry.Budget(n))
      && (out.Err? ==> 1 <= a && answers(a).Raised? && out.error == GenerationRaised(index, a))
      && (out.Ok? && out.value.Some? ==>
            1 <= a && answers(a).Produced? && out.value.value == answers(a).review && check(answers(a).review, corpus).Passed?)
      && forall b :: 1 <= b < a ==> answers(b).Produced? && !Retry.AttemptPasses(answers(b), check, corpus)
  {
    var stops := Stops(index, answers, check, corpus, n);
    Retry.MadeBounds(stops);
    if (forall b :: 1 <= b <= n ==> answers(b).Produced? && !Retry.AttemptPasses(answers(b), check, corpus)) {
      forall j | 0 <= j < |stops| ensures !stops[j] {
        assert answers(j + 1).Produced? && !Retry.AttemptPasses(answers(j + 1), check, corpus);
      }
    }
    match Retry.FirstPass(stops)
    case None =>
      forall b | 1 <= b <= n ensures answers(b).Produced? && !Retry.AttemptPasses(answers(b), check, corpus) {
        assert !stops[b - 1];
      }
    case Some(k) =>
      assert stops[k];
      forall b | 1 <= b < k + 1 ensures answers(b).Produced? && !Retry.AttemptPasses(answers(b), check, corpus) {
        assert !stops[b - 1];
      }
  }

  /** Every review of the corpus passed the check against the reviews
      before it. */
  predicate OnlyPassed(check: Retry.Check, corpus: seq<Review>) {
    forall j :: 0 <= j < |corpus| ==> check(corpus[j], corpus[..j]).Passed?
  }

  /** `final_reviews` only ever receives reviews that passed the check
      against the reviews before them, at most one per slot, and each slot
      writes at most `max_retries` rows. */
  lemma {:induction false} RunOnlyPassed(generate: int -> (nat, bool) -> GenOutcome, check: Retry.Check, slots: nat)
    ensures var run := Run(generate, check, slots);
      && |run.corpus| <= slots
      && |run.rows| <= DefaultRetries * slots
      && OnlyPassed(check, run.corpus)
  {
    if slots > 0 {
      var prev := Run(generate, check, slots - 1);
      RunOnlyPassed(generate, check, slots - 1);
      if prev.raised.None? {
        StepOnlyPassed(generate(slots - 1), check, prev, slots - 1);
      }
    }
  }

  /** One slot adds at most one review, which passed against the corpus
      before it, and at most `max_retries` rows. */
  lemma StepOnlyPassed(generate: (nat, bool) -> GenOutcome, check: Retry.Check, prev: Sweep, i: int)
    requires OnlyPassed(check, prev.corpus)
    ensures var next := Step(generate, check, prev, i);
      && |next.corpus| <= |prev.corpus| + 1
      && |next.rows| <= |prev.rows| + DefaultRetries
      && OnlyPassed(check, next.corpus)
  {
    var answers := Answers(generate, i);
    var m := SlotAttempts(i, answers, check, prev.corpus, DefaultRetries);
    SlotIsFirstStop(i, answers, check, prev.corpus, DefaultRetries);
    assert SlotAgrees(i, answers, check, prev.corpus, DefaultRetries);
    SlotOutcomeCases(i, answers, check, prev.corpus, DefaultRetries);
    RowsAtMost(i, answers, check, prev.corpus, m);
    var next := Step(generate, check, prev, i);
    forall j | 0 <= j < |next.corpus| ensures check(next.corpus[j], next.corpus[..j]).Passed? {
      if j < |prev.corpus| {
        assert next.corpus[j] == prev.corpus[j] && next.corpus[..j] == prev.corpus[..j];
      } else {
        assert next.corpus[..j] == prev.corpus;
      }
    }
  }

  /** An attempt writes at most one row. */
  lemma {:induction false} RowsAtMost(index: int, answers: nat -> GenOutcome, check: Retry.Check, corpus: seq<Review>, m: nat)
    ensures |Rows(index, answers, check, corpus, m)| <= m
  {
    if m > 0 {
      RowsAtMost(index, answers, check, corpus, m - 1);
    }
  }
}
