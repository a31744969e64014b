/** The quality loop of src/generator.py (`ReviewGenerator`): a slot makes at
    most `max_regeneration_attempts` attempts, the first one possibly with a
    deliberately bad prompt, reports every attempt to the file manager's
    `log_attempt` (an exception included), and yields `None` when no attempt
    passes. `generate_all` runs the slots in order, each against the
    reviews accepted so far. */
module Generator {
  import opened Wrappers
  import opened Types
  import Retry
  import Checker

  /** The arguments of one `file_manager.log_attempt` call. */
  datatype LogCall = LogCall(index: int, attempt: nat, data: ReviewData, passed: bool, failedMetric: string, genTime: real)

  /** The stand-in dictionary logged when an attempt raised:
      `{"model": "error", "title": "ERROR"}`. */
  const ErrorData: ReviewData := ReviewData(Some("error"), None, Some("ERROR"), None, None)

  /** `force_bad = force_bad_first and attempt == 1` */
  predicate Forced(forceBadFirst: bool, attempt: nat) {
    forceBadFirst && attempt == 1
  }

  /** The answers of one slot, attempt by attempt, when `generate(a, bad)`
      is what `generate_one_raw(force_bad=bad)` answers on attempt a. */
  function Answers(generate: (nat, bool) -> GenOutcome, forceBadFirst: bool): nat -> GenOutcome {
    (a: nat) => generate(a, Forced(forceBadFirst, a))
  }

  /** `result.get("failed_metric", "")`: blank on a pass. */
  function MetricOf(result: Checker.CheckResult): string {
    if result.Failed? then result.failedMetric else ""
  }

  /** The `log_attempt` call of one attempt. */
  function Call(index: int, attempt: nat, outcome: GenOutcome, check: Retry.Check, corpus: seq<Review>): LogCall {
    match outcome
    case Raised => LogCall(index, attempt, ErrorData, false, "exception", 0.0)
    case Produced(review, duration) =>
      var result := check(review, corpus);
      LogCall(index, attempt, DataOf(review), result.Passed?, MetricOf(result), duration)
  }

  /** The calls of the first m attempts of a slot. */
  function Calls(index: int, answers: nat -> GenOutcome, check: Retry.Check, corpus: seq<Review>, m: nat): (calls: seq<LogCall>)
    ensures |calls| == m
  {
    if m == 0 then []
    else Calls(index, answers, check, corpus, m - 1) + [Call(index, m, answers(m), check, corpus)]
  }

  /** What a slot returns: the review of the first passing attempt, if any. */
  function SlotResult(answers: nat -> GenOutcome, check: Retry.Check, corpus: seq<Review>, n: int): Option<Review> {
    var passes := Retry.Passes(answers, check, corpus, n);
    match Retry.FirstPass(passes)
    case None => None
    case Some(k) =>
      assert passes[k] == Retry.AttemptPasses(answers(k + 1), check, corpus);
      Some(answers(k + 1).review)
  }

  /** The number of attempts a slot makes. */
  function SlotAttempts(answers: nat -> GenOutcome, check: Retry.Check, corpus: seq<Review>, n: int): nat {
    Retry.Made(Retry.Passes(answers, check, corpus, n))
  }

  /** The reviews accepted and the `log_attempt` calls made by the first
      `slots` slots of `generate_all`, when slot i's answers are
      `Answers(generate(i), force(i))`. */
  function Run(generate: int -> (nat, bool) -> GenOutcome, force: int -> bool, check: Retry.Check, n: int, slots: nat)
    : (seq<Review>, seq<LogCall>)
  {
    if slots == 0 then ([], [])
    else
      var (before, calls) := Run(generate, force, check, n, slots - 1);
      var answers := Answers(generate(slots - 1), force(slots - 1));
      var made := Calls(slots - 1, answers, check, before, SlotAttempts(answers, check, before, n));
      match SlotResult(answers, check, before, n)
      case None => (before, calls + made)
      case Some(r) => (before + [r], calls + made)
  }

  /** `final_reviews` after the first `slots` slots. */
  function Corpus(generate: int -> (nat, bool) -> GenOutcome, force: int -> bool, check: Retry.Check, n: int, slots: nat): seq<Review> {
    Run(generate, force, check, n, slots).0
  }

  /** `clean_reviews` holds the five-field projection of each review of
      `final_reviews`, position by position. */
  predicate Projected(finalReviews: seq<Review>, cleanReviews: seq<CleanReview>) {
    |cleanReviews| == |finalReviews| && forall j :: 0 <= j < |cleanReviews| ==> cleanReviews[j] == Clean(finalReviews[j])
  }

  class ReviewGenerator {
    /** `self.quality.check_all` */
    const check: Retry.Check
    /** `quality_thresholds.max_regeneration_attempts` */
    const maxRetries: int
    /** The `log_attempt` calls made so far, in order. */
    var logged: seq<LogCall>

    constructor (t: Thresholds, o: Oracles)
      ensures check == Retry.Judge(t, o) && maxRetries == t.maxAttempts && logged == []
    {
      check := Retry.Judge(t, o);
      maxRetries := t.maxAttempts;
      logged := [];
    }

    /** `generate_one_with_quality`: attempts 1, 2, ... up to the budget,
        one logged call each; the first passing review is returned. */
    method GenerateOneWithQuality(generate: (nat, bool) -> GenOutcome, forceBadFirst: bool, existing: seq<Review>, index: int)
      returns (review: Option<Review>)
      modifies this
      ensures var answers := Answers(generate, forceBadFirst);
        logged == old(logged) + Calls(index, answers, check, existing, SlotAttempts(answers, check, existing, maxRetries))
      ensures review == SlotResult(Answers(generate, forceBadFirst), check, existing, maxRetries)
    {
      ghost var answers := Answers(generate, forceBadFirst);
      ghost var passes := Retry.Passes(answers, check, existing, maxRetries);
      var attempt := 0;
      while attempt < maxRetries
        invariant 0 <= attempt <= Retry.Budget(maxRetries)
        invariant forall j :: 0 <= j < attempt ==> !passes[j]
        invariant logged == old(logged) + Calls(index, answers, check, existing, attempt)
      {
        attempt := attempt + 1;
        var passed := Attempt(generate, forceBadFirst, existing, index, attempt);
        assert passes[attempt - 1] == passed.Some?;
        if passed.Some? {
          Retry.FirstPassIsUnique(passes, attempt - 1);
          return passed;
        }
      }
      assert Retry.FirstPass(passes).None?;
      return None;
    }

    /** One iteration of the loop of `generate_one_with_quality`: generate,
        check unless generation raised, log the call; the review if it
        passed. */
    method Attempt(generate: (nat, bool) -> GenOutcome, forceBadFirst: bool, existing: seq<Review>, index: int, attempt: nat)
      returns (passed: Option<Review>)
      modifies this
      ensures var outcome := Answers(generate, forceBadFirst)(attempt);
        && logged == old(logged) + [Call(index, attempt, outcome, check, existing)]
        && (passed.Some? <==> Retry.AttemptPasses(outcome, check, existing))
        && (passed.Some? ==> passed.value == outcome.review)
    {
      var bad := forceBadFirst && attempt == 1;
      var outcome := generate(attempt, bad);
      assert bad == Forced(forceBadFirst, attempt);
      match outcome
      case Raised => {
        logged := logged + [LogCall(index, attempt, ErrorData, false, "exception", 0.0)];
        return None;
      }
      case Produced(r, duration) => {
        var result := check(r, existing);
        logged := logged + [LogCall(index, attempt, DataOf(r), result.Passed?, MetricOf(result), duration)];
        if result.Passed? {
          return Some(r);
        }
        return None;
      }
    }

    /** `generate_all(count)`: slot i is generated against the reviews
        accepted before it; an accepted review joins `final_reviews` and its
        clean projection joins `clean_reviews`. `force(i)` is the slot's
        `random.random() < 0.10` draw. */
    method GenerateAll(generate: int -> (nat, bool) -> GenOutcome, force: int -> bool, count: int)
      returns (finalReviews: seq<Review>, cleanReviews: seq<CleanReview>, successCount: int, skippedCount: int)
      modifies this
      ensures finalReviews == Corpus(generate, force, check, maxRetries, Retry.Budget(count))
      ensures logged == old(logged) + Run(generate, force, check, maxRetries, Retry.Budget(count)).1
      ensures Projected(finalReviews, cleanReviews)
      ensures successCount == |cleanReviews| && skippedCount == count - successCount
    {
      finalReviews, cleanReviews := [], [];
      var i := 0;
      while i < count
        invariant 0 <= i <= Retry.Budget(count)
        invariant finalReviews == Corpus(generate, force, check, maxRetries, i)
        invariant logged == old(logged) + Run(generate, force, check, maxRetries, i).1
        invariant Projected(finalReviews, cleanReviews)
      {
        finalReviews, cleanReviews := NextSlot(generate, force, i, finalReviews, cleanReviews, old(logged));
        i := i + 1;
      }
      assert i == Retry.Budget(count);
      successCount := |cleanReviews|;
      skippedCount := count - |cleanReviews|;
    }

    /** One pass of the loop of `generate_all`: slot i is generated against
        the reviews accepted before it, and an accepted review joins both
        lists. */
    method NextSlot(generate: int -> (nat, bool) -> GenOutcome, force: int -> bool, i: nat,
                    finalReviews: seq<Review>, cleanReviews: seq<CleanReview>, ghost base: seq<LogCall>)
      returns (final2: seq<Review>, clean2: seq<CleanReview>)
      requires finalReviews == Corpus(generate, force, check, maxRetries, i)
      requires logged == base + Run(generate, force, check, maxRetries, i).1
      requires Projected(finalReviews, cleanReviews)
      modifies this
      ensures final2 == Corpus(generate, force, check, maxRetries, i + 1)
      ensures logged == base + Run(generate, force, check, maxRetries, i + 1).1
      ensures Projected(final2, clean2)
    {
      ghost var answers := Answers(generate(i), force(i));
      AppendAssoc(base, Run(generate, force, check, maxRetries, i).1,
        Calls(i, answers, check, finalReviews, SlotAttempts(answers, check, finalReviews, maxRetries)));
      var review := GenerateOneWithQuality(generate(i), force(i), finalReviews, i);
      final2, clean2 := finalReviews, cleanReviews;
      if review.Some? {
        final2 := final2 + [review.value];
        clean2 := clean2 + [Clean(review.value)];
      }
    }
  }

  /** Appending to a log in two steps is appending once. */
  lemma AppendAssoc<T>(a: seq<T>, b: seq<T>, c: seq<T>)
    ensures a + b + c == a + (b + c)
  {
  }

  /** Only attempt 1 can use the bad prompt, and only when the slot's flag
      is set; the other attempts ask for a good review. */
  lemma ForcedOnlyOnFirst(generate: (nat, bool) -> GenOutcome, forceBadFirst: bool, a: nat)
    ensures Answers(generate, forceBadFirst)(a) == generate(a, forceBadFirst && a == 1)
    ensures a != 1 || !forceBadFirst ==> Answers(generate, forceBadFirst)(a) == generate(a, false)
  {
    var bad := forceBadFirst && a == 1;
    assert bad == Forced(forceBadFirst, a);
  }

  /** Calls are numbered 1, 2, ..., m for the slot's index; a call is marked
      passed exactly when its attempt passed, with a blank metric, and a
      failed check logs the checker's metric. */
  lemma {:induction false} CallsReportAttempts(index: int, answers: nat -> GenOutcome, check: Retry.Check, corpus: seq<Review>, m: nat)
    ensures forall i :: 0 <= i < m ==>
      var call := Calls(index, answers, check, corpus, m)[i];
      && call.index == index && call.attempt == i + 1
      && (call.passed <==> Retry.AttemptPasses(answers(i + 1), check, corpus))
      && (call.passed ==> call.failedMetric == "")
      && (answers(i + 1).Produced? && !call.passed ==>
            call.failedMetric == check(answers(i + 1).review, corpus).failedMetric)
  {
    if m > 0 {
      CallsReportAttempts(index, answers, check, corpus, m - 1);
    }
  }

  /** An attempt that raised is logged as model "error", title "ERROR",
      failed, metric "exception", time 0. */
  lemma {:induction false} RaisedCalls(index: int, answers: nat -> GenOutcome, check: Retry.Check, corpus: seq<Review>, m: nat)
    ensures forall i :: 0 <= i < m && answers(i + 1).Raised? ==>
      var call := Calls(index, answers, check, corpus, m)[i];
      && call.data.model == Some("error") && call.data.title == Some("ERROR")
      && !call.passed && call.failedMetric == "exception" && call.genTime == 0.0
  {
    if m > 0 {
      RaisedCalls(index, answers, check, corpus, m - 1);
    }
  }

  /** A slot returns a review exactly when one of its attempts passes, and
      then it is the first passing attempt's review, which passed the
      check against the corpus it was given. */
  lemma SlotResultIsFirstPass(answers: nat -> GenOutcome, check: Retry.Check, corpus: seq<Review>, n: int)
    ensures SlotResult(answers, check, corpus, n).None? <==>
      forall a :: 1 <= a <= n ==> !Retry.AttemptPasses(answers(a), check, corpus)
    ensures SlotResult(answers, check, corpus, n).Some? ==>
      var a := SlotAttempts(answers, check, corpus, n);
      && 1 <= a <= n && answers(a).Produced?
      && SlotResult(answers, check, corpus, n).value == answers(a).review
      && check(answers(a).review, corpus).Passed?
      && forall b :: 1 <= b < a ==> !Retry.AttemptPasses(answers(b), check, corpus)
  {
    var passes := Retry.Passes(answers, check, corpus, n);
    if (forall a :: 1 <= a <= n ==> !Retry.AttemptPasses(answers(a), check, corpus)) {
      assert forall j :: 0 <= j < |passes| ==> !passes[j] by {
        forall j | 0 <= j < |passes| ensures !passes[j] {
          assert !Retry.AttemptPasses(answers(j + 1), check, corpus);
        }
      }
    }
    match Retry.FirstPass(passes)
    case None =>
      forall a | 1 <= a <= n ensures !Retry.AttemptPasses(answers(a), check, corpus) {
        assert !passes[a - 1];
      }
    case Some(k) =>
      assert passes[k];
      forall b | 1 <= b < k + 1 ensures !Retry.AttemptPasses(answers(b), check, corpus) {
        assert !passes[b - 1];
      }
  }

  /** Every review in `final_reviews` passed the check against exactly the
      reviews accepted before it, and there are at most as many as slots. */
  lemma {:induction false} CorpusOnlyPassed(generate: int -> (nat, bool) -> GenOutcome, force: int -> bool, check: Retry.Check, n: int, slots: nat)
    ensures var corpus := Corpus(generate, force, check, n, slots);
      && |corpus| <= slots
      && forall j :: 0 <= j < |corpus| ==> check(corpus[j], corpus[..j]).Passed?
  {
    if slots > 0 {
      var before := Corpus(generate, force, check, n, slots - 1);
      CorpusOnlyPassed(generate, force, check, n, slots - 1);
      var answers := Answers(generate(slots - 1), force(slots - 1));
      SlotResultIsFirstPass(answers, check, before, n);
      var corpus := Corpus(generate, force, check, n, slots);
      forall j | 0 <= j < |corpus| ensures check(corpus[j], corpus[..j]).Passed? {
        if j < |before| {
          assert corpus[j] == before[j] && corpus[..j] == before[..j];
        } else {
          assert corpus[..j] == before;
        }
      }
    }
  }

  /** `success_count + skipped_count == count`, and for a non-negative count
      no result is negative. */
  lemma CountsAddUp(generate: int -> (nat, bool) -> GenOutcome, force: int -> bool, check: Retry.Check, n: int, count: int)
    requires count >= 0
    ensures var success := |Corpus(generate, force, check, n, count)|;
      0 <= success <= count && 0 <= count - success
  {
    CorpusOnlyPassed(generate, force, check, n, count);
  }
}
