/** The ordered quality gate (quality/checker.py, `QualityChecker.check_all`):
    all six gates are evaluated into the `checks` list, which is then
    scanned for the first failure. */
module Checker {
  import opened Wrappers
  import opened Types
  import Length
  import Diversity
  import Bias
  import Realism
  import Persona

  type NamedResult = (string, GateResult)

  /** The fixed order of the gates. */
  const GateOrder: seq<string> := ["length", "diversity", "semantic", "bias", "realism", "persona"]

  /** The dictionary `check_all` returns: `{"passed": True, "scores": ...}` or
      `{"passed": False, "failed_metric": ..., "score": ...}`. */
  datatype CheckResult = Passed(scores: map<string, real>) | Failed(failedMetric: string, score: real) {
    /** `result.get("failed_metric")` */
    function FailedMetric(): Option<string> {
      if Failed? then Some(failedMetric) else None
    }
  }

  /** `review.get("persona_keywords", [])` */
  function KeywordsOf(review: Review): seq<string> {
    review.personaKeywords.GetOr([])
  }

  /** The `checks` list: every gate's result, in the fixed order. */
  function Evaluate(review: Review, corpus: seq<Review>, t: Thresholds, o: Oracles): (checks: seq<NamedResult>)
    ensures |checks| == |GateOrder|
    ensures forall i :: 0 <= i < |checks| ==> checks[i].0 == GateOrder[i]
  {
    var text := review.reviewText;
    Named(Length.Check(text, t.minWords, t.maxWords),
          Diversity.Lexical(text, corpus, t.maxJaccard),
          Diversity.Semantic(text, corpus, t.maxSemantic, o.cosine),
          Bias.Check(review.rating, text, t.sentimentTolerance, o.polarity),
          Realism.Check(text, t.minRealism, o.judge),
          Persona.Check(text, KeywordsOf(review), t.minPersonaMatches))
  }

  /** The six results paired with their gate names. */
  function Named(length: GateResult, diversity: GateResult, semantic: GateResult,
                 bias: GateResult, realism: GateResult, persona: GateResult): seq<NamedResult>
  {
    [("length", length), ("diversity", diversity), ("semantic", semantic),
     ("bias", bias), ("realism", realism), ("persona", persona)]
  }

  /** `{name: r["score"] for name, r in checks}`: a later entry with the same
      name overwrites an earlier one. */
  function Scores(checks: seq<NamedResult>): map<string, real> {
    if |checks| == 0 then map[]
    else
      var last := checks[|checks| - 1];
      Scores(checks[..|checks| - 1])[last.0 := last.1.score]
  }

  /** The scan of `checks` from position `i` on. */
  function DecideFrom(checks: seq<NamedResult>, i: nat): CheckResult
    requires i <= |checks|
    decreases |checks| - i
  {
    if i == |checks| then Passed(Scores(checks))
    else if !checks[i].1.passed then Failed(checks[i].0, checks[i].1.score)
    else DecideFrom(checks, i + 1)
  }

  function Decide(checks: seq<NamedResult>): CheckResult {
    DecideFrom(checks, 0)
  }

  /** `check_all` */
  method CheckAll(review: Review, corpus: seq<Review>, t: Thresholds, o: Oracles) returns (r: CheckResult)
    ensures r == Decide(Evaluate(review, corpus, t, o))
    ensures r.Passed? <==> forall i :: 0 <= i < |GateOrder| ==> Evaluate(review, corpus, t, o)[i].1.passed
  {
    var text := review.reviewText;
    var lengthR := Length.Check(text, t.minWords, t.maxWords);
    var lexical := Diversity.Check(text, corpus, t.maxJaccard);
    var semanticR := Diversity.Semantic(text, corpus, t.maxSemantic, o.cosine);
    var biasR := Bias.Check(review.rating, text, t.sentimentTolerance, o.polarity);
    var realismR := Realism.Check(text, t.minRealism, o.judge);
    var personaR := Persona.Check(text, KeywordsOf(review), t.minPersonaMatches);
    var checks: seq<NamedResult> := [];
    checks := checks + [("length", lengthR)];
    assert checks == [("length", lengthR)];
    checks := checks + [("diversity", lexical)];
    assert checks == [("length", lengthR), ("diversity", lexical)];
    checks := checks + [("semantic", semanticR)];
    assert checks == [("length", lengthR), ("diversity", lexical), ("semantic", semanticR)];
    checks := checks + [("bias", biasR)];
    assert checks == [("length", lengthR), ("diversity", lexical), ("semantic", semanticR), ("bias", biasR)];
    checks := checks + [("realism", realismR)];
    assert checks == [("length", lengthR), ("diversity", lexical), ("semantic", semanticR), ("bias", biasR), ("realism", realismR)];
    checks := checks + [("persona", personaR)];
    assert checks == Named(lengthR, lexical, semanticR, biasR, realismR, personaR);
    PassedIffAllPassed(checks);
    for i := 0 to |checks|
      invariant Decide(checks) == DecideFrom(checks, i)
    {
      if !checks[i].1.passed {
        return Failed(checks[i].0, checks[i].1.score);
      }
    }
    return Passed(Scores(checks));
  }

  lemma {:induction false} PassedFromIff(checks: seq<NamedResult>, i: nat)
    requires i <= |checks|
    ensures DecideFrom(checks, i).Passed? <==> forall j :: i <= j < |checks| ==> checks[j].1.passed
    ensures DecideFrom(checks, i).Passed? ==> DecideFrom(checks, i).scores == Scores(checks)
    decreases |checks| - i
  {
    if i < |checks| {
      PassedFromIff(checks, i + 1);
    }
  }

  /** The overall verdict passes iff every gate passed, and then carries the
      score map of all of them. */
  lemma PassedIffAllPassed(checks: seq<NamedResult>)
    ensures Decide(checks).Passed? <==> forall j :: 0 <= j < |checks| ==> checks[j].1.passed
    ensures Decide(checks).Passed? ==> Decide(checks).scores == Scores(checks)
  {
    PassedFromIff(checks, 0);
  }

  lemma {:induction false} FirstFailureFrom(checks: seq<NamedResult>, i: nat, j: nat)
    requires i <= j < |checks|
    requires !checks[j].1.passed
    requires forall k :: i <= k < j ==> checks[k].1.passed
    ensures DecideFrom(checks, i) == Failed(checks[j].0, checks[j].1.score)
    decreases j - i
  {
    if i < j {
      FirstFailureFrom(checks, i + 1, j);
    }
  }

  /** On failure the verdict names the first failing gate and carries its
      score. */
  lemma FirstFailureReported(checks: seq<NamedResult>, j: nat)
    requires j < |checks|
    requires !checks[j].1.passed
    requires forall k :: 0 <= k < j ==> checks[k].1.passed
    ensures Decide(checks) == Failed(checks[j].0, checks[j].1.score)
  {
    FirstFailureFrom(checks, 0, j);
  }

  /** A failed verdict always comes from some gate that failed after all
      earlier gates passed. */
  lemma {:induction false} FailureHasFirstIndex(checks: seq<NamedResult>, i: nat)
    requires i <= |checks|
    requires DecideFrom(checks, i).Failed?
    ensures exists j :: (i <= j < |checks| && !checks[j].1.passed
      && (forall k :: i <= k < j ==> checks[k].1.passed)
      && DecideFrom(checks, i) == Failed(checks[j].0, checks[j].1.score))
    decreases |checks| - i
  {
    if checks[i].1.passed {
      FailureHasFirstIndex(checks, i + 1);
    }
  }

  /** The score map has one key per gate name listed. */
  lemma {:induction false} ScoresKeys(checks: seq<NamedResult>)
    ensures Scores(checks).Keys == set i | 0 <= i < |checks| :: checks[i].0
  {
    if |checks| > 0 {
      var n := |checks| - 1;
      var init := checks[..n];
      ScoresKeys(init);
      assert (set i | 0 <= i < |checks| :: checks[i].0)
          == (set i | 0 <= i < n :: init[i].0) + {checks[n].0};
    }
  }

  /** With distinct names, each name maps to its own gate's score. */
  lemma {:induction false} ScoresOfDistinct(checks: seq<NamedResult>)
    requires forall a, b :: 0 <= a < b < |checks| ==> checks[a].0 != checks[b].0
    ensures forall i :: 0 <= i < |checks| ==> checks[i].0 in Scores(checks) && Scores(checks)[checks[i].0] == checks[i].1.score
  {
    if |checks| > 0 {
      var n := |checks| - 1;
      var init := checks[..n];
      ScoresOfDistinct(init);
      forall i | 0 <= i < |checks| ensures checks[i].0 in Scores(checks) && Scores(checks)[checks[i].0] == checks[i].1.score {
        if i < n {
          assert checks[i] == init[i] && checks[i].0 != checks[n].0;
        }
      }
    }
  }

  /** For any six gate results: the verdict passes iff all six passed, and
      then maps exactly the six names to their scores. */
  lemma NamedVerdict(a: GateResult, b: GateResult, c: GateResult, d: GateResult, e: GateResult, f: GateResult)
    ensures var checks := Named(a, b, c, d, e, f);
      && (Decide(checks).Passed? <==> forall i :: 0 <= i < |GateOrder| ==> checks[i].1.passed)
      && (Decide(checks).Passed? ==>
            Decide(checks).scores.Keys == {"length", "diversity", "semantic", "bias", "realism", "persona"}
            && forall i :: 0 <= i < |GateOrder| ==> Decide(checks).scores[GateOrder[i]] == checks[i].1.score)
  {
    var checks := Named(a, b, c, d, e, f);
    PassedIffAllPassed(checks);
    NamesOfNamed(checks);
    ScoresKeys(checks);
    ScoresOfDistinct(checks);
  }

  /** The names of a `checks` list in the fixed order are the six gate
      names, each once. */
  lemma NamesOfNamed(checks: seq<NamedResult>)
    requires |checks| == |GateOrder| && forall i :: 0 <= i < |checks| ==> checks[i].0 == GateOrder[i]
    ensures forall a, b :: 0 <= a < b < |checks| ==> checks[a].0 != checks[b].0
    ensures (set i | 0 <= i < |checks| :: checks[i].0) == {"length", "diversity", "semantic", "bias", "realism", "persona"}
  {
    var names := set i | 0 <= i < |checks| :: checks[i].0;
    assert checks[0].0 == "length" && checks[1].0 == "diversity" && checks[2].0 == "semantic";
    assert checks[3].0 == "bias" && checks[4].0 == "realism" && checks[5].0 == "persona";
    assert names <= {"length", "diversity", "semantic", "bias", "realism", "persona"};
  }

  /** `check_all` passes iff all six gates pass; a passing result maps
      exactly the six gate names to their scores. */
  lemma VerdictOfAllGates(review: Review, corpus: seq<Review>, t: Thresholds, o: Oracles)
    ensures var checks := Evaluate(review, corpus, t, o);
      && (Decide(checks).Passed? <==> forall i :: 0 <= i < |GateOrder| ==> checks[i].1.passed)
      && (Decide(checks).Passed? ==>
            Decide(checks).scores.Keys == {"length", "diversity", "semantic", "bias", "realism", "persona"}
            && forall i :: 0 <= i < |GateOrder| ==> Decide(checks).scores[GateOrder[i]] == checks[i].1.score)
  {
    var text := review.reviewText;
    NamedVerdict(Length.Check(text, t.minWords, t.maxWords),
                 Diversity.Lexical(text, corpus, t.maxJaccard),
                 Diversity.Semantic(text, corpus, t.maxSemantic, o.cosine),
                 Bias.Check(review.rating, text, t.sentimentTolerance, o.polarity),
                 Realism.Check(text, t.minRealism, o.judge),
                 Persona.Check(text, KeywordsOf(review), t.minPersonaMatches));
  }

  /** A failing `check_all` reports the first failing gate in the order
      length, diversity, semantic, bias, realism, persona, with that gate's
      score. */
  lemma FailureIsFirstInOrder(review: Review, corpus: seq<Review>, t: Thresholds, o: Oracles)
    requires Decide(Evaluate(review, corpus, t, o)).Failed?
    ensures var checks := Evaluate(review, corpus, t, o);
      exists j :: (0 <= j < |GateOrder| && !checks[j].1.passed
        && (forall k :: 0 <= k < j ==> checks[k].1.passed)
        && Decide(checks) == Failed(GateOrder[j], checks[j].1.score))
  {
    FailureHasFirstIndex(Evaluate(review, corpus, t, o), 0);
  }

  /** A text that is too short is reported as a length failure whatever the
      other gates say. */
  lemma LengthFailureWins(review: Review, corpus: seq<Review>, t: Thresholds, o: Oracles)
    requires !Length.Check(review.reviewText, t.minWords, t.maxWords).passed
    ensures Decide(Evaluate(review, corpus, t, o))
      == Failed("length", Length.Check(review.reviewText, t.minWords, t.maxWords).score)
  {
    FirstFailureReported(Evaluate(review, corpus, t, o), 0);
  }

  /** A review without `persona_keywords` passes the persona gate with
      score 0. */
  lemma MissingKeywordsPass(review: Review, corpus: seq<Review>, t: Thresholds, o: Oracles)
    requires review.personaKeywords.None?
    ensures Evaluate(review, corpus, t, o)[5] == ("persona", GateResult(true, 0.0))
  {
  }

  /** Every gate is evaluated whatever the earlier ones returned: each
      entry is its gate's own result, so, for one, the realism judge is
      always consulted. */
  lemma EveryGateEvaluated(review: Review, corpus: seq<Review>, t: Thresholds, o: Oracles)
    ensures var checks, text := Evaluate(review, corpus, t, o), review.reviewText;
      && checks[0].1 == Length.Check(text, t.minWords, t.maxWords)
      && checks[1].1 == Diversity.Lexical(text, corpus, t.maxJaccard)
      && checks[2].1 == Diversity.Semantic(text, corpus, t.maxSemantic, o.cosine)
      && checks[3].1 == Bias.Check(review.rating, text, t.sentimentTolerance, o.polarity)
      && checks[4].1 == Realism.Check(text, t.minRealism, o.judge)
      && checks[5].1 == Persona.Check(text, KeywordsOf(review), t.minPersonaMatches)
  {
    var text := review.reviewText;
    EvaluateIsNamed(review, corpus, t, o);
    NamedEntries(Length.Check(text, t.minWords, t.maxWords),
                 Diversity.Lexical(text, corpus, t.maxJaccard),
                 Diversity.Semantic(text, corpus, t.maxSemantic, o.cosine),
                 Bias.Check(review.rating, text, t.sentimentTolerance, o.polarity),
                 Realism.Check(text, t.minRealism, o.judge),
                 Persona.Check(text, KeywordsOf(review), t.minPersonaMatches));
  }

  lemma NamedEntries(a: GateResult, b: GateResult, c: GateResult, d: GateResult, e: GateResult, f: GateResult)
    ensures var checks := Named(a, b, c, d, e, f);
      |checks| == 6 && checks[0].1 == a && checks[1].1 == b && checks[2].1 == c
      && checks[3].1 == d && checks[4].1 == e && checks[5].1 == f
  {
  }

  lemma EvaluateIsNamed(review: Review, corpus: seq<Review>, t: Thresholds, o: Oracles)
    ensures var text := review.reviewText;
      Evaluate(review, corpus, t, o) == Named(Length.Check(text, t.minWords, t.maxWords),
          Diversity.Lexical(text, corpus, t.maxJaccard),
          Diversity.Semantic(text, corpus, t.maxSemantic, o.cosine),
          Bias.Check(review.rating, text, t.sentimentTolerance, o.polarity),
          Realism.Check(text, t.minRealism, o.judge),
          Persona.Check(text, KeywordsOf(review), t.minPersonaMatches))
  {
  }

  /** On an empty corpus the two similarity gates pass, so, for example, a
      review within the length bounds, inside the sentiment band and above
      the realism threshold with no keywords is accepted. */
  lemma EmptyCorpusScenario(review: Review, t: Thresholds, o: Oracles)
    requires Length.Check(review.reviewText, t.minWords, t.maxWords).passed
    requires Bias.Check(review.rating, review.reviewText, t.sentimentTolerance, o.polarity).passed
    requires Realism.Check(review.reviewText, t.minRealism, o.judge).passed
    requires KeywordsOf(review) == []
    ensures Decide(Evaluate(review, [], t, o)).Passed?
  {
    PassedIffAllPassed(Evaluate(review, [], t, o));
  }
}
