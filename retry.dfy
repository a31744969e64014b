/** What the three retry loops share: attempts 1, 2, ..., n are tried in
    order and the loop stops at the first one that passes. `passes[i]` says
    whether attempt i + 1 would pass. */
module Retry {
  import opened Wrappers
  import opened Types
  import Checker

  /** A quality checker's `check_all`, as a function of the candidate and
      the corpus it is compared with. The loops hold it and call it. */
  type Check = (Review, seq<Review>) -> Checker.CheckResult

  /** `QualityChecker(config).check_all`. */
  function Judge(t: Thresholds, o: Oracles): Check {
    (review, corpus) => Checker.Decide(Checker.Evaluate(review, corpus, t, o))
  }

  /** The number of attempts `range(1, n + 1)` and `while attempts < n`
      allow. */
  function Budget(n: int): nat {
    if n < 0 then 0 else n
  }

  /** The check of one generator outcome: a raised exception never
      passes. */
  predicate AttemptPasses(outcome: GenOutcome, check: Check, corpus: seq<Review>) {
    outcome.Produced? && check(outcome.review, corpus).Passed?
  }

  /** Whether attempt i + 1 would pass, for each of the n allowed attempts,
      when the generator's answers are `generate(1)`, `generate(2)`, ... */
  function Passes(generate: nat -> GenOutcome, check: Check, corpus: seq<Review>, n: int): seq<bool> {
    seq(Budget(n), i requires 0 <= i => AttemptPasses(generate(i + 1), check, corpus))
  }

  /** The position of the first passing attempt, if any. */
  function FirstPass(passes: seq<bool>): (r: Option<nat>)
    ensures r.Some? ==> r.value < |passes| && passes[r.value]
    ensures r.Some? ==> forall j :: 0 <= j < r.value ==> !passes[j]
    ensures r.None? <==> forall j :: 0 <= j < |passes| ==> !passes[j]
  {
    if |passes| == 0 then None
    else if passes[0] then Some(0)
    else
      match FirstPass(passes[1..])
      case None => None
      case Some(k) => Some(k + 1)
  }

  /** How many attempts the loop makes: up to and including the first
      passing one, or all of them. */
  function Made(passes: seq<bool>): nat {
    match FirstPass(passes)
    case Some(k) => k + 1
    case None => |passes|
  }

  /** At most n attempts are made, and no attempt after a passing one. */
  lemma MadeBounds(passes: seq<bool>)
    ensures Made(passes) <= |passes|
    ensures forall j :: 0 <= j < Made(passes) - 1 ==> !passes[j]
    ensures Made(passes) < |passes| ==> passes[Made(passes) - 1]
  {
  }

  /** The first pass is the unique position that passes after a run of
      failures. */
  lemma FirstPassIsUnique(passes: seq<bool>, k: nat)
    requires k < |passes| && passes[k]
    requires forall j :: 0 <= j < k ==> !passes[j]
    ensures FirstPass(passes) == Some(k)
  {
  }

  /** A slot that keeps failing makes every attempt; one that passes on
      attempt k + 1 makes exactly k + 1. */
  lemma MadeExact(passes: seq<bool>, k: nat)
    ensures (forall j :: 0 <= j < |passes| ==> !passes[j]) ==> Made(passes) == |passes|
    ensures k < |passes| && passes[k] && (forall j :: 0 <= j < k ==> !passes[j]) ==> Made(passes) == k + 1
  {
    if k < |passes| && passes[k] && (forall j :: 0 <= j < k ==> !passes[j]) {
      FirstPassIsUnique(passes, k);
    }
  }

  /** Extending the attempts by one moves the first pass only when there
      was none. */
  lemma FirstPassSnoc(passes: seq<bool>, x: bool)
    ensures FirstPass(passes + [x]) ==
      if FirstPass(passes).Some? then FirstPass(passes) else if x then Some(|passes|) else None
  {
    var longer := passes + [x];
    assert forall j :: 0 <= j < |passes| ==> longer[j] == passes[j];
    match FirstPass(passes)
    case Some(k) =>
      FirstPassIsUnique(longer, k);
    case None =>
      if x {
        FirstPassIsUnique(longer, |passes|);
      }
  }
}
