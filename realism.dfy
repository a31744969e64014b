/** The realism gate (quality/realism.py, `RealismMetric.check`). The judge
    call and the `float(...)` parse of its reply are the oracle
    `judge`, whose None stands for any exception on that path. */
module Realism {
  import opened Wrappers
  import opened Types

  /** The score reported when the judge or the parse fails. */
  const FailOpenScore: real := 7.0

  function Check(text: string, minScore: real, judge: string -> Option<real>): GateResult {
    match judge(text)
    case Some(score) => GateResult(score >= minScore, score)
    case None => GateResult(true, FailOpenScore)
  }

  /** With a parsed number, the gate passes iff it reaches the minimum, and
      reports that number; on any error it passes with score 7.0. */
  lemma Decision(text: string, minScore: real, judge: string -> Option<real>)
    ensures judge(text).Some? ==>
      Check(text, minScore, judge) == GateResult(judge(text).value >= minScore, judge(text).value)
    ensures judge(text).None? ==> Check(text, minScore, judge) == GateResult(true, 7.0)
  {
  }

  /** The gate only ever fails on a number the judge actually returned
      below the minimum: it fails open. */
  lemma FailsOnlyOnLowScore(text: string, minScore: real, judge: string -> Option<real>)
    requires !Check(text, minScore, judge).passed
    ensures judge(text).Some? && judge(text).value < minScore
  {
  }
}
