/** The persona keyword gate (quality/persona.py, `PersonaMetric.check`). */
module Persona {
  import opened Types
  import Text

  /** `keyword.lower() in text.lower()` */
  predicate Hit(text: string, keyword: string) {
    Text.Contains(Text.Lower(text), Text.Lower(keyword))
  }

  /** `sum(1 for keyword in keywords if ...)`: the number of keywords that
      occur case-insensitively in the text, each occurrence in the list
      counted on its own. */
  function Matches(text: string, keywords: seq<string>): (n: nat)
    ensures n <= |keywords|
  {
    if |keywords| == 0 then 0
    else
      var last := keywords[|keywords| - 1];
      Matches(text, keywords[..|keywords| - 1]) + (if Hit(text, last) then 1 else 0)
  }

  /** An empty keyword list passes with score 0; otherwise the gate passes
      iff at least `minMatches` keywords occur. */
  function Check(text: string, keywords: seq<string>, minMatches: int): GateResult {
    if |keywords| == 0 then GateResult(true, 0.0)
    else
      var matches := Matches(text, keywords);
      GateResult(matches >= minMatches, matches as real)
  }

  /** The score lies between 0 and the number of keywords. */
  lemma ScoreBounds(text: string, keywords: seq<string>, minMatches: int)
    ensures 0.0 <= Check(text, keywords, minMatches).score <= |keywords| as real
  {
  }

  /** Counting is additive over the keyword list, so a keyword listed twice
      counts twice. */
  lemma {:induction false} MatchesAppend(text: string, ks1: seq<string>, ks2: seq<string>)
    ensures Matches(text, ks1 + ks2) == Matches(text, ks1) + Matches(text, ks2)
    decreases |ks2|
  {
    if |ks2| > 0 {
      var n := |ks2| - 1;
      assert (ks1 + ks2)[..|ks1 + ks2| - 1] == ks1 + ks2[..n];
      MatchesAppend(text, ks1, ks2[..n]);
    } else {
      assert ks1 + ks2 == ks1;
    }
  }

  /** A keyword that occurs and is listed twice contributes 2. */
  lemma DuplicateCountsTwice(text: string, ks: seq<string>, k: string)
    requires Hit(text, k)
    ensures Matches(text, ks + [k, k]) == Matches(text, ks) + 2
  {
    MatchesAppend(text, ks, [k, k]);
    assert [k, k][..1] == [k];
  }

  /** The count does not depend on letter case, of the text or of the
      keywords. */
  lemma {:induction false} MatchesIgnoresCase(t1: string, t2: string, ks1: seq<string>, ks2: seq<string>)
    requires Text.Lower(t1) == Text.Lower(t2)
    requires |ks1| == |ks2|
    requires forall i :: 0 <= i < |ks1| ==> Text.Lower(ks1[i]) == Text.Lower(ks2[i])
    ensures Matches(t1, ks1) == Matches(t2, ks2)
    decreases |ks1|
  {
    if |ks1| > 0 {
      var n := |ks1| - 1;
      MatchesIgnoresCase(t1, t2, ks1[..n], ks2[..n]);
    }
  }

  /** The gate's verdict and score do not depend on letter case. */
  lemma CheckIgnoresCase(t1: string, t2: string, ks1: seq<string>, ks2: seq<string>, minMatches: int)
    requires Text.Lower(t1) == Text.Lower(t2)
    requires |ks1| == |ks2|
    requires forall i :: 0 <= i < |ks1| ==> Text.Lower(ks1[i]) == Text.Lower(ks2[i])
    ensures Check(t1, ks1, minMatches) == Check(t2, ks2, minMatches)
  {
    MatchesIgnoresCase(t1, t2, ks1, ks2);
  }

  /** In particular, lower-casing the text changes nothing. */
  lemma CheckOfLowerText(text: string, keywords: seq<string>, minMatches: int)
    ensures Check(Text.Lower(text), keywords, minMatches) == Check(text, keywords, minMatches)
  {
    Text.LowerIsLower(text);
    CheckIgnoresCase(Text.Lower(text), text, keywords, keywords, minMatches);
  }
}
