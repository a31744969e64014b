/** The two similarity gates (quality/diversity.py): the lexical
    `DiversityMetric`, a running maximum of Jaccard similarities over the
    corpus, and the `SemanticMetric`, whose TF-IDF cosine computation is the
    oracle `cosine`. */
module Diversity {
  import opened Types
  import opened QualityUtils

  /** Similarity of the candidate's token set to one corpus text. */
  function Similarity(current: set<string>, text: string): real {
    Jaccard(current, TokenSet(text))
  }

  /** The running maximum `max_sim`, started at 0.0, after folding
      `max(max_sim, sim)` over `texts` in order. It is the largest
      similarity to any text, or 0 for no texts. */
  function MaxSimilarity(current: set<string>, texts: seq<string>): (r: real)
    ensures 0.0 <= r <= 1.0
    ensures forall i :: 0 <= i < |texts| ==> Similarity(current, texts[i]) <= r
    ensures r == 0.0 || exists i :: 0 <= i < |texts| && r == Similarity(current, texts[i])
  {
    if |texts| == 0 then 0.0
    else
      var prev := MaxSimilarity(current, texts[..|texts| - 1]);
      var sim := Similarity(current, texts[|texts| - 1]);
      if prev >= sim then prev else sim
  }

  lemma StepMax(current: set<string>, texts: seq<string>)
    requires |texts| > 0
    ensures MaxSimilarity(current, texts) ==
      var prev := MaxSimilarity(current, texts[..|texts| - 1]);
      var sim := Similarity(current, texts[|texts| - 1]);
      if prev >= sim then prev else sim
  {
  }

  /** What `DiversityMetric.check` returns. */
  function Lexical(text: string, corpus: seq<Review>, maxJaccard: real): GateResult {
    if |corpus| == 0 then GateResult(true, 0.0)
    else
      var m := MaxSimilarity(TokenSet(text), Texts(corpus));
      GateResult(m <= maxJaccard, m)
  }

  /** `DiversityMetric.check`: the loop over the corpus keeping a running
      maximum. */
  method Check(text: string, corpus: seq<Review>, maxJaccard: real) returns (g: GateResult)
    ensures g == Lexical(text, corpus, maxJaccard)
  {
    if |corpus| == 0 {
      return GateResult(true, 0.0);
    }
    var current := TokenSet(text);
    var maxSim := 0.0;
    for i := 0 to |corpus|
      invariant maxSim == MaxSimilarity(current, Texts(corpus)[..i])
    {
      var words := TokenSet(corpus[i].reviewText);
      var sim := Jaccard(current, words);
      CorpusStep(current, corpus, i);
      maxSim := if maxSim >= sim then maxSim else sim;
    }
    assert Texts(corpus)[..|corpus|] == Texts(corpus);
    g := GateResult(maxSim <= maxJaccard, maxSim);
  }

  /** One turn of the loop in `Check`: the maximum over one more corpus
      entry. */
  lemma CorpusStep(current: set<string>, corpus: seq<Review>, i: nat)
    requires i < |corpus|
    ensures MaxSimilarity(current, Texts(corpus)[..i + 1]) ==
      var prev := MaxSimilarity(current, Texts(corpus)[..i]);
      var sim := Jaccard(current, TokenSet(corpus[i].reviewText));
      if prev >= sim then prev else sim
  {
    var upTo := Texts(corpus)[..i + 1];
    assert upTo[..i] == Texts(corpus)[..i];
    assert upTo[i] == corpus[i].reviewText;
    StepMax(current, upTo);
  }

  /** What `SemanticMetric.check` returns: an empty corpus or a vectorizer
      error passes with score 0; otherwise the gate passes iff the maximum
      cosine is at most `maxSimilarity`. */
  function Semantic(text: string, corpus: seq<Review>, maxSimilarity: real,
                    cosine: (string, seq<string>) -> VectorOutcome): GateResult
  {
    if |corpus| == 0 then GateResult(true, 0.0)
    else
      match cosine(text, Texts(corpus))
      case MaxCosine(s) => GateResult(s <= maxSimilarity, s)
      case VectorizerError => GateResult(true, 0.0)
  }

  /** On a non-empty corpus the lexical score is the largest similarity to
      any corpus entry, and the gate passes iff it is at most `maxJaccard`. */
  lemma LexicalIsMaximum(text: string, corpus: seq<Review>, maxJaccard: real)
    requires corpus != []
    ensures var g := Lexical(text, corpus, maxJaccard);
      && (g.passed <==> g.score <= maxJaccard)
      && (forall i :: 0 <= i < |corpus| ==> Similarity(TokenSet(text), corpus[i].reviewText) <= g.score)
      && (g.score == 0.0 || exists i :: 0 <= i < |corpus| && g.score == Similarity(TokenSet(text), corpus[i].reviewText))
  {
    assert forall i :: 0 <= i < |corpus| ==> Texts(corpus)[i] == corpus[i].reviewText;
  }

  /** Both gates pass with score 0 on an empty corpus. */
  lemma EmptyCorpusPasses(text: string, maxJaccard: real, maxSimilarity: real,
                          cosine: (string, seq<string>) -> VectorOutcome)
    ensures Lexical(text, [], maxJaccard) == GateResult(true, 0.0)
    ensures Semantic(text, [], maxSimilarity, cosine) == GateResult(true, 0.0)
  {
  }

  /** The semantic gate fails only when the corpus is non-empty, the
      vectorizer produced a value, and that value is above the threshold. */
  lemma SemanticFailsOnlyAboveThreshold(text: string, corpus: seq<Review>, maxSimilarity: real,
                                        cosine: (string, seq<string>) -> VectorOutcome)
    ensures !Semantic(text, corpus, maxSimilarity, cosine).passed <==>
      (corpus != [] && cosine(text, Texts(corpus)).MaxCosine? &&
       cosine(text, Texts(corpus)).similarity > maxSimilarity)
    ensures corpus != [] && cosine(text, Texts(corpus)).VectorizerError? ==>
      Semantic(text, corpus, maxSimilarity, cosine) == GateResult(true, 0.0)
  {
  }

  /** A candidate whose non-empty token set equals that of some corpus entry
      scores 1, and fails whenever the threshold is below 1. */
  lemma DuplicateFails(text: string, corpus: seq<Review>, j: nat, maxJaccard: real)
    requires j < |corpus|
    requires TokenSet(text) != {}
    requires TokenSet(corpus[j].reviewText) == TokenSet(text)
    ensures Lexical(text, corpus, maxJaccard).score == 1.0
    ensures maxJaccard < 1.0 ==> !Lexical(text, corpus, maxJaccard).passed
  {
    JaccardOfSelf(TokenSet(text));
    assert Texts(corpus)[j] == corpus[j].reviewText;
    assert Similarity(TokenSet(text), Texts(corpus)[j]) == 1.0;
  }

  /** The same text submitted again after it entered the corpus scores 1. */
  lemma ResubmissionFails(text: string, corpus: seq<Review>, r: Review, maxJaccard: real)
    requires r.reviewText == text
    requires TokenSet(text) != {}
    ensures Lexical(text, corpus + [r], maxJaccard).score == 1.0
    ensures maxJaccard < 1.0 ==> !Lexical(text, corpus + [r], maxJaccard).passed
  {
    DuplicateFails(text, corpus + [r], |corpus|, maxJaccard);
  }

  /** Appending texts to the corpus never lowers the score. */
  lemma AppendNeverLowers(current: set<string>, a: seq<string>, b: seq<string>)
    ensures MaxSimilarity(current, a) <= MaxSimilarity(current, a + b)
  {
    var r := MaxSimilarity(current, a);
    if r != 0.0 {
      var i :| 0 <= i < |a| && r == Similarity(current, a[i]);
      assert (a + b)[i] == a[i];
    }
  }

  /** The score does not depend on the order of the corpus. */
  lemma OrderIrrelevant(current: set<string>, a: seq<string>, b: seq<string>)
    requires multiset(a) == multiset(b)
    ensures MaxSimilarity(current, a) == MaxSimilarity(current, b)
  {
    BoundedByOther(current, a, b);
    BoundedByOther(current, b, a);
  }

  lemma BoundedByOther(current: set<string>, a: seq<string>, b: seq<string>)
    requires multiset(a) == multiset(b)
    ensures MaxSimilarity(current, a) <= MaxSimilarity(current, b)
  {
    var r := MaxSimilarity(current, a);
    if r != 0.0 {
      var i :| 0 <= i < |a| && r == Similarity(current, a[i]);
      assert a[i] in multiset(b);
      var j :| 0 <= j < |b| && b[j] == a[i];
    }
  }

  /** Appending one review never lowers the lexical score. */
  lemma CorpusGrowthNeverLowers(text: string, corpus: seq<Review>, r: Review, maxJaccard: real)
    ensures Lexical(text, corpus, maxJaccard).score <= Lexical(text, corpus + [r], maxJaccard).score
  {
    assert Texts(corpus + [r]) == Texts(corpus) + [r.reviewText];
    AppendNeverLowers(TokenSet(text), Texts(corpus), [r.reviewText]);
  }
}
