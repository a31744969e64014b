/** `score_review` of generator/quality.py: 0.4 for pros of more than ten
    words, 0.4 for cons of more than ten words and 0.2 for a title of more
    than three words. */
module Score {
  import Text

  /** The criteria, as `len(s.split()) > limit`. */
  predicate LongPros(pros: string) { |Text.Words(pros)| > 10 }
  predicate LongCons(cons: string) { |Text.Words(cons)| > 10 }
  predicate LongTitle(title: string) { |Text.Words(title)| > 3 }

  /** `score_review(review)` for a review with these `pros`, `cons` and
      `title`. The sum is exact here; the source's `round(score, 2)` turns
      the floating-point sum into the same two-decimal value. */
  function ScoreReview(pros: string, cons: string, title: string): (score: real)
    ensures score in {0.0, 0.2, 0.4, 0.6, 0.8, 1.0}
    ensures 0.0 <= score <= 1.0
    ensures score == 1.0 <==> LongPros(pros) && LongCons(cons) && LongTitle(title)
    ensures score == 0.0 <==> !LongPros(pros) && !LongCons(cons) && !LongTitle(title)
  {
    var afterPros := 0.0 + (if LongPros(pros) then 0.4 else 0.0);
    var afterCons := afterPros + (if LongCons(cons) then 0.4 else 0.0);
    afterCons + (if LongTitle(title) then 0.2 else 0.0)
  }

  /** Both pros and cons are long exactly when the score reaches 0.8: the
      title alone can add at most 0.2. */
  lemma BothSidesIffHigh(pros: string, cons: string, title: string)
    ensures ScoreReview(pros, cons, title) >= 0.8 <==> LongPros(pros) && LongCons(cons)
  {
  }

  /** The title decides the last 0.2 and nothing else: the score with a long
      title is the score with a short one plus 0.2. */
  lemma TitleAddsTwoTenths(pros: string, cons: string, shortTitle: string, longTitle: string)
    requires !LongTitle(shortTitle) && LongTitle(longTitle)
    ensures ScoreReview(pros, cons, longTitle) == ScoreReview(pros, cons, shortTitle) + 0.2
  {
  }

  /** The pros limit is strict: pros made of n words earn 0.4 exactly when
      n > 10, so ten words earn nothing. */
  lemma ProsLimitIsStrict(words: seq<string>, cons: string, title: string)
    requires forall i :: 0 <= i < |words| ==> Text.IsWord(words[i])
    ensures ScoreReview(Text.Join(words, " "), cons, title) ==
      ScoreReview("", cons, title) + (if |words| > 10 then 0.4 else 0.0)
  {
    Text.WordsOfJoin(words);
    assert Text.Words("") == [];
  }
}
