/** The word-count gate (quality/length.py, `LengthMetric.check`). */
module Length {
  import opened Types
  import Text

  /** Passes iff `minWords <= count <= maxWords`, where count is the number of
      whitespace-separated words; the score is that count. */
  function Check(text: string, minWords: int, maxWords: int): GateResult {
    var count := |Text.Words(text)|;
    GateResult(minWords <= count <= maxWords, count as real)
  }

  /** The score is a non-negative whole number: the word count. */
  lemma ScoreIsWordCount(text: string, minWords: int, maxWords: int)
    ensures Check(text, minWords, maxWords).score >= 0.0
    ensures Check(text, minWords, maxWords).score == |Text.Words(text)| as real
  {
  }

  predicate IsBlank(text: string) {
    forall i :: 0 <= i < |text| ==> Text.IsSpace(text[i])
  }

  lemma {:induction false} BlankHasNoWords(text: string)
    requires IsBlank(text)
    ensures Text.Words(text) == []
  {
    if |text| > 0 {
      BlankHasNoWords(text[1..]);
    }
  }

  /** An empty or whitespace-only text scores 0 and fails as soon as at least
      one word is required. */
  lemma BlankTextFails(text: string, minWords: int, maxWords: int)
    requires IsBlank(text)
    ensures Check(text, minWords, maxWords).score == 0.0
    ensures minWords > 0 ==> !Check(text, minWords, maxWords).passed
  {
    BlankHasNoWords(text);
  }

  /** With inverted bounds no text passes. */
  lemma InvertedBoundsRejectAll(text: string, minWords: int, maxWords: int)
    requires minWords > maxWords
    ensures !Check(text, minWords, maxWords).passed
  {
  }

  /** A text made of n words joined by single spaces scores n, and so
      passes exactly when n lies within the bounds. */
  lemma JoinedWordsScore(words: seq<string>, minWords: int, maxWords: int)
    requires forall i :: 0 <= i < |words| ==> Text.IsWord(words[i])
    ensures Check(Text.Join(words, " "), minWords, maxWords).score == |words| as real
    ensures Check(Text.Join(words, " "), minWords, maxWords).passed <==> minWords <= |words| <= maxWords
  {
    Text.WordsOfJoin(words);
  }
}
