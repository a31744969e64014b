/** Tokenisation and set overlap used by the lexical diversity gate
    (quality/utils.py). */
module QualityUtils {
  import Text

  /** `text.lower().split()`: the tokens are non-empty, free of whitespace
      and lower-case. */
  function Tokenize(text: string): (r: seq<string>)
    ensures forall w :: w in r ==> Text.IsWord(w) && Text.IsLower(w)
  {
    TokensAreLowerWords(text);
    Text.Words(Text.Lower(text))
  }

  lemma TokensAreLowerWords(text: string)
    ensures forall w :: w in Text.Words(Text.Lower(text)) ==> Text.IsWord(w) && Text.IsLower(w)
  {
    var lo := Text.Lower(text);
    Text.WordsAreWords(lo);
    Text.LowerIsLower(text);
    forall w | w in Text.Words(lo) ensures Text.IsLower(w) {
      forall i | 0 <= i < |w| ensures Text.LowerChar(w[i]) == w[i] {
        assert w[i] in w;
        var j :| 0 <= j < |lo| && lo[j] == w[i];
      }
    }
  }

  /** `set(tokenize(text))` */
  function TokenSet(text: string): set<string> {
    set w | w in Tokenize(text)
  }

  /** Re-tokenising the space-joined tokens gives the same tokens. */
  lemma TokenizeRoundTrip(text: string)
    ensures Tokenize(Text.Join(Tokenize(text), " ")) == Tokenize(text)
  {
    var ts := Tokenize(text);
    assert forall i :: 0 <= i < |ts| ==> ts[i] in ts;
    Text.JoinIsLower(ts);
    Text.LowerOfLower(Text.Join(ts, " "));
    Text.WordsOfJoin(ts);
  }

  /** `|a & b| / |a | b|`, or 0 when the union is empty. */
  function Jaccard(a: set<string>, b: set<string>): (r: real)
    ensures 0.0 <= r <= 1.0
  {
    var inter := |a * b|;
    var union := |a + b|;
    SubsetCard(a * b, a + b);
    if union > 0 then inter as real / union as real else 0.0
  }

  lemma {:induction false} SubsetCard(x: set<string>, y: set<string>)
    requires x <= y
    ensures |x| <= |y|
    ensures |x| == |y| ==> x == y
    decreases |y|
  {
    if y != {} {
      var e :| e in y;
      SubsetCard(x - {e}, y - {e});
      if e in x {
        assert |x - {e}| == |x| - 1;
        assert x == (x - {e}) + {e};
        assert y == (y - {e}) + {e};
      } else {
        assert x - {e} == x;
      }
    }
  }

  /** Two empty sets have similarity 0. */
  lemma JaccardOfEmpty()
    ensures Jaccard({}, {}) == 0.0
  {
  }

  lemma JaccardSymmetric(a: set<string>, b: set<string>)
    ensures Jaccard(a, b) == Jaccard(b, a)
  {
    assert a * b == b * a;
    assert a + b == b + a;
  }

  /** A non-empty set is fully similar to itself. */
  lemma JaccardOfSelf(a: set<string>)
    requires a != {}
    ensures Jaccard(a, a) == 1.0
  {
    assert a * a == a;
    assert a + a == a;
  }

  /** Similarity 1 with a non-empty union only happens for equal sets. */
  lemma JaccardOneMeansEqual(a: set<string>, b: set<string>)
    requires a + b != {}
    requires Jaccard(a, b) == 1.0
    ensures a == b
  {
    var inter, union := |a * b|, |a + b|;
    assert union > 0;
    assert inter as real / union as real == 1.0;
    assert inter as real == union as real;
    SubsetCard(a * b, a + b);
    assert a * b == a + b;
  }
}
