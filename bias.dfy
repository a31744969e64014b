/** The sentiment gate (src/quality/bias.py, `BiasMetric`). TextBlob's
    polarity is the oracle `polarity`. */
module Bias {
  import opened Wrappers
  import opened Types

  type Band = (real, real)

  /** The rating -> expected polarity band table, `self.ranges`, as its
      entries in insertion order. */
  const Ranges: seq<(real, Band)> := [
    (5.0, (0.3, 1.0)),
    (4.5, (0.2, 1.0)),
    (4.0, (0.1, 0.8)),
    (3.5, (-0.1, 0.6)),
    (3.0, (-0.3, 0.5)),
    (2.5, (-0.5, 0.3)),
    (2.0, (-0.7, 0.2)),
    (1.5, (-0.9, 0.0)),
    (1.0, (-1.0, -0.2))]

  /** The band used for a rating missing from the table. */
  const DefaultBand: Band := (-0.3, 0.5)

  /** The rating is a key of the table. */
  predicate Known(rating: real) {
    exists i :: 0 <= i < |Ranges| && Ranges[i].0 == rating
  }

  /** `dict.get` on a list of entries: the band of the first entry with key
      `rating`, if any. */
  function Lookup(entries: seq<(real, Band)>, rating: real): (r: Option<Band>)
    ensures r.None? <==> forall i :: 0 <= i < |entries| ==> entries[i].0 != rating
    ensures r.Some? ==> exists i :: 0 <= i < |entries| && entries[i] == (rating, r.value)
  {
    if |entries| == 0 then None
    else if entries[0].0 == rating then Some(entries[0].1)
    else
      var r := Lookup(entries[1..], rating);
      assert r.Some? ==> exists i :: 0 <= i < |entries[1..]| && entries[1..][i] == (rating, r.value);
      r
  }

  /** `self.ranges.get(rating, (-0.3, 0.5))` */
  function BandOf(rating: real): Band {
    Lookup(Ranges, rating).GetOr(DefaultBand)
  }

  /** Passes iff `low - tolerance <= polarity <= high + tolerance`; the score
      is the polarity. */
  function Check(rating: real, text: string, tolerance: real, polarity: string -> real): GateResult {
    var (low, high) := BandOf(rating);
    var sentiment := polarity(text);
    GateResult(low - tolerance <= sentiment <= high + tolerance, sentiment)
  }

  /** An unknown rating is judged against the neutral 3.0 band. */
  lemma UnknownRatingIsNeutral(rating: real)
    requires !Known(rating)
    ensures BandOf(rating) == DefaultBand == BandOf(3.0)
  {
    assert Ranges[4].0 == 3.0;
  }

  /** Each table entry is the band of its own rating, so no rating is
      listed twice. */
  lemma {:induction false} BandOfEntry(i: nat)
    requires i < |Ranges|
    ensures BandOf(Ranges[i].0) == Ranges[i].1
  {
    assert forall j :: 0 <= j < |Ranges| && j != i ==> Ranges[j].0 != Ranges[i].0;
    assert forall j :: 0 <= j < |Ranges| && Ranges[j] == (Ranges[i].0, BandOf(Ranges[i].0)) ==> j == i;
  }

  /** The table is monotone: low bounds strictly increase with the rating,
      high bounds never decrease, and every band is non-empty. */
  lemma TableIsMonotone(i: nat, j: nat)
    requires i < |Ranges| && j < |Ranges|
    ensures Ranges[i].1.0 < Ranges[i].1.1
    ensures Ranges[i].0 < Ranges[j].0 ==> Ranges[i].1.0 < Ranges[j].1.0 && Ranges[i].1.1 <= Ranges[j].1.1
  {
  }

  /** Every band the check can use is non-empty. */
  lemma BandIsNonEmpty(rating: real)
    ensures BandOf(rating).0 < BandOf(rating).1
  {
    if Known(rating) {
      var i :| 0 <= i < |Ranges| && Ranges[i] == (rating, BandOf(rating));
      TableIsMonotone(i, i);
    }
  }

  /** With non-negative tolerance, a polarity on either bound of the band
      passes. */
  lemma BoundsPass(rating: real, text: string, tolerance: real, polarity: string -> real)
    requires tolerance >= 0.0
    requires polarity(text) == BandOf(rating).0 || polarity(text) == BandOf(rating).1
    ensures Check(rating, text, tolerance, polarity).passed
  {
    BandIsNonEmpty(rating);
  }

  /** A polarity outside the widened band fails, one inside passes, and the
      score is always the measured polarity. */
  lemma OutsideFails(rating: real, text: string, tolerance: real, polarity: string -> real)
    ensures Check(rating, text, tolerance, polarity).score == polarity(text)
    ensures Check(rating, text, tolerance, polarity).passed <==>
      BandOf(rating).0 - tolerance <= polarity(text) <= BandOf(rating).1 + tolerance
  {
  }
}
