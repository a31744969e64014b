/** The attempt log and the review files of the pipeline
    (generator/storage.py, `ReviewStorage`). The CSV log file is the `log`
    field; the JSON files written by `save_all_reviews` are its results. */
module Storage {
  import opened Wrappers
  import opened Types
  import Text
  import Length

  /** One CSV row of the attempt log, without its timestamp. */
  datatype LogRow = LogRow(
    index: int,
    attempt: int,
    model: string,
    title: string,
    passed: bool,
    failedMetric: string,
    generationTime: real,
    rating: real,
    wordCount: nat,
    lowQualityForced: bool,
    reviewPassedQuality: bool)

  /** `len(review_text.split()) if review_text else 0`, with
      `review_text = review_data.get('review_text', '')`. */
  function WordCount(text: Option<string>): nat {
    var t := text.GetOr("");
    if t == "" then 0 else |Text.Words(t)|
  }

  /** `failed_metric if failed_metric else ''` */
  function MetricColumn(failedMetric: Option<string>): string {
    match failedMetric
    case Some(m) => m
    case None => ""
  }

  /** The row `log_attempt` appends for one attempt. */
  function Row(index: int, attempt: int, data: ReviewData, passed: bool, failedMetric: Option<string>,
               generationTime: real, lowQualityForced: bool): LogRow
  {
    LogRow(index, attempt,
      data.provider.GetOr("unknown") + "/" + data.model.GetOr("unknown"),
      data.title.GetOr("N/A"),
      passed,
      MetricColumn(failedMetric),
      generationTime,
      data.rating.GetOr(0.0),
      WordCount(data.reviewText),
      lowQualityForced,
      passed)
  }

  /** The columns of a row: the model column is provider/model with
      "unknown" for a missing part, a missing title is "N/A", a missing
      rating is 0, a missing or empty metric is blank, and the passed flag
      is written twice. */
  lemma RowColumns(index: int, attempt: int, data: ReviewData, passed: bool, failedMetric: Option<string>,
                   generationTime: real, lowQualityForced: bool)
    ensures var row := Row(index, attempt, data, passed, failedMetric, generationTime, lowQualityForced);
      && Text.StartsWith(row.model, data.provider.GetOr("unknown") + "/")
      && row.model[|data.provider.GetOr("unknown")| + 1..] == data.model.GetOr("unknown")
      && (data.provider.None? ==> Text.StartsWith(row.model, "unknown/"))
      && (data.title.None? ==> row.title == "N/A")
      && (data.rating.None? ==> row.rating == 0.0)
      && (failedMetric.None? || failedMetric == Some("") ==> row.failedMetric == "")
      && (failedMetric.Some? ==> row.failedMetric == failedMetric.value)
      && row.reviewPassedQuality == row.passed == passed
  {
    var p := data.provider.GetOr("unknown");
    var m := Row(index, attempt, data, passed, failedMetric, generationTime, lowQualityForced).model;
    assert m == (p + "/") + data.model.GetOr("unknown");
    assert m[..|p + "/"|] == p + "/";
  }

  /** The word count column is 0 for missing or blank text, and otherwise
      the number of whitespace-separated words, which is the score the
      length gate gives the same text. */
  lemma WordCountIsLengthScore(text: Option<string>, minWords: int, maxWords: int)
    ensures text.None? ==> WordCount(text) == 0
    ensures text.Some? ==> WordCount(text) as real == Length.Check(text.value, minWords, maxWords).score
  {
  }

  /** A logged review's rating, title and word count are read from the
      review itself. */
  lemma RowOfReview(index: int, attempt: int, r: Review, passed: bool, failedMetric: Option<string>,
                    generationTime: real, lowQualityForced: bool)
    ensures var row := Row(index, attempt, DataOf(r), passed, failedMetric, generationTime, lowQualityForced);
      && row.title == r.title && row.rating == r.rating
      && row.wordCount == |Text.Words(r.reviewText)|
  {
  }

  /** The by-model key of a review: `f"{provider}/{model}"`, with a missing
      provider written as "unknown". */
  function ModelKey(r: Review): string {
    r.provider.GetOr("unknown") + "/" + r.model
  }

  /** The reviews with the given key, in input order. */
  function InGroup(reviews: seq<Review>, key: string): (g: seq<Review>)
    ensures |g| <= |reviews|
    ensures forall x :: x in g ==> x in reviews && ModelKey(x) == key
  {
    if |reviews| == 0 then []
    else
      var last := reviews[|reviews| - 1];
      InGroup(reviews[..|reviews| - 1], key) + (if ModelKey(last) == key then [last] else [])
  }

  /** The keys of `reviews`, in order of first appearance. */
  function KeysInOrder(reviews: seq<Review>): (ks: seq<string>)
    ensures forall i, j :: 0 <= i < j < |ks| ==> ks[i] != ks[j]
    ensures forall k :: k in ks <==> exists i :: 0 <= i < |reviews| && ModelKey(reviews[i]) == k
  {
    if |reviews| == 0 then []
    else
      var prev := KeysInOrder(reviews[..|reviews| - 1]);
      var k := ModelKey(reviews[|reviews| - 1]);
      assert forall x :: x in prev ==> exists i :: 0 <= i < |reviews| && ModelKey(reviews[i]) == x by {
        forall x | x in prev ensures exists i :: 0 <= i < |reviews| && ModelKey(reviews[i]) == x {
          var i :| 0 <= i < |reviews| - 1 && ModelKey(reviews[..|reviews| - 1][i]) == x;
          assert ModelKey(reviews[i]) == x;
        }
      }
      assert forall i :: 0 <= i < |reviews| - 1 ==> ModelKey(reviews[i]) in prev by {
        forall i | 0 <= i < |reviews| - 1 ensures ModelKey(reviews[i]) in prev {
          assert ModelKey(reviews[..|reviews| - 1][i]) == ModelKey(reviews[i]);
        }
      }
      if k in prev then prev else prev + [k]
  }

  /** The sizes of the groups listed in `ks`. */
  function SizeSum(reviews: seq<Review>, ks: seq<string>): nat {
    if |ks| == 0 then 0 else SizeSum(reviews, ks[..|ks| - 1]) + |InGroup(reviews, ks[|ks| - 1])|
  }

  /** The number of times `x` is listed in `ks`. */
  function Occurrences(ks: seq<string>, x: string): nat {
    if |ks| == 0 then 0 else Occurrences(ks[..|ks| - 1], x) + (if ks[|ks| - 1] == x then 1 else 0)
  }

  lemma {:induction false} OccursOnce(ks: seq<string>, x: string)
    requires forall i, j :: 0 <= i < j < |ks| ==> ks[i] != ks[j]
    ensures Occurrences(ks, x) == if x in ks then 1 else 0
  {
    if |ks| > 0 {
      var n := |ks| - 1;
      OccursOnce(ks[..n], x);
      assert ks == ks[..n] + [ks[n]];
      if ks[n] == x {
        assert x !in ks[..n];
      }
    }
  }

  lemma {:induction false} SizeSumStep(reviews: seq<Review>, r: Review, ks: seq<string>)
    ensures SizeSum(reviews + [r], ks) == SizeSum(reviews, ks) + Occurrences(ks, ModelKey(r))
  {
    if |ks| > 0 {
      var n := |ks| - 1;
      SizeSumStep(reviews, r, ks[..n]);
      assert (reviews + [r])[..|reviews|] == reviews;
    }
  }

  /** Summing the sizes of the groups of distinct keys that cover every
      review counts each review once. */
  lemma {:induction false} SizesCoverReviews(reviews: seq<Review>, ks: seq<string>)
    requires forall i, j :: 0 <= i < j < |ks| ==> ks[i] != ks[j]
    requires forall i :: 0 <= i < |reviews| ==> ModelKey(reviews[i]) in ks
    ensures SizeSum(reviews, ks) == |reviews|
  {
    if |reviews| == 0 {
      SizeSumOfNone(ks);
    } else {
      var n := |reviews| - 1;
      SizesCoverReviews(reviews[..n], ks);
      assert reviews == reviews[..n] + [reviews[n]];
      SizeSumStep(reviews[..n], reviews[n], ks);
      OccursOnce(ks, ModelKey(reviews[n]));
    }
  }

  lemma {:induction false} SizeSumOfNone(ks: seq<string>)
    ensures SizeSum([], ks) == 0
  {
    if |ks| > 0 {
      SizeSumOfNone(ks[..|ks| - 1]);
    }
  }

  class ReviewStorage {
    /** The rows appended to the run's CSV log, after its header. */
    var log: seq<LogRow>

    constructor ()
      ensures log == []
    {
      log := [];
    }

    /** `log_attempt`: appends the row for one attempt. */
    method LogAttempt(index: int, attempt: int, data: ReviewData, passed: bool, failedMetric: Option<string>,
                      generationTime: real, lowQualityForced: bool)
      modifies this
      ensures log == old(log) + [Row(index, attempt, data, passed, failedMetric, generationTime, lowQualityForced)]
    {
      log := log + [Row(index, attempt, data, passed, failedMetric, generationTime, lowQualityForced)];
    }

    /** The `by_model` grouping of `save_all_reviews`: a dictionary from key
        to reviews, and its keys in insertion order. Every review lands in
        the group of its own key, in input order, and the groups' sizes add
        up to the number of reviews. */
    method SaveAllReviews(reviews: seq<Review>) returns (byModel: map<string, seq<Review>>, order: seq<string>)
      ensures order == KeysInOrder(reviews)
      ensures forall k :: k in byModel <==> k in order
      ensures forall k :: k in byModel ==> byModel[k] == InGroup(reviews, k)
      ensures SizeSum(reviews, order) == |reviews|
    {
      byModel, order := map[], [];
      for i := 0 to |reviews|
        invariant Grouped(reviews[..i], byModel, order)
      {
        byModel, order := AddToGroup(reviews, i, byModel, order);
      }
      assert reviews[..|reviews|] == reviews;
      assert forall j :: 0 <= j < |reviews| ==> ModelKey(reviews[j]) in order;
      SizesCoverReviews(reviews, order);
    }
  }

  /** The `by_model` dictionary and its key order after grouping `reviews`. */
  ghost predicate Grouped(reviews: seq<Review>, byModel: map<string, seq<Review>>, order: seq<string>) {
    && order == KeysInOrder(reviews)
    && (forall k :: k in byModel <==> k in order)
    && (forall k :: k in byModel ==> byModel[k] == InGroup(reviews, k))
  }

  /** One turn of the loop of `save_all_reviews`: a new key gets an empty
      list first, then the review is appended to its key's list. */
  method AddToGroup(reviews: seq<Review>, i: nat, byModel: map<string, seq<Review>>, order: seq<string>)
    returns (byModel': map<string, seq<Review>>, order': seq<string>)
    requires i < |reviews| && Grouped(reviews[..i], byModel, order)
    ensures Grouped(reviews[..i + 1], byModel', order')
  {
    var review := reviews[i];
    var fullKey := ModelKey(review);
    PrefixKeys(reviews, i);
    byModel', order' := byModel, order;
    if fullKey !in byModel' {
      NewKeyHasEmptyGroup(reviews[..i], fullKey);
      byModel' := byModel'[fullKey := []];
      order' := order' + [fullKey];
    }
    byModel' := byModel'[fullKey := byModel'[fullKey] + [review]];
    forall k | k in byModel' ensures byModel'[k] == InGroup(reviews[..i + 1], k) {
      PrefixGroup(reviews, i, k);
    }
  }

  /** Extending the prefix by one review adds its key unless it is known. */
  lemma PrefixKeys(reviews: seq<Review>, i: nat)
    requires i < |reviews|
    ensures KeysInOrder(reviews[..i + 1]) ==
      var ks := KeysInOrder(reviews[..i]);
      if ModelKey(reviews[i]) in ks then ks else ks + [ModelKey(reviews[i])]
  {
    assert reviews[..i + 1][..i] == reviews[..i];
  }

  /** Extending the prefix by one review appends it to its key's group. */
  lemma PrefixGroup(reviews: seq<Review>, i: nat, k: string)
    requires i < |reviews|
    ensures InGroup(reviews[..i + 1], k) ==
      InGroup(reviews[..i], k) + (if ModelKey(reviews[i]) == k then [reviews[i]] else [])
  {
    assert reviews[..i + 1][..i] == reviews[..i];
  }

  lemma {:induction false} NewKeyHasEmptyGroup(reviews: seq<Review>, key: string)
    requires key !in KeysInOrder(reviews)
    ensures InGroup(reviews, key) == []
  {
    if |reviews| > 0 {
      var n := |reviews| - 1;
      assert ModelKey(reviews[n]) != key;
      assert key !in KeysInOrder(reviews[..n]);
      NewKeyHasEmptyGroup(reviews[..n], key);
    }
  }

  /** Every review is in the group of its own key and in no other. */
  lemma InExactlyOneGroup(reviews: seq<Review>, i: nat, key: string)
    requires i < |reviews|
    ensures reviews[i] in InGroup(reviews, ModelKey(reviews[i]))
    ensures key != ModelKey(reviews[i]) ==> reviews[i] !in InGroup(reviews, key)
  {
    GroupHasMember(reviews, i);
  }

  lemma {:induction false} GroupHasMember(reviews: seq<Review>, i: nat)
    requires i < |reviews|
    ensures reviews[i] in InGroup(reviews, ModelKey(reviews[i]))
  {
    var n := |reviews| - 1;
    if i < n {
      GroupHasMember(reviews[..n], i);
    }
  }

  /** Grouping keeps input order: the group of a key is the subsequence of
      the reviews at exactly the positions holding that key, taken in
      increasing order of position. */
  lemma GroupKeepsOrder(reviews: seq<Review>, key: string)
    ensures exists idx: seq<nat> ::
      && |idx| == |InGroup(reviews, key)|
      && (forall p, q :: 0 <= p < q < |idx| ==> idx[p] < idx[q])
      && (forall p :: 0 <= p < |idx| ==> idx[p] < |reviews| && InGroup(reviews, key)[p] == reviews[idx[p]])
      && (forall i :: 0 <= i < |reviews| ==> (ModelKey(reviews[i]) == key <==> i in idx))
  {
    var idx := GroupPositions(reviews, key);
  }

  /** `idx` lists, in increasing order, exactly the positions of `reviews`
      holding `key`, and `g` is the reviews at those positions. */
  ghost predicate Positions(reviews: seq<Review>, key: string, g: seq<Review>, idx: seq<nat>)
  {
    && |idx| == |g|
    && (forall p, q :: 0 <= p < q < |idx| ==> idx[p] < idx[q])
    && (forall p :: 0 <= p < |idx| ==> idx[p] < |reviews| && g[p] == reviews[idx[p]])
    && (forall i :: 0 <= i < |reviews| ==> (ModelKey(reviews[i]) == key <==> i in idx))
  }

  /** The positions the group of `key` is taken from. */
  lemma {:induction false} GroupPositions(reviews: seq<Review>, key: string) returns (idx: seq<nat>)
    ensures Positions(reviews, key, InGroup(reviews, key), idx)
  {
    if |reviews| == 0 {
      idx := [];
    } else {
      var prev := GroupPositions(reviews[..|reviews| - 1], key);
      idx := PositionsStep(reviews, key, prev);
    }
  }

  /** One more review extends the positions of its key's group by its own. */
  lemma PositionsStep(reviews: seq<Review>, key: string, prev: seq<nat>) returns (idx: seq<nat>)
    requires |reviews| > 0
    requires Positions(reviews[..|reviews| - 1], key, InGroup(reviews[..|reviews| - 1], key), prev)
    ensures Positions(reviews, key, InGroup(reviews, key), idx)
  {
    var n := |reviews| - 1;
    var init := reviews[..n];
    var g0 := InGroup(init, key);
    var last := reviews[n];
    assert InGroup(reviews, key) == g0 + (if ModelKey(last) == key then [last] else []);
    forall i | 0 <= i < n
      ensures init[i] == reviews[i]
    {
    }
    if ModelKey(last) == key {
      idx := prev + [n];
      var g := g0 + [last];
      forall p | 0 <= p < |idx|
        ensures idx[p] < |reviews| && g[p] == reviews[idx[p]]
      {
        if p < |prev| {
          assert idx[p] == prev[p] && g[p] == g0[p];
        }
      }
    } else {
      idx := prev;
      assert InGroup(reviews, key) == g0;
    }
  }
}
