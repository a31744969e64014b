/** The quality and comparison reports of src/reports.py: one pass over the
    metrics CSV that counts attempts, passes and failure reasons
    (`generate_quality_report`), and the per-file statistics of the
    comparison report (`analyze`). Rendering to markdown and the charts are
    not modelled; the statistics they show are. */
module QualityReport {
  import opened Wrappers
  import opened Types
  import Tally
  import Text

  /** A row of the metrics CSV as `csv.DictReader` reads it. The numeric
      columns are taken as already parsed by `int(...)` and `float(...)`;
      `failedMetric` is None when the file has no `failed_metric` column. */
  datatype CsvRecord = CsvRecord(reviewIndex: int, passed: string, rating: real, wordCount: int, failedMetric: Option<string>)

  /** `row["passed"].lower() == "true"` */
  predicate IsPassed(row: CsvRecord) {
    Text.Lower(row.passed) == "true"
  }

  /** `row.get("failed_metric", "unknown")` */
  function MetricOf(row: CsvRecord): string {
    row.failedMetric.GetOr("unknown")
  }

  function Sum(values: seq<real>): real {
    if |values| == 0 then 0.0 else Sum(values[..|values| - 1]) + values[|values| - 1]
  }

  /** `_avg(values)`, before rounding: the mean, and 0 for no values. */
  function Avg(values: seq<real>): (r: real)
    ensures |values| == 0 ==> r == 0.0
  {
    if |values| == 0 then 0.0 else Sum(values) / |values| as real
  }

  /** `min(values)` */
  function Min(values: seq<real>): (r: real)
    requires |values| > 0
    ensures r in values && forall i :: 0 <= i < |values| ==> r <= values[i]
  {
    if |values| == 1 then values[0]
    else
      var m := Min(values[..|values| - 1]);
      if values[|values| - 1] < m then values[|values| - 1] else m
  }

  /** `max(values)` */
  function Max(values: seq<real>): (r: real)
    requires |values| > 0
    ensures r in values && forall i :: 0 <= i < |values| ==> values[i] <= r
  {
    if |values| == 1 then values[0]
    else
      var m := Max(values[..|values| - 1]);
      if values[|values| - 1] > m then values[|values| - 1] else m
  }

  /** The mean lies between the smallest and the largest value. */
  lemma AvgBetween(values: seq<real>)
    requires |values| > 0
    ensures Min(values) <= Avg(values) <= Max(values)
  {
    MeanBetween(values, Min(values), Max(values));
  }

  /** Values within bounds have their mean within the same bounds. */
  lemma MeanBetween(values: seq<real>, lo: real, hi: real)
    requires |values| > 0 && forall i :: 0 <= i < |values| ==> lo <= values[i] <= hi
    ensures lo <= Sum(values) / |values| as real <= hi
  {
    SumBetween(values, lo, hi);
    QuotientBetween(Sum(values), |values| as real, lo, hi);
  }

  /** Dividing bounds by a positive n. */
  lemma QuotientBetween(x: real, n: real, lo: real, hi: real)
    requires n > 0.0 && lo * n <= x <= hi * n
    ensures lo <= x / n <= hi
  {
    assert x / n - lo == (x - lo * n) / n;
    assert hi - x / n == (hi * n - x) / n;
    NonNegQuotient(x - lo * n, n);
    NonNegQuotient(hi * n - x, n);
  }

  lemma NonNegQuotient(a: real, n: real)
    requires a >= 0.0 && n > 0.0
    ensures a / n >= 0.0
  {
  }

  lemma {:induction false} SumBetween(values: seq<real>, lo: real, hi: real)
    requires forall i :: 0 <= i < |values| ==> lo <= values[i] <= hi
    ensures lo * |values| as real <= Sum(values) <= hi * |values| as real
  {
    if |values| > 0 {
      SumBetween(values[..|values| - 1], lo, hi);
    }
  }

  function Reals(xs: seq<int>): (rs: seq<real>)
    ensures |rs| == |xs| && forall i :: 0 <= i < |xs| ==> rs[i] == xs[i] as real
  {
    if |xs| == 0 then [] else Reals(xs[..|xs| - 1]) + [xs[|xs| - 1] as real]
  }

  /** The counters of `generate_quality_report` after reading some rows. */
  datatype Summary = Summary(
    attempts: nat,
    passed: nat,
    ratings: seq<real>,
    wordCounts: seq<int>,
    failedMetrics: Tally.Counts,
    reviewIds: set<int>)

  /** The counters after reading `rows` in order. */
  function Scan(rows: seq<CsvRecord>): Summary {
    if |rows| == 0 then Summary(0, 0, [], [], [], {})
    else
      var s, row := Scan(rows[..|rows| - 1]), rows[|rows| - 1];
      var s1 := s.(attempts := s.attempts + 1, reviewIds := s.reviewIds + {row.reviewIndex});
      if IsPassed(row) then s1.(passed := s.passed + 1, ratings := s.ratings + [row.rating], wordCounts := s.wordCounts + [row.wordCount])
      else s1.(failedMetrics := Tally.Bump(s.failedMetrics, MetricOf(row)))
  }

  /** The reasons of the failed rows, in order. */
  function FailureReasons(rows: seq<CsvRecord>): seq<string> {
    if |rows| == 0 then []
    else FailureReasons(rows[..|rows| - 1]) + (if IsPassed(rows[|rows| - 1]) then [] else [MetricOf(rows[|rows| - 1])])
  }

  /** The rows that passed, in order. */
  function PassedRows(rows: seq<CsvRecord>): seq<CsvRecord> {
    if |rows| == 0 then []
    else PassedRows(rows[..|rows| - 1]) + (if IsPassed(rows[|rows| - 1]) then [rows[|rows| - 1]] else [])
  }

  /** The reading loop of `generate_quality_report`. */
  method Summarize(rows: seq<CsvRecord>) returns (s: Summary)
    ensures s == Scan(rows)
  {
    var attempts, passed := 0, 0;
    var ratings, wordCounts := [], [];
    var failedMetrics: Tally.Counts := [];
    var reviewIds: set<int> := {};
    for i := 0 to |rows|
      invariant Summary(attempts, passed, ratings, wordCounts, failedMetrics, reviewIds) == Scan(rows[..i])
    {
      var row := rows[i];
      assert rows[..i + 1][..i] == rows[..i];
      attempts := attempts + 1;
      reviewIds := reviewIds + {row.reviewIndex};
      if Text.Lower(row.passed) == "true" {
        passed := passed + 1;
        ratings := ratings + [row.rating];
        wordCounts := wordCounts + [row.wordCount];
      } else {
        var metric := row.failedMetric.GetOr("unknown");
        failedMetrics := Tally.Bump(failedMetrics, metric);
      }
    }
    assert rows[..|rows|] == rows;
    s := Summary(attempts, passed, ratings, wordCounts, failedMetrics, reviewIds);
  }

  /** Every row is an attempt; each passed row contributes its rating and
      word count, each failed row one count to its reason (in first-seen
      order). */
  lemma {:induction false} ScanCounts(rows: seq<CsvRecord>)
    ensures var s := Scan(rows);
      && s.attempts == |rows|
      && s.passed == |PassedRows(rows)|
      && s.attempts == s.passed + |FailureReasons(rows)|
      && s.failedMetrics == Tally.Count(FailureReasons(rows))
      && |s.ratings| == |s.wordCounts| == s.passed
      && (forall k :: 0 <= k < s.passed ==> s.ratings[k] == PassedRows(rows)[k].rating && s.wordCounts[k] == PassedRows(rows)[k].wordCount)
  {
    if |rows| > 0 {
      var init := rows[..|rows| - 1];
      ScanCounts(init);
      if !IsPassed(rows[|rows| - 1]) {
        var reasons := FailureReasons(rows);
        assert reasons == FailureReasons(init) + [MetricOf(rows[|rows| - 1])];
        assert reasons[..|reasons| - 1] == FailureReasons(init);
        assert Tally.Count(reasons) == Tally.Bump(Tally.Count(FailureReasons(init)), MetricOf(rows[|rows| - 1]));
      } else {
        assert FailureReasons(rows) == FailureReasons(init);
        assert Scan(rows).failedMetrics == Scan(init).failedMetrics;
        assert PassedRows(rows) == PassedRows(init) + [rows[|rows| - 1]];
      }
    }
  }

  /** The review ids are the distinct `review_index` values, at most one
      per row. */
  lemma {:induction false} ScanIds(rows: seq<CsvRecord>)
    ensures var s := Scan(rows);
      && (forall x :: x in s.reviewIds <==> exists i :: 0 <= i < |rows| && rows[i].reviewIndex == x)
      && |s.reviewIds| <= |rows|
  {
    if |rows| > 0 {
      var init, row := rows[..|rows| - 1], rows[|rows| - 1];
      ScanIds(init);
      var s := Scan(rows);
      assert s.reviewIds == Scan(init).reviewIds + {row.reviewIndex};
      forall x ensures x in s.reviewIds <==> exists i :: 0 <= i < |rows| && rows[i].reviewIndex == x {
        if x in Scan(init).reviewIds {
          var i :| 0 <= i < |init| && init[i].reviewIndex == x;
          assert rows[i] == init[i];
        }
        if exists i :: 0 <= i < |rows| && rows[i].reviewIndex == x {
          var i :| 0 <= i < |rows| && rows[i].reviewIndex == x;
          if i < |init| {
            assert init[i] == rows[i];
          }
        }
      }
      assert |Scan(init).reviewIds + {row.reviewIndex}| <= |Scan(init).reviewIds| + 1;
    }
  }

  /** Every failure is counted under its reason, and the counts add up to
      the number of failed rows. */
  lemma FailureCounts(rows: seq<CsvRecord>)
    ensures var s := Scan(rows);
      && Tally.Distinct(s.failedMetrics)
      && s.attempts == s.passed + Tally.Total(s.failedMetrics)
      && forall m :: Tally.Get(s.failedMetrics, m) == Tally.Occurrences(FailureReasons(rows), m)
  {
    ScanCounts(rows);
    Tally.CountIsOccurrences(FailureReasons(rows));
  }

  /** The review metrics section: present only when a row passed. */
  datatype Metrics = Metrics(avgRating: real, minRating: real, maxRating: real, avgWords: real, minWords: real, maxWords: real)

  /** The figures `generate_quality_report` writes. */
  datatype Stats = Stats(
    totalReviews: nat,
    attempts: nat,
    passed: nat,
    skipped: int,
    successRate: real,
    metrics: Option<Metrics>,
    failedMetrics: Tally.Counts)

  /** The figures computed from the counters. */
  function Report(s: Summary): Stats {
    var total := |s.reviewIds|;
    var words := Reals(s.wordCounts);
    Stats(total, s.attempts, s.passed, total - s.passed,
      if total > 0 then s.passed as real / total as real * 100.0 else 0.0,
      if |s.ratings| > 0 && |words| > 0
      then Some(Metrics(Avg(s.ratings), Min(s.ratings), Max(s.ratings), Avg(words), Min(words), Max(words)))
      else None,
      Tally.SortDesc(s.failedMetrics))
  }

  /** `generate_quality_report` without the file handling: read the rows,
      then compute the figures. */
  method GenerateQualityReport(rows: seq<CsvRecord>) returns (stats: Stats)
    ensures stats == Report(Scan(rows))
  {
    var s := Summarize(rows);
    stats := Report(s);
  }

  /** The figures of the quality report agree with each other: the attempts
      are the rows and split into passes and counted failures; reviews are
      distinct ids, at most one per attempt; skipped is reviews minus passes;
      no rows give a 0 success rate; the metrics section appears exactly
      when something passed and each mean lies between its minimum and
      maximum; failure reasons are listed largest count first, with the
      same counts as were tallied. */
  lemma ReportFigures(rows: seq<CsvRecord>)
    ensures var s, st := Scan(rows), Report(Scan(rows));
      && st.attempts == |rows| == st.passed + Tally.Total(s.failedMetrics)
      && st.totalReviews <= st.attempts
      && st.skipped == st.totalReviews - st.passed
      && (|rows| == 0 ==> st.totalReviews == 0 && st.successRate == 0.0 && st.metrics.None?)
      && (st.metrics.Some? <==> st.passed > 0)
      && (st.metrics.Some? ==>
            && st.metrics.value.minRating <= st.metrics.value.avgRating <= st.metrics.value.maxRating
            && st.metrics.value.minWords <= st.metrics.value.avgWords <= st.metrics.value.maxWords)
      && Tally.NonIncreasing(st.failedMetrics)
      && multiset(st.failedMetrics) == multiset(s.failedMetrics)
  {
    var s := Scan(rows);
    ScanCounts(rows);
    ScanIds(rows);
    FailureCounts(rows);
    Tally.SortDescSorts(s.failedMetrics);
    if s.passed > 0 {
      AvgBetween(s.ratings);
      AvgBetween(Reals(s.wordCounts));
    }
  }

  /** A row counts as passed whatever the case of "true"; any other value
      (e.g. "1" or "yes") counts as a failure. */
  lemma PassedIgnoresCase()
    ensures IsPassed(CsvRecord(0, "True", 0.0, 0, None)) && IsPassed(CsvRecord(0, "TRUE", 0.0, 0, None))
    ensures !IsPassed(CsvRecord(0, "1", 0.0, 0, None))
  {
    assert Text.Lower("True") == "true";
    assert Text.Lower("TRUE") == "true";
  }

  /** When no review index passes twice (as the quality loop ensures: a
      slot stops at its first pass), passes never exceed reviews, so
      skipped is never negative and the success rate at most 100. */
  lemma PassesAtMostReviews(rows: seq<CsvRecord>)
    requires forall i, j :: 0 <= i < j < |rows| && IsPassed(rows[i]) && IsPassed(rows[j]) ==> rows[i].reviewIndex != rows[j].reviewIndex
    ensures var st := Report(Scan(rows));
      st.passed <= st.totalReviews && st.skipped >= 0 && 0.0 <= st.successRate <= 100.0
  {
    var s := Scan(rows);
    PassedIdsInReviewIds(rows);
    SubsetCard(PassedIds(rows), s.reviewIds);
    PassedIdsCount(rows);
    RateAtMost100(s.passed, |s.reviewIds|);
  }

  /** passed / total * 100 lies in [0, 100] when passed <= total. */
  lemma RateAtMost100(passed: nat, total: nat)
    requires passed <= total
    ensures 0.0 <= (if total > 0 then passed as real / total as real * 100.0 else 0.0) <= 100.0
  {
    if total > 0 {
      QuotientBetween(passed as real, total as real, 0.0, 1.0);
    }
  }

  /** The review indices of the passed rows. */
  function PassedIds(rows: seq<CsvRecord>): set<int> {
    if |rows| == 0 then {}
    else PassedIds(rows[..|rows| - 1]) + (if IsPassed(rows[|rows| - 1]) then {rows[|rows| - 1].reviewIndex} else {})
  }

  /** An index is a passed id exactly when some passed row carries it. */
  lemma {:induction false} PassedIdsMembers(rows: seq<CsvRecord>)
    ensures forall x :: x in PassedIds(rows) <==> exists i :: 0 <= i < |rows| && IsPassed(rows[i]) && rows[i].reviewIndex == x
  {
    if |rows| > 0 {
      var init := rows[..|rows| - 1];
      PassedIdsMembers(init);
      forall x ensures x in PassedIds(rows) <==> exists i :: 0 <= i < |rows| && IsPassed(rows[i]) && rows[i].reviewIndex == x {
        if x in PassedIds(init) {
          var i :| 0 <= i < |init| && IsPassed(init[i]) && init[i].reviewIndex == x;
          assert rows[i] == init[i];
        }
        if exists i :: 0 <= i < |rows| && IsPassed(rows[i]) && rows[i].reviewIndex == x {
          var i :| 0 <= i < |rows| && IsPassed(rows[i]) && rows[i].reviewIndex == x;
          if i < |init| {
            assert init[i] == rows[i];
          }
        }
      }
    }
  }

  lemma PassedIdsInReviewIds(rows: seq<CsvRecord>)
    ensures PassedIds(rows) <= Scan(rows).reviewIds
  {
    PassedIdsMembers(rows);
    ScanIds(rows);
  }

  /** With no index passing twice, there are as many passed ids as passes. */
  lemma {:induction false} PassedIdsCount(rows: seq<CsvRecord>)
    requires forall i, j :: 0 <= i < j < |rows| && IsPassed(rows[i]) && IsPassed(rows[j]) ==> rows[i].reviewIndex != rows[j].reviewIndex
    ensures |PassedIds(rows)| == Scan(rows).passed
  {
    if |rows| > 0 {
      var init, row := rows[..|rows| - 1], rows[|rows| - 1];
      PassedIdsCount(init);
      if IsPassed(row) {
        forall i | 0 <= i < |init| && IsPassed(init[i]) ensures init[i].reviewIndex != row.reviewIndex {
          assert rows[i] == init[i];
        }
        PassedIdsMembers(init);
        assert row.reviewIndex !in PassedIds(init);
      }
    }
  }

  lemma SubsetCard(a: set<int>, b: set<int>)
    requires a <= b
    ensures |a| <= |b|
  {
    assert b == a + (b - a);
  }

  // The comparison report.

  /** What `analyze` returns for one file of reviews. */
  datatype Analysis = Analysis(
    count: nat,
    avgRating: real,
    minRating: real,
    maxRating: real,
    avgWords: real,
    minWords: real,
    maxWords: real,
    topTitleWords: Tally.Counts)

  function Ratings(reviews: seq<CleanReview>): (rs: seq<real>)
    ensures |rs| == |reviews| && forall i :: 0 <= i < |reviews| ==> rs[i] == reviews[i].rating
  {
    if |reviews| == 0 then [] else Ratings(reviews[..|reviews| - 1]) + [reviews[|reviews| - 1].rating]
  }

  function WordCounts(reviews: seq<CleanReview>): (ws: seq<real>)
    ensures |ws| == |reviews| && forall i :: 0 <= i < |reviews| ==> ws[i] == |Text.Words(reviews[i].reviewText)| as real
  {
    if |reviews| == 0 then [] else WordCounts(reviews[..|reviews| - 1]) + [|Text.Words(reviews[|reviews| - 1].reviewText)| as real]
  }

  function Titles(reviews: seq<CleanReview>): (ts: seq<string>)
    ensures |ts| == |reviews| && forall i :: 0 <= i < |reviews| ==> ts[i] == reviews[i].title
  {
    if |reviews| == 0 then [] else Titles(reviews[..|reviews| - 1]) + [reviews[|reviews| - 1].title]
  }

  /** `analyze(reviews)`, before rounding the means. */
  function Analyze(reviews: seq<CleanReview>): Analysis {
    var ratings, words := Ratings(reviews), WordCounts(reviews);
    Analysis(|reviews|,
      Avg(ratings), if |ratings| > 0 then Min(ratings) else 0.0, if |ratings| > 0 then Max(ratings) else 0.0,
      Avg(words), if |words| > 0 then Min(words) else 0.0, if |words| > 0 then Max(words) else 0.0,
      Tally.MostCommon(Text.Words(Text.Join(Titles(reviews), " ")), 10))
  }

  /** `analyze` counts the reviews; with none, every figure is 0 and there
      are no title words; otherwise each mean lies between its minimum and
      maximum, which are the values of some review. At most ten title
      words are listed, each once, most frequent first, each with its count
      among the words of all titles: ten of them, or every distinct word
      when there are fewer. No word left out occurs more often than the
      last one listed, and words of equal count come in the order they
      first occur. */
  lemma AnalyzeFigures(reviews: seq<CleanReview>)
    ensures var a := Analyze(reviews);
      && a.count == |reviews|
      && (|reviews| == 0 ==>
            a.avgRating == a.minRating == a.maxRating == a.avgWords == a.minWords == a.maxWords == 0.0 && a.topTitleWords == [])
      && (|reviews| > 0 ==>
            && a.minRating <= a.avgRating <= a.maxRating
            && a.minWords <= a.avgWords <= a.maxWords
            && (exists i :: 0 <= i < |reviews| && reviews[i].rating == a.minRating)
            && (exists i :: 0 <= i < |reviews| && reviews[i].rating == a.maxRating))
      && |a.topTitleWords| <= 10
      && Tally.NonIncreasing(a.topTitleWords)
      && Tally.Distinct(a.topTitleWords)
      && var words := Text.Words(Text.Join(Titles(reviews), " "));
         && (forall i :: 0 <= i < |a.topTitleWords| ==>
               a.topTitleWords[i].0 in words && a.topTitleWords[i].1 == Tally.Occurrences(words, a.topTitleWords[i].0))
         && |a.topTitleWords| == (if |Tally.Count(words)| <= 10 then |Tally.Count(words)| else 10)
         && (|a.topTitleWords| > 0 ==> forall x :: x in words && x !in Tally.Keys(a.topTitleWords) ==>
               Tally.Occurrences(words, x) <= a.topTitleWords[|a.topTitleWords| - 1].1)
         && (forall v :: Tally.WithCount(a.topTitleWords, v) <= Tally.WithCount(Tally.Count(words), v))
  {
    AnalyzeNumbers(reviews);
    AnalyzeTitleWords(reviews);
  }

  /** The count and the rating and length figures of `analyze`. */
  lemma AnalyzeNumbers(reviews: seq<CleanReview>)
    ensures var a := Analyze(reviews);
      && a.count == |reviews|
      && (|reviews| == 0 ==>
            a.avgRating == a.minRating == a.maxRating == a.avgWords == a.minWords == a.maxWords == 0.0)
      && (|reviews| > 0 ==>
            && a.minRating <= a.avgRating <= a.maxRating
            && a.minWords <= a.avgWords <= a.maxWords
            && (exists i :: 0 <= i < |reviews| && reviews[i].rating == a.minRating)
            && (exists i :: 0 <= i < |reviews| && reviews[i].rating == a.maxRating))
  {
    var ratings := Ratings(reviews);
    if |reviews| > 0 {
      AvgBetween(ratings);
      AvgBetween(WordCounts(reviews));
      var lo, hi := Min(ratings), Max(ratings);
      var i :| 0 <= i < |ratings| && ratings[i] == lo;
      var j :| 0 <= j < |ratings| && ratings[j] == hi;
      assert reviews[i].rating == lo && reviews[j].rating == hi;
    }
  }

  /** The title words of `analyze`: none without reviews, otherwise the
      ten most frequent (or all, when fewer), as `MostCommonIsTop` states. */
  lemma AnalyzeTitleWords(reviews: seq<CleanReview>)
    ensures var top := Analyze(reviews).topTitleWords;
      && (|reviews| == 0 ==> top == [])
      && |top| <= 10
      && Tally.NonIncreasing(top)
      && Tally.Distinct(top)
      && var words := Text.Words(Text.Join(Titles(reviews), " "));
         && (forall i :: 0 <= i < |top| ==> top[i].0 in words && top[i].1 == Tally.Occurrences(words, top[i].0))
         && |top| == (if |Tally.Count(words)| <= 10 then |Tally.Count(words)| else 10)
         && (|top| > 0 ==> forall x :: x in words && x !in Tally.Keys(top) ==> Tally.Occurrences(words, x) <= top[|top| - 1].1)
         && (forall v :: Tally.WithCount(top, v) <= Tally.WithCount(Tally.Count(words), v))
  {
    var words := Text.Words(Text.Join(Titles(reviews), " "));
    assert Analyze(reviews).topTitleWords == Tally.MostCommon(words, 10);
    if |reviews| == 0 {
      assert Text.Join(Titles(reviews), " ") == "";
      assert Tally.Count([]) == [];
    }
    Tally.MostCommonIsTop(words, 10);
  }
}
