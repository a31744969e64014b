/** The run report of generator/reports.py (`generate_report`): one pass
    over the metrics CSV counting attempts, passes, forced low-quality
    attempts and failures per metric. Writing the markdown file is not
    modelled; the figures it writes are. */
module RunReport {
  import opened Wrappers
  import Tally
  import QualityGenerator

  /** The three columns the report reads, as `csv.DictReader` gives them:
      the cell text, or None (its `restval`) when the row is shorter than
      the header. */
  datatype RunRecord = RunRecord(lowQualityForced: Option<string>, passed: Option<string>, failedMetric: Option<string>)

  /** `r[...] == "True"`: the exact text, case-sensitive. */
  predicate IsTrue(cell: Option<string>) {
    cell == Some("True")
  }

  /** `if r["failed_metric"]:` a present, non-empty cell. */
  predicate HasMetric(row: RunRecord) {
    row.failedMetric.Some? && row.failedMetric.value != ""
  }

  /** The four counters of `generate_report`. */
  datatype RunSummary = RunSummary(total: nat, passed: nat, forcedFail: nat, byMetric: Tally.Counts)

  /** The counters after reading `rows` in order. */
  function Tallied(rows: seq<RunRecord>): RunSummary {
    if |rows| == 0 then RunSummary(0, 0, 0, [])
    else
      var s, r := Tallied(rows[..|rows| - 1]), rows[|rows| - 1];
      RunSummary(s.total + 1,
        s.passed + (if IsTrue(r.passed) then 1 else 0),
        s.forcedFail + (if IsTrue(r.lowQualityForced) then 1 else 0),
        if HasMetric(r) then Tally.Bump(s.byMetric, r.failedMetric.value) else s.byMetric)
  }

  /** The failed metrics of the rows that name one, in order. */
  function Metrics(rows: seq<RunRecord>): seq<string> {
    if |rows| == 0 then []
    else Metrics(rows[..|rows| - 1]) + (if HasMetric(rows[|rows| - 1]) then [rows[|rows| - 1].failedMetric.value] else [])
  }

  /** How many rows satisfy `IsTrue` on the passed or the forced column. */
  function CountTrue(rows: seq<RunRecord>, forced: bool): nat {
    if |rows| == 0 then 0
    else
      var r := rows[|rows| - 1];
      CountTrue(rows[..|rows| - 1], forced) + (if IsTrue(if forced then r.lowQualityForced else r.passed) then 1 else 0)
  }

  /** The row loop of `generate_report`. */
  method GenerateReport(rows: seq<RunRecord>) returns (summary: RunSummary)
    ensures summary == Tallied(rows)
  {
    var total, passed, forcedFail := 0, 0, 0;
    var byMetric: Tally.Counts := [];
    for i := 0 to |rows|
      invariant RunSummary(total, passed, forcedFail, byMetric) == Tallied(rows[..i])
    {
      var r := rows[i];
      assert rows[..i + 1][..i] == rows[..i];
      total := total + 1;
      if r.lowQualityForced == Some("True") {
        forcedFail := forcedFail + 1;
      }
      if r.passed == Some("True") {
        passed := passed + 1;
      }
      if r.failedMetric.Some? && r.failedMetric.value != "" {
        byMetric := Tally.Bump(byMetric, r.failedMetric.value);
      }
    }
    assert rows[..|rows|] == rows;
    summary := RunSummary(total, passed, forcedFail, byMetric);
  }

  /** Total is the number of rows; passes and forced attempts count the
      rows whose cell is exactly "True", so neither exceeds the total; the
      per-metric counts are those of the non-empty metrics, in first-seen
      order, and add up to at most the total. */
  lemma {:induction false} TalliedCounts(rows: seq<RunRecord>)
    ensures var s := Tallied(rows);
      && s.total == |rows|
      && s.passed == CountTrue(rows, false) <= s.total
      && s.forcedFail == CountTrue(rows, true) <= s.total
      && s.byMetric == Tally.Count(Metrics(rows))
      && |Metrics(rows)| <= s.total
  {
    if |rows| > 0 {
      var init := rows[..|rows| - 1];
      TalliedCounts(init);
      var ms := Metrics(rows);
      if HasMetric(rows[|rows| - 1]) {
        assert ms[..|ms| - 1] == Metrics(init);
      } else {
        assert ms == Metrics(init);
      }
    }
  }

  /** Each metric is counted once per row that names it, no empty metric is
      counted, and the counts sum to at most the number of rows. */
  lemma ByMetricCounts(rows: seq<RunRecord>)
    ensures var s := Tallied(rows);
      && Tally.Distinct(s.byMetric)
      && Tally.Total(s.byMetric) <= s.total
      && "" !in Tally.Keys(s.byMetric)
      && forall m :: Tally.Get(s.byMetric, m) == Tally.Occurrences(Metrics(rows), m)
  {
    TalliedCounts(rows);
    Tally.CountIsOccurrences(Metrics(rows));
    MetricsNonEmpty(rows);
  }

  lemma {:induction false} MetricsNonEmpty(rows: seq<RunRecord>)
    ensures "" !in Metrics(rows)
  {
    if |rows| > 0 {
      MetricsNonEmpty(rows[..|rows| - 1]);
    }
  }

  /** "true", "TRUE" or a missing cell do not count as passed. */
  lemma OnlyExactTrue()
    ensures !IsTrue(Some("true")) && !IsTrue(Some("TRUE")) && !IsTrue(None) && IsTrue(Some("True"))
  {
  }

  /** `str(b)` as `csv.writer` writes a bool. */
  function BoolText(b: bool): string {
    if b then "True" else "False"
  }

  /** A row of generator_with_quality.py's metrics CSV as this report reads
      it back: bools as "True"/"False", a missing failed metric as "". */
  function ReadBack(row: QualityGenerator.CsvRow): RunRecord {
    RunRecord(Some(BoolText(row.lowQualityForced)), Some(BoolText(row.passed)), Some(row.failedMetric.GetOr("")))
  }

  function ReadBackAll(rows: seq<QualityGenerator.CsvRow>): (records: seq<RunRecord>)
    ensures |records| == |rows| && forall i :: 0 <= i < |rows| ==> records[i] == ReadBack(rows[i])
  {
    if |rows| == 0 then [] else ReadBackAll(rows[..|rows| - 1]) + [ReadBack(rows[|rows| - 1])]
  }

  /** The rows that passed. */
  function PassedCount(rows: seq<QualityGenerator.CsvRow>): nat {
    if |rows| == 0 then 0 else PassedCount(rows[..|rows| - 1]) + (if rows[|rows| - 1].passed then 1 else 0)
  }

  /** On the metrics CSV of the quality loop, the report's passes are the
      rows written as passed, and every failed row whose metric is named is
      counted under that metric, passed rows never. */
  lemma {:induction false} ReportOfQualityLog(rows: seq<QualityGenerator.CsvRow>)
    requires forall i :: 0 <= i < |rows| ==> (rows[i].failedMetric.None? <==> rows[i].passed)
    requires forall i :: 0 <= i < |rows| ==> rows[i].failedMetric != Some("")
    ensures var s := Tallied(ReadBackAll(rows));
      && s.passed == PassedCount(rows)
      && Tally.Total(s.byMetric) == |rows| - PassedCount(rows)
  {
    ByMetricCounts(ReadBackAll(rows));
    TalliedCounts(ReadBackAll(rows));
    Tally.CountIsOccurrences(Metrics(ReadBackAll(rows)));
    ReadBackCounts(rows);
  }

  lemma {:induction false} ReadBackCounts(rows: seq<QualityGenerator.CsvRow>)
    requires forall i :: 0 <= i < |rows| ==> (rows[i].failedMetric.None? <==> rows[i].passed)
    requires forall i :: 0 <= i < |rows| ==> rows[i].failedMetric != Some("")
    ensures CountTrue(ReadBackAll(rows), false) == PassedCount(rows)
    ensures |Metrics(ReadBackAll(rows))| == |rows| - PassedCount(rows)
    ensures PassedCount(rows) <= |rows|
  {
    if |rows| > 0 {
      var init := rows[..|rows| - 1];
      ReadBackCounts(init);
      assert ReadBackAll(rows)[..|rows| - 1] == ReadBackAll(init);
    }
  }
}
