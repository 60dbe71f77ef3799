/** The trend aggregator: one metric record per report, reports taken in
    sorted path order, then quarter-over-quarter percentage changes over the
    last two records and a margin-trend label over all of them. */
module TrendAggregator {
  import opened Wrappers
  import opened ReportExtractor

  datatype MarginTrend = Improving | Declining | Stable

  /** The `trend_summary` dictionary. */
  datatype TrendSummary = TrendSummary(
    revenueQoqPct: Option<real>,
    netProfitQoqPct: Option<real>,
    marginTrend: Option<MarginTrend>)

  // ---------------------------------------------------------------- path order

  /** Python's `a <= b` on strings: lexicographic by code point. */
  predicate LexLe(a: string, b: string) {
    if a == [] then true
    else if b == [] then false
    else if a[0] != b[0] then a[0] < b[0]
    else LexLe(a[1..], b[1..])
  }

  lemma {:induction false} LexTotal(a: string, b: string)
    ensures LexLe(a, b) || LexLe(b, a)
  {
    if a != [] && b != [] && a[0] == b[0] {
      LexTotal(a[1..], b[1..]);
    }
  }

  predicate SortedPaths(s: seq<string>) {
    forall i :: 0 <= i < |s| - 1 ==> LexLe(s[i], s[i + 1])
  }

  function Insert(x: string, s: seq<string>): (r: seq<string>)
    ensures multiset(r) == multiset(s) + multiset{x}
    ensures |r| == |s| + 1
  {
    if s == [] then [x]
    else if LexLe(x, s[0]) then [x] + s
    else
      assert s == [s[0]] + s[1..];
      [s[0]] + Insert(x, s[1..])
  }

  lemma {:induction false} InsertSorted(x: string, s: seq<string>)
    requires SortedPaths(s)
    ensures SortedPaths(Insert(x, s))
    ensures Insert(x, s)[0] == (if s != [] && !LexLe(x, s[0]) then s[0] else x)
  {
    if s == [] {
    } else if LexLe(x, s[0]) {
      var r := [x] + s;
      forall i | 0 <= i < |r| - 1
        ensures LexLe(r[i], r[i + 1])
      {
        if i > 0 { assert r[i] == s[i - 1] && r[i + 1] == s[i]; }
      }
    } else {
      LexTotal(x, s[0]);
      assert SortedPaths(s[1..]) by {
        forall i | 0 <= i < |s[1..]| - 1
          ensures LexLe(s[1..][i], s[1..][i + 1])
        {
          assert s[1..][i] == s[i + 1] && s[1..][i + 1] == s[i + 2];
        }
      }
      InsertSorted(x, s[1..]);
      var rest := Insert(x, s[1..]);
      var r := [s[0]] + rest;
      assert Insert(x, s) == r;
      assert LexLe(s[0], rest[0]);
      forall i | 0 <= i < |r| - 1
        ensures LexLe(r[i], r[i + 1])
      {
        if i > 0 { assert r[i] == rest[i - 1] && r[i + 1] == rest[i]; }
      }
    }
  }

  /** `sorted(paths)`. */
  function SortPaths(paths: seq<string>): (r: seq<string>)
    ensures |r| == |paths|
  {
    if paths == [] then [] else Insert(paths[0], SortPaths(paths[1..]))
  }

  /** The sorted paths are in order and are the given paths, each as often as given. */
  lemma {:induction false} SortPathsSpec(paths: seq<string>)
    ensures SortedPaths(SortPaths(paths))
    ensures multiset(SortPaths(paths)) == multiset(paths)
  {
    if paths != [] {
      SortPathsSpec(paths[1..]);
      InsertSorted(paths[0], SortPaths(paths[1..]));
      assert paths == [paths[0]] + paths[1..];
    }
  }

  // ---------------------------------------------------------------- quarter over quarter

  function Abs(x: real): real { if x < 0.0 then -x else x }

  /** `pct(a, b)`: the change from `b` to `a` as a percentage of `|b|`, absent
      when either value is absent or `b` is 0. Adding `|b|` times the result
      over 100 to `b` gives `a` back, and the sign gives the direction. */
  function Pct(a: Option<real>, b: Option<real>): (r: Option<real>)
    ensures r.Some? <==> a.Some? && b.Some? && b.value != 0.0
    ensures r.Some? ==> b.value + r.value * Abs(b.value) / 100.0 == a.value
    ensures r.Some? ==> (r.value > 0.0 <==> a.value > b.value)
    ensures r.Some? ==> (r.value == 0.0 <==> a.value == b.value)
  {
    if a.None? || b.None? || b.value == 0.0 then None
    else
      var d := Abs(b.value);
      var q := (a.value - b.value) / d;
      assert q * d == a.value - b.value;
      Some(q * 100.0)
  }

  // ---------------------------------------------------------------- margins

  /** The margin a record contributes: its direct percentage when truthy,
      else amount over revenue times 100 when both are truthy, else none.
      A derived margin gives the amount back when applied to the revenue. */
  function MarginOf(r: MetricRecord): (m: Option<real>)
    ensures m.Some? <==> Truthy(r.operatingMarginPct) || (Truthy(r.operatingProfitAmt) && Truthy(r.revenueCr))
    ensures m.Some? ==> m.value != 0.0
    ensures Truthy(r.operatingMarginPct) ==> m == r.operatingMarginPct
    ensures !Truthy(r.operatingMarginPct) && m.Some? ==>
      m.value * r.revenueCr.value == r.operatingProfitAmt.value * 100.0
  {
    if Truthy(r.operatingMarginPct) then r.operatingMarginPct
    else if Truthy(r.operatingProfitAmt) && Truthy(r.revenueCr) then
      var q := r.operatingProfitAmt.value / r.revenueCr.value;
      assert q * r.revenueCr.value == r.operatingProfitAmt.value;
      Some(q * 100.0)
    else None
  }

  /** `margin_values`: the margins of the records, in record order. */
  function MarginValues(rs: seq<MetricRecord>): (ms: seq<real>)
    ensures |ms| <= |rs|
  {
    if rs == [] then []
    else
      var m := MarginOf(rs[|rs| - 1]);
      MarginValues(rs[..|rs| - 1]) + (if m.Some? then [m.value] else [])
  }

  /** `margin_values` is empty exactly when no record gives a margin. */
  lemma {:induction false} MarginValuesEmptyIff(rs: seq<MetricRecord>)
    ensures |MarginValues(rs)| == 0 <==> forall i :: 0 <= i < |rs| ==> MarginOf(rs[i]).None?
  {
    if rs != [] {
      var n := |rs| - 1;
      MarginValuesEmptyIff(rs[..n]);
      assert forall i :: 0 <= i < n ==> rs[..n][i] == rs[i];
    }
  }

  /** The differences of consecutive margins. */
  function Diffs(ms: seq<real>): (d: seq<real>)
    ensures |d| == if |ms| < 2 then 0 else |ms| - 1
  {
    if |ms| < 2 then []
    else seq(|ms| - 1, i requires 0 <= i < |ms| - 1 => ms[i + 1] - ms[i])
  }

  function Sum(xs: seq<real>): real {
    if xs == [] then 0.0 else Sum(xs[..|xs| - 1]) + xs[|xs| - 1]
  }

  /** The differences telescope: they add up to last minus first. */
  lemma {:induction false} DiffsTelescope(ms: seq<real>)
    requires |ms| >= 2
    ensures Sum(Diffs(ms)) == ms[|ms| - 1] - ms[0]
  {
    var d := Diffs(ms);
    if |ms| > 2 {
      var init := ms[..|ms| - 1];
      DiffsTelescope(init);
      assert d[..|d| - 1] == Diffs(init);
    } else {
      assert d[..0] == [];
    }
  }

  const Threshold: real := 0.3

  /** The margin-trend label: absent for no margin, stable for one, else by
      the average consecutive difference against the strict bounds ±0.3. */
  function ClassifyTrend(ms: seq<real>): Option<MarginTrend> {
    if |ms| >= 2 then
      var d := Diffs(ms);
      if |d| == 0 then None
      else
        var avg := Sum(d) / |d| as real;
        if avg > Threshold then Some(Improving)
        else if avg < -Threshold then Some(Declining)
        else Some(Stable)
    else if |ms| == 1 then Some(Stable)
    else None
  }

  /** The average change per step, from the first margin to the last. */
  function Slope(ms: seq<real>): real
    requires |ms| >= 2
  {
    (ms[|ms| - 1] - ms[0]) / (|ms| - 1) as real
  }

  /** The label depends only on the first and the last margin and their
      distance: improving exactly when the slope is above 0.3, declining
      exactly when it is below -0.3, stable otherwise, bounds included. */
  lemma ClassifyBySlope(ms: seq<real>)
    ensures |ms| == 0 <==> ClassifyTrend(ms).None?
    ensures |ms| == 1 ==> ClassifyTrend(ms) == Some(Stable)
    ensures |ms| >= 2 ==> (ClassifyTrend(ms) == Some(Improving) <==> Slope(ms) > Threshold)
    ensures |ms| >= 2 ==> (ClassifyTrend(ms) == Some(Declining) <==> Slope(ms) < -Threshold)
    ensures |ms| >= 2 ==> (ClassifyTrend(ms) == Some(Stable) <==> -Threshold <= Slope(ms) <= Threshold)
  {
    if |ms| >= 2 {
      DiffsTelescope(ms);
    }
  }

  // ---------------------------------------------------------------- the summary

  /** The trend summary of records taken oldest first. */
  function Summarize(rs: seq<MetricRecord>): (t: TrendSummary)
    ensures |rs| < 2 ==> t.revenueQoqPct.None? && t.netProfitQoqPct.None?
    ensures t.marginTrend.None? <==> |MarginValues(rs)| == 0
  {
    var n := |rs|;
    ClassifyBySlope(MarginValues(rs));
    TrendSummary(
      if n >= 2 then Pct(rs[n - 1].revenueCr, rs[n - 2].revenueCr) else None,
      if n >= 2 then Pct(rs[n - 1].netProfitCr, rs[n - 2].netProfitCr) else None,
      ClassifyTrend(MarginValues(rs)))
  }

  /** The QoQ revenue figure compares the last record with the one before:
      present exactly when both revenues are present and the earlier one is
      nonzero, and then it is the change as a percentage of the earlier one. */
  lemma RevenueQoqOfLastTwo(rs: seq<MetricRecord>)
    requires |rs| >= 2
    ensures var t := Summarize(rs).revenueQoqPct; var prev := rs[|rs| - 2].revenueCr; var latest := rs[|rs| - 1].revenueCr;
      && (t.Some? <==> prev.Some? && latest.Some? && prev.value != 0.0)
      && (t.Some? ==> prev.value + t.value * Abs(prev.value) / 100.0 == latest.value)
  {
  }

  /** The same for net profit. */
  lemma NetProfitQoqOfLastTwo(rs: seq<MetricRecord>)
    requires |rs| >= 2
    ensures var t := Summarize(rs).netProfitQoqPct; var prev := rs[|rs| - 2].netProfitCr; var latest := rs[|rs| - 1].netProfitCr;
      && (t.Some? <==> prev.Some? && latest.Some? && prev.value != 0.0)
      && (t.Some? ==> prev.value + t.value * Abs(prev.value) / 100.0 == latest.value)
  {
  }

  /** The records of the reports, in the given order. */
  function RecordsOf(paths: seq<string>, textOf: string -> seq<string>): (rs: seq<MetricRecord>)
    ensures |rs| == |paths|
  {
    if paths == [] then []
    else
      var p := paths[|paths| - 1];
      RecordsOf(paths[..|paths| - 1], textOf) + [Extract(NewRecord(p), textOf(p))]
  }

  lemma RecordsOfSnoc(paths: seq<string>, textOf: string -> seq<string>, i: nat)
    requires i < |paths|
    ensures RecordsOf(paths[..i + 1], textOf) == RecordsOf(paths[..i], textOf) + [Extract(NewRecord(paths[i]), textOf(paths[i]))]
  {
    assert paths[..i + 1][..i] == paths[..i];
  }

  /** Record `i` is the scan of report `i`. */
  lemma {:induction false} RecordsOfAt(paths: seq<string>, textOf: string -> seq<string>, i: nat)
    requires i < |paths|
    ensures RecordsOf(paths, textOf)[i] == Extract(NewRecord(paths[i]), textOf(paths[i]))
  {
    var n := |paths| - 1;
    var front := RecordsOf(paths[..n], textOf);
    assert RecordsOf(paths, textOf) == front + [Extract(NewRecord(paths[n]), textOf(paths[n]))];
    if i < n {
      RecordsOfAt(paths[..n], textOf, i);
      assert paths[..n][i] == paths[i];
    }
  }

  /** The scan never changes a record's path or period. */
  lemma {:induction false} ExtractKeepsIdentity(rec: MetricRecord, lines: seq<string>)
    ensures Extract(rec, lines).path == rec.path
    ensures Extract(rec, lines).period == rec.period
  {
    if lines != [] {
      ExtractKeepsIdentity(rec, lines[..|lines| - 1]);
      StepKeepsIdentity(Extract(rec, lines[..|lines| - 1]), lines[|lines| - 1]);
    }
  }

  function PathsOf(rs: seq<MetricRecord>): (ps: seq<string>)
    ensures |ps| == |rs|
  {
    seq(|rs|, i requires 0 <= i < |rs| => rs[i].path)
  }

  /** The records come in sorted path order, one per given path. */
  lemma RecordsInPathOrder(paths: seq<string>, textOf: string -> seq<string>)
    ensures PathsOf(RecordsOf(SortPaths(paths), textOf)) == SortPaths(paths)
    ensures SortedPaths(PathsOf(RecordsOf(SortPaths(paths), textOf)))
    ensures multiset(PathsOf(RecordsOf(SortPaths(paths), textOf))) == multiset(paths)
  {
    var sorted := SortPaths(paths);
    var ps := PathsOf(RecordsOf(sorted, textOf));
    forall i | 0 <= i < |ps|
      ensures ps[i] == sorted[i]
    {
      RecordsOfAt(sorted, textOf, i);
      ExtractKeepsIdentity(NewRecord(sorted[i]), textOf(sorted[i]));
    }
    SortPathsSpec(paths);
  }

  /** `extract_metrics_from_paths`. The text of each report is given by
      `textOf`, standing for the PDF text extraction: the trimmed, non-empty
      lines of the file at that path. */
  method ExtractMetricsFromPaths(paths: seq<string>, textOf: string -> seq<string>)
    returns (quarters: seq<MetricRecord>, summary: TrendSummary)
    ensures quarters == RecordsOf(SortPaths(paths), textOf)
    ensures summary == Summarize(quarters)
    ensures SortedPaths(PathsOf(quarters)) && multiset(PathsOf(quarters)) == multiset(paths)
    ensures forall i :: 0 <= i < |quarters| ==> Bounded(quarters[i])
  {
    var sorted := SortPaths(paths);
    quarters := CollectRecords(sorted, textOf);
    RecordsInPathOrder(paths, textOf);

    var revenueQoq: Option<real> := None;
    var netProfitQoq: Option<real> := None;
    var n := |quarters|;
    if n >= 2 {
      revenueQoq := Pct(quarters[n - 1].revenueCr, quarters[n - 2].revenueCr);
      netProfitQoq := Pct(quarters[n - 1].netProfitCr, quarters[n - 2].netProfitCr);
    }

    var margins := CollectMargins(quarters);
    summary := TrendSummary(revenueQoq, netProfitQoq, ClassifyTrend(margins));
  }

  /** The loop that fills `results`, one record per path in the given order. */
  method CollectRecords(paths: seq<string>, textOf: string -> seq<string>) returns (results: seq<MetricRecord>)
    ensures results == RecordsOf(paths, textOf)
    ensures forall i :: 0 <= i < |results| ==> Bounded(results[i])
  {
    results := [];
    for i := 0 to |paths|
      invariant results == RecordsOf(paths[..i], textOf)
      invariant forall j :: 0 <= j < i ==> Bounded(results[j])
    {
      var rec := ExtractFromLines(paths[i], textOf(paths[i]));
      RecordsOfSnoc(paths, textOf, i);
      results := results + [rec];
    }
    assert paths[..|paths|] == paths;
  }

  /** The loop that fills `margin_values`. */
  method CollectMargins(results: seq<MetricRecord>) returns (margins: seq<real>)
    ensures margins == MarginValues(results)
  {
    margins := [];
    for i := 0 to |results|
      invariant margins == MarginValues(results[..i])
    {
      assert results[..i + 1][..i] == results[..i];
      var r := results[i];
      if Truthy(r.operatingMarginPct) {
        margins := margins + [r.operatingMarginPct.value];
      } else if Truthy(r.operatingProfitAmt) && Truthy(r.revenueCr) {
        margins := margins + [r.operatingProfitAmt.value / r.revenueCr.value * 100.0];
      }
    }
    assert results[..|results|] == results;
  }

  // ---------------------------------------------------------------- worked cases

  function WithRevenue(period: string, revenue: Option<real>): MetricRecord {
    MetricRecord(period, period, revenue, None, None, None, None)
  }

  /** Revenue 1000 then 1100 is a 10% rise; an absent latest revenue gives no figure. */
  lemma RevenueQoqExamples()
    ensures Summarize([WithRevenue("A", Some(1000.0)), WithRevenue("B", Some(1100.0))]).revenueQoqPct == Some(10.0)
    ensures Summarize([WithRevenue("A", Some(12345.0)), WithRevenue("B", Some(13000.0))]).revenueQoqPct
      == Some(65500.0 / 12345.0)
    ensures Summarize([WithRevenue("A", Some(1000.0)), WithRevenue("B", None)]).revenueQoqPct.None?
  {
  }

  /** Margins 20.0, 20.5, 21.1 improve; 20.0, 19.8, 19.5 are stable; a change
      of exactly 0.3 either way is stable. */
  /** Margins chosen so that double-precision arithmetic gives the same
      labels as exact arithmetic: `0.3 - 0.0` is exactly the double `0.3`,
      so the boundary cases are stable in both. */
  lemma MarginTrendExamples()
    ensures ClassifyTrend([20.0, 20.5, 21.1]) == Some(Improving)
    ensures ClassifyTrend([20.0, 19.8, 19.5]) == Some(Stable)
    ensures ClassifyTrend([0.0, 0.3]) == Some(Stable)
    ensures ClassifyTrend([0.3, 0.0]) == Some(Stable)
    ensures ClassifyTrend([20.0, 19.6]) == Some(Declining)
    ensures ClassifyTrend([]) == None && ClassifyTrend([7.5]) == Some(Stable)
  {
    ClassifyBySlope([20.0, 20.5, 21.1]);
    ClassifyBySlope([20.0, 19.8, 19.5]);
    ClassifyBySlope([0.0, 0.3]);
    ClassifyBySlope([0.3, 0.0]);
    ClassifyBySlope([20.0, 19.6]);
  }
}
