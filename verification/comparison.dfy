/** `compare` (src/conductor.js): two records are walked scenario by
    scenario, report by report and metric by metric; every metric present on
    both sides becomes an item with its difference and verdict, and every
    regression is also collected, in walking order, into `warnings`. */
module Comparison {
  import opened Wrappers
  import opened Dict
  import opened Compute
  import opened Judgement
  import opened Records
  import Reports
  import Registry
  import JsValue

  /** One compared metric; `a` and `b` are the two analyses as read back
      from the records. */
  datatype Item = Item(
    caption: string,
    unit: string,
    a: Stats,
    b: Stats,
    diff: real,
    compareUnit: string,
    judgement: Judgement)

  /** What a walk produced: the nested `result` objects and the warnings. */
  datatype Compared<T> = Compared(result: T, warnings: seq<Item>)

  type ScenarioResult = Dict<Dict<Item>>

  type Comparison = Compared<Dict<ScenarioResult>>

  /** `metric.compareUnit || metric.unit`: an empty string is falsy. */
  function CompareUnitOf(m: Reports.Metric): (u: string)
    ensures u == m.unit || (m.compareUnit.Some? && u == m.compareUnit.value)
    ensures u == m.unit <==> m.compareUnit.None? || m.compareUnit.value == "" || m.compareUnit.value == m.unit
  {
    if m.compareUnit.Some? && m.compareUnit.value != "" then m.compareUnit.value else m.unit
  }

  /** The item for a metric present on both sides. Every built-in metric
      compares with `compareStdev`. */
  function MakeItem(m: Reports.Metric, a: Stats, b: Stats): (item: Item)
    ensures item.caption == m.caption && item.unit == m.unit && item.a == a && item.b == b
    ensures item.diff == CompareStdev(a, b)
    ensures item.compareUnit == CompareUnitOf(m)
    ensures item.judgement == MakeJudgement(m.threshold, item.diff)
  {
    var diff := CompareStdev(a, b);
    Item(m.caption, m.unit, a, b, diff, CompareUnitOf(m), MakeJudgement(m.threshold, diff))
  }

  /** A field as `compare` reads it back from `record.json`:
      `JSON.stringify` wrote `NaN` as `null`, and both the arithmetic of
      `compareStdev` and `format` take `null` as 0. */
  function FromJson(x: Number): (r: real)
    ensures x.Real? ==> r == x.r
    ensures x.NaN? ==> r == 0.0
  {
    if x.Real? then x.r else 0.0
  }

  /** A recorded `{ mean, stdev }` as the comparison reads it. */
  function ReadBack(s: StatsObject): (r: Stats)
    ensures s.mean.Real? && s.stdev.Real? ==> r == Stats(s.mean.r, s.stdev.r)
    ensures s.mean.NaN? && s.stdev.NaN? ==> r == Stats(0.0, 0.0)
  {
    Stats(FromJson(s.mean), FromJson(s.stdev))
  }

  /** A `NaN` analysis compares like a zero mean with no spread: it never
      regresses against a measurement that is not above 0. */
  lemma NaNReadsAsZero(m: Reports.Metric, b: Stats)
    requires b.stdev >= 0.0 && b.mean - b.stdev <= 0.0
    ensures MakeItem(m, ReadBack(StatsObject(NaN, NaN)), b).judgement != Regressed
  {
  }

  /** A regression means that the after interval lies wholly above the
      before interval, by more than the metric's threshold. */
  lemma RegressionMeansSlower(m: Reports.Metric, a: Stats, b: Stats)
    ensures MakeItem(m, a, b).judgement == Regressed <==>
      Active(m.threshold) && Above(a, b) && !Below(a, b)
      && (b.mean - b.stdev) - (a.mean + a.stdev) > m.threshold.value
  {
  }

  /** An improvement means that the after interval lies wholly below the
      before interval, by more than the metric's threshold. */
  lemma ImprovementMeansFaster(m: Reports.Metric, a: Stats, b: Stats)
    ensures MakeItem(m, a, b).judgement == Improved <==>
      Active(m.threshold) && Below(a, b)
      && (a.mean - a.stdev) - (b.mean + b.stdev) > m.threshold.value
  {
  }

  // ---- warnings ----

  /** The items judged a regression (`judgement === false`), in order. */
  function Regressions(items: seq<Item>): (r: seq<Item>)
    ensures |r| <= |items|
    ensures forall x | x in r :: x in items && x.judgement == Regressed
  {
    if |items| == 0 then []
    else Regressions(items[..|items| - 1]) + (if items[|items| - 1].judgement == Regressed then [items[|items| - 1]] else [])
  }

  lemma {:induction false} RegressionsAppend(xs: seq<Item>, ys: seq<Item>)
    ensures Regressions(xs + ys) == Regressions(xs) + Regressions(ys)
    decreases |ys|
  {
    if |ys| == 0 {
      assert xs + ys == xs;
    } else {
      var ys' := ys[..|ys| - 1];
      assert (xs + ys)[..|xs + ys| - 1] == xs + ys';
      assert (xs + ys)[|xs + ys| - 1] == ys[|ys| - 1];
      RegressionsAppend(xs, ys');
    }
  }

  /** Every regressed item is kept: nothing judged a regression is missed. */
  lemma {:induction false} RegressionsComplete(items: seq<Item>, i: nat)
    requires i < |items| && items[i].judgement == Regressed
    ensures items[i] in Regressions(items)
  {
    if i < |items| - 1 {
      RegressionsComplete(items[..|items| - 1], i);
    }
  }

  /** The items of a scenario's result, report by report in `ks` order. */
  function ScenarioItems(c: ScenarioResult, ks: seq<string>): seq<Item>
    requires forall k | k in ks :: k in c.vals
  {
    if |ks| == 0 then []
    else ScenarioItems(c, ks[..|ks| - 1]) + Values(c.vals[ks[|ks| - 1]])
  }

  /** All items of a comparison result, scenario by scenario in `ks` order. */
  function AllItems(c: Dict<ScenarioResult>, ks: seq<string>): seq<Item>
    requires forall k | k in ks :: k in c.vals
  {
    if |ks| == 0 then []
    else
      var s := c.vals[ks[|ks| - 1]];
      AllItems(c, ks[..|ks| - 1]) + ScenarioItems(s, s.keys)
  }

  lemma {:induction false} ScenarioItemsPut(c: ScenarioResult, ks: seq<string>, k: string, v: Dict<Item>)
    requires forall j | j in ks :: j in c.vals
    requires k !in ks
    ensures ScenarioItems(Put(c, k, v), ks) == ScenarioItems(c, ks)
  {
    if |ks| > 0 {
      ScenarioItemsPut(c, ks[..|ks| - 1], k, v);
    }
  }

  lemma {:induction false} AllItemsPut(c: Dict<ScenarioResult>, ks: seq<string>, k: string, v: ScenarioResult)
    requires forall j | j in ks :: j in c.vals
    requires k !in ks
    ensures AllItems(Put(c, k, v), ks) == AllItems(c, ks)
  {
    if |ks| > 0 {
      AllItemsPut(c, ks[..|ks| - 1], k, v);
    }
  }

  // ---- the walk ----

  /** `for ( const metricKey in report.metrics )` over the keys `ks`: a
      metric missing on either side is skipped. */
  function CompareMetrics(metrics: Dict<Reports.Metric>, sa: Dict<StatsObject>, sb: Dict<StatsObject>, ks: seq<string>): (r: Compared<Dict<Item>>)
    requires forall k | k in ks :: k in metrics.vals
    requires forall i, j | 0 <= i < j < |ks| :: ks[i] != ks[j]
    ensures forall k :: k in r.result.vals <==> k in ks && k in sa.vals && k in sb.vals
    ensures forall k | k in r.result.vals :: r.result.vals[k] == MakeItem(metrics.vals[k], ReadBack(sa.vals[k]), ReadBack(sb.vals[k]))
    ensures r.warnings == Regressions(Values(r.result))
  {
    if |ks| == 0 then Compared(Empty(), [])
    else
      var k := ks[|ks| - 1];
      var prev := CompareMetrics(metrics, sa, sb, ks[..|ks| - 1]);
      assert forall j :: j in ks <==> j in ks[..|ks| - 1] || j == k;
      if k in sa.vals && k in sb.vals then
        var item := MakeItem(metrics.vals[k], ReadBack(sa.vals[k]), ReadBack(sb.vals[k]));
        assert k !in prev.result.vals by {
          assert forall i | 0 <= i < |ks| - 1 :: ks[i] != k;
        }
        ValuesPut(prev.result, k, item);
        RegressionsAppend(Values(prev.result), [item]);
        assert Regressions([item]) == (if item.judgement == Regressed then [item] else []) by {
          assert [item][..0] == [];
        }
        Compared(Put(prev.result, k, item), prev.warnings + Regressions([item]))
      else prev
  }

  /** What the walk throws: the registry's error for a report name that is
      not built in, or the TypeError of reading a scenario or report that
      record B does not hold. */
  datatype CompareError = RegistryFailure(error: Registry.RegistryError) | MissingInB

  /** The error `reportReg.get` throws for a name that is not a built-in
      report. */
  function UnknownReport(name: string): CompareError {
    RegistryFailure(Registry.UnknownName("Unknown probe name: " + name))
  }

  /** Record B's `analysed` object for one scenario, `None` when record B
      has no such scenario. */
  type Side = Option<Dict<Dict<StatsObject>>>

  /** Record B's side of scenario `k`. */
  function SideOf(sb: Dict<ScenarioRecord>, k: string): Side {
    if k in sb.vals then Some(sb.vals[k].analysed) else None
  }

  /** `scenarioB.analysed[ reportName ]`, read only once B is known to hold
      it; a report without metrics reads nothing of B. */
  function StatsOf(bb: Side, n: string): Dict<StatsObject> {
    if bb.Some? && n in bb.value.vals then bb.value.vals[n] else Empty()
  }

  /** What comparing report `n` throws, if anything: `reportReg.get` throws
      for a name it does not know, and the first metric's
      `scenarioB.analysed[ reportName ][ metricKey ]` throws a TypeError when
      B lacks the scenario or the report. */
  function ReportError(reports: Reports.Lookup, bb: Side, n: string): Option<CompareError> {
    match reports(n)
    case None => Some(UnknownReport(n))
    case Some(rep) =>
      if |rep.metrics.keys| > 0 && !(bb.Some? && n in bb.value.vals) then Some(MissingInB) else None
  }

  /** The comparison of one report on both sides. */
  function CompareReport(rep: Reports.Report, sa: Dict<StatsObject>, sb: Dict<StatsObject>): Compared<Dict<Item>> {
    CompareMetrics(rep.metrics, sa, sb, rep.metrics.keys)
  }

  /** The position of the first report name whose comparison throws, or the
      length of `ns` when none does. */
  function FirstError(reports: Reports.Lookup, bb: Side, ns: seq<string>): (i: nat)
    ensures i <= |ns|
    ensures forall j | 0 <= j < i :: ReportError(reports, bb, ns[j]).None?
    ensures i < |ns| ==> ReportError(reports, bb, ns[i]).Some?
  {
    if |ns| == 0 then 0
    else
      var f := FirstError(reports, bb, ns[..|ns| - 1]);
      if f < |ns| - 1 then f
      else if ReportError(reports, bb, ns[|ns| - 1]).Some? then |ns| - 1
      else |ns|
  }

  /** `for ( const reportName in scenarioA.analysed )` over the names `ns`,
      against B's side `bb`. The first report whose comparison throws ends
      the walk with its error. */
  function CompareReports(reports: Reports.Lookup, aa: Dict<Dict<StatsObject>>, bb: Side, ns: seq<string>): (r: Result<Compared<ScenarioResult>, CompareError>)
    requires forall n | n in ns :: n in aa.vals
    requires forall i, j | 0 <= i < j < |ns| :: ns[i] != ns[j]
    ensures r.Success? <==> FirstError(reports, bb, ns) == |ns|
    ensures r.Failure? ==> FirstError(reports, bb, ns) < |ns| && r.error == ReportError(reports, bb, ns[FirstError(reports, bb, ns)]).value
    ensures r.Success? ==> r.value.result.keys == ns
  {
    if |ns| == 0 then Success(Compared(Empty(), []))
    else
      var n := ns[|ns| - 1];
      var ns' := ns[..|ns| - 1];
      match CompareReports(reports, aa, bb, ns')
      case Failure(e) => Failure(e)
      case Success(prev) =>
        match ReportError(reports, bb, n)
        case Some(e) => Failure(e)
        case None =>
          var c := CompareReport(reports(n).value, aa.vals[n], StatsOf(bb, n));
          PutLast(ns, prev.result, c.result);
          Success(Compared(Put(prev.result, n, c.result), prev.warnings + c.warnings))
  }

  /** Each report's entry is the comparison of that report on both sides,
      and the warnings are the regressions among the report entries' items,
      in order. */
  lemma CompareReportsContents(reports: Reports.Lookup, aa: Dict<Dict<StatsObject>>, bb: Side, ns: seq<string>)
    requires forall n | n in ns :: n in aa.vals
    requires forall i, j | 0 <= i < j < |ns| :: ns[i] != ns[j]
    requires CompareReports(reports, aa, bb, ns).Success?
    ensures var c := CompareReports(reports, aa, bb, ns).value;
      && (forall n | n in ns :: (reports(n).Some? &&
            c.result.vals[n] == CompareReport(reports(n).value, aa.vals[n], StatsOf(bb, n)).result))
      && c.warnings == Regressions(ScenarioItems(c.result, ns))
  {
    CompareReportsEntries(reports, aa, bb, ns);
    CompareReportsWarnings(reports, aa, bb, ns);
  }

  lemma {:induction false} CompareReportsEntries(reports: Reports.Lookup, aa: Dict<Dict<StatsObject>>, bb: Side, ns: seq<string>)
    requires forall n | n in ns :: n in aa.vals
    requires forall i, j | 0 <= i < j < |ns| :: ns[i] != ns[j]
    requires CompareReports(reports, aa, bb, ns).Success?
    ensures forall n | n in ns :: (reports(n).Some? &&
      CompareReports(reports, aa, bb, ns).value.result.vals[n] == CompareReport(reports(n).value, aa.vals[n], StatsOf(bb, n)).result)
  {
    if |ns| > 0 {
      var n := ns[|ns| - 1];
      var ns' := ns[..|ns| - 1];
      assert forall j :: j in ns <==> j in ns' || j == n;
      CompareReportsStep(reports, aa, bb, ns);
      CompareReportsEntries(reports, aa, bb, ns');
    }
  }

  lemma {:induction false} CompareReportsWarnings(reports: Reports.Lookup, aa: Dict<Dict<StatsObject>>, bb: Side, ns: seq<string>)
    requires forall n | n in ns :: n in aa.vals
    requires forall i, j | 0 <= i < j < |ns| :: ns[i] != ns[j]
    requires CompareReports(reports, aa, bb, ns).Success?
    ensures var c := CompareReports(reports, aa, bb, ns).value;
      c.warnings == Regressions(ScenarioItems(c.result, ns))
  {
    if |ns| > 0 {
      var n := ns[|ns| - 1];
      var ns' := ns[..|ns| - 1];
      CompareReportsStep(reports, aa, bb, ns);
      var prev := CompareReports(reports, aa, bb, ns').value;
      var c := CompareReport(reports(n).value, aa.vals[n], StatsOf(bb, n));
      var d := Put(prev.result, n, c.result);
      calc {
        CompareReports(reports, aa, bb, ns).value.warnings;
        prev.warnings + c.warnings;
        { CompareReportsWarnings(reports, aa, bb, ns'); }
        Regressions(ScenarioItems(prev.result, ns')) + Regressions(Values(c.result));
        { RegressionsAppend(ScenarioItems(prev.result, ns'), Values(c.result)); }
        Regressions(ScenarioItems(prev.result, ns') + Values(c.result));
        { assert n !in ns' by {
            assert forall i | 0 <= i < |ns'| :: ns'[i] != n;
          }
          ScenarioItemsPut(prev.result, ns', n, c.result); }
        Regressions(ScenarioItems(d, ns') + Values(d.vals[n]));
        Regressions(ScenarioItems(d, ns));
      }
    }
  }

  /** A successful walk over `ns` is the walk over all but the last name,
      extended by that report's comparison. */
  lemma CompareReportsStep(reports: Reports.Lookup, aa: Dict<Dict<StatsObject>>, bb: Side, ns: seq<string>)
    requires forall n | n in ns :: n in aa.vals
    requires forall i, j | 0 <= i < j < |ns| :: ns[i] != ns[j]
    requires |ns| > 0 && CompareReports(reports, aa, bb, ns).Success?
    ensures var n, ns' := ns[|ns| - 1], ns[..|ns| - 1];
      && CompareReports(reports, aa, bb, ns').Success?
      && reports(n).Some?
      && var prev := CompareReports(reports, aa, bb, ns').value;
         var c := CompareReport(reports(n).value, aa.vals[n], StatsOf(bb, n));
         CompareReports(reports, aa, bb, ns).value == Compared(Put(prev.result, n, c.result), prev.warnings + c.warnings)
  {
  }

  /** Comparing the reports scenario `k` of record A analysed throws nothing. */
  predicate Resolves(reports: Reports.Lookup, sa: Dict<ScenarioRecord>, sb: Dict<ScenarioRecord>, k: string)
    requires k in sa.vals
  {
    FirstError(reports, SideOf(sb, k), sa.vals[k].analysed.keys) == |sa.vals[k].analysed.keys|
  }

  /** The position of the first scenario whose comparison throws, or the
      length of `ks` when there is none. */
  function FirstFailing(reports: Reports.Lookup, sa: Dict<ScenarioRecord>, sb: Dict<ScenarioRecord>, ks: seq<string>): (i: nat)
    requires forall k | k in ks :: k in sa.vals
    ensures i <= |ks|
    ensures forall j | 0 <= j < i :: Resolves(reports, sa, sb, ks[j])
    ensures i < |ks| ==> !Resolves(reports, sa, sb, ks[i])
  {
    if |ks| == 0 then 0
    else
      var f := FirstFailing(reports, sa, sb, ks[..|ks| - 1]);
      if f < |ks| - 1 then f
      else if !Resolves(reports, sa, sb, ks[|ks| - 1]) then |ks| - 1
      else |ks|
  }

  /** `for ( const scenarioKey in recordA.scenarios )` over the keys `ks`.
      The first scenario whose comparison throws ends the walk with the
      error of its first failing report. */
  function CompareScenarios(reports: Reports.Lookup, sa: Dict<ScenarioRecord>, sb: Dict<ScenarioRecord>, ks: seq<string>): (r: Result<Comparison, CompareError>)
    requires forall k | k in ks :: k in sa.vals
    requires forall i, j | 0 <= i < j < |ks| :: ks[i] != ks[j]
    ensures r.Success? <==> FirstFailing(reports, sa, sb, ks) == |ks|
    ensures r.Failure? ==>
      var k := ks[FirstFailing(reports, sa, sb, ks)];
      var ns := sa.vals[k].analysed.keys;
      r.error == ReportError(reports, SideOf(sb, k), ns[FirstError(reports, SideOf(sb, k), ns)]).value
    ensures r.Success? ==> r.value.result.keys == ks
  {
    if |ks| == 0 then Success(Compared(Empty(), []))
    else
      var k := ks[|ks| - 1];
      var ks' := ks[..|ks| - 1];
      match CompareScenarios(reports, sa, sb, ks')
      case Failure(e) => Failure(e)
      case Success(prev) =>
        var a := sa.vals[k].analysed;
        match CompareReports(reports, a, SideOf(sb, k), a.keys)
        case Failure(e) => Failure(e)
        case Success(c) =>
          PutLast(ks, prev.result, c.result);
          Success(Compared(Put(prev.result, k, c.result), prev.warnings + c.warnings))
  }

  /** Each scenario's entry is the comparison of its reports, and the
      warnings are the regressions among all items, in walking order. */
  lemma CompareScenariosContents(reports: Reports.Lookup, sa: Dict<ScenarioRecord>, sb: Dict<ScenarioRecord>, ks: seq<string>)
    requires forall k | k in ks :: k in sa.vals
    requires forall i, j | 0 <= i < j < |ks| :: ks[i] != ks[j]
    requires CompareScenarios(reports, sa, sb, ks).Success?
    ensures var c := CompareScenarios(reports, sa, sb, ks).value;
      && (forall k | k in ks ::
            var a := sa.vals[k].analysed;
            CompareReports(reports, a, SideOf(sb, k), a.keys).Success? &&
            c.result.vals[k] == CompareReports(reports, a, SideOf(sb, k), a.keys).value.result)
      && c.warnings == Regressions(AllItems(c.result, ks))
  {
    CompareScenariosEntries(reports, sa, sb, ks);
    CompareScenariosWarnings(reports, sa, sb, ks);
  }

  lemma {:induction false} CompareScenariosEntries(reports: Reports.Lookup, sa: Dict<ScenarioRecord>, sb: Dict<ScenarioRecord>, ks: seq<string>)
    requires forall k | k in ks :: k in sa.vals
    requires forall i, j | 0 <= i < j < |ks| :: ks[i] != ks[j]
    requires CompareScenarios(reports, sa, sb, ks).Success?
    ensures forall k | k in ks ::
      var a := sa.vals[k].analysed;
      CompareReports(reports, a, SideOf(sb, k), a.keys).Success? &&
      CompareScenarios(reports, sa, sb, ks).value.result.vals[k] == CompareReports(reports, a, SideOf(sb, k), a.keys).value.result
  {
    if |ks| > 0 {
      var k := ks[|ks| - 1];
      var ks' := ks[..|ks| - 1];
      assert forall j :: j in ks <==> j in ks' || j == k;
      CompareScenariosEntries(reports, sa, sb, ks');
    }
  }

  lemma {:induction false} CompareScenariosWarnings(reports: Reports.Lookup, sa: Dict<ScenarioRecord>, sb: Dict<ScenarioRecord>, ks: seq<string>)
    requires forall k | k in ks :: k in sa.vals
    requires forall i, j | 0 <= i < j < |ks| :: ks[i] != ks[j]
    requires CompareScenarios(reports, sa, sb, ks).Success?
    ensures var c := CompareScenarios(reports, sa, sb, ks).value;
      c.warnings == Regressions(AllItems(c.result, ks))
  {
    if |ks| > 0 {
      var k := ks[|ks| - 1];
      var ks' := ks[..|ks| - 1];
      CompareScenariosStep(reports, sa, sb, ks);
      var prev := CompareScenarios(reports, sa, sb, ks').value;
      var a := sa.vals[k].analysed;
      var c := CompareReports(reports, a, SideOf(sb, k), a.keys).value;
      CompareScenariosWarnings(reports, sa, sb, ks');
      CompareReportsWarnings(reports, a, SideOf(sb, k), a.keys);
      assert k !in ks' by {
        assert forall i | 0 <= i < |ks'| :: ks'[i] != k;
      }
      AllWarningsStep(prev, c, ks);
    }
  }

  /** A successful walk over `ks` is the walk over all but the last key,
      extended by that key's report comparison. */
  lemma CompareScenariosStep(reports: Reports.Lookup, sa: Dict<ScenarioRecord>, sb: Dict<ScenarioRecord>, ks: seq<string>)
    requires forall k | k in ks :: k in sa.vals
    requires forall i, j | 0 <= i < j < |ks| :: ks[i] != ks[j]
    requires |ks| > 0 && CompareScenarios(reports, sa, sb, ks).Success?
    ensures var k, ks' := ks[|ks| - 1], ks[..|ks| - 1];
      var a := sa.vals[k].analysed;
      && CompareScenarios(reports, sa, sb, ks').Success?
      && CompareReports(reports, a, SideOf(sb, k), a.keys).Success?
      && var prev := CompareScenarios(reports, sa, sb, ks').value;
         var c := CompareReports(reports, a, SideOf(sb, k), a.keys).value;
         CompareScenarios(reports, sa, sb, ks).value == Compared(Put(prev.result, k, c.result), prev.warnings + c.warnings)
  {
  }

  /** One step of the scenario walk keeps the warnings equal to the
      regressions among all items walked so far. */
  lemma AllWarningsStep(prev: Comparison, c: Compared<ScenarioResult>, ks: seq<string>)
    requires |ks| > 0 && ks[|ks| - 1] !in ks[..|ks| - 1]
    requires forall j | j in ks[..|ks| - 1] :: j in prev.result.vals
    requires prev.warnings == Regressions(AllItems(prev.result, ks[..|ks| - 1]))
    requires c.warnings == Regressions(ScenarioItems(c.result, c.result.keys))
    ensures var d := Put(prev.result, ks[|ks| - 1], c.result);
      prev.warnings + c.warnings == Regressions(AllItems(d, ks))
  {
    var k, ks' := ks[|ks| - 1], ks[..|ks| - 1];
    var d := Put(prev.result, k, c.result);
    RegressionsAppend(AllItems(prev.result, ks'), ScenarioItems(c.result, c.result.keys));
    AllItemsPut(prev.result, ks', k, c.result);
  }

  lemma {:induction false} FirstErrorMeansNoneThrows(reports: Reports.Lookup, bb: Side, ns: seq<string>)
    ensures FirstError(reports, bb, ns) == |ns| <==> forall n | n in ns :: ReportError(reports, bb, n).None?
  {
    if FirstError(reports, bb, ns) == |ns| {
      forall n | n in ns ensures ReportError(reports, bb, n).None? {
        var j :| 0 <= j < |ns| && ns[j] == n;
      }
    }
  }

  lemma {:induction false} FirstFailingMeansAllResolve(reports: Reports.Lookup, sa: Dict<ScenarioRecord>, sb: Dict<ScenarioRecord>, ks: seq<string>)
    requires forall k | k in ks :: k in sa.vals
    ensures FirstFailing(reports, sa, sb, ks) == |ks| <==> forall k | k in ks :: Resolves(reports, sa, sb, k)
  {
    if FirstFailing(reports, sa, sb, ks) == |ks| {
      forall k | k in ks ensures Resolves(reports, sa, sb, k) {
        var j :| 0 <= j < |ks| && ks[j] == k;
      }
    }
  }

  /** Every built-in report has a metric, so comparing it reads record B. */
  lemma BuiltinReportsHaveMetrics(n: string)
    requires n in Reports.BuiltinNames
    ensures |Reports.Builtin(n).value.metrics.keys| > 0
  {
    if n == "navtiming" {
      assert Reports.NavtimingMetric("processing").Some?;
      assert "processing" in Reports.NavtimingMetrics.vals;
    } else if n == "paint" {
      assert Reports.PaintMetric("TTFP").Some?;
      assert "TTFP" in Reports.PaintMetrics.vals;
    } else {
      assert Reports.TransferMetric("pageWeight").Some?;
      assert "pageWeight" in Reports.TransferMetrics.vals;
    }
  }

  /** With the built-in reports, a report of scenario `k` throws nothing
      exactly when its name is built in and record B holds it. */
  lemma BuiltinReportError(sb: Dict<ScenarioRecord>, k: string, n: string)
    ensures ReportError(Reports.Builtin, SideOf(sb, k), n).None? <==>
      n in Reports.BuiltinNames && k in sb.vals && n in sb.vals[k].analysed.vals
    ensures ReportError(Reports.Builtin, SideOf(sb, k), n).Some? ==>
      (n !in Reports.BuiltinNames && ReportError(Reports.Builtin, SideOf(sb, k), n).value == UnknownReport(n))
      || ReportError(Reports.Builtin, SideOf(sb, k), n).value == MissingInB
  {
    if n in Reports.BuiltinNames {
      BuiltinReportsHaveMetrics(n);
    }
  }

  /** Every report name A analysed is built in, and B holds the scenario
      with that report. */
  predicate Matched(a: Record, b: Record) {
    forall s, n | s in a.scenarios.vals && n in a.scenarios.vals[s].analysed.vals ::
      n in Reports.BuiltinNames && HeldBy(b, s, n)
  }

  /** Record B holds scenario `s` with report `n` analysed. */
  predicate HeldBy(b: Record, s: string, n: string) {
    s in b.scenarios.vals && n in b.scenarios.vals[s].analysed.vals
  }

  /** `compare( outputDir, labelA, labelB )` on the two records, with the
      built-in report registry: one result entry per scenario of A, and
      the warnings are the regressions among the items, in walking order.
      It fails exactly when A analysed a report name that is not built in,
      or one that record B does not hold. */
  function Compare(a: Record, b: Record): (r: Result<Comparison, CompareError>)
    ensures r.Success? <==> Matched(a, b)
    ensures r.Failure? ==> r.error == MissingInB || exists n :: r.error == UnknownReport(n) && n !in Reports.BuiltinNames
    ensures r.Success? ==> r.value.result.keys == a.scenarios.keys
    ensures r.Success? ==> r.value.warnings == Regressions(AllItems(r.value.result, a.scenarios.keys))
  {
    var r := CompareScenarios(Reports.Builtin, a.scenarios, b.scenarios, a.scenarios.keys);
    MatchedMeansAllResolve(a, b);
    if r.Success? then
      CompareScenariosContents(Reports.Builtin, a.scenarios, b.scenarios, a.scenarios.keys);
      r
    else
      CompareFailureKind(a, b);
      r
  }

  /** Record B matches record A exactly when every scenario of A resolves
      against B. */
  lemma MatchedMeansAllResolve(a: Record, b: Record)
    ensures FirstFailing(Reports.Builtin, a.scenarios, b.scenarios, a.scenarios.keys) == |a.scenarios.keys| <==> Matched(a, b)
  {
    var ks := a.scenarios.keys;
    FirstFailingMeansAllResolve(Reports.Builtin, a.scenarios, b.scenarios, ks);
    forall k | k in ks ensures Resolves(Reports.Builtin, a.scenarios, b.scenarios, k) <==>
      forall n | n in a.scenarios.vals[k].analysed.vals :: n in Reports.BuiltinNames && HeldBy(b, k, n)
    {
      ScenarioResolves(a, b, k);
    }
  }

  /** Scenario `k` of record A resolves against B exactly when each of its
      report names is built in and held by B. */
  lemma ScenarioResolves(a: Record, b: Record, k: string)
    requires k in a.scenarios.vals
    ensures Resolves(Reports.Builtin, a.scenarios, b.scenarios, k) <==>
      forall n | n in a.scenarios.vals[k].analysed.vals :: n in Reports.BuiltinNames && HeldBy(b, k, n)
  {
    var ns := a.scenarios.vals[k].analysed.keys;
    FirstErrorMeansNoneThrows(Reports.Builtin, SideOf(b.scenarios, k), ns);
    forall n ensures ReportError(Reports.Builtin, SideOf(b.scenarios, k), n).None? <==>
      n in Reports.BuiltinNames && k in b.scenarios.vals && n in b.scenarios.vals[k].analysed.vals
    {
      BuiltinReportError(b.scenarios, k, n);
    }
  }

  /** A failing comparison of two records throws either the TypeError of a
      missing scenario or report, or the registry's error for an unknown
      report name. */
  lemma CompareFailureKind(a: Record, b: Record)
    requires CompareScenarios(Reports.Builtin, a.scenarios, b.scenarios, a.scenarios.keys).Failure?
    ensures var e := CompareScenarios(Reports.Builtin, a.scenarios, b.scenarios, a.scenarios.keys).error;
      e == MissingInB || exists n :: e == UnknownReport(n) && n !in Reports.BuiltinNames
  {
    var ks := a.scenarios.keys;
    var k := ks[FirstFailing(Reports.Builtin, a.scenarios, b.scenarios, ks)];
    var ns := a.scenarios.vals[k].analysed.keys;
    BuiltinReportError(b.scenarios, k, ns[FirstError(Reports.Builtin, SideOf(b.scenarios, k), ns)]);
  }

  /** Each report name of a matched record A is built in and held by B. */
  lemma MatchedAt(a: Record, b: Record, s: string, n: string)
    requires Matched(a, b)
    requires s in a.scenarios.vals && n in a.scenarios.vals[s].analysed.vals
    ensures n in Reports.BuiltinNames && HeldBy(b, s, n)
  {
  }

  /** A metric is compared exactly when the report defines it and both
      records analysed it; its item carries both stats, their
      `compareStdev` difference and its verdict. */
  lemma ComparedItem(a: Record, b: Record, s: string, n: string, k: string)
    requires Compare(a, b).Success?
    requires s in a.scenarios.vals && n in a.scenarios.vals[s].analysed.vals
    ensures n in Reports.BuiltinNames && HeldBy(b, s, n)
    ensures var res := Compare(a, b).value.result;
      var sa := a.scenarios.vals[s].analysed.vals[n];
      var sb := b.scenarios.vals[s].analysed.vals[n];
      var rep := Reports.Builtin(n).value;
      && s in res.vals && n in res.vals[s].vals
      && (k in res.vals[s].vals[n].vals <==> k in rep.metrics.vals && k in sa.vals && k in sb.vals)
      && (k in res.vals[s].vals[n].vals ==>
            res.vals[s].vals[n].vals[k] == MakeItem(rep.metrics.vals[k], ReadBack(sa.vals[k]), ReadBack(sb.vals[k])))
  {
    var ks := a.scenarios.keys;
    MatchedAt(a, b, s, n);
    CompareScenariosContents(Reports.Builtin, a.scenarios, b.scenarios, ks);
    var aa := a.scenarios.vals[s].analysed;
    CompareReportsContents(Reports.Builtin, aa, SideOf(b.scenarios, s), aa.keys);
  }

  /** Record B without a scenario of A whose report has metrics makes the
      comparison throw, however the rest of the records look. */
  lemma MissingScenarioThrows(a: Record, b: Record, s: string, n: string)
    requires s in a.scenarios.vals && n in a.scenarios.vals[s].analysed.vals
    requires s !in b.scenarios.vals
    ensures Compare(a, b).Failure?
  {
    assert !Matched(a, b) by {
      assert !HeldBy(b, s, n);
    }
  }

  /** An item is a warning exactly when it is in the result and judged a
      regression. */
  lemma WarningsAreTheRegressions(a: Record, b: Record, x: Item)
    requires Compare(a, b).Success?
    ensures var c := Compare(a, b).value;
      x in c.warnings <==> x in AllItems(c.result, a.scenarios.keys) && x.judgement == Regressed
  {
    var c := Compare(a, b).value;
    var items := AllItems(c.result, a.scenarios.keys);
    if x in items && x.judgement == Regressed {
      var i :| 0 <= i < |items| && items[i] == x;
      RegressionsComplete(items, i);
    }
  }

  /** The name in an unknown-report error is one the report registry does
      not resolve, and the error is the registry's own. */
  lemma UnknownReportIsTheRegistryError(n: string, copyId: nat)
    requires n !in Reports.BuiltinNames
    ensures Registry.Get(Registry.ReportRegistry, JsValue.Str(n), copyId) == Failure(UnknownReport(n).error)
  {
    Registry.ReportLookup(n, copyId);
  }
}
