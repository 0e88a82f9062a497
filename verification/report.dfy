/** Reports and their metrics (the modules under src/reports): a report names the probes
    it needs and, per metric, a caption, a unit, an optional threshold and
    an analyser that reduces the combined series to `{ mean, stdev }`.
    The three built-in reports' analysers are the only ones modelled; every
    built-in metric compares with `compareStdev`. */
module Reports {
  import opened Wrappers
  import opened Dict
  import opened JsValue
  import opened Compute
  import opened Transfer
  import opened Aggregate
  import opened Judgement

  /** What an analyser throws: a property read on `undefined`, `for ... of`
      or `.map` on a non-array, or arithmetic on a symbol or a BigInt. */
  datatype AnalysisError = TypeError

  /** The analysers the built-in reports use. */
  datatype Analyser =
    | SeriesStats(probe: string, key: string)                           // stats( series.p.k )
    | DifferenceStats(probe: string, minuend: string, subtrahend: string) // stats( subtract( ... ) )
    | TransferStats(size: SizeKey)  // stats( series.transfer.entries.map( getSizesFromEntries ) )

  datatype Metric = Metric(
    caption: string,
    unit: string,
    analyse: Analyser,
    threshold: Option<real>,
    compareUnit: Option<string>)

  datatype Report = Report(probes: seq<string>, metrics: Dict<Metric>)

  // ---- reading the combined series ----

  /** `series[ p ][ k ]`: reading a key of a missing probe throws; a missing
      key yields `undefined`, on which `stats` and `subtract` throw. */
  function Series(series: Combined, p: string, k: string): (r: Result<seq<Value>, AnalysisError>)
    ensures r.Success? <==> HasSeries(series, p, k)
    ensures r.Success? ==> r.value == SeriesOf(series, p, k)
  {
    if p !in series.vals then Failure(TypeError)
    else if k !in series.vals[p].vals then Failure(TypeError)
    else Success(series.vals[p].vals[k])
  }

  /** A value as `+` and `-` take it when the other side is a number:
      `null` is 0, booleans are 0 and 1, `undefined`, objects and functions
      are `NaN`, and a symbol or a BigInt throws. */
  function ToNumber(v: Value): (r: Result<Number, AnalysisError>)
    ensures r.Failure? <==> v.Symbol? || v.BigInt? || (v.Obj? && v.kind == NullPrototype)
    ensures v.Num? ==> r == Success(Real(v.n))
    ensures v.Null? || v == Bool(false) ==> r == Success(Real(0.0))
    ensures v == Bool(true) ==> r == Success(Real(1.0))
    ensures v.Undefined? ==> r == Success(NaN)
  {
    match v
    case Num(n) => Success(Real(n))
    case Null => Success(Real(0.0))
    case Bool(b) => Success(Real(if b then 1.0 else 0.0))
    case Symbol => Failure(TypeError)
    case BigInt(_) => Failure(TypeError)
    case Obj(_, kind, _) => if kind == NullPrototype then Failure(TypeError) else Success(NaN)
    case _ => Success(NaN)
  }

  /** The numbers of a series, in order; the first value that cannot be
      converted throws. */
  function ToNumbers(vs: seq<Value>): (r: Result<seq<Number>, AnalysisError>)
    ensures r.Success? <==> forall i | 0 <= i < |vs| :: ToNumber(vs[i]).Success?
    ensures r.Success? ==> |r.value| == |vs| && forall i | 0 <= i < |vs| :: r.value[i] == ToNumber(vs[i]).value
  {
    if |vs| == 0 then Success([])
    else
      match ToNumbers(vs[..|vs| - 1])
      case Failure(e) => Failure(e)
      case Success(ns) =>
        match ToNumber(vs[|vs| - 1])
        case Failure(e) => Failure(e)
        case Success(n) => Success(ns + [n])
  }

  /** `stats( values )` on a series. */
  function StatsOfSeries(vs: seq<Value>, sqrt: real -> real): (r: Result<StatsObject, AnalysisError>)
    ensures r.Success? <==> ToNumbers(vs).Success?
    ensures r.Success? ==> r.value == StatsOfNumbers(ToNumbers(vs).value, sqrt)
  {
    match ToNumbers(vs)
    case Failure(e) => Failure(e)
    case Success(ns) => Success(StatsOfNumbers(ns, sqrt))
  }

  /** `subtract( a, b )` on two series: only the first `|a|` values of `b`
      are read, and a subtrahend past the end of `b` is `undefined`. */
  function SubtractSeries(a: seq<Value>, b: seq<Value>): (r: Result<seq<Number>, AnalysisError>)
    ensures var m := if |a| <= |b| then |a| else |b|;
      r.Success? <==> ToNumbers(a).Success? && ToNumbers(b[..m]).Success?
    ensures r.Success? ==> |r.value| == |a|
    ensures r.Success? ==> forall i | 0 <= i < |a| ::
      r.value[i] == Minus(ToNumber(a[i]).value, if i < |b| then ToNumber(b[i]).value else NaN)
  {
    var m := if |a| <= |b| then |a| else |b|;
    match ToNumbers(a)
    case Failure(e) => Failure(e)
    case Success(xs) =>
      match ToNumbers(b[..m])
      case Failure(e) => Failure(e)
      case Success(ys) => Success(Subtract(xs, ys))
  }

  // ---- transfer entries ----

  /** One entry as `getSizesFromEntries` sees it: its classification inputs
      and its `transferSize` as a number. */
  datatype Sized = Sized(pathname: string, initiatorType: string, size: Number)

  /** The entry the classification sees; the size plays no part in it. */
  function EntryOf(d: Sized): Entry {
    Entry(if d.size.Real? then d.size.r else 0.0, d.pathname, d.initiatorType)
  }

  /** One entry object: `sizes.total += entry.transferSize` throws on a
      symbol or a BigInt, and `parseurl( entry.name )` throws unless the
      name is a string; an initiator type that is not a string matches no
      `case`. */
  function DecodeEntry(v: Value, pathnameOf: string -> string): (r: Result<Sized, AnalysisError>)
    ensures r.Success? <==> Prop(v, "name").Str? && ToNumber(Prop(v, "transferSize")).Success?
    ensures r.Success? ==>
      && r.value.size == ToNumber(Prop(v, "transferSize")).value
      && r.value.pathname == pathnameOf(Prop(v, "name").s)
      && (Prop(v, "initiatorType").Str? ==> r.value.initiatorType == Prop(v, "initiatorType").s)
      && (!Prop(v, "initiatorType").Str? ==> Classify(EntryOf(r.value)) == Other)
  {
    var name := Prop(v, "name");
    var kind := Prop(v, "initiatorType");
    match ToNumber(Prop(v, "transferSize"))
    case Failure(e) => Failure(e)
    case Success(size) =>
      if !name.Str? then Failure(TypeError)
      else Success(Sized(pathnameOf(name.s), if kind.Str? then kind.s else "", size))
  }

  /** Every entry of one run, in order, unless one of them throws. */
  function DecodeEntries(vs: seq<Value>, pathnameOf: string -> string): (r: Result<seq<Sized>, AnalysisError>)
    ensures r.Success? <==> forall i | 0 <= i < |vs| :: DecodeEntry(vs[i], pathnameOf).Success?
    ensures r.Success? ==> |r.value| == |vs| && forall i | 0 <= i < |vs| :: r.value[i] == DecodeEntry(vs[i], pathnameOf).value
  {
    if forall i | 0 <= i < |vs| :: DecodeEntry(vs[i], pathnameOf).Success? then
      Success(seq(|vs|, i requires 0 <= i < |vs| && DecodeEntry(vs[i], pathnameOf).Success? =>
        DecodeEntry(vs[i], pathnameOf).value))
    else Failure(TypeError)
  }

  /** Whether an entry's size is added into `sizes[ key ]`. */
  predicate CountsUnder(e: Entry, key: SizeKey) {
    key == Total || key == Part(Classify(e))
  }

  /** What each entry adds to `sizes[ key ]`: its size, or nothing. */
  function Contributions(ds: seq<Sized>, key: SizeKey): (r: seq<Number>)
    ensures |r| == |ds|
  {
    seq(|ds|, i requires 0 <= i < |ds| => if CountsUnder(EntryOf(ds[i]), key) then ds[i].size else Real(0.0))
  }

  /** `getSizesFromEntries( key, entries )`: the sum, from 0, of what each
      entry adds under `key`. */
  function RunSize(ds: seq<Sized>, key: SizeKey): Number {
    SumNumbers(Contributions(ds, key))
  }

  /** A `NaN` size poisons exactly the sums it is added into: the total and
      its own category. */
  predicate PoisonedUnder(ds: seq<Sized>, key: SizeKey) {
    exists i | 0 <= i < |ds| :: ds[i].size.NaN? && CountsUnder(EntryOf(ds[i]), key)
  }

  function EntriesOf(ds: seq<Sized>): (r: seq<Entry>)
    ensures |r| == |ds| && forall i | 0 <= i < |ds| :: r[i] == EntryOf(ds[i])
  {
    seq(|ds|, i requires 0 <= i < |ds| => EntryOf(ds[i]))
  }

  /** One entry more adds its size to the sum under `key` when it counts
      there. */
  lemma GetAddEntry(s: Sizes, e: Entry, key: SizeKey)
    ensures Get(AddEntry(s, e), key) == Get(s, key) + (if CountsUnder(e, key) then e.transferSize else 0.0)
  {
  }

  lemma SizedStep(ds: seq<Sized>, key: SizeKey)
    requires |ds| > 0
    ensures var n := |ds| - 1;
      && RunSize(ds, key) == Plus(RunSize(ds[..n], key), Contributions(ds, key)[n])
      && EntriesOf(ds)[..n] == EntriesOf(ds[..n])
      && (PoisonedUnder(ds, key) <==>
            PoisonedUnder(ds[..n], key) || (ds[n].size.NaN? && CountsUnder(EntryOf(ds[n]), key)))
  {
    var n := |ds| - 1;
    assert Contributions(ds, key)[..n] == Contributions(ds[..n], key);
    assert forall j | 0 <= j < n :: ds[..n][j] == ds[j];
  }

  /** The sum under `key` is `NaN` exactly when a `NaN` size counts there;
      otherwise it is what the `sizes` fold over the real sizes holds. */
  lemma {:induction false} RunSizeIsTheFold(ds: seq<Sized>, key: SizeKey)
    ensures RunSize(ds, key).NaN? <==> PoisonedUnder(ds, key)
    ensures RunSize(ds, key).Real? ==> RunSize(ds, key).r == Get(SizesOf(EntriesOf(ds)), key)
  {
    if |ds| > 0 {
      var n := |ds| - 1;
      SizedStep(ds, key);
      RunSizeIsTheFold(ds[..n], key);
      GetAddEntry(SizesOf(EntriesOf(ds[..n])), EntryOf(ds[n]), key);
    } else {
      assert Contributions(ds, key) == [];
    }
  }

  /** `run.forEach` throws unless the run is an array whose entries all
      decode. */
  predicate RunDecodes(run: Value, pathnameOf: string -> string) {
    run.Arr? && DecodeEntries(run.items, pathnameOf).Success?
  }

  /** `series.transfer.entries.map( ( run ) => getSizesFromEntries( key, run ) )`:
      one sum per run, unless a run throws. */
  function RunSizes(runs: seq<Value>, key: SizeKey, pathnameOf: string -> string): (r: Result<seq<Number>, AnalysisError>)
    ensures r.Success? <==> forall i | 0 <= i < |runs| :: RunDecodes(runs[i], pathnameOf)
    ensures r.Success? ==> |r.value| == |runs|
    ensures r.Success? ==> forall i | 0 <= i < |runs| ::
      r.value[i] == RunSize(DecodeEntries(runs[i].items, pathnameOf).value, key)
  {
    if forall i | 0 <= i < |runs| :: RunDecodes(runs[i], pathnameOf) then
      Success(seq(|runs|, i requires 0 <= i < |runs| && RunDecodes(runs[i], pathnameOf) =>
        RunSize(DecodeEntries(runs[i].items, pathnameOf).value, key)))
    else Failure(TypeError)
  }

  // ---- analysers ----

  /** `metric.analyse( series )` for the built-in analysers. */
  function Analyse(a: Analyser, series: Combined, sqrt: real -> real, pathnameOf: string -> string): (r: Result<StatsObject, AnalysisError>)
    ensures a.SeriesStats? ==>
      && (!HasSeries(series, a.probe, a.key) ==> r.Failure?)
      && (HasSeries(series, a.probe, a.key) ==> r == StatsOfSeries(SeriesOf(series, a.probe, a.key), sqrt))
    ensures a.DifferenceStats? && r.Failure? ==>
      || !HasSeries(series, a.probe, a.minuend) || !HasSeries(series, a.probe, a.subtrahend)
      || SubtractSeries(SeriesOf(series, a.probe, a.minuend), SeriesOf(series, a.probe, a.subtrahend)).Failure?
    ensures a.DifferenceStats? && r.Success? ==>
      var m := SeriesOf(series, a.probe, a.minuend);
      && HasSeries(series, a.probe, a.minuend)
      && (if HasSeries(series, a.probe, a.subtrahend)
          then SubtractSeries(m, SeriesOf(series, a.probe, a.subtrahend)).Success?
            && r.value == StatsOfNumbers(SubtractSeries(m, SeriesOf(series, a.probe, a.subtrahend)).value, sqrt)
          else |m| == 0 && r.value == StatsObject(NaN, NaN))
    ensures a.TransferStats? ==>
      var runs := SeriesOf(series, "transfer", "entries");
      && (r.Success? <==> HasSeries(series, "transfer", "entries") && RunSizes(runs, a.size, pathnameOf).Success?)
      && (r.Success? ==> r.value == StatsOfNumbers(RunSizes(runs, a.size, pathnameOf).value, sqrt))
  {
    match a
    case SeriesStats(p, k) =>
      var vs :- Series(series, p, k);
      StatsOfSeries(vs, sqrt)
    case DifferenceStats(p, m, s) =>
      var ms :- Series(series, p, m);
      if !HasSeries(series, p, s) then
        // `seqB[ i ]` on `undefined` throws only once `map` calls back.
        if |ms| == 0 then Success(StatsOfNumbers([], sqrt)) else Failure(TypeError)
      else
        var ds :- SubtractSeries(ms, SeriesOf(series, p, s));
        Success(StatsOfNumbers(ds, sqrt))
    case TransferStats(key) =>
      var runs :- Series(series, "transfer", "entries");
      var sizes :- RunSizes(runs, key, pathnameOf);
      Success(StatsOfNumbers(sizes, sqrt))
  }

  // ---- the built-in reports ----

  /** `src/reports/navtiming.js`. */
  function NavtimingMetric(k: string): Option<Metric> {
    match k
    case "responseStart" => Some(Metric("Time to first byte", "ms",
      SeriesStats("navtiming", "responseStart"), None, None))
    case "loadEventEnd" => Some(Metric("Total page load time", "ms",
      SeriesStats("navtiming", "loadEventEnd"), Some(1.0), None))
    case "processing" => Some(Metric("Time from responseEnd to domComplete", "ms",
      DifferenceStats("navtiming", "domComplete", "responseEnd"), Some(10.0), None))
    case "onLoad" => Some(Metric("Time from loadEventStart to loadEventEnd", "ms",
      DifferenceStats("navtiming", "loadEventEnd", "loadEventStart"), Some(1.0), None))
    case _ => None
  }

  /** `src/reports/paint.js`. */
  function PaintMetric(k: string): Option<Metric> {
    match k
    case "TTFP" => Some(Metric("Time to first paint", "ms",
      SeriesStats("paint", "first-paint"), None, None))
    case "TTFCP" => Some(Metric("Total to first contentful paint", "ms",
      SeriesStats("paint", "first-contentful-paint"), None, None))
    case _ => None
  }

  /** `src/reports/transfer.js`. */
  function TransferMetric(k: string): Option<Metric> {
    match k
    case "pageWeight" => Some(Metric("Total size of all transfers during page load", "B",
      TransferStats(Total), Some(1.0), None))
    case "html" => Some(Metric("Transfer size of HTML document", "B",
      TransferStats(Part(Html)), None, None))
    case "css" => Some(Metric("Transfer size of CSS resources", "B",
      TransferStats(Part(Css)), Some(1.0), None))
    case "js" => Some(Metric("Transfer size of JavaScript resources", "B",
      TransferStats(Part(Js)), None, None))
    case "img" => Some(Metric("Transfer size of Image document", "B",
      TransferStats(Part(Img)), None, None))
    case "other" => Some(Metric("Transfer size of other resources", "B",
      TransferStats(Part(Other)), None, None))
    case _ => None
  }

  const NavtimingMetrics: Dict<Metric> :=
    Tabulate(["responseStart", "loadEventEnd", "processing", "onLoad"], NavtimingMetric)
  const PaintMetrics: Dict<Metric> := Tabulate(["TTFP", "TTFCP"], PaintMetric)
  const TransferMetrics: Dict<Metric> :=
    Tabulate(["pageWeight", "html", "css", "js", "img", "other"], TransferMetric)

  const Navtiming := Report(["navtiming"], NavtimingMetrics)
  const Paint := Report(["paint"], PaintMetrics)
  const TransferReport := Report(["transfer"], TransferMetrics)

  /** The report registry as the recording and the comparison see it: a
      name resolves to a report or is unknown. The built-in registry is
      `Builtin`. */
  type Lookup = string -> Option<Report>

  /** The built-in report table, keyed by name. */
  const BuiltinNames: seq<string> := ["navtiming", "paint", "transfer"]

  function Builtin(name: string): (r: Option<Report>)
    ensures r.Some? <==> name in BuiltinNames
  {
    match name
    case "navtiming" => Some(Navtiming)
    case "paint" => Some(Paint)
    case "transfer" => Some(TransferReport)
    case _ => None
  }

  // ---- properties of the built-in reports ----

  /** Every built-in metric reads only the probes its report lists. */
  lemma BuiltinMetricsUseListedProbes(name: string, k: string)
    requires Builtin(name).Some? && k in Builtin(name).value.metrics.vals
    ensures var rep := Builtin(name).value;
      var a := rep.metrics.vals[k].analyse;
      (if a.TransferStats? then "transfer" else a.probe) in rep.probes
  {
    if name == "navtiming" {
      NavtimingKeys(k);
    } else if name == "paint" {
      PaintKeys(k);
    } else {
      TransferKeys(k);
    }
  }

  /** Paint and navtiming measure milliseconds, transfer measures bytes; no
      built-in metric sets its own comparison unit. */
  lemma BuiltinUnits(name: string, k: string)
    requires Builtin(name).Some? && k in Builtin(name).value.metrics.vals
    ensures var m := Builtin(name).value.metrics.vals[k];
      && m.unit == (if name == "transfer" then "B" else "ms")
      && m.compareUnit.None?
  {
    if name == "navtiming" {
      NavtimingKeys(k);
    } else if name == "paint" {
      PaintKeys(k);
    } else {
      TransferKeys(k);
    }
  }

  lemma NavtimingKeys(k: string)
    requires k in NavtimingMetrics.vals
    ensures NavtimingMetrics.vals[k].unit == "ms" && NavtimingMetrics.vals[k].compareUnit.None?
    ensures !NavtimingMetrics.vals[k].analyse.TransferStats? && NavtimingMetrics.vals[k].analyse.probe == "navtiming"
    ensures Active(NavtimingMetrics.vals[k].threshold) <==> k in ["loadEventEnd", "processing", "onLoad"]
  {
    assert k in ["responseStart", "loadEventEnd", "processing", "onLoad"];
    if k == "responseStart" {
    } else if k == "loadEventEnd" {
    } else if k == "processing" {
    } else {
    }
  }

  lemma PaintKeys(k: string)
    requires k in PaintMetrics.vals
    ensures PaintMetrics.vals[k].unit == "ms" && PaintMetrics.vals[k].compareUnit.None?
    ensures PaintMetrics.vals[k].threshold.None?
    ensures PaintMetrics.vals[k].analyse.SeriesStats? && PaintMetrics.vals[k].analyse.probe == "paint"
  {
    assert k in ["TTFP", "TTFCP"];
    if k == "TTFP" {
    } else {
    }
  }

  lemma TransferKeys(k: string)
    requires k in TransferMetrics.vals
    ensures TransferMetrics.vals[k].unit == "B" && TransferMetrics.vals[k].compareUnit.None?
    ensures TransferMetrics.vals[k].analyse.TransferStats?
    ensures Active(TransferMetrics.vals[k].threshold) <==> k in ["pageWeight", "css"]
  {
    assert k in ["pageWeight", "html", "css", "js", "img", "other"];
    if k == "pageWeight" {
    } else if k == "html" {
    } else if k == "css" {
    } else if k == "js" {
    } else if k == "img" {
    } else {
    }
  }

  /** Only `loadEventEnd`, `processing`, `onLoad`, `pageWeight` and `css`
      can ever judge; every other built-in metric judges `null` whatever the
      difference. */
  lemma BuiltinJudgingMetrics(name: string, k: string, diff: real)
    requires Builtin(name).Some? && k in Builtin(name).value.metrics.vals
    ensures var m := Builtin(name).value.metrics.vals[k];
      && (Active(m.threshold) <==>
            (name == "navtiming" && k in ["loadEventEnd", "processing", "onLoad"])
            || (name == "transfer" && k in ["pageWeight", "css"]))
      && (!Active(m.threshold) ==> MakeJudgement(m.threshold, diff) == Neutral)
  {
    if name == "navtiming" {
      NavtimingKeys(k);
    } else if name == "paint" {
      PaintKeys(k);
    } else {
      TransferKeys(k);
    }
  }

  /** The analyser of `processing` is the spread of the per-run gap
      between `responseEnd` and `domComplete`. */
  lemma ProcessingIsDomCompleteMinusResponseEnd(series: Combined, sqrt: real -> real, pathnameOf: string -> string)
    requires HasSeries(series, "navtiming", "domComplete") && HasSeries(series, "navtiming", "responseEnd")
    ensures var r := Analyse(DifferenceStats("navtiming", "domComplete", "responseEnd"), series, sqrt, pathnameOf);
      var m := SeriesOf(series, "navtiming", "domComplete");
      var s := SeriesOf(series, "navtiming", "responseEnd");
      r == match SubtractSeries(m, s)
           case Success(ds) => Success(StatsOfNumbers(ds, sqrt))
           case Failure(e) => Failure(e)
  {
  }

  /** The `processing` metric's analyser is that difference. */
  lemma ProcessingAnalyser()
    ensures "processing" in NavtimingMetrics.vals
    ensures NavtimingMetrics.vals["processing"].analyse == DifferenceStats("navtiming", "domComplete", "responseEnd")
  {
  }

  /** A `null` in a series counts as 0 rather than stopping the analysis:
      `stats([ null ])` is a mean of 0 with the root of 0 as stdev. */
  lemma NullCountsAsZero(sqrt: real -> real)
    ensures StatsOfSeries([Null], sqrt) == Success(StatsObject(Real(0.0), Real(sqrt(0.0))))
  {
    assert ToNumber([Null][0]) == Success(Real(0.0));
    assert ToNumbers([Null]).value == [Real(0.0)];
    StatsOfNumbersExamples(sqrt);
  }

  /** A minuend longer than the subtrahend gives a `NaN` difference, so the
      whole `{ mean, stdev }` is `NaN`. */
  lemma ShortSubtrahendIsNaN(x: real, y: real, z: real, sqrt: real -> real)
    ensures SubtractSeries([Num(x), Num(y)], [Num(z)]).Success?
    ensures StatsOfNumbers(SubtractSeries([Num(x), Num(y)], [Num(z)]).value, sqrt) == StatsObject(NaN, NaN)
  {
    var a, b := [Num(x), Num(y)], [Num(z)];
    assert ToNumbers(a).Success? by {
      assert a[..1] == [Num(x)] && a[..1][..0] == [];
    }
    assert b[..1] == b && b[..0] == [];
    var d := SubtractSeries(a, b).value;
    assert d[1].NaN?;
  }

  /** With no transfer data at all, the transfer metrics throw. */
  lemma TransferWithoutProbeThrows(series: Combined, key: SizeKey, sqrt: real -> real, pathnameOf: string -> string)
    requires "transfer" !in series.vals
    ensures Analyse(TransferStats(key), series, sqrt, pathnameOf) == Failure(TypeError)
  {
  }
}
