/** The shape of a Fresnel record (src/conductor.js): per scenario, the
    options it ran with, the probe data of each run, the runs combined into
    series, and each report's analysis. */
module Records {
  import opened Dict
  import opened JsValue
  import opened Compute
  import opened Aggregate

  /** `record.scenarios[ key ].options`. `reports` holds what the scenario
      listed, names or report objects, or `[]` when it listed none. */
  datatype ScenarioOptions = ScenarioOptions(url: Value, viewport: Value, reports: seq<Value>)

  /** `record.scenarios[ key ]`: `analysed` maps a report name to metric
      name to the `{ mean, stdev }` its analyser produced, `NaN` included. */
  datatype ScenarioRecord = ScenarioRecord(
    options: ScenarioOptions,
    runs: seq<ProbeData>,
    combined: Combined,
    analysed: Dict<Dict<StatsObject>>)

  datatype Record = Record(scenarios: Dict<ScenarioRecord>)
}
