# Fresnel, modelled in Dafny

Fresnel records how fast a web page loads and compares two recordings.
`record` reads a configuration of scenarios. For each scenario it looks up
the probes it needs in the probe and report registries, opens the page in a
headless browser once per run, and keeps what every probe reported. It
then combines the runs into one series per probe key, lets each report's
metrics reduce those series to `{ mean, stdev }`, and writes the record.
`compare` reads two records, compares every metric with `compareStdev`,
judges the difference against the metric's threshold and collects the
regressions as warnings. The printer turns such a comparison into text
tables.

This project models that core as pure Dafny functions over immutable data:

- `JsValue` holds JavaScript values with object identity and prototype kind.
- `Dict` is an object with its key order.
- `Shape` is the closed-world validator of `util/is.js`.
- `Writer` is the output directory and name prefix.
- `Registry` is the probe and report registries.
- `Recorder` is one run in the browser, as a sequence of steps.
- `Aggregate` combines the runs.
- `Compute` holds `stats`, `subtract` and `compareStdev` over JavaScript numbers (a real or `NaN`).
- `Transfer` classifies transfer sizes.
- `Reports` holds the three built-in reports and their analysers.
- `Conductor` is `record`.
- `Judgement` and `Comparison` are `compare`.
- `Printer` and `Table` are `format`, `width` and the comparison tables.

The browser, the file system, the environment and the callbacks the model cannot see are parameters:

- `Observer` gives what each probe's `after` hook adds.
- `env` is the process environment.
- `sqrt`, `toFixed` and `pathnameOf` stand for `Math.sqrt`, `Number.prototype.toFixed` and `url.parse( name ).pathname`.

What reaches the browser is returned as a trace of events.

## Model

| member | source | states |
|---|---|---|
| JsValue.TypeOf | src/util/is.js:40-63 | the type name of a value: `array` exactly for arrays, `object` exactly for plain objects, `null` for null, and the `typeof` name for undefined, strings, numbers and booleans |
| JsValue.TypeOfFollowsTypeof | src/util/is.js:50-62 | for a value that is not an array, a plain object or null, the type name is its `typeof` when that is one of the six listed names, and `unknown` otherwise |
| JsValue.LookupPut | src/util/is.js:81 | reading a property after assigning it gives the value just assigned, and any other property reads as before (`undefined` when missing) |
| Dict.Put | src/conductor.js:87 | assigning a property sets its value and appends the key only when it is new, so keys keep insertion order |
| Dict.Assign | src/conductor.js:52 | `Object.assign( d, e )` holds every key of either object, with `e`'s values winning, and keeps `d`'s keys first in their order |
| Dict.MapValuesPut | src/reports/index.js:9-13 | mapping an object's values commutes with assigning a property: the mapped object has the same keys in the same order, with the assigned value mapped |
| Dict.Tabulate | src/probes/index.js:9-15 | an object built from a list of names holds exactly the names that have an entry, each with its entry |
| Dict.ValuesPut | src/conductor.js:249-255 | enumerating the values after adding a new key gives the earlier values in key order followed by the new one |
| Shape.ErrorName | src/util/is.js:12-17 | a `Validation` error is named `Validation`, or `Validation of <name>` for a non-empty input name |
| Shape.CheckDeclared | src/util/is.js:79-89 | no problem is found exactly when every declared key's type is allowed; a reported problem names a declared key whose actual type the shape does not allow |
| Shape.CheckUndeclared | src/util/is.js:90-94 | no problem is found exactly when every own key is declared; a reported problem names an own key the shape does not declare |
| Shape.Like | src/util/is.js:75-95 | `like` passes exactly when the value conforms (a plain object, every declared key typed as allowed, no undeclared key); a failure carries the input's error name, and is `Non-object` exactly when the value is not a plain object |
| Shape.MissingKeyIsUndefined | src/util/is.js:80-81 | a declared key that is absent is checked as `undefined`, so it passes only where the shape allows `undefined` |
| Shape.UndeclaredKeyFails | src/util/is.js:90-94 | any own key the shape does not declare makes `like` throw |
| Shape.Scenario | src/util/is.js:103-114 | a failed scenario check is named after the scenario or its viewport |
| Shape.ScenarioIsValid | src/util/is.js:103-114 | `scenario` passes exactly when the scenario and its viewport conform to their shapes |
| Shape.ScenarioShapeFields | src/util/is.js:104-109 | a scenario conforms exactly when it is a plain object with a string `url`, an object `viewport`, `reports` and `probes` each an array or absent, and no other key |
| Shape.ViewportShapeFields | src/util/is.js:110-113 | a viewport conforms exactly when it is a plain object with numeric `height` and `width` and no other key |
| Shape.CheckScenarios | src/util/is.js:128-130 | checking the scenarios passes exactly when every scenario passes |
| Shape.Config | src/util/is.js:122-131 | `config` passes exactly when the configuration conforms to its shape and every scenario is valid |
| Shape.ConfigFields | src/util/is.js:123-127 | a valid configuration has a boolean `warmup`, a numeric `runs`, and an array or plain object of scenarios |
| Writer.OpenGetPath | src/Writer.js:39-70 | a freshly opened writer accepts exactly the valid names, and puts each directly in its directory |
| Writer.PlainNameIsValid | src/Writer.js:11-22 | a non-empty name of lower-case letters, digits and dashes is a valid file name |
| Writer.ValidateName | src/Writer.js:11-22 | `validateName` passes exactly for valid names, and otherwise throws `Invalid file name: "<name>"` |
| Writer.GetPath | src/Writer.js:66-70 | `getPath` succeeds exactly when prefix and name together form a valid name, and gives the directory joined with that segment |
| Writer.Prefix | src/Writer.js:79-81 | `prefix( p )` keeps the directory and appends `p` to the prefix |
| Writer.Child | src/Writer.js:89-91 | `child( name )` succeeds exactly when prefix and name form a valid name, and gives the directory extended by that one segment, with no prefix |
| Writer.PrefixesCompose | src/Writer.js:79-81 | two prefixes in a row are one prefix of the two joined |
| Writer.ChildKeepsSegmentsValid | src/Writer.js:66-91 | children and prefixes of a writer whose segments are valid names have valid segments |
| Writer.PrefixIsValidatedWithName | src/Writer.js:66-91 | the prefix is checked together with the name: after `prefix( 'aa/' )` the child `bb` is refused, and after `prefix( 'aa-' )` the empty child name gives the directory `aa-` |
| Writer.RejectedNames | test/writer.unit.js:46-57 | the empty name, `aa/bb` and `..` are refused |
| Writer.ChildOfUnprefixed | src/Writer.js:89-91 | an unprefixed writer's child with a valid name is one directory deeper |
| Writer.ChainedChildren | test/writer.unit.js:38-44 | `child( 'aa' ).child( 'bb' ).child( 'cc' )` is the directory `aa/bb/cc` |
| Writer.PrefixedChild | test/writer.unit.js:60-65 | `prefix( 'aa-' ).child( 'bb' )` is the directory `aa-bb` |
| Registry.IsProbe | src/Registry.js:52-58 | `isProbe` passes exactly when the value conforms to the probe shape (optional function hooks and a string name), and its error is named after `probe` |
| Registry.CheckMetrics | src/Registry.js:147-155 | the metric loop passes exactly when every remaining metric conforms to the metric shape |
| Registry.IsReport | src/Registry.js:141-156 | `isReport` passes exactly when the report conforms to its shape and every metric does too |
| Registry.Copy | src/Registry.js:184 | `Object.assign( { name }, values[ name ] )` is a new object whose first key is `name`, with the entry's own properties copied over it (an own `name` wins) |
| Registry.Get | src/Registry.js:177-192 | an unknown name throws `Unknown probe name`; a known name gives its copy and an object gives itself, each only when the validator passes, and a validation failure is the validator's error |
| Registry.LookupsAreDistinct | src/Registry.js:184 | two string lookups of the same name give two distinct objects |
| Registry.ObjectPassesThrough | src/Registry.js:185-188 | a valid object passed in is returned as that very object |
| Registry.EncodeMetric | src/reports/navtiming.js:17-22 | an exported metric is an object literal holding the metric's fields |
| Registry.EncodedMetricFields | src/reports/navtiming.js:17-30 | an exported metric has its caption and unit as strings, function callbacks, and `threshold` and `compareUnit` present exactly when set |
| Registry.EncodedMetricKeys | src/Registry.js:148-154 | an exported metric has no keys beyond the six metric fields |
| Registry.MetricShapeRejectsCompareUnit | src/Registry.js:148-154 | a metric conforms to the metric shape exactly when it has no `compareUnit`, because the shape does not declare that key |
| Registry.FieldsMakeAMetric | src/Registry.js:148-154 | a plain object with string caption and unit, function callbacks, a numeric or absent threshold and no other key conforms to the metric shape |
| Registry.EncodeReport | src/reports/index.js:9-13 | an exported report has keys `probes` and `metrics`, the probe names as strings, and each metric exported under its key |
| Registry.InheritedNamesAreUnknown | src/Registry.js:181-183 | names an object literal would inherit, such as `toString`, are unknown in both null-prototype built-in tables |
| Registry.InheritedNameInLiteralTable | src/Registry.js:181 | in a table made as an object literal, `toString` is found by `in` and its copy passes as a probe |
| Registry.UndeclaredHookRejected | test/Registry.unit.js:19-26 | a table entry with a hook other than `before` or `after` makes `get` throw a `Validation of probe` error |
| Registry.BuiltinProbesResolve | src/probes/index.js:9-15 | each of the five built-in probe names resolves to a probe whose `name` is that name |
| Registry.EncodedMetricsConform | src/Registry.js:147-155 | an exported report's metrics all conform exactly when none has a `compareUnit` |
| Registry.ExportedReportResolves | src/Registry.js:177-192 | looking up an exported report succeeds exactly when none of its metrics has a `compareUnit` |
| Registry.BuiltinReportsResolve | src/reports/index.js:9-13 | each of the three built-in report names resolves |
| Registry.ReportLookup | src/Registry.js:177-192 | a report name resolves exactly when it is a built-in report, and otherwise throws `Unknown probe name` |
| Recorder.NameLength | src/recorder.js:38 | the length of the leading run of `[A-Z_]` characters |
| Recorder.PlaceholderLength | src/recorder.js:38 | a placeholder is `{`, one or more `[A-Z_]` characters, and `}` |
| Recorder.Pieces | src/recorder.js:38 | the placeholders a string is split into have non-empty names of `[A-Z_]` characters |
| Recorder.PiecesRoundTrip | src/recorder.js:38 | writing the pieces back gives the original string |
| Recorder.NoBraceUnchanged | src/recorder.js:37-39 | a string without `{` is left as it is |
| Recorder.ExpandPlainPrefix | src/recorder.js:37-39 | text without `{` before the rest is kept, and the rest is expanded |
| Recorder.ExpandPlaceholder | src/recorder.js:38 | a placeholder is replaced by the environment value of its name |
| Recorder.HelloWorld | src/recorder.js:29-30 | `Hello {PLANET}` with `PLANET = World` is `Hello World` |
| Recorder.TextThenPlaceholder | src/recorder.js:37-39 | text followed by a placeholder is the text followed by its value |
| Recorder.SinglePass | src/recorder.js:38 | replacements are not expanded again, and a missing variable reads `undefined` |
| Recorder.BracesKept | src/recorder.js:38 | `{}`, `{a}` and `{A-B}` are no placeholders and are kept |
| Recorder.BraceKept | src/recorder.js:38 | a `{` that starts no placeholder is kept |
| Recorder.Buckets | src/recorder.js:66-69 | `datas` has one empty object for each probe name and no other key |
| Recorder.MergedAppend | src/recorder.js:109 | merging two batches of `addData` calls in turn is merging them all at once |
| Recorder.AddAll | src/recorder.js:109 | `Object.assign( datas[ name ], data )` for each call changes only that probe's bucket |
| Recorder.Collect | src/recorder.js:103-113 | the after hooks keep the key set of `datas` |
| Recorder.CollectMerges | src/recorder.js:103-113 | each probe's bucket is the merge of everything the probes of that name added, in order |
| Recorder.Run | src/recorder.js:62-120 | a run's data has a key exactly for each probe name |
| Recorder.RunBuckets | src/recorder.js:62-120 | each probe name's bucket holds the merge of what its probes' after hooks added |
| Recorder.SilentProbeHasEmptyBucket | src/recorder.js:66-69 | a probe whose after hook adds nothing still has an empty object in the run's data |
| Recorder.HookStepsAppend | src/recorder.js:18-24 | the hook calls of two lists of probes are those of the first then those of the second |
| Recorder.HookStepsAreTheHooks | src/recorder.js:90-95 | a step is a hook call exactly when some probe has that hook and the step calls it |
| Recorder.HookStepsPhase | src/recorder.js:88-113 | before hooks are in the phase before navigation, after hooks in the phase after it |
| Recorder.RunStepsParts | src/recorder.js:79-119 | a run is: create a context, open a page, set the viewport, the before hooks, navigate to the expanded URL, the after hooks, close the context |
| Recorder.RunStepsInOrder | src/recorder.js:79-119 | a run's steps are in phase order, start with the three setup steps and end by closing the context |
| Recorder.NavigationDivides | src/recorder.js:98-102 | around a single navigation, every before hook comes earlier and every after hook later |
| Recorder.NavigatesOnce | src/recorder.js:98-102 | a run navigates exactly once, to the expanded URL, with all before hooks earlier and all after hooks later |
| Recorder.WarmupRunsNoProbes | src/recorder.js:133-153 | a warmup is a run without probes, so it calls no hook |
| Aggregate.AddKeys | src/conductor.js:171-177 | adding a probe's data keeps that probe present |
| Aggregate.AddKeysSeries | src/conductor.js:171-177 | each data key of a probe gets its value appended to that probe's series; every other series is unchanged |
| Aggregate.AddKeysProbes | src/conductor.js:171-177 | adding data keys creates no probe |
| Aggregate.AddProbeSeries | src/conductor.js:166-177 | adding one probe's data appends each of its values to its series and creates the series it did not have |
| Aggregate.AddProbesSeries | src/conductor.js:165-178 | a run appends, to each series, what the run's probes reported for it |
| Aggregate.AddProbesHasSeries | src/conductor.js:165-178 | a series exists after a run exactly when it existed before or the run reported a value for it |
| Aggregate.AddRunSeries | src/conductor.js:164-179 | one more run extends every series by that run's value for it |
| Aggregate.AddProbesProbes | src/conductor.js:165-168 | the probes after a run are those before plus the run's probes |
| Aggregate.CombineSeries | src/conductor.js:162-180 | `combined[ p ][ k ]` is the column of `p.k` values across the runs that reported it, in run order; it exists exactly when that column is non-empty, and `p` exists exactly when some run reported it |
| Aggregate.ColumnOfUniversalKey | src/conductor.js:162-180 | when every run reports `p.k`, the series has one value per run, in order |
| Aggregate.CombineTwoRuns | src/conductor.js:137-152 | runs reporting `x: 1.4` and `x: 2.1` combine to `x: [ 1.4, 2.1 ]` |
| Compute.StatsOf | src/compute.js:38-63 | over reals: the mean times the count is the sum, and the stdev is the root of the population variance |
| Compute.VarianceNonNegative | src/compute.js:56-60 | the population variance is never negative |
| Compute.Plus | src/compute.js:45 | `+` on numbers is real exactly when both sides are, and then adds them |
| Compute.Minus | src/compute.js:23 | `-` on numbers is real exactly when both sides are, and then subtracts them |
| Compute.Subtract | src/compute.js:22-24 | `subtract( a, b )` is as long as `a`; a difference is real exactly when both operands are and `b` reaches that index, and then it is the difference |
| Compute.StatsOfNumbers | src/compute.js:38-63 | the mean is a real exactly when there are values and none is `NaN`, and the stdev exactly then too; the mean times the count is the sum, and the stdev is `sqrt` of the population variance |
| Compute.SumNumbersReal | src/compute.js:43-46 | the running sum stays real exactly while every value is, and is then the sum |
| Compute.SquaredDeviationsOfReal | src/compute.js:56-59 | with a real mean and real values the squared distances add up to the real sum of squares |
| Compute.SquaredDeviationsOfNaN | src/compute.js:56-59 | a `NaN` mean makes the sum of squared distances `NaN` |
| Compute.ComputeStats | src/compute.js:38-63 | the two accumulating loops of `stats` compute exactly `StatsOfNumbers` |
| Compute.StatsOfNumbersExamples | src/compute.js:38-63 | `stats([0])` is mean 0 and stdev `sqrt(0)`; `stats([])` and a series holding `NaN` are `NaN` |
| Compute.ConstantSeriesHasNoSpread | src/compute.js:38-63 | a series of equal values has that value as mean and zero variance |
| Compute.StatsOfThreeFourFive | test/compute.unit.js:9-14 | `stats([3, 4, 5])` has mean 4 and variance 2/3 |
| Compute.CompareStdev | src/compute.js:88-105 | the gap between the one-stdev intervals when after's lies wholly below or above before's, and 0 exactly when they overlap |
| Compute.CompareStdevSelf | src/compute.js:88-105 | a stats object compared with itself is 0 |
| Compute.CompareStdevAntisymmetric | test/compute.unit.js:22-38 | swapping before and after negates the result |
| Compute.CompareStdevDecreaseExample | test/compute.unit.js:22-29 | `[3,4,5]` then `[1,1.5,2]` is a negative difference, the distance between the intervals |
| Transfer.Classify | src/reports/transfer.js:30-69 | each entry counts in exactly one category: `navigation` is html, `script` js, `img` or an image path from `link` or `css` is img, other `link` or `css` paths are css, and the rest (including fonts loaded from CSS) is other |
| Transfer.SizesOfTotal | src/reports/transfer.js:26-28 | the total is the sum of all transfer sizes and equals the five categories added up |
| Transfer.SizesOfCategory | src/reports/transfer.js:30-69 | each category's size is the sum of the sizes of the entries classified under it |
| Transfer.UnusedCategoryIsZero | src/reports/transfer.js:17-24 | a category no entry falls in stays 0 |
| Transfer.NoEntriesNoSizes | src/reports/transfer.js:17-24 | with no entries every size is 0 |
| Transfer.GetSizesFromEntries | src/reports/transfer.js:16-73 | the loop over the entries returns the requested category's size, the total for `total` |
| Transfer.OneMoreEntry | src/reports/transfer.js:26-70 | one more entry adds its size to its category and to the total |
| Transfer.FixturePageSizes | test/probes.e2e.js:43-52 | the fixture page's five entries give 5900, 315, 35797, 53286 and 20910 bytes, 116208 in total |
| Transfer.WoffCountsAsCss | src/reports/transfer.js:14 | the font pattern as written matches `.woff2` but not `.woff`, so a `.woff` file requested by CSS counts as css |
| Reports.Series | src/reports/navtiming.js:20 | reading `series.p.k` succeeds exactly when the probe and key exist, giving the combined series |
| Reports.ToNumber | src/compute.js:45 | a value as arithmetic takes it: numbers as themselves, null and false as 0, true as 1, `undefined` as `NaN`; only a symbol, a BigInt or a null-prototype object throws |
| Reports.ToNumbers | src/compute.js:44-46 | a series converts exactly when every value does, value by value |
| Reports.StatsOfSeries | src/compute.js:38-63 | `stats` on a series throws exactly when a value cannot be converted, and otherwise is the stats of the converted numbers |
| Reports.SubtractSeries | src/compute.js:22-24 | `subtract` throws exactly when a value of `a`, or of `b` up to `a`'s length, cannot be converted; it gives one difference per value of `a`, with `undefined` (so `NaN`) past the end of `b` |
| Reports.DecodeEntry | src/reports/transfer.js:26-30 | an entry is usable exactly when its name is a string and its transfer size converts; a missing initiator type counts as other |
| Reports.DecodeEntries | src/reports/transfer.js:26 | a run's entries decode exactly when each does |
| Reports.RunSizeIsTheFold | src/reports/transfer.js:16-73 | a run's size under a key is `NaN` exactly when an entry counted under that key has a `NaN` size, and otherwise equals the category fold of `getSizesFromEntries` |
| Reports.RunSizes | src/reports/transfer.js:93-94 | `entries.map( getSizesFromEntries )` succeeds exactly when every run decodes, with one size per run |
| Reports.Analyse | src/reports/navtiming.js:16-53 | a series metric is `stats` of its series and throws when the series is missing; a difference metric is `stats( subtract( m, s ) )`, where a missing subtrahend throws unless the minuend is empty; a transfer metric is `stats` of the run sizes |
| Reports.Builtin | src/reports/index.js:9-13 | exactly `navtiming`, `paint` and `transfer` are built-in reports |
| Reports.BuiltinMetricsUseListedProbes | src/reports/navtiming.js:13-15 | each built-in metric reads only a probe its report lists |
| Reports.BuiltinUnits | src/reports/transfer.js:89-140 | built-in transfer metrics are in bytes, the others in milliseconds, and none sets a `compareUnit` |
| Reports.NavtimingKeys | src/reports/navtiming.js:16-53 | navigation timing metrics are in ms from the `navtiming` probe; exactly `loadEventEnd`, `processing` and `onLoad` have a threshold |
| Reports.PaintKeys | src/reports/paint.js:17-31 | paint metrics are in ms from the `paint` probe, without a threshold |
| Reports.TransferKeys | src/reports/transfer.js:89-140 | transfer metrics are in bytes; exactly `pageWeight` and `css` have a threshold |
| Reports.BuiltinJudgingMetrics | src/reports/navtiming.js:24-52 | exactly five built-in metrics can be judged; every other one is always neutral |
| Reports.ProcessingIsDomCompleteMinusResponseEnd | src/reports/navtiming.js:35-38 | `processing` is the stats of `domComplete - responseEnd`, run by run |
| Reports.ProcessingAnalyser | src/reports/navtiming.js:32-41 | the `processing` metric subtracts `responseEnd` from `domComplete` |
| Reports.NullCountsAsZero | src/compute.js:43-47 | `stats([ null ])` is mean 0, since `null` adds as 0 |
| Reports.ShortSubtrahendIsNaN | src/compute.js:22-24 | a subtrahend shorter than the minuend makes the stats `NaN` |
| Reports.TransferWithoutProbeThrows | src/reports/transfer.js:93-94 | a transfer metric without transfer data throws a TypeError |
| Judgement.MakeJudgement | src/conductor.js:226-244 | with a positive threshold, a regression exactly when the difference exceeds it and an improvement exactly when the difference is negative and its size exceeds it; without one, always neutral |
| Judgement.SmallDifferenceIsNeutral | src/conductor.js:231-237 | a difference within the threshold either way is neutral |
| Judgement.JudgementMirrors | src/conductor.js:226-244 | negating the difference swaps regression and improvement and keeps neutral |
| Judgement.VerdictExceedsThreshold | src/conductor.js:226-244 | a verdict other than neutral needs a positive threshold that the difference's size exceeds |
| Comparison.CompareUnitOf | src/conductor.js:278 | `metric.compareUnit \|\| metric.unit`: the unit unless a non-empty compare unit is set |
| Comparison.MakeItem | src/conductor.js:270-280 | an item carries the caption, unit and both stats; its diff is `compareStdev( a, b )` and its judgement is made from the threshold and that diff |
| Comparison.ReadBack | src/conductor.js:222-223 | stats read back from the record: real fields as they are, `NaN` fields as 0 |
| Comparison.NaNReadsAsZero | src/conductor.js:261-271 | a metric whose stats were `NaN` before reads back as zeros and is not judged a regression against stats whose interval reaches 0 |
| Comparison.RegressionMeansSlower | src/conductor.js:226-245 | an item is a regression exactly when there is a threshold, after's interval lies above before's, and the gap exceeds the threshold |
| Comparison.ImprovementMeansFaster | src/conductor.js:226-245 | an item is an improvement exactly when there is a threshold, after's interval lies below before's, and the gap exceeds the threshold |
| Comparison.Regressions | src/conductor.js:281-283 | the warnings are items of the list, each a regression |
| Comparison.RegressionsAppend | src/conductor.js:281-283 | the warnings of two lists are those of the first then those of the second |
| Comparison.RegressionsComplete | src/conductor.js:281-283 | every regression is among the warnings |
| Comparison.CompareMetrics | src/conductor.js:259-284 | a metric is compared exactly when both records analysed it; its item is made from the read-back stats, and the warnings are its regressions in order |
| Comparison.FirstError | src/conductor.js:255-262 | the index of the first report name whose comparison throws, if any |
| Comparison.CompareReports | src/conductor.js:255-285 | comparing a scenario's reports succeeds exactly when no report throws, with one entry per name; otherwise it fails with the first report's error |
| Comparison.CompareReportsStep | src/conductor.js:255-285 | a successful walk is the walk over all but the last name extended by that report's comparison |
| Comparison.CompareReportsEntries | src/conductor.js:255-285 | each report's entry is the comparison of its metrics |
| Comparison.CompareReportsWarnings | src/conductor.js:255-285 | a scenario's warnings are its regressions in report order |
| Comparison.FirstFailing | src/conductor.js:249-262 | the index of the first scenario with a report whose comparison throws, if any |
| Comparison.CompareScenarios | src/conductor.js:249-286 | comparing succeeds exactly when no scenario throws, with one entry per scenario of the first record, and otherwise fails with the first error |
| Comparison.CompareScenariosStep | src/conductor.js:249-286 | a successful walk is the walk over all but the last scenario extended by that scenario's reports |
| Comparison.CompareScenariosEntries | src/conductor.js:249-286 | each scenario's entry is the comparison of its reports |
| Comparison.CompareScenariosWarnings | src/conductor.js:249-288 | all warnings are the regressions of all scenarios, in order |
| Comparison.FirstErrorMeansNoneThrows | src/conductor.js:255-262 | no failing report is found exactly when no report name throws |
| Comparison.FirstFailingMeansAllResolve | src/conductor.js:249-262 | no failing scenario is found exactly when every scenario's reports compare without throwing |
| Comparison.BuiltinReportsHaveMetrics | src/conductor.js:259-262 | every built-in report defines a metric, so comparing it reads record B |
| Comparison.BuiltinReportError | src/conductor.js:253-262 | a report of a scenario throws nothing exactly when its name is built in and record B holds the scenario and the report; otherwise the error is the unknown-name error or the TypeError |
| Comparison.Compare | src/conductor.js:216-292 | `compare` succeeds exactly when every report name A analysed is built in and held by B for that scenario; a failure is the unknown-name error for a name that is not built in or the TypeError of reading B; a success is keyed by A's scenarios, and its warnings are all its regressions, in order |
| Comparison.MatchedMeansAllResolve | src/conductor.js:249-262 | every scenario resolves exactly when record B matches record A |
| Comparison.ScenarioResolves | src/conductor.js:253-262 | a scenario resolves exactly when each of its report names is built in and held by B |
| Comparison.CompareFailureKind | src/conductor.js:253-262 | a failing comparison throws either the TypeError or the unknown-name error |
| Comparison.ComparedItem | src/conductor.js:255-280 | after a successful comparison every analysed report name is built in and held by record B; each compared item is the metric's item, present exactly when the report defines the metric and both records analysed it |
| Comparison.MissingScenarioThrows | src/conductor.js:253-262 | a scenario of A with an analysed report that B lacks makes the comparison throw |
| Comparison.WarningsAreTheRegressions | src/conductor.js:281-283 | an item is a warning exactly when it is a compared item judged a regression |
| Comparison.UnknownReportIsTheRegistryError | src/conductor.js:256 | the failure for an unknown report name is the registry's `Unknown probe name` error |
| Conductor.WithDefaults | src/conductor.js:52 | the configuration with defaults has `warmup` and `runs` first, each the configuration's own value if it has one and `false` or 1 otherwise, and every other key as the configuration has it |
| Conductor.DefaultsAssigned | src/conductor.js:52 | `Object.assign` onto the defaults keeps their keys first and lets own values win |
| Conductor.RunCount | src/conductor.js:113 | the run loop runs once for every natural number below `runs` |
| Conductor.DefaultRunCount | src/conductor.js:52 | without its own `runs`, each scenario runs once |
| Conductor.FractionalRunsRoundUp | src/conductor.js:113 | 2.5 runs run three times; 0 or negative runs never run |
| Conductor.ScenarioKeys | src/conductor.js:85 | the scenario keys are one per scenario and distinct |
| Conductor.Options | src/conductor.js:88-92 | the options keep the URL and viewport; `reports` is the scenario's array or empty |
| Conductor.AddProbe | src/conductor.js:101 | `probes.add( p )` holds what it held plus `p`, in the same order |
| Conductor.AddProbesMembers | src/conductor.js:99-106 | adding several probes holds exactly what it held plus those, old entries first |
| Conductor.AddProbesKeepsSet | src/conductor.js:97 | the probe set never holds the same object twice |
| Conductor.AddProbesAppend | src/conductor.js:99-106 | adding two lists in turn is adding them joined |
| Conductor.Fetch | src/conductor.js:99-106 | looking up a list of names succeeds exactly when every lookup does, giving their results in order; otherwise it fails with the first failing lookup's error |
| Conductor.GatherReports | src/conductor.js:98-103 | gathering report probes only extends the probes gathered so far |
| Conductor.ProbeSet | src/conductor.js:97-106 | the probe set holds each gathered probe, once |
| Conductor.ScenarioProbes | src/conductor.js:96-106 | the probes of a scenario are found exactly when every lookup succeeds, without duplicates; a failed lookup is the registry's error |
| Conductor.GatherOwnProbes | src/conductor.js:104-106 | without reports, the probes are the lookups of the scenario's own `probes` |
| Conductor.RepeatedNameRunsTwice | src/conductor.js:105 | a probe name listed twice is looked up twice, and the two copies both run |
| Conductor.BuiltinLookupsDiffer | src/Registry.js:184 | two lookups of a built-in probe give two different objects |
| Conductor.RepeatedObjectRunsOnce | src/conductor.js:97 | a probe object listed twice runs once |
| Conductor.BuiltinPassesObjects | src/Registry.js:185-190 | the built-in registry returns a valid probe object as it is |
| Conductor.RunWriter | src/conductor.js:118 | the run's writer `scenario-<key>-run-<n>` is made exactly when the key holds no forbidden character |
| Conductor.RecordRuns | src/conductor.js:113-123 | the runs succeed exactly when there are none or the key is safe, with one probe-data result per run in order; a bad key fails before the browser does anything |
| Conductor.RunScenario | src/conductor.js:108-123 | a scenario's warmup and runs touch the browser only under its key; success keeps its options and one result per run |
| Conductor.RecordScenario | src/conductor.js:86-123 | a failed probe lookup ends the scenario before the browser does anything; otherwise the scenario runs with its probes |
| Conductor.RecordScenarios | src/conductor.js:85-124 | the scenario loop succeeds exactly when every scenario does, keeping each result under its key in order; the first failure ends it |
| Conductor.RecordScenariosTrace | src/conductor.js:85-124 | a successful loop's trace is every scenario's trace in order; a failed one stops after the first failing scenario, whose error it carries |
| Conductor.EventsAppend | src/conductor.js:85-124 | the events of two lists of traces are those of the first then those of the second |
| Conductor.Keyed | src/conductor.js:183-191 | a keyed loop succeeds exactly when every outcome does, keyed in order, and otherwise fails with the first failure |
| Conductor.AnalyseMetrics | src/conductor.js:187-190 | a report's analysis succeeds exactly when every metric's analyser does, with one result per metric key |
| Conductor.AnalyseReport | src/conductor.js:184-190 | a known report name succeeds exactly when all its metrics analyse, with one result per metric key; an unknown name throws `Unknown probe name`; an analysis failure is some metric's analyser failing |
| Conductor.AnalyseReports | src/conductor.js:183-191 | the analysed data holds exactly the scenario's report names, each with its report's analysis |
| Conductor.Finish | src/conductor.js:194-197 | finishing a scenario keeps its options and runs, adds their combination, and adds one analysis per report it lists |
| Conductor.FinishAll | src/conductor.js:194-197 | every scenario is finished, under its own key, in order |
| Conductor.ValidConfigIsRunnable | src/conductor.js:53 | a configuration `is.config` accepts has what the recording loop reads |
| Conductor.RecordEach | src/conductor.js:85-124 | each scenario is recorded on its own and reaches the browser only with scenario steps |
| Conductor.ScenarioLoopIsBrowserSteps | src/conductor.js:85-124 | the scenario loop reaches the browser only with scenario steps |
| Conductor.RecordAll | src/conductor.js:84-131 | the scenarios reach the browser only with scenario steps |
| Conductor.RecordIn | src/conductor.js:70-200 | the browser is launched first and closed last, also after a failure, with only scenario steps between; the record is written to `record.json` in the record's directory |
| Conductor.BrowserBracketed | src/conductor.js:126-131 | scenario steps between launching and closing are bracketed |
| Conductor.Prepare | src/conductor.js:52-54 | preparing fails with the validation error for an invalid configuration, then with `Invalid file name` for a bad label, and otherwise gives the configuration with defaults and the label's writer |
| Conductor.OpenChild | src/conductor.js:54 | the label's writer is made exactly for a valid label |
| Conductor.RecordWith | src/conductor.js:43-205 | a preparation failure touches no browser; otherwise the browser is bracketed and the record is written to `<outputDir>/<label>/record.json` |
| Conductor.RecordConfig | src/conductor.js:43-205 | with a valid configuration and label the browser is bracketed; a bad label fails before anything happens |
| Conductor.RecordInResult | src/conductor.js:194-200 | a successful record's scenarios are exactly the finished scenarios of the recording loop |
| Conductor.ScenarioUrls | src/util/is.js:103-131 | every scenario of a valid configuration has a string URL |
| Conductor.RecordAllContents | src/conductor.js:85-124 | the recorded scenarios are keyed as configured, each with its options and one result per run |
| Conductor.RecordedScenario | src/conductor.js:87-123 | a recorded scenario keeps its options and has one result per run |
| Conductor.FinishedScenario | src/conductor.js:194-197 | a finished scenario keeps its options and runs, its combination is theirs, and its analysed names are the listed reports |
| Conductor.RecordInContents | src/conductor.js:85-197 | the record holds each configured scenario under its key with its options, one result per run, their combination and one analysis per listed report |
| Conductor.RecordAllKeysSafe | src/conductor.js:118 | with at least one run, every scenario key of a successful record is a valid part of a file name |
| Conductor.RecordContents | src/conductor.js:43-205 | the same for `record` itself, with defaults applied |
| Conductor.RecordedKeysAreSafe | src/conductor.js:113-118 | with at least one run, every key of a successful record names valid run directories |
| Printer.DigitRun | src/printer.js:20 | the length of the leading run of digits |
| Printer.CodeLength | src/printer.js:20 | a colour code is escape, `[`, digits and `m` |
| Printer.StripSelector | src/printer.js:34 | only the first variation selector is removed |
| Printer.PlainUnstripped | src/printer.js:31 | text without an escape is not changed by colour stripping |
| Printer.PlainPrefixKept | src/printer.js:31 | stripping colours keeps plain text in front |
| Printer.ColourCodeVanishes | src/printer.js:11-17 | the green, red and reset codes are stripped |
| Printer.PaintedIsStripped | src/printer.js:219-224 | painted text strips back to the text |
| Printer.Width | src/printer.js:29-38 | the visible width never exceeds the number of code points |
| Printer.PlainWidth | src/printer.js:29-38 | plain text's width is its length in code points |
| Printer.PaintedWidth | src/printer.js:29-38 | painting does not change the width |
| Printer.OnlyFirstSelectorDiscounted | src/printer.js:34 | `a️b️` is 3 wide, since only the first selector is removed |
| Printer.PadFirst | src/printer.js:49-55 | `padFirst` puts as many pads in front as the width falls short, keeping the text at the end |
| Printer.PadLast | src/printer.js:66-72 | `padLast` puts as many pads behind as the width falls short, keeping the text at the start |
| Printer.PadFirstWidth | src/printer.js:49-55 | padding brings the width up to the length and never down |
| Printer.SelectorAfterPlain | src/printer.js:34 | removing the selector skips plain text in front |
| Printer.FirstSelectorAfterPlain | src/printer.js:34 | the first selector after plain text is found after it |
| Printer.Round | src/printer.js:121 | `Math.round` is within half of its argument, halves up |
| Printer.Ceil | src/printer.js:95 | `Math.ceil` is the least integer not below its argument |
| Printer.Sign | src/printer.js:81-85 | the prefix is `- ` for a negative number; with `plus`, `+ ` for positive and two spaces for zero |
| Printer.Remainder | src/printer.js:100 | the separately rounded remainder is at most 1000, one more than three digits hold |
| Printer.FormatSplitsSign | src/printer.js:80-123 | the text is the sign prefix before the text of the absolute value, and a number and its negation differ only in the prefix |
| Printer.FormatZero | src/printer.js:91-93 | zero is `0 <unit>` |
| Printer.FormatBelowOne | src/printer.js:94-97 | below one unit, `<0.N` with N tenths rounded up, from 1 to 10, bounding the value |
| Printer.NearlyOneReadsAsATenth | src/printer.js:94-97 | 0.95 ms is printed `<0.10 ms` |
| Printer.FormatRounds | src/printer.js:120-122 | other units and bytes up to 1000 are rounded to a whole number |
| Printer.ByteUnits | src/printer.js:106-119 | bytes are shown in MB exactly above a million, and in kB exactly above a thousand up to a million |
| Printer.FormatMsReadsBack | src/printer.js:98-105 | a duration of at least one millisecond prints, after the sign, as the text lines 98-105 build: `M ms` for the rounded duration under a second, and from a second on a text that reads back as the rounded duration whenever the separately rounded remainder has three digits |
| Printer.AsWrittenReadsBack | src/printer.js:98-105 | the milliseconds text as written reads back as the duration rounded to whole milliseconds under a second, and above it whenever the separately rounded remainder has three digits |
| Printer.MsReadsBack | src/printer.js:98-105 | the corrected text is `S.MMM s` with S * 1000 + MMM the rounded value, or `M ms` below a second |
| Printer.WholeMsReadsBack | src/printer.js:98-105 | whole milliseconds print as `M ms` below a second, and otherwise as seconds and three digits that read back as the total |
| Printer.WrittenAgreesAbove | src/printer.js:99-102 | above a second, the code as written prints the corrected text whenever the remainder already has three digits |
| Printer.ThreeDigits | src/printer.js:102 | a remainder below 1000 padded in front to three digits reads back as itself |
| Printer.MsAgreesWithReference | src/printer.js:98-105 | the code as written agrees with the corrected text below a second and whenever the remainder has three digits |
| Printer.MsPaddingMisplaced | src/printer.js:102 | as written, 1050 ms prints `1.500 s` |
| Printer.MsPaddedInFront | src/printer.js:102 | the corrected text prints 1050 ms as `1.050 s` |
| Printer.MsRemainderOverflows | src/printer.js:99-102 | as written, 1999.75 ms prints `1.1000 s` |
| Printer.MsRoundsFirst | src/printer.js:99-102 | the corrected text prints 1999.75 ms as `2.000 s` |
| Table.PaintedIsTidy | src/printer.js:217-225 | a painted cell strips to its text |
| Table.TidyConcatWidth | src/printer.js:29-38 | widths of tidy text add up |
| Table.JoinWidth | src/printer.js:166-171 | joining tidy cells with a tidy separator is as wide as the cells plus the separators |
| Table.PaddedIsTidy | src/printer.js:49-72 | padding a tidy cell with spaces brings it to the length and never narrows it |
| Table.Max | src/printer.js:154 | `Math.max` is at least every value and one of them |
| Table.ColWidths | src/printer.js:151-155 | each column is one wider than its widest cell |
| Table.PrintTable | src/printer.js:144-176 | one line per row |
| Table.BorderWidth | src/printer.js:157-159 | the border line is as wide as a full line |
| Table.RowWidth | src/printer.js:166-171 | a row whose cells fit their columns is as wide as a full line |
| Table.TableAligned | src/printer.js:144-176 | every printed line of a regular table has the same width |
| Table.FormatIsPlain | src/printer.js:80-123 | formatted numbers hold no escape and no selector |
| Table.AsWrittenIsPlain | src/printer.js:98-105 | the milliseconds text as written (seconds, a point, the remainder padded behind, a unit; or milliseconds and a unit) holds no escape and no selector |
| Table.FiveWide | src/printer.js:183-229 | every row of a scenario table has five cells |
| Table.SymbolShows | src/printer.js:217-225 | the symbol cell shows a tick exactly for an improvement, a cross exactly for a regression, and nothing for neutral |
| Table.DiffCellShows | src/printer.js:213-225 | the diff cell strips to the formatted difference, and is painted exactly when the judgement is not neutral |
| Table.MetricRowIsTidy | src/printer.js:203-225 | every cell of a metric row strips cleanly |
| Table.StatsCellIsPlain | src/printer.js:207-211 | the `mean (± stdev)` cell is plain |
| Table.ReportRowsTidy | src/printer.js:198-228 | every row of the reports strips cleanly |
| Table.ScenarioRegular | src/printer.js:197-229 | a scenario's rows form a regular table |
| Table.ScenarioAligned | src/printer.js:192-231 | after the three heading lines, every line of a scenario's table is as wide as its columns together |
| Table.BorderMarkWidensFirstColumn | src/printer.js:162 | the `BORDER_LINE` marker counts in the first column's width, so it is at least 12 wide |
| Table.ReportRowsCount | src/printer.js:198-228 | one row per report plus one per metric |
| Table.ScenarioLineCount | src/printer.js:192-231 | a scenario prints seven lines plus one per report and one per metric |
| Text.NatToString | src/conductor.js:118 | a number in decimal is at least one digit, all digits, and reads back as the number |
| Text.NatToStringInjective | src/conductor.js:85 | distinct numbers print differently, so array indices are distinct keys |
| Text.Repeat | src/printer.js:52 | `pad.repeat( n )` is `n` copies of the pad |
| Text.Join | src/printer.js:157-171 | joined parts are as long as the parts plus the separators |

## Left out

- The browser, the file system and the process environment are parameters. Puppeteer becomes a trace of steps. The data probes add becomes an `Observer`. `process.env` becomes a map. Writing `record.json` becomes its path in the result. Reading records back for `compare` takes the records as values.
- `Math.sqrt`, `Number.prototype.toFixed` and `url.parse( name ).pathname` are the parameters `sqrt`, `toFixed` and `pathnameOf`. Their results are not modelled.
- Numbers are reals plus `NaN`. There is no Infinity, no `-0` and no floating-point rounding, so float effects such as the transfer test's `-150.10999999998603` are not reproduced.
- Strings are sequences of code points, not UTF-16 units. `width` counts code points in the source too.
- Progress events are not modelled. This covers the `progress` callback (src/conductor.js:82, 109, 114, 202; src/recorder.js:100) and `printer.progress` (src/printer.js:130-138).
- The browser's launch options are not modelled. They come from `CHROMIUM_FLAGS` (src/conductor.js:70-72).
- The `P` unit of `format` is modelled only as `P ` followed by `toFixed( num, 3 )`. That branch prints `num` with its sign and no prefix.
- The probes' own code (src/probes) runs in the browser and is not part of this model. The model sees only the hooks each probe exports.
- Reports.ToNumber: strings, arrays and plain objects are approximated as `NaN`. JavaScript's `+` concatenates strings instead, so `stats( [ '5' ] )` is 5 in the source.
- Reports.StatsOfSeries: follows `ToNumber`, so a series holding strings gives `NaN` stats where the source may give a number.
- Conductor.AnalyseReport: a report object (not a name) listed in a scenario's `reports` ends the record with `UserReport`. The source runs that object's analysers under the key `[object Object]`, and those callbacks are user code the model cannot see.
- Conductor.ScenarioKeys: keys follow insertion order. JavaScript `for…in` visits integer-like keys first, in ascending order, so for scenarios `{ b, 1 }` the source records `1` first. The same holds for `Dict` everywhere it stands for an object.
- Comparison.Compare: takes both records as already parsed, and does not model `require` of a missing file. Reading a scenario or report that record B lacks throws a TypeError in the source (src/conductor.js:253, 262); the model returns `MissingInB` without the message text. A metric missing on either side is skipped, as in the source (src/conductor.js:264-269).
- Registry.Get: copies made by string lookups are told apart by a copy number that restarts at 0 in each scenario. Only distinctness within one scenario's probe set matters.
- `printer.comparison` writes through `writeln`. The model returns the lines instead.

## Findings

| source | as written | input that shows it | evidently intended | confidence | as-written member | corrected member |
|---|---|---|---|---|---|---|
| src/printer.js:98-105 | the remainder `Math.round( abs % 1000 )` is padded with zeros behind (`padLast`), and it is rounded apart from the seconds | 1050 ms prints `1.500 s`; 1999.75 ms prints `1.1000 s` | round to whole milliseconds first, then print the remainder as three digits with zeros in front: `1.050 s` and `2.000 s` | not executed | Printer.MsAsWritten (with Printer.MsPaddingMisplaced, Printer.MsRemainderOverflows) | Printer.Ms (with Printer.MsPaddedInFront, Printer.MsRoundsFirst, Printer.MsReadsBack) |

`Printer.Format` prints the milliseconds as written (`MsAsWritten`), so every table property is stated of the text the program prints. `Printer.MsAgreesWithReference` shows that the as-written and the corrected texts agree below a second, and above it whenever the rounded remainder has three digits.
