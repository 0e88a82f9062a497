/** Recording a Fresnel record (`record` in src/conductor.js): defaults and
    validation of the configuration, the probes each scenario collects, its
    warmup and runs in the browser, and the combination and analysis of
    what the probes reported. The browser is a trace of steps, the data
    the probes add is a parameter, and the record file is its path. */
module Conductor {
  import opened Wrappers
  import opened Dict
  import opened JsValue
  import opened Shape
  import opened Compute
  import opened Aggregate
  import opened Records
  import opened Writer
  import opened Text
  import Registry
  import Reports
  import Recorder

  // ---- configuration ----

  /** `{ warmup: false, runs: 1 }`. */
  const Defaults: Dict<Value> := Put(Singleton("warmup", Bool(false)), "runs", Num(1.0))

  /** An own key of an object. */
  predicate HasOwn(v: Value, k: string) {
    v.Obj? && k in v.props.vals
  }

  /** `Object.assign( { warmup: false, runs: 1 }, config )`: the defaults
      first, each own key of the configuration written over them. Only an
      object contributes keys. The new object's identity is never compared,
      so it is given a fixed one. */
  function WithDefaults(config: Value): (c: Value)
    ensures c.Obj? && c.kind == Literal
    ensures |c.props.keys| >= 2 && c.props.keys[..2] == ["warmup", "runs"]
    ensures Prop(c, "warmup") == if HasOwn(config, "warmup") then Prop(config, "warmup") else Bool(false)
    ensures Prop(c, "runs") == if HasOwn(config, "runs") then Prop(config, "runs") else Num(1.0)
    ensures forall k | k != "warmup" && k != "runs" :: Prop(c, k) == Prop(config, k)
  {
    var own := if config.Obj? then config.props else Empty();
    DefaultsAssigned(own);
    Obj(Given(0), Literal, Assign(Defaults, own))
  }

  lemma DefaultsAssigned(own: Dict<Value>)
    ensures |Assign(Defaults, own).keys| >= 2 && Assign(Defaults, own).keys[..2] == ["warmup", "runs"]
    ensures Lookup(Assign(Defaults, own), "warmup") == (if "warmup" in own.vals then own.vals["warmup"] else Bool(false))
    ensures Lookup(Assign(Defaults, own), "runs") == (if "runs" in own.vals then own.vals["runs"] else Num(1.0))
    ensures forall k | k != "warmup" && k != "runs" :: Lookup(Assign(Defaults, own), k) == Lookup(own, k)
  {
    DefaultsFirst(own);
    DefaultsOverwritten(own);
  }

  lemma DefaultsFirst(own: Dict<Value>)
    ensures |Assign(Defaults, own).keys| >= 2 && Assign(Defaults, own).keys[..2] == ["warmup", "runs"]
  {
    DefaultsHold();
  }

  lemma DefaultsOverwritten(own: Dict<Value>)
    ensures Lookup(Assign(Defaults, own), "warmup") == (if "warmup" in own.vals then own.vals["warmup"] else Bool(false))
    ensures Lookup(Assign(Defaults, own), "runs") == (if "runs" in own.vals then own.vals["runs"] else Num(1.0))
    ensures forall k | k != "warmup" && k != "runs" :: Lookup(Assign(Defaults, own), k) == Lookup(own, k)
  {
    DefaultOverwritten(own, "warmup", Bool(false));
    DefaultOverwritten(own, "runs", Num(1.0));
    OthersKept(own);
  }

  lemma DefaultOverwritten(own: Dict<Value>, k: string, v: Value)
    requires k in Defaults.vals && Defaults.vals[k] == v
    ensures Lookup(Assign(Defaults, own), k) == if k in own.vals then own.vals[k] else v
  {
  }

  lemma OthersKept(own: Dict<Value>)
    ensures forall k | k != "warmup" && k != "runs" :: Lookup(Assign(Defaults, own), k) == Lookup(own, k)
  {
    DefaultsHold();
    forall k | k != "warmup" && k != "runs"
      ensures Lookup(Assign(Defaults, own), k) == Lookup(own, k)
    {
      assert k !in Defaults.vals;
    }
  }

  lemma DefaultsHold()
    ensures Defaults.keys == ["warmup", "runs"]
    ensures Defaults.vals == map["warmup" := Bool(false), "runs" := Num(1.0)]
  {
  }

  function AsReal(k: nat): real {
    k as real
  }

  /** How many times `for ( let run = 0; run < runs; run++ )` runs. */
  function RunCount(runs: real): (n: nat)
    ensures forall k: nat :: k < n <==> AsReal(k) < runs
  {
    if runs <= 0.0 then 0
    else if runs.Floor as real == runs then runs.Floor
    else runs.Floor + 1
  }

  // ---- scenarios ----

  /** The keys `for ( const key in config.scenarios )` visits: an object's
      own keys, or an array's indices printed in decimal. They pair up with
      the scenarios of `ScenarioList`. */
  function ScenarioKeys(scenarios: Value): (ks: seq<string>)
    ensures |ks| == |ScenarioList(scenarios)|
    ensures forall i, j | 0 <= i < j < |ks| :: ks[i] != ks[j]
  {
    match scenarios
    case Obj(_, _, props) => props.keys
    case Arr(items) =>
      var ks := seq(|items|, i requires 0 <= i < |items| => NatToString(i));
      assert forall i, j | 0 <= i < j < |ks| :: ks[i] != ks[j] by {
        forall i, j | 0 <= i < j < |ks| ensures ks[i] != ks[j] {
          NatToStringInjective(i, j);
        }
      }
      ks
    case _ => []
  }

  /** `record.scenarios[ key ].options`: `reports` is `scenario.reports || []`;
      a valid scenario holds an array or nothing there. */
  function Options(scenario: Value): (o: ScenarioOptions)
    ensures o.url == Prop(scenario, "url") && o.viewport == Prop(scenario, "viewport")
    ensures Prop(scenario, "reports").Arr? ==> o.reports == Prop(scenario, "reports").items
    ensures Prop(scenario, "reports") == Undefined ==> o.reports == []
  {
    var reports := match Prop(scenario, "reports")
      case Arr(items) => items
      case _ => [];
    ScenarioOptions(Prop(scenario, "url"), Prop(scenario, "viewport"), reports)
  }

  // ---- collecting the probes ----

  /** `probes.add( p )`: a value already present is not added again. Two
      objects are the same value only when they are the same object. */
  function AddProbe(added: seq<Value>, p: Value): (r: seq<Value>)
    ensures forall q :: q in r <==> q in added || q == p
    ensures |added| <= |r| && r[..|added|] == added
  {
    if p in added then added else added + [p]
  }

  /** `probes.add` for each value in turn. */
  function AddProbes(added: seq<Value>, ps: seq<Value>): seq<Value>
    decreases |ps|
  {
    if |ps| == 0 then added else AddProbes(AddProbe(added, ps[0]), ps[1..])
  }

  /** After adding, the set holds what it held and what was added, and
      what it held keeps its place. */
  lemma {:induction false} AddProbesMembers(added: seq<Value>, ps: seq<Value>)
    ensures forall q :: q in AddProbes(added, ps) <==> q in added || q in ps
    ensures |added| <= |AddProbes(added, ps)| && AddProbes(added, ps)[..|added|] == added
    decreases |ps|
  {
    if |ps| > 0 {
      AddProbesMembers(AddProbe(added, ps[0]), ps[1..]);
      assert forall q :: q in ps <==> q == ps[0] || q in ps[1..];
    }
  }

  predicate NoDuplicates(s: seq<Value>) {
    forall i, j | 0 <= i < j < |s| :: s[i] != s[j]
  }

  /** A set holds every value once. */
  lemma {:induction false} AddProbesKeepsSet(added: seq<Value>, ps: seq<Value>)
    requires NoDuplicates(added)
    ensures NoDuplicates(AddProbes(added, ps))
    decreases |ps|
  {
    if |ps| > 0 {
      AddProbesKeepsSet(AddProbe(added, ps[0]), ps[1..]);
    }
  }

  /** Adding in two batches is adding the concatenation. */
  lemma {:induction false} AddProbesAppend(added: seq<Value>, xs: seq<Value>, ys: seq<Value>)
    ensures AddProbes(AddProbes(added, xs), ys) == AddProbes(added, xs + ys)
    decreases |xs|
  {
    if |xs| == 0 {
      assert xs + ys == ys;
    } else {
      assert AddProbes(added, xs + ys) == AddProbes(AddProbe(added, xs[0]), xs[1..] + ys) by {
        assert (xs + ys)[0] == xs[0];
        assert (xs + ys)[1..] == xs[1..] + ys;
      }
      AddProbesAppend(AddProbe(added, xs[0]), xs[1..], ys);
    }
  }

  /** `registry.get( key )` making its copy, if any, under the given
      number. */
  type Getter = (Value, nat) -> Result<Value, Registry.RegistryError>

  /** `keys.map( ( key ) => reg.get( key ) )`, stopping at the first
      failure: string lookups make copies numbered from `next` on. */
  function Fetch(get: Getter, keys: seq<Value>, next: nat): (r: Result<seq<Value>, Registry.RegistryError>)
    ensures r.Success? <==> forall i | 0 <= i < |keys| :: get(keys[i], next + i).Success?
    ensures r.Success? ==> |r.value| == |keys|
    ensures r.Success? ==> forall i | 0 <= i < |keys| :: get(keys[i], next + i) == Success(r.value[i])
    ensures r.Failure? ==> exists i | 0 <= i < |keys| ::
      && (forall j | 0 <= j < i :: get(keys[j], next + j).Success?)
      && get(keys[i], next + i) == Failure(r.error)
    decreases |keys|
  {
    if |keys| == 0 then Success([])
    else
      match get(keys[0], next)
      case Failure(e) =>
        assert get(keys[0], next + 0) == Failure(e);
        Failure(e)
      case Success(p) =>
        var rest := Fetch(get, keys[1..], next + 1);
        assert forall i | 1 <= i < |keys| :: keys[i] == keys[1..][i - 1] && next + i == next + 1 + (i - 1);
        match rest
        case Failure(e) => Failure(e)
        case Success(ps) => Success([p] + ps)
  }

  /** What `forEach` walks: the items of an array, nothing otherwise. A
      valid scenario holds an array or nothing under `reports` and
      `probes`, and a valid report an array under `probes`. */
  function Items(v: Value): seq<Value> {
    match v
    case Arr(items) => items
    case _ => []
  }

  /** Every probe a scenario asks for, in the order of the lookups, with the
      number of the next copy. */
  datatype Gathered = Gathered(fetched: seq<Value>, next: nat)

  /** The reports' probes: `reportReg.get( reportKey )`, then a lookup for
      each of its `probes`. */
  function GatherReports(getReport: Getter, getProbe: Getter, reports: seq<Value>, g: Gathered): (r: Result<Gathered, Registry.RegistryError>)
    ensures r.Success? ==> |g.fetched| <= |r.value.fetched| && r.value.fetched[..|g.fetched|] == g.fetched
    decreases |reports|
  {
    if |reports| == 0 then Success(g)
    else
      var report :- getReport(reports[0], g.next);
      var keys := Items(Prop(report, "probes"));
      var ps :- Fetch(getProbe, keys, g.next + 1);
      var r := GatherReports(getReport, getProbe, reports[1..], Gathered(g.fetched + ps, g.next + 1 + |keys|));
      if r.Success? then
        assert r.value.fetched[..|g.fetched|] == r.value.fetched[..|g.fetched + ps|][..|g.fetched|];
        r
      else r
  }

  /** The probes of a scenario's reports, then its own `probes`. */
  function Gather(getReport: Getter, getProbe: Getter, scenario: Value, next: nat): (r: Result<Gathered, Registry.RegistryError>)
  {
    var g :- GatherReports(getReport, getProbe, Items(Prop(scenario, "reports")), Gathered([], next));
    var keys := Items(Prop(scenario, "probes"));
    var ps :- Fetch(getProbe, keys, g.next);
    Success(Gathered(g.fetched + ps, g.next + |keys|))
  }

  /** The `Set` of probes a scenario runs with: each fetched probe once, in
      the order first fetched. */
  function ProbeSet(g: Gathered): (probes: seq<Value>)
    ensures NoDuplicates(probes)
    ensures forall q :: q in probes <==> q in g.fetched
  {
    AddProbesKeepsSet([], g.fetched);
    AddProbesMembers([], g.fetched);
    AddProbes([], g.fetched)
  }

  // ---- the runs ----

  datatype RecordError =
    | InvalidConfig(validation: Validation)          // `is.config` threw
    | InvalidFileName(message: string)               // a writer refused a name
    | RegistryFailure(lookup: Registry.RegistryError) // `get` threw
    | AnalysisFailure(analysis: Reports.AnalysisError) // an analyser threw
    | UserReport                                     // the analysers of a report object passed in

  /** What reached the browser, in order. */
  datatype Event = LaunchBrowser | Browser(scenario: string, step: Recorder.Step) | CloseBrowser

  /** The events up to the outcome, which a failure ends. */
  datatype Traced<T> = Traced(events: seq<Event>, result: Result<T, RecordError>)

  function InScenario(key: string, steps: seq<Recorder.Step>): (es: seq<Event>)
    ensures |es| == |steps| && forall i | 0 <= i < |steps| :: es[i] == Browser(key, steps[i])
  {
    seq(|steps|, i requires 0 <= i < |steps| => Browser(key, steps[i]))
  }

  /** `scenario-${key}-run-${run}`. */
  function RunName(key: string, run: nat): string {
    "scenario-" + key + "-run-" + NatToString(run)
  }

  /** What the `after` hook of a probe adds in a run of a scenario: one
      argument per `addData` call. */
  type Observer = (string, nat, Value) -> seq<Dict<Value>>

  function Calls(observe: Observer, key: string, run: nat, probes: seq<Value>): (calls: seq<seq<Dict<Value>>>)
    ensures |calls| == |probes|
  {
    seq(|probes|, i requires 0 <= i < |probes| => observe(key, run, probes[i]))
  }

  /** A scenario key the run directories can be named after: none of the
      characters a file name may not hold. */
  predicate SafeKey(key: string) {
    forall i | 0 <= i < |key| :: !IsForbidden(key[i])
  }

  /** The writer of a run's subdirectory: `child` accepts the run's name
      exactly when the key is safe, and refuses it with its message
      otherwise. */
  lemma RunWriter(w: Writer, key: string, run: nat)
    requires w.prefix == ""
    ensures SafeKey(key) ==> Child(w, RunName(key, run)) == Success(Writer(w.dir + [RunName(key, run)], ""))
    ensures !SafeKey(key) ==> Child(w, RunName(key, run)) == Failure(RunNameError(key, run))
  {
    var name := RunName(key, run);
    assert w.prefix + name == name;
    var d := NatToString(run);
    assert name == "scenario-" + key + "-run-" + d;
    assert name[0] == 's';
    if SafeKey(key) {
      forall i | 0 <= i < |name| ensures !IsForbidden(name[i]) {
        if i < 9 {
          assert name[i] == "scenario-"[i];
        } else if i < 9 + |key| {
          assert name[i] == key[i - 9];
        } else if i < 9 + |key| + 5 {
          assert name[i] == "-run-"[i - 9 - |key|];
        } else {
          assert name[i] == d[i - 14 - |key|];
        }
      }
    } else {
      var i :| 0 <= i < |key| && IsForbidden(key[i]);
      assert name[9 + i] == key[i];
    }
  }

  function RunNameError(key: string, run: nat): string {
    "Invalid file name: \"" + RunName(key, run) + "\""
  }

  /** One run, recorded with the writer of its subdirectory. */
  function RunOf(w: Writer, key: string, url: string, viewport: Value, probes: seq<Value>,
                 env: map<string, string>, observe: Observer, run: nat): Recorder.RunResult
  {
    Recorder.Run(url, viewport, probes, Writer(w.dir + [RunName(key, run)], ""), env, Calls(observe, key, run, probes))
  }

  /** The first `runs` runs of a scenario, `record( run )` being what run
      number `run` does in the browser: each opens the writer
      `writer.child( 'scenario-<key>-run-<run>' )` and records. The name of
      the first run is refused exactly when every run name would be. */
  function RecordRuns(key: string, record: nat -> Recorder.RunResult, runs: nat): (r: Traced<seq<ProbeData>>)
    ensures forall i | 0 <= i < |r.events| :: r.events[i].Browser? && r.events[i].scenario == key
    ensures r.result.Success? <==> runs == 0 || SafeKey(key)
    ensures r.result.Failure? ==> r.events == [] && r.result.error == InvalidFileName(RunNameError(key, 0))
    ensures r.result.Success? ==> |r.result.value| == runs
    ensures r.result.Success? ==> forall j | 0 <= j < runs :: r.result.value[j] == record(j).datas
  {
    if runs == 0 then Traced([], Success([]))
    else if !SafeKey(key) then Traced([], Failure(InvalidFileName(RunNameError(key, 0))))
    else
      var earlier := RecordRuns(key, record, runs - 1);
      var ds := earlier.result.value;
      assert forall j | 0 <= j < runs - 1 :: (ds + [record(runs - 1).datas])[j] == ds[j];
      Traced(earlier.events + InScenario(key, record(runs - 1).steps), Success(ds + [record(runs - 1).datas]))
  }

  // ---- a scenario ----

  /** What recording a scenario keeps before the analysis. */
  datatype ScenarioRuns = ScenarioRuns(options: ScenarioOptions, runs: seq<ProbeData>)

  /** A valid scenario's URL. */
  function Url(scenario: Value): string
    requires Prop(scenario, "url").Str?
  {
    Prop(scenario, "url").s
  }

  /** Run number `run` of a scenario in the browser. */
  function ScenarioRun(w: Writer, key: string, scenario: Value, probes: seq<Value>,
                       env: map<string, string>, observe: Observer): nat -> Recorder.RunResult
    requires Prop(scenario, "url").Str?
  {
    (run: nat) => RunOf(w, key, Url(scenario), Prop(scenario, "viewport"), probes, env, observe, run)
  }

  /** The probes a scenario runs with: its reports' probes and its own,
      each once. Copies made by lookups are numbered from 0 in each
      scenario, which keeps them apart within the scenario's probe set. */
  function ScenarioProbes(getReport: Getter, getProbe: Getter, scenario: Value): (r: Result<seq<Value>, RecordError>)
    ensures r.Success? <==> Gather(getReport, getProbe, scenario, 0).Success?
    ensures r.Failure? ==> r.error == RegistryFailure(Gather(getReport, getProbe, scenario, 0).error)
    ensures r.Success? ==> NoDuplicates(r.value)
    ensures r.Success? ==> forall q :: q in r.value <==> q in Gather(getReport, getProbe, scenario, 0).value.fetched
  {
    match Gather(getReport, getProbe, scenario, 0)
    case Failure(e) => Failure(RegistryFailure(e))
    case Success(g) => Success(ProbeSet(g))
  }

  /** A scenario in the browser with the given probes: the warmup when
      configured, then `runs` runs. */
  function RunScenario(w: Writer, key: string, scenario: Value, probes: seq<Value>,
                       warmup: bool, runs: nat, env: map<string, string>, observe: Observer): (r: Traced<ScenarioRuns>)
    requires Prop(scenario, "url").Str?
    ensures forall i | 0 <= i < |r.events| :: r.events[i].Browser? && r.events[i].scenario == key
    ensures r.result.Success? <==> runs == 0 || SafeKey(key)
    ensures r.result.Failure? ==> r.result.error == InvalidFileName(RunNameError(key, 0))
    ensures r.result.Success? ==> r.result.value.options == Options(scenario) && |r.result.value.runs| == runs
    ensures r.result.Success? ==> forall j | 0 <= j < runs ::
      r.result.value.runs[j] == ScenarioRun(w, key, scenario, probes, env, observe)(j).datas
  {
    var warm := if warmup then InScenario(key, Recorder.Warmup(Url(scenario), Prop(scenario, "viewport"), env)) else [];
    var rs := RecordRuns(key, ScenarioRun(w, key, scenario, probes, env, observe), runs);
    ScenarioEventsAppend(warm, rs.events, key);
    match rs.result
    case Failure(e) => Traced(warm + rs.events, Failure(e))
    case Success(ds) => Traced(warm + rs.events, Success(ScenarioRuns(Options(scenario), ds)))
  }

  /** Two stretches of one scenario's browser steps make one. */
  lemma ScenarioEventsAppend(a: seq<Event>, b: seq<Event>, key: string)
    requires forall i | 0 <= i < |a| :: a[i].Browser? && a[i].scenario == key
    requires forall i | 0 <= i < |b| :: b[i].Browser? && b[i].scenario == key
    ensures forall i | 0 <= i < |a + b| :: (a + b)[i].Browser? && (a + b)[i].scenario == key
  {
  }

  /** One scenario: its probes are looked up before the browser does
      anything for it, then it runs. */
  function RecordScenario(getReport: Getter, getProbe: Getter, w: Writer, key: string, scenario: Value,
                          warmup: bool, runs: nat, env: map<string, string>, observe: Observer): (r: Traced<ScenarioRuns>)
    requires Prop(scenario, "url").Str?
    ensures forall i | 0 <= i < |r.events| :: r.events[i].Browser? && r.events[i].scenario == key
    ensures ScenarioProbes(getReport, getProbe, scenario).Failure? ==>
      r == Traced([], Failure(ScenarioProbes(getReport, getProbe, scenario).error))
    ensures ScenarioProbes(getReport, getProbe, scenario).Success? ==>
      r == RunScenario(w, key, scenario, ScenarioProbes(getReport, getProbe, scenario).value, warmup, runs, env, observe)
  {
    match ScenarioProbes(getReport, getProbe, scenario)
    case Failure(e) => Traced([], Failure(e))
    case Success(probes) => RunScenario(w, key, scenario, probes, warmup, runs, env, observe)
  }

  /** The first `n` scenarios, in order, `recorded[ j ]` being what
      recording scenario `j` does; each success is kept under the
      scenario's key, and the first failure ends the loop, so nothing
      after it happens. The keys are those of one object or array, so they
      are distinct. */
  function RecordScenarios(keys: seq<string>, recorded: seq<Traced<ScenarioRuns>>, n: nat): (r: Traced<Dict<ScenarioRuns>>)
    requires |keys| == |recorded| && n <= |keys|
    requires forall a, b | 0 <= a < b < |keys| :: keys[a] != keys[b]
    ensures r.result.Success? <==> forall j | 0 <= j < n :: recorded[j].result.Success?
    ensures r.result.Success? ==> r.result.value.keys == keys[..n]
    ensures r.result.Success? ==> forall j | 0 <= j < n :: r.result.value.vals[keys[j]] == recorded[j].result.value
  {
    if n == 0 then Traced([], Success(Empty()))
    else
      var earlier := RecordScenarios(keys, recorded, n - 1);
      var one := recorded[n - 1];
      match earlier.result
      case Failure(e) => earlier
      case Success(done) =>
        match one.result
        case Failure(e) => Traced(earlier.events + one.events, Failure(e))
        case Success(sr) =>
          var d := Put(done, keys[n - 1], sr);
          assert d.keys == keys[..n] && forall j | 0 <= j < n :: d.vals[keys[j]] == recorded[j].result.value by {
            PutNext(keys, n, done, sr);
          }
          Traced(earlier.events + one.events, Success(d))
  }

  /** The trace of the scenario loop: when every scenario succeeds, the
      events of all of them; otherwise the events of the scenarios up to
      and including the first that failed, with that scenario's error. */
  lemma {:induction false} RecordScenariosTrace(keys: seq<string>, recorded: seq<Traced<ScenarioRuns>>, n: nat)
    requires |keys| == |recorded| && n <= |keys|
    requires forall a, b | 0 <= a < b < |keys| :: keys[a] != keys[b]
    ensures var r := RecordScenarios(keys, recorded, n);
      r.result.Success? ==> r.events == Events(recorded[..n])
    ensures var r := RecordScenarios(keys, recorded, n);
      r.result.Failure? ==> exists j | 0 <= j < n ::
        && (forall i | 0 <= i < j :: recorded[i].result.Success?)
        && recorded[j].result == Failure(r.result.error)
        && r.events == Events(recorded[..j + 1])
  {
    if n > 0 {
      RecordScenariosTrace(keys, recorded, n - 1);
      TakeOneMore(recorded, n);
      EventsAppend(recorded[..n - 1], [recorded[n - 1]]);
      assert Events([recorded[n - 1]]) == recorded[n - 1].events by {
        assert [recorded[n - 1]][..0] == [];
      }
      var earlier := RecordScenarios(keys, recorded, n - 1);
      if earlier.result.Failure? {
        var j :| 0 <= j < n - 1 && (forall i | 0 <= i < j :: recorded[i].result.Success?)
          && recorded[j].result == Failure(earlier.result.error) && earlier.events == Events(recorded[..j + 1]);
      } else if recorded[n - 1].result.Failure? {
        assert n - 1 < n && (forall i | 0 <= i < n - 1 :: recorded[i].result.Success?);
      }
    }
  }

  /** The events of several traces, one after the other. */
  function Events(ts: seq<Traced<ScenarioRuns>>): seq<Event> {
    if ts == [] then [] else Events(ts[..|ts| - 1]) + ts[|ts| - 1].events
  }

  lemma {:induction false} EventsAppend(a: seq<Traced<ScenarioRuns>>, b: seq<Traced<ScenarioRuns>>)
    ensures Events(a + b) == Events(a) + Events(b)
    decreases |b|
  {
    if b == [] {
      assert a + b == a;
    } else {
      var b' := b[..|b| - 1];
      var last := b[|b| - 1];
      calc {
        Events(a + b);
        { assert (a + b)[..|a + b| - 1] == a + b' && (a + b)[|a + b| - 1] == last; }
        Events(a + b') + last.events;
        { EventsAppend(a, b'); }
        Events(a) + Events(b') + last.events;
        { Recorder.Associative(Events(a), Events(b'), last.events); }
        Events(a) + (Events(b') + last.events);
      }
    }
  }

  // ---- the analysis ----

  /** The metric under position `j` of a report. */
  function MetricAt(metrics: Dict<Reports.Metric>, j: nat): Reports.Metric
    requires j < |metrics.keys|
  {
    metrics.vals[metrics.keys[j]]
  }

  /** The first `n` outcomes are all successes. */
  predicate Succeed<T, E>(outcomes: seq<Result<T, E>>, n: nat)
    requires n <= |outcomes|
  {
    forall j | 0 <= j < n :: outcomes[j].Success?
  }

  /** Among the first `n` outcomes, the first failure fails with `e`. */
  ghost predicate FirstFailure<T, E>(outcomes: seq<Result<T, E>>, n: nat, e: E)
    requires n <= |outcomes|
  {
    exists j | 0 <= j < n :: Succeed(outcomes, j) && outcomes[j] == Failure(e)
  }

  /** The outcomes of a loop that stores each step's value under its key
      and stops at the first step that throws, over the first `n` steps. */
  function Keyed<T, E>(keys: seq<string>, outcomes: seq<Result<T, E>>, n: nat): (r: Result<Dict<T>, E>)
    requires |keys| == |outcomes| && n <= |keys| && Distinct(keys)
    ensures r.Success? <==> Succeed(outcomes, n)
    ensures r.Success? ==> r.value.keys == keys[..n]
    ensures r.Success? ==> forall j | 0 <= j < n :: r.value.vals[keys[j]] == outcomes[j].value
    ensures r.Failure? ==> FirstFailure(outcomes, n, r.error)
  {
    if n == 0 then Success(Empty())
    else
      match Keyed(keys, outcomes, n - 1)
      case Failure(e) =>
        assert FirstFailure(outcomes, n, e) && !Succeed(outcomes, n) by {
          var j :| 0 <= j < n - 1 && Succeed(outcomes, j) && outcomes[j] == Failure(e);
        }
        Failure(e)
      case Success(done) =>
        match outcomes[n - 1]
        case Failure(e) =>
          assert FirstFailure(outcomes, n, e) && !Succeed(outcomes, n) by {
            assert Succeed(outcomes, n - 1) && outcomes[n - 1] == Failure(e);
          }
          Failure(e)
        case Success(v) =>
          var r := Put(done, keys[n - 1], v);
          assert r.keys == keys[..n] && forall j | 0 <= j < n :: r.vals[keys[j]] == outcomes[j].value by {
            PutNext(keys, n, done, v);
          }
          Success(r)
  }

  /** `analysed[ reportName ][ metric ] = metric.analyse( combined )` for
      every metric of a report, in their order; an analyser that throws
      ends the analysis. */
  function AnalyseMetrics(metrics: Dict<Reports.Metric>, combined: Combined, sqrt: real -> real,
                          pathnameOf: string -> string): (r: Result<Dict<StatsObject>, Reports.AnalysisError>)
    ensures r.Success? <==> forall k | k in metrics.vals :: Reports.Analyse(metrics.vals[k].analyse, combined, sqrt, pathnameOf).Success?
    ensures r.Success? ==> r.value.keys == metrics.keys
    ensures r.Success? ==> forall k | k in metrics.vals ::
      r.value.vals[k] == Reports.Analyse(metrics.vals[k].analyse, combined, sqrt, pathnameOf).value
    ensures r.Failure? ==> exists k | k in metrics.vals ::
      Reports.Analyse(metrics.vals[k].analyse, combined, sqrt, pathnameOf) == Failure(r.error)
  {
    var n := |metrics.keys|;
    var outcomes := seq(n, j requires 0 <= j < n => Reports.Analyse(MetricAt(metrics, j).analyse, combined, sqrt, pathnameOf));
    assert metrics.keys[..n] == metrics.keys;
    Keyed(metrics.keys, outcomes, n)
  }

  /** Every metric of a report analyses without throwing. */
  predicate Analysable(rep: Reports.Report, combined: Combined, sqrt: real -> real, pathnameOf: string -> string) {
    AnalyseMetrics(rep.metrics, combined, sqrt, pathnameOf).Success?
  }

  /** One scenario report's analysis: a report name resolves in the
      registry (an unknown name throws as `get` does); the analysers of a
      report object passed in are functions this model does not see. */
  function AnalyseReport(reports: Reports.Lookup, name: Value, combined: Combined, sqrt: real -> real,
                         pathnameOf: string -> string): (r: Result<Dict<StatsObject>, RecordError>)
    ensures !name.Str? ==> r == Failure(UserReport)
    ensures name.Str? && reports(name.s).None? ==>
      r == Failure(RegistryFailure(Registry.UnknownName("Unknown probe name: " + name.s)))
    ensures r.Success? <==> name.Str? && reports(name.s).Some? && Analysable(reports(name.s).value, combined, sqrt, pathnameOf)
    ensures r.Success? ==> r.value.keys == reports(name.s).value.metrics.keys
    ensures r.Failure? && r.error.AnalysisFailure? ==> exists m | m in reports(name.s).value.metrics.vals.Values ::
      Reports.Analyse(m.analyse, combined, sqrt, pathnameOf) == Failure(r.error.analysis)
  {
    if !name.Str? then Failure(UserReport)
    else match reports(name.s)
      case None => Failure(RegistryFailure(Registry.UnknownName("Unknown probe name: " + name.s)))
      case Some(rep) =>
        match AnalyseMetrics(rep.metrics, combined, sqrt, pathnameOf)
        case Failure(e) =>
          var k :| k in rep.metrics.vals && Reports.Analyse(rep.metrics.vals[k].analyse, combined, sqrt, pathnameOf) == Failure(e);
          assert rep.metrics.vals[k] in rep.metrics.vals.Values;
          Failure(AnalysisFailure(e))
        case Success(d) => Success(d)
  }

  /** `addAnalysedData`: the first `n` entries of the scenario's `reports`,
      each analysed under its name, `analyse` being the analysis of one
      entry, which succeeds only for a name. A repeated name is analysed
      again and keeps its first position. */
  function AnalyseReports(names: seq<Value>, analyse: Value -> Result<Dict<StatsObject>, RecordError>, n: nat): (r: Result<Dict<Dict<StatsObject>>, RecordError>)
    requires n <= |names|
    requires forall v | analyse(v).Success? :: v.Str?
    ensures r.Success? <==> forall j | 0 <= j < n :: analyse(names[j]).Success?
    ensures r.Success? ==> forall k :: k in r.value.vals <==> Str(k) in names[..n]
    ensures r.Success? ==> forall j | 0 <= j < n :: r.value.vals[names[j].s] == analyse(names[j]).value
    ensures r.Failure? ==> exists j | 0 <= j < n :: analyse(names[j]) == Failure(r.error)
  {
    if n == 0 then Success(Empty())
    else
      var done :- AnalyseReports(names, analyse, n - 1);
      TakeOneMore(names, n);
      var one :- analyse(names[n - 1]);
      Success(Put(done, names[n - 1].s, one))
  }

  /** Combine a scenario's runs, then analyse them with its reports. */
  function Finish(sr: ScenarioRuns, reports: Reports.Lookup, sqrt: real -> real,
                  pathnameOf: string -> string): (r: Result<ScenarioRecord, RecordError>)
    ensures r.Success? <==> forall j | 0 <= j < |sr.options.reports| ::
      AnalyseReport(reports, sr.options.reports[j], Combine(sr.runs), sqrt, pathnameOf).Success?
    ensures r.Success? ==> r.value.options == sr.options && r.value.runs == sr.runs && r.value.combined == Combine(sr.runs)
    ensures r.Success? ==> forall k :: k in r.value.analysed.vals <==> Str(k) in sr.options.reports
    ensures r.Success? ==> forall j | 0 <= j < |sr.options.reports| ::
      r.value.analysed.vals[sr.options.reports[j].s] == AnalyseReport(reports, sr.options.reports[j], Combine(sr.runs), sqrt, pathnameOf).value
  {
    var combined := Combine(sr.runs);
    var names := sr.options.reports;
    var analysed :- AnalyseReports(names, (v: Value) => AnalyseReport(reports, v, combined, sqrt, pathnameOf), |names|);
    assert names[..|names|] == names;
    Success(ScenarioRecord(sr.options, sr.runs, combined, analysed))
  }

  /** Step 4: every recorded scenario finished, in key order; the first
      failure ends it. */
  function FinishAll(d: Dict<ScenarioRuns>, reports: Reports.Lookup, sqrt: real -> real,
                     pathnameOf: string -> string): (r: Result<Dict<ScenarioRecord>, RecordError>)
    ensures r.Success? <==> forall k | k in d.vals :: Finish(d.vals[k], reports, sqrt, pathnameOf).Success?
    ensures r.Success? ==> r.value.keys == d.keys
    ensures r.Success? ==> forall k | k in d.vals :: r.value.vals[k] == Finish(d.vals[k], reports, sqrt, pathnameOf).value
  {
    var n := |d.keys|;
    var outcomes := seq(n, j requires 0 <= j < n => Finish(d.vals[d.keys[j]], reports, sqrt, pathnameOf));
    assert d.keys[..n] == d.keys;
    Keyed(d.keys, outcomes, n)
  }

  // ---- the record ----

  /** The record and the path of the `record.json` it is written to. */
  datatype Written = Written(record: Record, file: seq<string>)

  /** Every scenario of a valid configuration has a string URL. */
  lemma ScenarioUrls(c: Value)
    requires Config(c).Pass?
    ensures forall j | 0 <= j < |ScenarioList(Prop(c, "scenarios"))| :: Prop(ScenarioList(Prop(c, "scenarios"))[j], "url").Str?
  {
    var list := ScenarioList(Prop(c, "scenarios"));
    forall j | 0 <= j < |list| ensures Prop(list[j], "url").Str? {
      assert list[j] in list;
      assert ValidScenario(list[j]);
    }
  }

  /** The browser sees exactly this: nothing before the configuration and
      the output directory are accepted; then it is launched once, and it
      is closed once, last, whether the scenarios succeed or not. */
  predicate Bracketed(events: seq<Event>) {
    && |events| >= 2
    && events[0] == LaunchBrowser && events[|events| - 1] == CloseBrowser
    && forall i | 0 < i < |events| - 1 :: events[i].Browser?
  }

  /** What recording needs of a valid configuration: a boolean `warmup`,
      a numeric `runs`, and a string URL in every scenario. */
  predicate Runnable(c: Value) {
    && Prop(c, "warmup").Bool? && Prop(c, "runs").Num?
    && forall j | 0 <= j < |ScenarioList(Prop(c, "scenarios"))| :: Prop(ScenarioList(Prop(c, "scenarios"))[j], "url").Str?
  }

  lemma ValidConfigIsRunnable(c: Value)
    requires Config(c).Pass?
    ensures Runnable(c)
  {
    ConfigFields(c);
    ScenarioUrls(c);
  }

  /** What recording each scenario on its own would do. */
  function RecordEach(getReport: Getter, getProbe: Getter, w: Writer, keys: seq<string>, list: seq<Value>,
                      warmup: bool, runs: nat, env: map<string, string>, observe: Observer): (rs: seq<Traced<ScenarioRuns>>)
    requires |keys| == |list|
    requires forall j | 0 <= j < |list| :: Prop(list[j], "url").Str?
    ensures |rs| == |list|
    ensures forall j | 0 <= j < |list| :: rs[j] == RecordScenario(getReport, getProbe, w, keys[j], list[j], warmup, runs, env, observe)
    ensures TracesBrowser(rs)
  {
    seq(|list|, j requires 0 <= j < |list| =>
      RecordScenario(getReport, getProbe, w, keys[j], list[j], warmup, runs, env, observe))
  }

  /** The scenario loop reaches the browser only with scenario steps. */
  lemma ScenarioLoopIsBrowserSteps(keys: seq<string>, recorded: seq<Traced<ScenarioRuns>>)
    requires |keys| == |recorded|
    requires forall a, b | 0 <= a < b < |keys| :: keys[a] != keys[b]
    requires TracesBrowser(recorded)
    ensures AllBrowser(RecordScenarios(keys, recorded, |keys|).events)
  {
    var loop := RecordScenarios(keys, recorded, |keys|);
    RecordScenariosTrace(keys, recorded, |keys|);
    if loop.result.Failure? {
      var j :| 0 <= j < |keys| && loop.events == Events(recorded[..j + 1]);
      assert TracesBrowser(recorded[..j + 1]) by {
        assert forall t | t in recorded[..j + 1] :: t in recorded;
      }
      EventsAreBrowserSteps(recorded[..j + 1]);
    } else {
      assert recorded[..|keys|] == recorded;
      EventsAreBrowserSteps(recorded);
    }
  }

  /** The scenarios of a valid configuration, one after the other in
      the browser (step 3). */
  function RecordAll(getReport: Getter, getProbe: Getter, w: Writer, c: Value,
                     env: map<string, string>, observe: Observer): (r: Traced<Dict<ScenarioRuns>>)
    requires Runnable(c)
    ensures AllBrowser(r.events)
  {
    var list := ScenarioList(Prop(c, "scenarios"));
    var keys := ScenarioKeys(Prop(c, "scenarios"));
    var recorded := RecordEach(getReport, getProbe, w, keys, list, Prop(c, "warmup").b,
                               RunCount(Prop(c, "runs").n), env, observe);
    ScenarioLoopIsBrowserSteps(keys, recorded);
    RecordScenarios(keys, recorded, |keys|)
  }

  /** Scenario traces hold only browser steps, and so do their events. */
  lemma {:induction false} EventsAreBrowserSteps(ts: seq<Traced<ScenarioRuns>>)
    requires TracesBrowser(ts)
    ensures AllBrowser(Events(ts))
  {
    if ts != [] {
      var front := ts[..|ts| - 1];
      assert TracesBrowser(front) by {
        assert forall t | t in front :: t in ts;
      }
      EventsAreBrowserSteps(front);
      assert AllBrowser(ts[|ts| - 1].events);
    }
  }

  /** Every event of a trace is a browser step. */
  predicate AllBrowser(events: seq<Event>) {
    forall e | e in events :: e.Browser?
  }

  /** Every event of every trace is a browser step. */
  predicate TracesBrowser(ts: seq<Traced<ScenarioRuns>>) {
    forall t | t in ts :: AllBrowser(t.events)
  }

  /** Steps 3 to 5 for a valid configuration and an opened output
      directory: the browser is launched, runs every scenario and is
      closed; then the record is analysed and written. */
  function RecordIn(getReport: Getter, getProbe: Getter, reports: Reports.Lookup, c: Value, w: Writer,
                    env: map<string, string>, observe: Observer,
                    sqrt: real -> real, pathnameOf: string -> string): (r: Traced<Written>)
    requires Runnable(c)
    ensures Bracketed(r.events)
    ensures r.result.Success? ==> r.result.value.file == w.dir + ["record.json"]
  {
    var loop := RecordAll(getReport, getProbe, w, c, env, observe);
    var events := [LaunchBrowser] + loop.events + [CloseBrowser];
    BrowserBracketed(loop.events);
    match loop.result
    case Failure(e) => Traced(events, Failure(e))
    case Success(d) =>
      match FinishAll(d, reports, sqrt, pathnameOf)
      case Failure(e) => Traced(events, Failure(e))
      case Success(scenarios) => Traced(events, Success(Written(Record(scenarios), w.dir + ["record.json"])))
  }

  /** Launching before and closing after browser steps brackets them. */
  lemma BrowserBracketed(inner: seq<Event>)
    requires AllBrowser(inner)
    ensures Bracketed([LaunchBrowser] + inner + [CloseBrowser])
  {
    var events := [LaunchBrowser] + inner + [CloseBrowser];
    forall i | 0 < i < |events| - 1
      ensures events[i].Browser?
    {
      assert events[i] == inner[i - 1];
    }
  }

  /** A configuration ready to record and the writer of its output
      directory. */
  datatype Prepared = Prepared(config: Value, writer: Writer)

  /** Step 1: apply the defaults, validate, open `<outputDir>/<label>`. */
  function Prepare(config: Value, outputDir: string, recordLabel: string): (r: Result<Prepared, RecordError>)
    ensures Config(WithDefaults(config)).Fail? ==> r == Failure(InvalidConfig(Config(WithDefaults(config)).error))
    ensures Config(WithDefaults(config)).Pass? && !ValidName(recordLabel) ==>
      r == Failure(InvalidFileName("Invalid file name: \"" + recordLabel + "\""))
    ensures r.Success? <==> Config(WithDefaults(config)).Pass? && ValidName(recordLabel)
    ensures r.Success? ==> r.value.config == WithDefaults(config) && Runnable(r.value.config)
    ensures r.Success? ==> r.value.writer == Writer([outputDir, recordLabel], "")
  {
    var c := WithDefaults(config);
    match Config(c)
    case Fail(e) => Failure(InvalidConfig(e))
    case Pass =>
      OpenChild(outputDir, recordLabel);
      ValidConfigIsRunnable(c);
      match Child(Open(outputDir), recordLabel)
      case Failure(m) => Failure(InvalidFileName(m))
      case Success(w) => Success(Prepared(c, w))
  }

  /** `new Writer( outputDir ).child( label )`. */
  lemma OpenChild(outputDir: string, recordLabel: string)
    ensures ValidName(recordLabel) ==> Child(Open(outputDir), recordLabel) == Success(Writer([outputDir, recordLabel], ""))
    ensures !ValidName(recordLabel) ==> Child(Open(outputDir), recordLabel) == Failure("Invalid file name: \"" + recordLabel + "\"")
  {
    assert Open(outputDir).prefix + recordLabel == recordLabel;
    if ValidName(recordLabel) {
      assert Child(Open(outputDir), recordLabel).value.dir == [outputDir, recordLabel];
    }
  }

  /** `record( config, outputDir, label )`, the registries being
      `getReport`, `getProbe` (string lookups allocate numbered copies) and
      `reports` for the analysis. Nothing reaches the browser when the
      configuration or the label is refused. */
  function RecordWith(getReport: Getter, getProbe: Getter, reports: Reports.Lookup, config: Value,
                      outputDir: string, recordLabel: string, env: map<string, string>, observe: Observer,
                      sqrt: real -> real, pathnameOf: string -> string): (r: Traced<Written>)
    ensures Prepare(config, outputDir, recordLabel).Failure? ==>
      r == Traced([], Failure(Prepare(config, outputDir, recordLabel).error))
    ensures Prepare(config, outputDir, recordLabel).Success? ==> Bracketed(r.events)
    ensures r.result.Success? ==> r.result.value.file == [outputDir, recordLabel, "record.json"]
  {
    match Prepare(config, outputDir, recordLabel)
    case Failure(e) => Traced([], Failure(e))
    case Success(p) =>
      var r := RecordIn(getReport, getProbe, reports, p.config, p.writer, env, observe, sqrt, pathnameOf);
      assert r.result.Success? ==> r.result.value.file == [outputDir, recordLabel, "record.json"] by {
        RecordFilePath(outputDir, recordLabel, p.writer);
      }
      r
  }

  lemma RecordFilePath(outputDir: string, recordLabel: string, w: Writer)
    requires w == Writer([outputDir, recordLabel], "")
    ensures w.dir + ["record.json"] == [outputDir, recordLabel, "record.json"]
  {
  }

  /** The built-in registries (`src/reports/index.js`,
      `src/probes/index.js`). */
  function BuiltinReport(v: Value, copyId: nat): Result<Value, Registry.RegistryError> {
    Registry.Get(Registry.ReportRegistry, v, copyId)
  }

  function BuiltinProbe(v: Value, copyId: nat): Result<Value, Registry.RegistryError> {
    Registry.Get(Registry.ProbeRegistry, v, copyId)
  }

  /** `record( config, outputDir, label )` with the built-in probes and
      reports. */
  function RecordConfig(config: Value, outputDir: string, recordLabel: string, env: map<string, string>, observe: Observer,
                        sqrt: real -> real, pathnameOf: string -> string): (r: Traced<Written>)
    ensures Config(WithDefaults(config)).Pass? && ValidName(recordLabel) ==> Bracketed(r.events)
    ensures !ValidName(recordLabel) ==> r.events == [] && r.result.Failure?
  {
    RecordWith(BuiltinReport, BuiltinProbe, Reports.Builtin, config, outputDir, recordLabel, env, observe, sqrt, pathnameOf)
  }

  // ---- properties of the record ----

  /** What the record holds for one configured scenario: its options, one
      result per run, those results combined, and one analysis per report
      name it lists. */
  ghost predicate ScenarioRecorded(sr: ScenarioRecord, scenario: Value, runs: nat) {
    && sr.options == Options(scenario)
    && |sr.runs| == runs
    && sr.combined == Combine(sr.runs)
    && forall n :: n in sr.analysed.vals <==> Str(n) in sr.options.reports
  }

  /** The scenarios recorded, when all succeed: one per configured
      scenario, under its key, with its options and one result per run. */
  lemma RecordAllContents(getReport: Getter, getProbe: Getter, w: Writer, c: Value,
                          env: map<string, string>, observe: Observer, j: nat)
    requires Runnable(c) && j < |ScenarioList(Prop(c, "scenarios"))|
    ensures RecordAll(getReport, getProbe, w, c, env, observe).result.Success? ==>
      RecordAll(getReport, getProbe, w, c, env, observe).result.value.keys == ScenarioKeys(Prop(c, "scenarios"))
    ensures RecordAll(getReport, getProbe, w, c, env, observe).result.Success? ==>
      && RecordAll(getReport, getProbe, w, c, env, observe).result.value.vals[ScenarioKeys(Prop(c, "scenarios"))[j]].options
         == Options(ScenarioList(Prop(c, "scenarios"))[j])
      && |RecordAll(getReport, getProbe, w, c, env, observe).result.value.vals[ScenarioKeys(Prop(c, "scenarios"))[j]].runs|
         == RunCount(Prop(c, "runs").n)
  {
    var list := ScenarioList(Prop(c, "scenarios"));
    var keys := ScenarioKeys(Prop(c, "scenarios"));
    var recorded := RecordEach(getReport, getProbe, w, keys, list, Prop(c, "warmup").b,
                               RunCount(Prop(c, "runs").n), env, observe);
    var loop := RecordScenarios(keys, recorded, |keys|);
    assert RecordAll(getReport, getProbe, w, c, env, observe) == loop;
    if loop.result.Success? {
      assert keys[..|keys|] == keys;
      assert recorded[j].result.Success?;
      RecordedScenario(getReport, getProbe, w, keys[j], list[j], Prop(c, "warmup").b,
                       RunCount(Prop(c, "runs").n), env, observe);
    }
  }

  /** A scenario recorded without failure keeps its options and has one
      result per run. */
  lemma RecordedScenario(getReport: Getter, getProbe: Getter, w: Writer, key: string, scenario: Value,
                         warmup: bool, runs: nat, env: map<string, string>, observe: Observer)
    requires Prop(scenario, "url").Str?
    ensures var r := RecordScenario(getReport, getProbe, w, key, scenario, warmup, runs, env, observe);
      r.result.Success? ==> r.result.value.options == Options(scenario) && |r.result.value.runs| == runs
  {
  }

  /** A finished scenario keeps the options and runs it was recorded with. */
  lemma FinishedScenario(d: Dict<ScenarioRuns>, reports: Reports.Lookup, sqrt: real -> real,
                         pathnameOf: string -> string, k: string, sr: ScenarioRecord)
    requires FinishAll(d, reports, sqrt, pathnameOf).Success? && k in d.vals
    requires sr == FinishAll(d, reports, sqrt, pathnameOf).value.vals[k]
    ensures sr.options == d.vals[k].options && sr.runs == d.vals[k].runs
    ensures sr.combined == Combine(sr.runs)
    ensures forall n :: n in sr.analysed.vals <==> Str(n) in sr.options.reports
  {
  }

  /** A successful `RecordIn` holds the finished scenarios of its loop. */
  lemma RecordInResult(getReport: Getter, getProbe: Getter, reports: Reports.Lookup, c: Value, w: Writer,
                       env: map<string, string>, observe: Observer,
                       sqrt: real -> real, pathnameOf: string -> string)
    requires Runnable(c)
    requires RecordIn(getReport, getProbe, reports, c, w, env, observe, sqrt, pathnameOf).result.Success?
    ensures RecordAll(getReport, getProbe, w, c, env, observe).result.Success?
    ensures FinishAll(RecordAll(getReport, getProbe, w, c, env, observe).result.value, reports, sqrt, pathnameOf).Success?
    ensures RecordIn(getReport, getProbe, reports, c, w, env, observe, sqrt, pathnameOf).result.value.record.scenarios
      == FinishAll(RecordAll(getReport, getProbe, w, c, env, observe).result.value, reports, sqrt, pathnameOf).value
  {
  }

  /** What the record holds for the scenario at position `j`, under its
      key. */
  lemma RecordInContents(getReport: Getter, getProbe: Getter, reports: Reports.Lookup, c: Value, w: Writer,
                         env: map<string, string>, observe: Observer,
                         sqrt: real -> real, pathnameOf: string -> string, j: nat)
    requires Runnable(c) && j < |ScenarioList(Prop(c, "scenarios"))|
    ensures RecordIn(getReport, getProbe, reports, c, w, env, observe, sqrt, pathnameOf).result.Success? ==>
      RecordIn(getReport, getProbe, reports, c, w, env, observe, sqrt, pathnameOf).result.value.record.scenarios.keys
        == ScenarioKeys(Prop(c, "scenarios"))
    ensures RecordIn(getReport, getProbe, reports, c, w, env, observe, sqrt, pathnameOf).result.Success? ==>
      ScenarioRecorded(
        RecordIn(getReport, getProbe, reports, c, w, env, observe, sqrt, pathnameOf).result.value.record.scenarios.vals[ScenarioKeys(Prop(c, "scenarios"))[j]],
        ScenarioList(Prop(c, "scenarios"))[j], RunCount(Prop(c, "runs").n))
  {
    var r := RecordIn(getReport, getProbe, reports, c, w, env, observe, sqrt, pathnameOf);
    if r.result.Success? {
      RecordInResult(getReport, getProbe, reports, c, w, env, observe, sqrt, pathnameOf);
      RecordAllContents(getReport, getProbe, w, c, env, observe, j);
      var d := RecordAll(getReport, getProbe, w, c, env, observe).result.value;
      var keys := ScenarioKeys(Prop(c, "scenarios"));
      var scenarios := r.result.value.record.scenarios;
      assert scenarios.keys == keys;
      assert keys[j] in d.vals;
      FinishedScenario(d, reports, sqrt, pathnameOf, keys[j], scenarios.vals[keys[j]]);
    }
  }

  /** Every scenario of a successful record ran `runs` times, so when the
      record succeeds with at least one run, every scenario key was a
      valid part of a directory name. */
  lemma RecordAllKeysSafe(getReport: Getter, getProbe: Getter, w: Writer, c: Value,
                          env: map<string, string>, observe: Observer, j: nat)
    requires Runnable(c) && j < |ScenarioList(Prop(c, "scenarios"))|
    requires RunCount(Prop(c, "runs").n) > 0
    ensures RecordAll(getReport, getProbe, w, c, env, observe).result.Success? ==> SafeKey(ScenarioKeys(Prop(c, "scenarios"))[j])
  {
    var list := ScenarioList(Prop(c, "scenarios"));
    var keys := ScenarioKeys(Prop(c, "scenarios"));
    var recorded := RecordEach(getReport, getProbe, w, keys, list, Prop(c, "warmup").b,
                               RunCount(Prop(c, "runs").n), env, observe);
    if RecordScenarios(keys, recorded, |keys|).result.Success? {
      assert recorded[j].result.Success?;
    }
  }

  /** The record's contents for the scenario at position `j` of the
      configuration with its defaults applied. */
  lemma RecordContents(getReport: Getter, getProbe: Getter, reports: Reports.Lookup, config: Value,
                       outputDir: string, recordLabel: string, env: map<string, string>, observe: Observer,
                       sqrt: real -> real, pathnameOf: string -> string, j: nat)
    requires j < |ScenarioList(Prop(WithDefaults(config), "scenarios"))|
    ensures RecordWith(getReport, getProbe, reports, config, outputDir, recordLabel, env, observe, sqrt, pathnameOf).result.Success? ==>
      RecordWith(getReport, getProbe, reports, config, outputDir, recordLabel, env, observe, sqrt, pathnameOf).result.value.record.scenarios.keys
        == ScenarioKeys(Prop(WithDefaults(config), "scenarios"))
    ensures RecordWith(getReport, getProbe, reports, config, outputDir, recordLabel, env, observe, sqrt, pathnameOf).result.Success? ==>
      ScenarioRecorded(
        RecordWith(getReport, getProbe, reports, config, outputDir, recordLabel, env, observe, sqrt, pathnameOf).result.value.record.scenarios.vals[ScenarioKeys(Prop(WithDefaults(config), "scenarios"))[j]],
        ScenarioList(Prop(WithDefaults(config), "scenarios"))[j], RunCount(Prop(WithDefaults(config), "runs").n))
  {
    var p := Prepare(config, outputDir, recordLabel);
    if p.Success? {
      RecordInContents(getReport, getProbe, reports, p.value.config, p.value.writer, env, observe, sqrt, pathnameOf, j);
    }
  }

  /** Without an own `runs`, the defaults make every scenario run once
      (with `RecordContents`, a successful record holds one run per
      scenario). */
  lemma DefaultRunCount(config: Value)
    requires !HasOwn(config, "runs")
    ensures RunCount(Prop(WithDefaults(config), "runs").n) == 1
  {
    var n := RunCount(1.0);
    assert AsReal(0) < 1.0 && !(AsReal(1) < 1.0);
    assert 0 < n && !(1 < n);
  }

  /** A fractional `runs` is rounded up: the loop runs while
      `run < config.runs`. */
  lemma FractionalRunsRoundUp()
    ensures RunCount(2.5) == 3 && RunCount(0.0) == 0 && RunCount(-1.0) == 0
  {
    assert AsReal(2) < 2.5 && !(AsReal(3) < 2.5);
  }

  /** When the record succeeds with at least one run per scenario, every
      scenario key is free of the characters a file name may not hold; a
      scenario keyed `a/b` makes the record fail, after the browser has
      been closed. */
  lemma RecordedKeysAreSafe(getReport: Getter, getProbe: Getter, reports: Reports.Lookup, config: Value,
                            outputDir: string, recordLabel: string, env: map<string, string>, observe: Observer,
                            sqrt: real -> real, pathnameOf: string -> string, j: nat)
    requires j < |ScenarioList(Prop(WithDefaults(config), "scenarios"))|
    requires Prop(WithDefaults(config), "runs").Num? && RunCount(Prop(WithDefaults(config), "runs").n) > 0
    ensures var r := RecordWith(getReport, getProbe, reports, config, outputDir, recordLabel, env, observe, sqrt, pathnameOf);
      r.result.Success? ==> SafeKey(ScenarioKeys(Prop(WithDefaults(config), "scenarios"))[j])
  {
    var p := Prepare(config, outputDir, recordLabel);
    if p.Success? {
      RecordAllKeysSafe(getReport, getProbe, p.value.writer, p.value.config, env, observe, j);
    }
  }

  /** Without reports, the scenario's probes are its own, looked up in
      order from copy number 0. */
  lemma GatherOwnProbes(getReport: Getter, getProbe: Getter, scenario: Value)
    requires !Prop(scenario, "reports").Arr?
    ensures var f := Fetch(getProbe, Items(Prop(scenario, "probes")), 0);
      && (Gather(getReport, getProbe, scenario, 0).Success? <==> f.Success?)
      && (f.Success? ==> Gather(getReport, getProbe, scenario, 0).value.fetched == f.value)
  {
    var f := Fetch(getProbe, Items(Prop(scenario, "probes")), 0);
    if f.Success? {
      assert [] + f.value == f.value;
    }
  }

  /** Two successful lookups in a row. */
  lemma FetchTwo(get: Getter, a: Value, b: Value, next: nat)
    requires get(a, next).Success? && get(b, next + 1).Success?
    ensures Fetch(get, [a, b], next) == Success([get(a, next).value, get(b, next + 1).value])
  {
    var x := get(a, next).value;
    var y := get(b, next + 1).value;
    assert Fetch(get, [], next + 2) == Success([]);
    assert [b][1..] == [];
    assert Fetch(get, [b], next + 1) == Success([y] + []);
    assert [y] + [] == [y];
    assert [a, b][1..] == [b];
    assert Fetch(get, [a, b], next) == Success([x] + [y]);
    assert [x] + [y] == [x, y];
  }

  /** A probe named twice is two lookups; when the registry makes a new
      copy on each, as the built-in one does, the `Set` holds both and
      the probe runs twice. */
  lemma RepeatedNameRunsTwice(getReport: Getter, getProbe: Getter, scenario: Value, name: string)
    requires !Prop(scenario, "reports").Arr? && Prop(scenario, "probes") == Arr([Str(name), Str(name)])
    requires getProbe(Str(name), 0).Success? && getProbe(Str(name), 1).Success?
    requires getProbe(Str(name), 0).value != getProbe(Str(name), 1).value
    ensures ScenarioProbes(getReport, getProbe, scenario).Success?
    ensures |ScenarioProbes(getReport, getProbe, scenario).value| == 2
  {
    var a := getProbe(Str(name), 0).value;
    var b := getProbe(Str(name), 1).value;
    FetchTwo(getProbe, Str(name), Str(name), 0);
    GatherOwnProbes(getReport, getProbe, scenario);
    assert AddProbes([], [a, b]) == [a, b] by {
      assert AddProbes([], [a, b]) == AddProbes([a], [b]);
      assert AddProbes([a], [b]) == AddProbes([a, b], []);
    }
  }

  /** The built-in probe registry makes a new copy on each lookup. */
  lemma BuiltinLookupsDiffer(name: string)
    requires name in Registry.ProbeNames
    ensures BuiltinProbe(Str(name), 0).Success? && BuiltinProbe(Str(name), 1).Success?
    ensures BuiltinProbe(Str(name), 0).value != BuiltinProbe(Str(name), 1).value
  {
    Registry.BuiltinProbesResolve(name, 0);
    Registry.BuiltinProbesResolve(name, 1);
    Registry.LookupsAreDistinct(Registry.ProbeRegistry, name, 0, 1);
  }

  /** The same probe object given twice is one member of the `Set` and
      runs once. */
  lemma RepeatedObjectRunsOnce(getReport: Getter, getProbe: Getter, scenario: Value, probe: Value)
    requires !Prop(scenario, "reports").Arr? && Prop(scenario, "probes") == Arr([probe, probe])
    requires getProbe(probe, 0) == Success(probe) && getProbe(probe, 1) == Success(probe)
    ensures ScenarioProbes(getReport, getProbe, scenario) == Success([probe])
  {
    FetchTwo(getProbe, probe, probe, 0);
    GatherOwnProbes(getReport, getProbe, scenario);
    assert AddProbes([], [probe, probe]) == [probe] by {
      assert AddProbes([], [probe, probe]) == AddProbes([probe], [probe]);
      assert AddProbes([probe], [probe]) == AddProbes([probe], []);
    }
  }

  /** The built-in probe registry hands a valid probe object back as it
      is, whatever the copy number. */
  lemma BuiltinPassesObjects(probe: Value, copyId: nat)
    requires probe.Obj? && Registry.IsProbe(probe).Pass?
    ensures BuiltinProbe(probe, copyId) == Success(probe)
  {
  }
}
