/** Folding per-run probe data into per-(probe, key) series: the
    `addCombinedData` step of recording (src/conductor.js). */
module Aggregate {
  import opened Dict
  import opened JsValue

  /** One run's data: probe name to the object its `addData` calls built. */
  type ProbeData = Dict<Dict<Value>>

  /** The combined data: probe name to data key to the values across runs. */
  type Combined = Dict<Dict<seq<Value>>>

  /** The series stored for (p, k), or the empty sequence when there is none. */
  function SeriesOf(c: Combined, p: string, k: string): seq<Value> {
    if p in c.vals && k in c.vals[p].vals then c.vals[p].vals[k] else []
  }

  /** What one run adds to the series of (p, k): its value, when it has one. */
  function Contribution(run: ProbeData, p: string, k: string): seq<Value> {
    if p in run.vals && k in run.vals[p].vals then [run.vals[p].vals[k]] else []
  }

  /** Reference definition: the values of (p, k) in exactly those runs that
      reported it, in run order. */
  function Column(runs: seq<ProbeData>, p: string, k: string): seq<Value> {
    if |runs| == 0 then []
    else Column(runs[..|runs| - 1], p, k) + Contribution(runs[|runs| - 1], p, k)
  }

  /** Probe p has a stored series for key k. */
  predicate HasSeries(c: Combined, p: string, k: string) {
    p in c.vals && k in c.vals[p].vals
  }

  /** Reference definition of probe presence: some run reported probe p. */
  predicate Reported(runs: seq<ProbeData>, p: string) {
    |runs| > 0 && (Reported(runs[..|runs| - 1], p) || p in runs[|runs| - 1].vals)
  }

  /** Append `data[k]` to the series of (p, k) for each key `k` in `ks`,
      creating the array when it is missing. */
  function AddKeys(c: Combined, p: string, data: Dict<Value>, ks: seq<string>): (r: Combined)
    requires p in c.vals
    requires forall k | k in ks :: k in data.vals
    ensures p in r.vals
    decreases |ks|
  {
    if |ks| == 0 then c
    else
      var k := ks[0];
      AddKeys(Put(c, p, Put(c.vals[p], k, SeriesOf(c, p, k) + [data.vals[k]])), p, data, ks[1..])
  }

  lemma {:induction false} AddKeysSeries(c: Combined, p: string, data: Dict<Value>, ks: seq<string>, q: string, k: string)
    requires p in c.vals
    requires forall k | k in ks :: k in data.vals
    requires forall i, j | 0 <= i < j < |ks| :: ks[i] != ks[j]
    ensures SeriesOf(AddKeys(c, p, data, ks), q, k) ==
              SeriesOf(c, q, k) + (if q == p && k in ks then [data.vals[k]] else [])
    ensures HasSeries(AddKeys(c, p, data, ks), q, k) <==> HasSeries(c, q, k) || (q == p && k in ks)
    decreases |ks|
  {
    if |ks| > 0 {
      var k0 := ks[0];
      var c' := Put(c, p, Put(c.vals[p], k0, SeriesOf(c, p, k0) + [data.vals[k0]]));
      AddKeysSeries(c', p, data, ks[1..], q, k);
      assert k in ks <==> k == k0 || k in ks[1..];
      assert k0 !in ks[1..];
    }
  }

  lemma {:induction false} AddKeysProbes(c: Combined, p: string, data: Dict<Value>, ks: seq<string>, q: string)
    requires p in c.vals
    requires forall k | k in ks :: k in data.vals
    ensures q in AddKeys(c, p, data, ks).vals <==> q in c.vals
    decreases |ks|
  {
    if |ks| > 0 {
      var k0 := ks[0];
      AddKeysProbes(Put(c, p, Put(c.vals[p], k0, SeriesOf(c, p, k0) + [data.vals[k0]])), p, data, ks[1..], q);
    }
  }

  /** `for ( const dataKey in run[ probeName ] )`, after creating
      `combined[ probeName ]` when it is missing. */
  function AddProbe(c: Combined, p: string, data: Dict<Value>): (r: Combined)
  {
    var c' := if p in c.vals then c else Put(c, p, Empty());
    AddKeys(c', p, data, data.keys)
  }

  lemma AddProbeSeries(c: Combined, p: string, data: Dict<Value>, q: string, k: string)
    ensures SeriesOf(AddProbe(c, p, data), q, k) ==
              SeriesOf(c, q, k) + (if q == p && k in data.vals then [data.vals[k]] else [])
    ensures HasSeries(AddProbe(c, p, data), q, k) <==> HasSeries(c, q, k) || (q == p && k in data.vals)
  {
    var c' := if p in c.vals then c else Put(c, p, Empty());
    assert SeriesOf(c', q, k) == SeriesOf(c, q, k);
    assert HasSeries(c', q, k) == HasSeries(c, q, k);
    AddKeysSeries(c', p, data, data.keys, q, k);
  }

  /** Every probe of one run, in the run's key order. */
  function AddProbes(c: Combined, run: ProbeData, ps: seq<string>): (r: Combined)
    requires forall p | p in ps :: p in run.vals
    decreases |ps|
  {
    if |ps| == 0 then c
    else AddProbes(AddProbe(c, ps[0], run.vals[ps[0]]), run, ps[1..])
  }

  lemma {:induction false} AddProbesSeries(c: Combined, run: ProbeData, ps: seq<string>, q: string, k: string)
    requires forall p | p in ps :: p in run.vals
    requires forall i, j | 0 <= i < j < |ps| :: ps[i] != ps[j]
    ensures SeriesOf(AddProbes(c, run, ps), q, k) ==
              SeriesOf(c, q, k) + (if q in ps then Contribution(run, q, k) else [])
    decreases |ps|
  {
    if |ps| > 0 {
      var c' := AddProbe(c, ps[0], run.vals[ps[0]]);
      var r := AddProbes(c', run, ps[1..]);
      assert AddProbes(c, run, ps) == r;
      if q == ps[0] {
        assert SeriesOf(r, q, k) == SeriesOf(c', q, k) by {
          assert q !in ps[1..];
          AddProbesSeries(c', run, ps[1..], q, k);
        }
        FirstProbeSeries(c, run, ps, q, k);
      } else {
        assert SeriesOf(r, q, k) == SeriesOf(c', q, k) + (if q in ps then Contribution(run, q, k) else []) by {
          assert q in ps <==> q in ps[1..];
          AddProbesSeries(c', run, ps[1..], q, k);
        }
        assert SeriesOf(c', q, k) == SeriesOf(c, q, k) by {
          AddProbeSeries(c, ps[0], run.vals[ps[0]], q, k);
        }
      }
    }
  }

  /** The first probe's series gains this run's value once. */
  lemma FirstProbeSeries(c: Combined, run: ProbeData, ps: seq<string>, q: string, k: string)
    requires |ps| > 0 && q == ps[0] && q in run.vals
    ensures SeriesOf(AddProbe(c, ps[0], run.vals[ps[0]]), q, k) == SeriesOf(c, q, k) + Contribution(run, q, k)
  {
    AddProbeSeries(c, ps[0], run.vals[ps[0]], q, k);
  }

  lemma {:induction false} AddProbesHasSeries(c: Combined, run: ProbeData, ps: seq<string>, q: string, k: string)
    requires forall p | p in ps :: p in run.vals
    requires forall i, j | 0 <= i < j < |ps| :: ps[i] != ps[j]
    ensures HasSeries(AddProbes(c, run, ps), q, k) <==>
              HasSeries(c, q, k) || (q in ps && Contribution(run, q, k) != [])
    decreases |ps|
  {
    if |ps| > 0 {
      var c' := AddProbe(c, ps[0], run.vals[ps[0]]);
      AddProbeSeries(c, ps[0], run.vals[ps[0]], q, k);
      AddProbesHasSeries(c', run, ps[1..], q, k);
      assert q in ps <==> q == ps[0] || q in ps[1..];
    }
  }

  /** One run folded into the combined data. */
  function AddRun(c: Combined, run: ProbeData): (r: Combined)
  {
    AddProbes(c, run, run.keys)
  }

  lemma AddRunSeries(c: Combined, run: ProbeData, q: string, k: string)
    ensures SeriesOf(AddRun(c, run), q, k) == SeriesOf(c, q, k) + Contribution(run, q, k)
    ensures HasSeries(AddRun(c, run), q, k) <==> HasSeries(c, q, k) || Contribution(run, q, k) != []
  {
    AddProbesSeries(c, run, run.keys, q, k);
    AddProbesHasSeries(c, run, run.keys, q, k);
  }

  lemma {:induction false} AddProbesProbes(c: Combined, run: ProbeData, ps: seq<string>, q: string)
    requires forall p | p in ps :: p in run.vals
    ensures q in AddProbes(c, run, ps).vals <==> q in c.vals || q in ps
    decreases |ps|
  {
    if |ps| > 0 {
      var p := ps[0];
      var c' := if p in c.vals then c else Put(c, p, Empty());
      AddKeysProbes(c', p, run.vals[p], run.vals[p].keys, q);
      AddProbesProbes(AddProbe(c, p, run.vals[p]), run, ps[1..], q);
      assert q in ps <==> q == p || q in ps[1..];
    }
  }

  /** `addCombinedData`, run by run. */
  function Combine(runs: seq<ProbeData>): (c: Combined)
  {
    if |runs| == 0 then Empty() else AddRun(Combine(runs[..|runs| - 1]), runs[|runs| - 1])
  }

  /** The series of (p, k) holds exactly the values of the runs that
      reported k under p, in run order; it exists exactly when some run
      reported it, so no stored series is empty. */
  lemma {:induction false} CombineSeries(runs: seq<ProbeData>, p: string, k: string)
    ensures SeriesOf(Combine(runs), p, k) == Column(runs, p, k)
    ensures HasSeries(Combine(runs), p, k) <==> Column(runs, p, k) != []
    ensures p in Combine(runs).vals <==> Reported(runs, p)
  {
    if |runs| > 0 {
      var prefix := runs[..|runs| - 1];
      var last := runs[|runs| - 1];
      CombineSeries(prefix, p, k);
      AddRunSeries(Combine(prefix), last, p, k);
      AddProbesProbes(Combine(prefix), last, last.keys, p);
    }
  }

  /** A key every run reports gets a series as long as the run count. */
  lemma {:induction false} ColumnOfUniversalKey(runs: seq<ProbeData>, p: string, k: string)
    requires forall i | 0 <= i < |runs| :: p in runs[i].vals && k in runs[i].vals[p].vals
    ensures |Column(runs, p, k)| == |runs|
    ensures forall i | 0 <= i < |runs| :: Column(runs, p, k)[i] == runs[i].vals[p].vals[k]
  {
    if |runs| > 0 {
      var prefix := runs[..|runs| - 1];
      ColumnOfUniversalKey(prefix, p, k);
    }
  }


  /** The two-run example: `{x: 1.4}` then `{x: 2.1}` under one probe
      combine to `[1.4, 2.1]`. */
  lemma CombineTwoRuns(p: string)
    ensures var runs := [Singleton(p, Singleton("x", Num(1.4))), Singleton(p, Singleton("x", Num(2.1)))];
      SeriesOf(Combine(runs), p, "x") == [Num(1.4), Num(2.1)]
  {
    var r1 := Singleton(p, Singleton("x", Num(1.4)));
    var r2 := Singleton(p, Singleton("x", Num(2.1)));
    var runs := [r1, r2];
    CombineSeries(runs, p, "x");
    assert runs[..1] == [r1] && [r1][..0] == [];
    assert Contribution(r1, p, "x") == [Num(1.4)];
    assert Contribution(r2, p, "x") == [Num(2.1)];
    assert Column([r1], p, "x") == [Num(1.4)];
  }
}
