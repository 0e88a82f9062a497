/** Name lookup in the probe and report registries (src/Registry.js): a
    string is looked up in a table and answered with a fresh copy that has
    `name` injected; any other value is used as it is. Either way the
    result must pass the registry's validator (`isProbe` or `isReport`). */
module Registry {
  import opened Wrappers
  import opened Dict
  import opened JsValue
  import opened Shape
  import Reports

  datatype Validator = IsProbeValidator | IsReportValidator

  /** `new Registry( validate, values )`. */
  datatype Registry = Registry(validate: Validator, values: Value)

  datatype RegistryError =
    | UnknownName(message: string)  // the `Error` thrown for an unknown name
    | Invalid(error: Validation)     // the validator's `Validation` error

  // ---- isProbe and isReport ----

  const ProbeShape: Shape := RawDict(
    ["before", "after", "name"],
    map["before" := OneOf([TFunction, TUndefined]), "after" := OneOf([TFunction, TUndefined]),
        "name" := Exactly(TString)])

  const ReportShape: Shape := RawDict(
    ["probes", "metrics", "name"],
    map["probes" := Exactly(TArray), "metrics" := Exactly(TObject), "name" := Exactly(TString)])

  const MetricShape: Shape := RawDict(
    ["caption", "unit", "analyse", "compare", "threshold"],
    map["caption" := Exactly(TString), "unit" := Exactly(TString),
        "analyse" := Exactly(TFunction), "compare" := Exactly(TFunction),
        "threshold" := OneOf([TNumber, TUndefined])])

  /** `isProbe`. */
  function IsProbe(v: Value): (r: Outcome<Validation>)
    ensures r.Pass? <==> Conforms(v, ProbeShape)
    ensures r.Fail? ==> r.error.name == ErrorName(Some("probe"))
  {
    Like(v, ProbeShape, Some("probe"))
  }

  /** Every metric of a report object has the metric shape. */
  ghost predicate MetricsConform(metrics: Value) {
    forall k | k in OwnKeys(metrics) :: Conforms(Prop(metrics, k), MetricShape)
  }

  /** The first metric (from position `i` of the own keys) that fails. */
  function CheckMetrics(metrics: Value, i: nat): (r: Outcome<Validation>)
    requires i <= |OwnKeys(metrics)|
    ensures r.Pass? <==>
      forall j | i <= j < |OwnKeys(metrics)| :: Conforms(Prop(metrics, OwnKeys(metrics)[j]), MetricShape)
    ensures r.Fail? ==> r.error.name == ErrorName(Some("report#metric"))
    decreases |OwnKeys(metrics)| - i
  {
    if i == |OwnKeys(metrics)| then Pass
    else match Like(Prop(metrics, OwnKeys(metrics)[i]), MetricShape, Some("report#metric"))
      case Fail(e) => Fail(e)
      case Pass => CheckMetrics(metrics, i + 1)
  }

  /** `isReport`: the report shape, then each metric in key order. */
  function IsReport(v: Value): (r: Outcome<Validation>)
    ensures r.Pass? <==> Conforms(v, ReportShape) && MetricsConform(Prop(v, "metrics"))
    ensures r.Fail? ==>
      r.error.name == ErrorName(Some("report")) || r.error.name == ErrorName(Some("report#metric"))
  {
    match Like(v, ReportShape, Some("report"))
    case Fail(e) => Fail(e)
    case Pass =>
      var ms := Prop(v, "metrics");
      var r := CheckMetrics(ms, 0);
      assert r.Pass? <==> MetricsConform(ms) by {
        if r.Pass? {
          forall k | k in OwnKeys(ms) ensures Conforms(Prop(ms, k), MetricShape) {
            var j := KeyIndex(ms.props, k);
          }
        }
      }
      r
  }

  function Validate(validate: Validator, v: Value): Outcome<Validation> {
    match validate
    case IsProbeValidator => IsProbe(v)
    case IsReportValidator => IsReport(v)
  }

  // ---- lookup ----

  /** The names every object literal inherits from `Object.prototype`. */
  const ObjectPrototypeNames: seq<string> := [
    "constructor", "hasOwnProperty", "isPrototypeOf", "propertyIsEnumerable",
    "toLocaleString", "toString", "valueOf", "__proto__",
    "__defineGetter__", "__defineSetter__", "__lookupGetter__", "__lookupSetter__"]

  /** `name in table`: an own key, or, for an object literal, a name it
      inherits. A table made by `Object.create( null )` inherits nothing. */
  predicate Has(table: Value, name: string) {
    table.Obj? && (name in table.props.vals || (table.kind == Literal && name in ObjectPrototypeNames))
  }

  /** The own enumerable properties `Object.assign` copies from a table
      entry. An inherited entry is a function of `Object.prototype` (or,
      for `__proto__`, the prototype itself), neither of which has any. */
  function OwnProps(table: Value, name: string): Dict<Value> {
    if table.Obj? && name in table.props.vals && table.props.vals[name].Obj? then table.props.vals[name].props
    else Empty()
  }

  /** `Object.assign( { name: name }, values[ name ] )`: a new object whose
      first key is `name`; every key of the entry is copied over it, so an
      entry's own `name` wins. */
  function Copy(table: Value, name: string, copyId: nat): (v: Value)
    ensures v.Obj? && v.id == Copied(copyId) && v.kind == Literal
    ensures |v.props.keys| > 0 && v.props.keys[0] == "name"
    ensures Prop(v, "name") == if "name" in OwnProps(table, name).vals then OwnProps(table, name).vals["name"] else Str(name)
    ensures forall k | k != "name" :: k in v.props.vals <==> k in OwnProps(table, name).vals
    ensures forall k | k != "name" && k in v.props.vals :: v.props.vals[k] == OwnProps(table, name).vals[k]
  {
    Obj(Copied(copyId), Literal, Assign(Singleton("name", Str(name)), OwnProps(table, name)))
  }

  /** `registry.get( name )`. `copyId` numbers the copy a string lookup
      allocates. Unknown names fail with the same message in both
      registries. */
  function Get(reg: Registry, arg: Value, copyId: nat): (r: Result<Value, RegistryError>)
    ensures arg.Str? && !Has(reg.values, arg.s) ==> r == Failure(UnknownName("Unknown probe name: " + arg.s))
    ensures arg.Str? && Has(reg.values, arg.s) ==>
      (r.Success? <==> Validate(reg.validate, Copy(reg.values, arg.s, copyId)).Pass?)
    ensures arg.Str? && r.Success? ==> r.value == Copy(reg.values, arg.s, copyId)
    ensures !arg.Str? ==> (r.Success? <==> Validate(reg.validate, arg).Pass?)
    ensures !arg.Str? && r.Success? ==> r.value == arg
    ensures r.Success? ==> Validate(reg.validate, r.value).Pass?
    ensures r.Failure? && r.error.Invalid? ==> Validate(reg.validate, if arg.Str? then Copy(reg.values, arg.s, copyId) else arg) == Fail(r.error.error)
  {
    var obj :- if arg.Str? then
        if !Has(reg.values, arg.s) then Failure(UnknownName("Unknown probe name: " + arg.s))
        else Success(Copy(reg.values, arg.s, copyId))
      else Success(arg);
    match Validate(reg.validate, obj)
    case Fail(e) => Failure(Invalid(e))
    case Pass => Success(obj)
  }

  /** Two string lookups of the same name give two different objects. */
  lemma LookupsAreDistinct(reg: Registry, name: string, f1: nat, f2: nat)
    requires f1 != f2
    requires Get(reg, Str(name), f1).Success? && Get(reg, Str(name), f2).Success?
    ensures Get(reg, Str(name), f1).value.id != Get(reg, Str(name), f2).value.id
  {
  }

  /** An object passed in is returned as that very object, whatever copy
      number a string lookup would have used. */
  lemma ObjectPassesThrough(reg: Registry, v: Value, f1: nat, f2: nat)
    requires v.Obj? && Validate(reg.validate, v).Pass?
    ensures Get(reg, v, f1) == Get(reg, v, f2) == Success(v)
  {
  }

  // ---- the built-in tables ----

  /** The hooks each module under src/probes exports, keyed by probe name. */
  function ProbeModule(name: string): Option<Value> {
    var path := ["probes", name];
    match name
    case "navtiming" => Some(Obj(Export(path), Literal, Singleton("after", Func(1))))
    case "paint" => Some(Obj(Export(path), Literal, Singleton("after", Func(2))))
    case "screenshot" => Some(Obj(Export(path), Literal, Singleton("after", Func(3))))
    case "trace" => Some(Obj(Export(path), Literal, Put(Singleton("before", Func(4)), "after", Func(5))))
    case "transfer" => Some(Obj(Export(path), Literal, Singleton("after", Func(6))))
    case _ => None
  }

  const ProbeNames: seq<string> := ["navtiming", "paint", "screenshot", "trace", "transfer"]

  /** `src/probes/index.js`: the five probes in a null-prototype table. */
  const ProbeTable: Value := Obj(Export(["probes"]), NullPrototype, Tabulate(ProbeNames, ProbeModule))

  const ProbeRegistry := Registry(IsProbeValidator, ProbeTable)

  /** The metric keys of equal length differ in their first or second letter. */
  lemma MetricKeysDiffer()
    ensures "analyse" != "caption" && "compare" != "caption" && "compare" != "analyse"
  {
    assert "analyse"[0] != "caption"[0];
    assert "compare"[1] != "caption"[1];
    assert "compare"[0] != "analyse"[0];
  }

  /** The own properties of an exported metric object. Its callbacks are
      functions; `threshold` and `compareUnit` are present only when set. */
  function MetricVals(m: Reports.Metric): map<string, Value> {
    var base := map["caption" := Str(m.caption), "unit" := Str(m.unit), "analyse" := Func(0), "compare" := Func(0)];
    var withThreshold := if m.threshold.Some? then base["threshold" := Num(m.threshold.value)] else base;
    if m.compareUnit.Some? then withThreshold["compareUnit" := Str(m.compareUnit.value)] else withThreshold
  }

  /** A metric as the object its report module exports, keys in source order. */
  function EncodeMetric(m: Reports.Metric, path: seq<string>): (v: Value)
    ensures v.Obj? && v.kind == Literal
    ensures v.props.vals == MetricVals(m)
  {
    var base := Put(Put(Put(Singleton("caption", Str(m.caption)), "unit", Str(m.unit)), "analyse", Func(0)), "compare", Func(0));
    var withThreshold := if m.threshold.Some? then Put(base, "threshold", Num(m.threshold.value)) else base;
    var props := if m.compareUnit.Some? then Put(withThreshold, "compareUnit", Str(m.compareUnit.value)) else withThreshold;
    Obj(Export(path), Literal, props)
  }

  /** The exported metric carries the metric's caption and unit, function
      callbacks, and its optional fields exactly when the metric sets them. */
  lemma EncodedMetricFields(m: Reports.Metric, path: seq<string>)
    ensures var v := EncodeMetric(m, path);
      && Prop(v, "caption") == Str(m.caption) && Prop(v, "unit") == Str(m.unit)
      && Prop(v, "analyse").Func? && Prop(v, "compare").Func?
      && (m.threshold.Some? ==> Prop(v, "threshold") == Num(m.threshold.value))
      && (m.threshold.None? ==> Prop(v, "threshold") == Undefined)
      && (m.compareUnit.Some? ==> Prop(v, "compareUnit") == Str(m.compareUnit.value))
      && (m.compareUnit.None? ==> Prop(v, "compareUnit") == Undefined)
  {
    MetricKeysDiffer();
    var vals := MetricVals(m);
    var base := map["caption" := Str(m.caption), "unit" := Str(m.unit), "analyse" := Func(0), "compare" := Func(0)];
    var withThreshold := if m.threshold.Some? then base["threshold" := Num(m.threshold.value)] else base;
    assert withThreshold["caption"] == Str(m.caption) && withThreshold["unit"] == Str(m.unit);
    assert withThreshold["analyse"] == Func(0) && withThreshold["compare"] == Func(0);
    assert "compareUnit" !in withThreshold;
    assert vals == if m.compareUnit.Some? then withThreshold["compareUnit" := Str(m.compareUnit.value)] else withThreshold;
  }

  /** An exported metric has no keys but the six metric fields. */
  lemma EncodedMetricKeys(m: Reports.Metric, path: seq<string>)
    ensures forall k | k in EncodeMetric(m, path).props.vals ::
      k in ["caption", "unit", "analyse", "compare", "threshold", "compareUnit"]
  {
  }

  /** `compareUnit` is read when comparing, yet a metric that sets it fails
      `isReport`: the metric shape does not declare it. */
  lemma MetricShapeRejectsCompareUnit(m: Reports.Metric, path: seq<string>)
    ensures Conforms(EncodeMetric(m, path), MetricShape) <==> m.compareUnit.None?
  {
    var v := EncodeMetric(m, path);
    if m.compareUnit.None? {
      assert Conforms(v, MetricShape) by {
        assert "compareUnit" !in v.props.vals by {
          assert "compareUnit" !in MetricVals(m);
        }
        forall k | k in v.props.vals ensures k in MetricShape.vals {
          EncodedMetricKeys(m, path);
          MetricShapeKeys();
        }
        EncodedMetricFields(m, path);
        FieldsMakeAMetric(v);
      }
    } else {
      assert !Conforms(v, MetricShape) by {
        assert "compareUnit" in v.props.vals;
        UndeclaredKeyFails(v, MetricShape, None, "compareUnit");
      }
    }
  }

  /** A plain object with the five metric fields, typed as declared, and no
      other key is a metric. */
  lemma FieldsMakeAMetric(v: Value)
    requires IsPlainObject(v)
    requires Prop(v, "caption").Str? && Prop(v, "unit").Str?
    requires Prop(v, "analyse").Func? && Prop(v, "compare").Func?
    requires Prop(v, "threshold").Num? || Prop(v, "threshold") == Undefined
    requires forall k | k in v.props.vals :: k in MetricShape.vals
    ensures Conforms(v, MetricShape)
  {
    var ms := MetricShape;
    forall k | k in ms.vals ensures Allows(ms.vals[k], TypeOf(Lookup(v.props, k))) {
      var i :| 0 <= i < |ms.keys| && ms.keys[i] == k;
      MetricFieldAllowed(v, i);
    }
  }

  /** The metric field declared at position `i` holds a value of an
      allowed type. */
  lemma MetricFieldAllowed(v: Value, i: nat)
    requires IsPlainObject(v)
    requires Prop(v, "caption").Str? && Prop(v, "unit").Str?
    requires Prop(v, "analyse").Func? && Prop(v, "compare").Func?
    requires Prop(v, "threshold").Num? || Prop(v, "threshold") == Undefined
    requires i < |MetricShape.keys|
    ensures Allows(MetricShape.vals[MetricShape.keys[i]], TypeOf(Lookup(v.props, MetricShape.keys[i])))
  {
    if i < 2 {
      TextFieldAllowed(v, i);
    } else if i < 4 {
      CallbackFieldAllowed(v, i);
    } else {
      FieldAllowed(v, MetricShape, "threshold", OneOf([TNumber, TUndefined]));
    }
  }

  /** `caption` and `unit` are strings. */
  lemma TextFieldAllowed(v: Value, i: nat)
    requires IsPlainObject(v)
    requires Prop(v, "caption").Str? && Prop(v, "unit").Str?
    requires i < 2
    ensures Allows(MetricShape.vals[MetricShape.keys[i]], TypeOf(Lookup(v.props, MetricShape.keys[i])))
  {
    if i == 0 {
      MetricKeysDiffer();
      FieldAllowed(v, MetricShape, "caption", Exactly(TString));
    } else {
      FieldAllowed(v, MetricShape, "unit", Exactly(TString));
    }
  }

  /** `analyse` and `compare` are functions. */
  lemma CallbackFieldAllowed(v: Value, i: nat)
    requires IsPlainObject(v)
    requires Prop(v, "analyse").Func? && Prop(v, "compare").Func?
    requires 2 <= i < 4
    ensures Allows(MetricShape.vals[MetricShape.keys[i]], TypeOf(Lookup(v.props, MetricShape.keys[i])))
  {
    MetricKeysDiffer();
    if i == 2 {
      FieldAllowed(v, MetricShape, "analyse", Exactly(TFunction));
    } else {
      FieldAllowed(v, MetricShape, "compare", Exactly(TFunction));
    }
  }

  /** A field declared with expectation `e` passes when its value has a
      type `e` allows. */
  lemma FieldAllowed(v: Value, shape: Shape, k: string, e: Expect)
    requires IsPlainObject(v) && k in shape.vals && shape.vals[k] == e
    requires Allows(e, TypeOf(Prop(v, k)))
    ensures Allows(shape.vals[k], TypeOf(Lookup(v.props, k)))
  {
  }

  /** The metric shape declares exactly the five metric fields. */
  lemma MetricShapeKeys()
    ensures MetricShape.vals.Keys == {"caption", "unit", "analyse", "compare", "threshold"}
  {
  }

  /** A report as the object its module exports: `probes` and `metrics`. */
  function EncodeReport(rep: Reports.Report, name: string): (v: Value)
    ensures v.Obj? && v.kind == Literal
    ensures v.props.keys == ["probes", "metrics"]
    ensures Prop(v, "probes") == Arr(seq(|rep.probes|, i requires 0 <= i < |rep.probes| => Str(rep.probes[i])))
    ensures Prop(v, "metrics").Obj? && Prop(v, "metrics").kind == Literal
    ensures OwnKeys(Prop(v, "metrics")) == rep.metrics.keys
    ensures forall k | k in rep.metrics.vals ::
      Prop(Prop(v, "metrics"), k) == EncodeMetric(rep.metrics.vals[k], ["reports", name, "metrics", k])
    ensures forall k | k in Prop(v, "metrics").props.vals :: k in rep.metrics.vals
  {
    var metrics := MapValues(rep.metrics, (k, m) => EncodeMetric(m, ["reports", name, "metrics", k]));
    var probes := Arr(seq(|rep.probes|, i requires 0 <= i < |rep.probes| => Str(rep.probes[i])));
    Obj(Export(["reports", name]), Literal,
      Put(Singleton("probes", probes), "metrics", Obj(Export(["reports", name, "metrics"]), Literal, metrics)))
  }

  function ReportModule(name: string): Option<Value> {
    match Reports.Builtin(name)
    case Some(rep) => Some(EncodeReport(rep, name))
    case None => None
  }

  /** `src/reports/index.js`: the three reports in a null-prototype table. */
  const ReportTable: Value := Obj(Export(["reports"]), NullPrototype, Tabulate(Reports.BuiltinNames, ReportModule))

  const ReportRegistry := Registry(IsReportValidator, ReportTable)

  // ---- properties of the built-in tables ----

  /** Null prototypes: a name inherited by object literals, such as
      `toString`, is unknown to both built-in registries. */
  lemma InheritedNamesAreUnknown(name: string, copyId: nat)
    requires name in ObjectPrototypeNames
    ensures Get(ProbeRegistry, Str(name), copyId) == Failure(UnknownName("Unknown probe name: " + name))
    ensures Get(ReportRegistry, Str(name), copyId) == Failure(UnknownName("Unknown probe name: " + name))
  {
    assert name !in ProbeNames;
    assert name !in Reports.BuiltinNames;
  }

  /** The same name in a table written as an object literal is found, and
      the bare `{ name }` copy passes `isProbe`. */
  lemma InheritedNameInLiteralTable(copyId: nat)
    ensures Get(Registry(IsProbeValidator, Obj(Given(0), Literal, Empty())), Str("toString"), copyId).Success?
  {
    InheritedCopyConforms(copyId);
  }

  lemma InheritedCopyConforms(copyId: nat)
    ensures Conforms(Copy(Obj(Given(0), Literal, Empty()), "toString", copyId), ProbeShape)
  {
    var v := Copy(Obj(Given(0), Literal, Empty()), "toString", copyId);
    assert v.props.vals == map["name" := Str("toString")] by {
      assert OwnProps(Obj(Given(0), Literal, Empty()), "toString").vals == map[];
    }
    NameOnlyConforms(v);
  }

  /** An object literal holding nothing but a string `name` is a probe. */
  lemma NameOnlyConforms(v: Value)
    requires v.Obj? && v.kind == Literal && "name" in v.props.vals && v.props.vals["name"].Str?
    requires forall k | k in v.props.vals :: k == "name"
    ensures Conforms(v, ProbeShape)
  {
    forall k | k in ProbeShape.vals
      ensures Allows(ProbeShape.vals[k], TypeOf(Lookup(v.props, k)))
    {
      if k == "name" {
        assert TypeOf(Lookup(v.props, k)) == TString;
      } else {
        assert TypeOf(Lookup(v.props, k)) == TUndefined;
      }
    }
  }

  /** A probe exporting a hook the shape does not declare is rejected when
      looked up, as a `Validation of probe` error. */
  lemma UndeclaredHookRejected(table: Value, name: string, hook: string, copyId: nat)
    requires table.Obj? && name in table.props.vals && table.props.vals[name].Obj?
    requires hook in table.props.vals[name].props.vals
    requires hook != "before" && hook != "after" && hook != "name"
    ensures var r := Get(Registry(IsProbeValidator, table), Str(name), copyId);
      r.Failure? && r.error.Invalid? && r.error.error.name == "Validation of probe"
  {
    CopyWithHookFails(table, name, hook, copyId);
    assert Has(table, name);
    ProbeErrorName();
  }

  /** The copy of an entry with an undeclared hook fails `isProbe`. */
  lemma CopyWithHookFails(table: Value, name: string, hook: string, copyId: nat)
    requires table.Obj? && name in table.props.vals && table.props.vals[name].Obj?
    requires hook in table.props.vals[name].props.vals
    requires hook != "before" && hook != "after" && hook != "name"
    ensures IsProbe(Copy(table, name, copyId)).Fail?
  {
    var v := Copy(table, name, copyId);
    assert hook in v.props.vals;
    assert hook !in ProbeShape.vals;
    UndeclaredKeyFails(v, ProbeShape, Some("probe"), hook);
  }

  lemma ProbeErrorName()
    ensures ErrorName(Some("probe")) == "Validation of probe"
  {
  }

  lemma ProbeModuleHooks(name: string)
    requires name in ProbeNames
    ensures ProbeModule(name).Some? && ProbeModule(name).value.Obj?
    ensures var e := ProbeModule(name).value;
      forall k | k in e.props.vals :: (k == "before" || k == "after") && e.props.vals[k].Func?
  {
    if name == "navtiming" {
    } else if name == "paint" {
    } else if name == "screenshot" {
    } else if name == "trace" {
    } else {
      assert name == "transfer";
    }
  }

  /** A plain object with a string `name` and nothing else but function
      hooks `before` and `after` is a probe. */
  lemma HooksMakeAProbe(v: Value)
    requires IsPlainObject(v) && Prop(v, "name").Str?
    requires forall k | k in v.props.vals && k != "name" :: (k == "before" || k == "after") && v.props.vals[k].Func?
    ensures Conforms(v, ProbeShape)
  {
    var ps := ProbeShape;
    forall k | k in ps.vals ensures Allows(ps.vals[k], TypeOf(Lookup(v.props, k))) {
      var i :| 0 <= i < |ps.keys| && ps.keys[i] == k;
      HookFieldAllowed(v, i);
    }
    forall k | k in v.props.vals ensures k in ps.vals {
      assert ps.vals.Keys == {"before", "after", "name"};
    }
  }

  /** The probe field declared at position `i` holds a value of an allowed
      type. */
  lemma HookFieldAllowed(v: Value, i: nat)
    requires IsPlainObject(v) && Prop(v, "name").Str?
    requires forall k | k in v.props.vals && k != "name" :: (k == "before" || k == "after") && v.props.vals[k].Func?
    requires i < |ProbeShape.keys|
    ensures Allows(ProbeShape.vals[ProbeShape.keys[i]], TypeOf(Lookup(v.props, ProbeShape.keys[i])))
  {
    if i == 0 {
      assert ProbeShape.vals["before"] == OneOf([TFunction, TUndefined]);
    } else if i == 1 {
      assert ProbeShape.vals["after"] == OneOf([TFunction, TUndefined]);
    } else {
      assert ProbeShape.vals["name"] == Exactly(TString);
    }
  }

  /** Every built-in probe resolves by name, as a copy carrying that name. */
  lemma BuiltinProbesResolve(name: string, copyId: nat)
    requires name in ProbeNames
    ensures Get(ProbeRegistry, Str(name), copyId).Success?
    ensures Prop(Get(ProbeRegistry, Str(name), copyId).value, "name") == Str(name)
  {
    ProbeModuleHooks(name);
    var e := ProbeModule(name).value;
    assert name in ProbeTable.props.vals;
    assert OwnProps(ProbeTable, name) == e.props;
    var v := Copy(ProbeTable, name, copyId);
    HooksMakeAProbe(v);
  }

  /** A plain object with an array `probes`, a plain-object `metrics`, a
      string `name` and no other key has the report shape. */
  lemma FieldsMakeAReport(v: Value)
    requires IsPlainObject(v) && Prop(v, "probes").Arr? && IsPlainObject(Prop(v, "metrics"))
    requires Prop(v, "name").Str?
    requires forall k | k in v.props.vals :: k in ["probes", "metrics", "name"]
    ensures Conforms(v, ReportShape)
  {
    var rs := ReportShape;
    assert rs.vals.Keys == {"probes", "metrics", "name"};
    forall k | k in rs.vals ensures Allows(rs.vals[k], TypeOf(Lookup(v.props, k))) {
      if k == "probes" {
      } else if k == "metrics" {
      } else {
        assert k == "name";
      }
    }
  }

  /** The metrics of an exported report pass `isReport` exactly when none
      of them sets `compareUnit`. */
  lemma EncodedMetricsConform(rep: Reports.Report, name: string)
    ensures MetricsConform(Prop(EncodeReport(rep, name), "metrics")) <==>
      forall k | k in rep.metrics.vals :: rep.metrics.vals[k].compareUnit.None?
  {
    var ms := Prop(EncodeReport(rep, name), "metrics");
    forall k | k in rep.metrics.vals
      ensures k in OwnKeys(ms)
      ensures Conforms(Prop(ms, k), MetricShape) <==> rep.metrics.vals[k].compareUnit.None?
    {
      var i := KeyIndex(rep.metrics, k);
      MetricShapeRejectsCompareUnit(rep.metrics.vals[k], ["reports", name, "metrics", k]);
    }
    forall k | k in OwnKeys(ms) ensures k in rep.metrics.vals {
    }
  }

  /** The copy of an exported report has the report shape and shares the
      report's metrics object. */
  lemma CopiedReportConforms(table: Value, name: string, rep: Reports.Report, copyId: nat)
    requires table.Obj? && name in table.props.vals && table.props.vals[name] == EncodeReport(rep, name)
    ensures var v := Copy(table, name, copyId);
      Conforms(v, ReportShape) && Prop(v, "metrics") == Prop(EncodeReport(rep, name), "metrics")
  {
    var e := EncodeReport(rep, name);
    var v := Copy(table, name, copyId);
    assert OwnProps(table, name) == e.props;
    assert "name" !in e.props.vals by {
      assert forall k | k in e.props.vals :: k in e.props.keys;
    }
    assert Prop(v, "probes") == Prop(e, "probes");
    forall k | k in v.props.vals ensures k in ["probes", "metrics", "name"] {
      if k != "name" {
        assert k in e.props.keys;
      }
    }
    FieldsMakeAReport(v);
  }

  /** A table entry that is an exported report resolves exactly when none of
      its metrics sets `compareUnit`. */
  lemma ExportedReportResolves(table: Value, name: string, rep: Reports.Report, copyId: nat)
    requires table.Obj? && name in table.props.vals && table.props.vals[name] == EncodeReport(rep, name)
    ensures Get(Registry(IsReportValidator, table), Str(name), copyId).Success? <==>
      forall k | k in rep.metrics.vals :: rep.metrics.vals[k].compareUnit.None?
  {
    var reg := Registry(IsReportValidator, table);
    assert Get(reg, Str(name), copyId).Success? <==> IsReport(Copy(table, name, copyId)).Pass? by {
      assert Has(table, name);
    }
    CopiedReportPasses(table, name, rep, copyId);
  }

  /** The copy of an exported report passes `isReport` exactly when its
      metrics conform. */
  lemma CopiedReportPasses(table: Value, name: string, rep: Reports.Report, copyId: nat)
    requires table.Obj? && name in table.props.vals && table.props.vals[name] == EncodeReport(rep, name)
    ensures IsReport(Copy(table, name, copyId)).Pass? <==>
      forall k | k in rep.metrics.vals :: rep.metrics.vals[k].compareUnit.None?
  {
    CopiedReportConforms(table, name, rep, copyId);
    EncodedMetricsConform(rep, name);
  }

  /** Every built-in report resolves by name. */
  lemma BuiltinReportsResolve(name: string, copyId: nat)
    requires name in Reports.BuiltinNames
    ensures Get(ReportRegistry, Str(name), copyId).Success?
  {
    var rep := Reports.Builtin(name).value;
    assert ReportModule(name) == Some(EncodeReport(rep, name));
    assert ReportTable.props.vals[name] == EncodeReport(rep, name);
    forall k | k in rep.metrics.vals ensures rep.metrics.vals[k].compareUnit.None? {
      Reports.BuiltinUnits(name, k);
    }
    ExportedReportResolves(ReportTable, name, rep, copyId);
  }

  /** The report registry resolves exactly the built-in report names; any
      other name is unknown. */
  lemma ReportLookup(name: string, copyId: nat)
    ensures Get(ReportRegistry, Str(name), copyId).Success? <==> Reports.Builtin(name).Some?
    ensures Reports.Builtin(name).None? ==>
      Get(ReportRegistry, Str(name), copyId) == Failure(UnknownName("Unknown probe name: " + name))
  {
    if name in Reports.BuiltinNames {
      BuiltinReportsResolve(name, copyId);
    } else {
      assert !Has(ReportTable, name);
    }
  }
}
