/** Closed-world shape validation (src/util/is.js): a value must be a plain
    object whose declared keys have the expected type tags and which has no
    key the shape does not declare. */
module Shape {
  import opened Wrappers
  import opened Dict
  import opened JsValue

  /** The expected type of one key: a single tag or a list of alternatives. */
  datatype Expect = Exactly(tag: Tag) | OneOf(tags: seq<Tag>)

  predicate Allows(e: Expect, t: Tag) {
    match e
    case Exactly(x) => t == x
    case OneOf(ts) => t in ts
  }

  /** A shape: an object literal from key to expected type. */
  type Shape = Dict<Expect>

  datatype Problem =
    | NonObject
    | WrongType(key: string, expected: Expect, actual: Tag)
    | UnexpectedKey(key: string)

  /** The `Validation` error: its `name` and the reason it was thrown. */
  datatype Validation = Validation(name: string, problem: Problem)

  /** The error name: `Validation`, or `Validation of <name>` when a
      non-empty input name is given (an empty name is falsy). */
  function ErrorName(inputName: Option<string>): (n: string)
    ensures inputName.None? ==> n == "Validation"
    ensures inputName.Some? && inputName.value == "" ==> n == "Validation"
    ensures inputName.Some? && inputName.value != "" ==> n == "Validation of " + inputName.value
  {
    match inputName
    case Some(s) => if s == "" then "Validation" else "Validation of " + s
    case None => "Validation"
  }

  /** Everything `like` checks, stated declaratively. */
  ghost predicate Conforms(v: Value, shape: Shape) {
    && IsPlainObject(v)
    && (forall k | k in shape.vals :: Allows(shape.vals[k], TypeOf(Lookup(v.props, k))))
    && (forall k | k in v.props.vals :: k in shape.vals)
  }

  /** The first declared key (from position `i`) whose value has the wrong type. */
  function CheckDeclared(props: Dict<Value>, shape: Shape, i: nat): (p: Option<Problem>)
    requires i <= |shape.keys|
    ensures p.None? <==>
      forall j | i <= j < |shape.keys| ::
        Allows(shape.vals[shape.keys[j]], TypeOf(Lookup(props, shape.keys[j])))
    ensures p.Some? ==>
      && p.value.WrongType? && p.value.key in shape.vals
      && p.value.expected == shape.vals[p.value.key]
      && p.value.actual == TypeOf(Lookup(props, p.value.key))
      && !Allows(p.value.expected, p.value.actual)
    decreases |shape.keys| - i
  {
    if i == |shape.keys| then None
    else
      var key := shape.keys[i];
      var actual := TypeOf(Lookup(props, key));
      if !Allows(shape.vals[key], actual) then Some(WrongType(key, shape.vals[key], actual))
      else CheckDeclared(props, shape, i + 1)
  }

  /** The first own key (from position `i`) that the shape does not declare. */
  function CheckUndeclared(props: Dict<Value>, shape: Shape, i: nat): (p: Option<Problem>)
    requires i <= |props.keys|
    ensures p.None? <==> forall j | i <= j < |props.keys| :: props.keys[j] in shape.vals
    ensures p.Some? ==>
      && p.value.UnexpectedKey? && p.value.key in props.vals
      && p.value.key !in shape.vals
    decreases |props.keys| - i
  {
    if i == |props.keys| then None
    else if props.keys[i] !in shape.vals then Some(UnexpectedKey(props.keys[i]))
    else CheckUndeclared(props, shape, i + 1)
  }

  /** `like( value, shape, name )`: passes exactly when the value conforms;
      otherwise fails with a `Validation` error named after the input. The
      root check comes first, then declared keys, then undeclared ones. */
  function Like(v: Value, shape: Shape, inputName: Option<string>): (r: Outcome<Validation>)
    ensures r.Pass? <==> Conforms(v, shape)
    ensures r.Fail? ==> r.error.name == ErrorName(inputName)
    ensures r.Fail? && r.error.problem == NonObject <==> !IsPlainObject(v)
    ensures r.Fail? && r.error.problem.UnexpectedKey? ==>
      r.error.problem.key in v.props.vals && r.error.problem.key !in shape.vals
  {
    if !IsPlainObject(v) then Fail(Validation(ErrorName(inputName), NonObject))
    else
      match CheckDeclared(v.props, shape, 0)
      case Some(p) => Fail(Validation(ErrorName(inputName), p))
      case None =>
        match CheckUndeclared(v.props, shape, 0)
        case Some(p) => Fail(Validation(ErrorName(inputName), p))
        case None =>
          assert forall k | k in shape.vals :: Allows(shape.vals[k], TypeOf(Lookup(v.props, k))) by {
            forall k | k in shape.vals
              ensures Allows(shape.vals[k], TypeOf(Lookup(v.props, k)))
            {
              var j := KeyIndex(shape, k);
            }
          }
          assert forall k | k in v.props.vals :: k in shape.vals by {
            forall k | k in v.props.vals ensures k in shape.vals {
              var j := KeyIndex(v.props, k);
            }
          }
          Pass
  }

  /** A key the shape declares but the value lacks reads as `undefined`:
      it passes exactly when `undefined` is among the allowed tags. */
  lemma MissingKeyIsUndefined(v: Value, shape: Shape, k: string)
    requires IsPlainObject(v) && k in shape.vals && k !in v.props.vals
    ensures Like(v, shape, None).Pass? ==> Allows(shape.vals[k], TUndefined)
  {
  }

  /** Closed world: one undeclared own key is enough to fail. */
  lemma UndeclaredKeyFails(v: Value, shape: Shape, name: Option<string>, k: string)
    requires v.Obj? && k in v.props.vals && k !in shape.vals
    ensures Like(v, shape, name).Fail?
  {
  }

  // ---- the scenario and config schemas ----

  const ScenarioShape: Shape := RawDict(
    ["url", "viewport", "reports", "probes"],
    map["url" := Exactly(TString), "viewport" := Exactly(TObject),
        "reports" := OneOf([TArray, TUndefined]), "probes" := OneOf([TArray, TUndefined])])

  const ViewportShape: Shape := RawDict(
    ["height", "width"],
    map["height" := Exactly(TNumber), "width" := Exactly(TNumber)])

  const ConfigShape: Shape := RawDict(
    ["warmup", "runs", "scenarios"],
    map["warmup" := Exactly(TBoolean), "runs" := Exactly(TNumber),
        "scenarios" := OneOf([TObject, TArray])])

  /** `is.scenario`: the scenario shape, then its viewport's shape. */
  function Scenario(v: Value): (r: Outcome<Validation>)
    ensures r.Fail? ==>
      r.error.name == ErrorName(Some("scenario")) || r.error.name == ErrorName(Some("scenario.viewport"))
  {
    match Like(v, ScenarioShape, Some("scenario"))
    case Fail(e) => Fail(e)
    case Pass => Like(Prop(v, "viewport"), ViewportShape, Some("scenario.viewport"))
  }

  /** What a valid scenario is, key by key. */
  ghost predicate ValidScenario(v: Value) {
    && ScenarioFields(v)
    && ViewportFields(Prop(v, "viewport"))
  }

  ghost predicate ScenarioFields(v: Value) {
    && IsPlainObject(v)
    && (forall k | k in v.props.vals :: k in {"url", "viewport", "reports", "probes"})
    && Lookup(v.props, "url").Str?
    && IsPlainObject(Lookup(v.props, "viewport"))
    && (Lookup(v.props, "reports").Arr? || Lookup(v.props, "reports") == Undefined)
    && (Lookup(v.props, "probes").Arr? || Lookup(v.props, "probes") == Undefined)
  }

  ghost predicate ViewportFields(vp: Value) {
    && IsPlainObject(vp)
    && (forall k | k in vp.props.vals :: k in {"height", "width"})
    && Lookup(vp.props, "height").Num?
    && Lookup(vp.props, "width").Num?
  }

  lemma ScenarioIsValid(v: Value)
    ensures Scenario(v).Pass? <==> ValidScenario(v)
  {
    ScenarioShapeFields(v);
    ViewportShapeFields(Prop(v, "viewport"));
  }

  lemma ScenarioShapeFields(v: Value)
    ensures Conforms(v, ScenarioShape) <==> ScenarioFields(v)
  {
    if Conforms(v, ScenarioShape) {
      FieldsFromScenarioShape(v);
    }
    if ScenarioFields(v) {
      ScenarioShapeFromFields(v);
    }
  }

  lemma FieldsFromScenarioShape(v: Value)
    requires Conforms(v, ScenarioShape)
    ensures ScenarioFields(v)
  {
    ScenarioShapeEntries();
    var sc := ScenarioShape;
    KeysWithin(v, sc, {"url", "viewport", "reports", "probes"});
    DeclaredField(v, sc, "url");
    DeclaredField(v, sc, "viewport");
    DeclaredField(v, sc, "reports");
    DeclaredField(v, sc, "probes");
  }

  lemma ScenarioShapeEntries()
    ensures ScenarioShape.vals.Keys == {"url", "viewport", "reports", "probes"}
    ensures ScenarioShape.vals["url"] == Exactly(TString)
    ensures ScenarioShape.vals["viewport"] == Exactly(TObject)
    ensures ScenarioShape.vals["reports"] == OneOf([TArray, TUndefined])
    ensures ScenarioShape.vals["probes"] == OneOf([TArray, TUndefined])
  {
  }

  /** A conforming value's own keys are among the shape's keys. */
  lemma KeysWithin(v: Value, shape: Shape, keys: set<string>)
    requires Conforms(v, shape) && shape.vals.Keys == keys
    ensures forall k | k in v.props.vals :: k in keys
  {
  }

  /** A conforming value's declared key has an allowed type. */
  lemma DeclaredField(v: Value, shape: Shape, k: string)
    requires Conforms(v, shape) && k in shape.vals
    ensures Allows(shape.vals[k], TypeOf(Lookup(v.props, k)))
  {
  }

  lemma ScenarioShapeFromFields(v: Value)
    requires ScenarioFields(v)
    ensures Conforms(v, ScenarioShape)
  {
    var sc := ScenarioShape;
    assert sc.vals.Keys == {"url", "viewport", "reports", "probes"};
    forall k | k in sc.vals ensures Allows(sc.vals[k], TypeOf(Lookup(v.props, k))) {
      if k == "url" {
      } else if k == "viewport" {
      } else if k == "reports" {
      } else {
        assert k == "probes";
      }
    }
  }

  lemma ViewportShapeFields(vp: Value)
    ensures Conforms(vp, ViewportShape) <==> ViewportFields(vp)
  {
    var vs := ViewportShape;
    if Conforms(vp, vs) {
      assert Allows(vs.vals["height"], TypeOf(Lookup(vp.props, "height")));
      assert Allows(vs.vals["width"], TypeOf(Lookup(vp.props, "width")));
    }
  }

  /** The scenarios `for ... in` visits: an object's values in key order, or
      an array's elements in index order. */
  function ScenarioList(scenarios: Value): seq<Value> {
    match scenarios
    case Obj(_, _, props) => Values(props)
    case Arr(items) => items
    case _ => []
  }

  /** The first scenario (from position `i`) that fails validation. */
  function CheckScenarios(ss: seq<Value>, i: nat): (r: Outcome<Validation>)
    requires i <= |ss|
    ensures r.Pass? <==> forall j | i <= j < |ss| :: Scenario(ss[j]).Pass?
    decreases |ss| - i
  {
    if i == |ss| then Pass
    else match Scenario(ss[i])
      case Fail(e) => Fail(e)
      case Pass => CheckScenarios(ss, i + 1)
  }

  /** `is.config`: the config shape, then every scenario in order. */
  function Config(v: Value): (r: Outcome<Validation>)
    ensures r.Pass? <==>
      && Conforms(v, ConfigShape)
      && forall s | s in ScenarioList(Prop(v, "scenarios")) :: ValidScenario(s)
  {
    match Like(v, ConfigShape, Some("config"))
    case Fail(e) => Fail(e)
    case Pass =>
      var ss := ScenarioList(Prop(v, "scenarios"));
      var r := CheckScenarios(ss, 0);
      assert forall s | s in ss :: Scenario(s).Pass? <==> ValidScenario(s) by {
        forall s | s in ss ensures Scenario(s).Pass? <==> ValidScenario(s) {
          ScenarioIsValid(s);
        }
      }
      r
  }

  /** A valid config has a boolean `warmup`, a numeric `runs` and scenarios
      held in an object or an array. */
  lemma ConfigFields(v: Value)
    requires Config(v).Pass?
    ensures Prop(v, "warmup").Bool? && Prop(v, "runs").Num?
    ensures Prop(v, "scenarios").Arr? || IsPlainObject(Prop(v, "scenarios"))
  {
    var c := ConfigShape;
    assert Allows(c.vals["warmup"], TypeOf(Lookup(v.props, "warmup")));
    assert Allows(c.vals["runs"], TypeOf(Lookup(v.props, "runs")));
    assert Allows(c.vals["scenarios"], TypeOf(Lookup(v.props, "scenarios")));
  }
}
