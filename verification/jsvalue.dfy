/** JavaScript values as seen by the shape validator (src/util/is.js): the
    primitive kinds, arrays, functions and objects, where an object records
    how it was made (literal, `Object.create(null)`, class instance or a
    built-in exotic such as a Date) and which reference it is. */
module JsValue {
  import opened Dict

  /** Object identity. Objects written by a caller carry `Given` ids; the
      registry's name-injecting copies are fresh objects with `Copied` ids;
      the objects the built-in probe and report modules export are named
      by their path from the registry table. */
  datatype ObjId = Given(n: nat) | Copied(n: nat) | Export(path: seq<string>)

  /** What `Object.prototype.toString` and `Object.getPrototypeOf` report. */
  datatype ObjKind =
    | Literal        // prototype is Object.prototype, tag [object Object]
    | NullPrototype  // Object.create( null )
    | Instance       // instance of a user class: tag [object Object], other prototype
    | Exotic         // Date, RegExp, Map, boxed primitive, ...: another tag

  datatype Value =
    | Undefined
    | Null
    | Bool(b: bool)
    | Num(n: real)
    | Str(s: string)
    | Symbol
    | BigInt(i: int)
    | Func(fid: nat)
    | Arr(items: seq<Value>)
    | Obj(id: ObjId, kind: ObjKind, props: Dict<Value>)

  /** The type names `type()` returns. */
  datatype Tag =
    | TArray | TObject | TNull | TUndefined | TBoolean | TNumber
    | TString | TSymbol | TFunction | TUnknown

  function TagName(t: Tag): string {
    match t
    case TArray => "array"
    case TObject => "object"
    case TNull => "null"
    case TUndefined => "undefined"
    case TBoolean => "boolean"
    case TNumber => "number"
    case TString => "string"
    case TSymbol => "symbol"
    case TFunction => "function"
    case TUnknown => "unknown"
  }

  /** The `typeof` operator: an independent reference for `TypeOf`. */
  function Typeof(v: Value): string {
    match v
    case Undefined => "undefined"
    case Null => "object"
    case Bool(_) => "boolean"
    case Num(_) => "number"
    case Str(_) => "string"
    case Symbol => "symbol"
    case BigInt(_) => "bigint"
    case Func(_) => "function"
    case Arr(_) => "object"
    case Obj(_, _, _) => "object"
  }

  /** `plainObject`: truthy, tagged [object Object], and with either no
      prototype or Object.prototype. */
  predicate IsPlainObject(v: Value) {
    v.Obj? && (v.kind == Literal || v.kind == NullPrototype)
  }

  /** `type`: arrays first, then plain objects, then null, then `typeof`
      for the primitive kinds and functions, `unknown` for the rest. */
  function TypeOf(v: Value): (t: Tag)
    ensures t == TArray <==> v.Arr?
    ensures t == TObject <==> IsPlainObject(v)
    ensures t == TNull <==> v == Null
    ensures t == TUndefined <==> v.Undefined?
    ensures t == TString <==> v.Str?
    ensures t == TNumber <==> v.Num?
    ensures t == TBoolean <==> v.Bool?
  {
    if v.Arr? then TArray
    else if IsPlainObject(v) then TObject
    else if v.Null? then TNull
    else match v
      case Undefined => TUndefined
      case Bool(_) => TBoolean
      case Num(_) => TNumber
      case Str(_) => TString
      case Symbol => TSymbol
      case Func(_) => TFunction
      case _ => TUnknown
  }

  /** Past arrays, plain objects and null, `type` is `typeof` when that
      names one of the six listed kinds, and `unknown` otherwise. */
  lemma TypeOfFollowsTypeof(v: Value)
    requires !v.Arr? && !IsPlainObject(v) && v != Null
    ensures (Typeof(v) in ["undefined", "boolean", "number", "string", "symbol", "function"])
      ==> TagName(TypeOf(v)) == Typeof(v)
    ensures (Typeof(v) !in ["undefined", "boolean", "number", "string", "symbol", "function"])
      ==> TypeOf(v) == TUnknown
  {
  }

  /** Reading an own property: a missing key reads as `undefined`. */
  function Lookup(props: Dict<Value>, key: string): (v: Value)
    ensures key !in props.vals ==> v == Undefined
    ensures key in props.vals ==> v == props.vals[key]
  {
    if key in props.vals then props.vals[key] else Undefined
  }

  /** Reading after an assignment: the assigned key reads back the value
      just written, and every other key reads as it did before. */
  lemma LookupPut(props: Dict<Value>, k: string, v: Value, j: string)
    ensures Lookup(Put(props, k, v), j) == if j == k then v else Lookup(props, j)
  {
  }

  /** `value[key]` on any value: only objects have own string keys here. */
  function Prop(v: Value, key: string): Value {
    if v.Obj? then Lookup(v.props, key) else Undefined
  }

  /** Keys enumerated by `for ... in` over an object's own properties. */
  function OwnKeys(v: Value): seq<string> {
    if v.Obj? then v.props.keys else []
  }
}
