/** JavaScript values as they arrive from `response.json()`, plus `undefined` for properties
    that are absent. An object's fields are listed in property enumeration order, the order
    in which `Object.entries` and `Object.values` return them. */
module JsValue {
  import opened JsNumber
  import opened JsString

  datatype Value =
    | Undefined
    | Null
    | Bool(b: bool)
    | Num(n: Number)
    | Str(s: string)
    | Arr(items: seq<Value>)
    | Obj(fields: seq<(string, Value)>)

  predicate Nullish(v: Value) {
    v.Undefined? || v.Null?
  }

  /** `!!v`: false for undefined, null, false, 0, NaN and the empty string. */
  predicate Truthy(v: Value) {
    match v
    case Undefined => false
    case Null => false
    case Bool(b) => b
    case Num(n) => !n.NaN? && n != Zero
    case Str(s) => s != ""
    case Arr(_) => true
    case Obj(_) => true
  }

  /** `typeof v === "object" && v`: an array or an object. */
  predicate IsObject(v: Value) {
    v.Arr? || v.Obj?
  }

  /** The value of the first field named `key`, or `undefined`. */
  function Lookup(fields: seq<(string, Value)>, key: string): (v: Value)
    ensures v != Undefined ==> exists i :: 0 <= i < |fields| && fields[i] == (key, v)
  {
    if fields == [] then Undefined
    else if fields[0].0 == key then fields[0].1
    else Lookup(fields[1..], key)
  }

  /** `v.key` on a value that is not null or undefined (reading a property of those throws).
      The property names the pipeline reads are defined by no prototype, so only an object's
      own field can supply them; on every other value they are `undefined`. */
  function Prop(v: Value, key: string): Value
    requires !Nullish(v)
  {
    if v.Obj? then Lookup(v.fields, key) else Undefined
  }

  /** `v?.key`. */
  function OptProp(v: Value, key: string): Value {
    if Nullish(v) then Undefined else Prop(v, key)
  }

  /** `Object.entries(v)` for an object or an array; an array's keys are its indices. */
  function Entries(v: Value): (es: seq<(string, Value)>)
    ensures v.Obj? ==> es == v.fields
    ensures v.Arr? ==> |es| == |v.items| && forall i :: 0 <= i < |es| ==> es[i] == (Decimal(i), v.items[i])
    ensures !IsObject(v) ==> es == []
  {
    match v
    case Obj(fields) => fields
    case Arr(items) => seq(|items|, i requires 0 <= i < |items| => (Decimal(i), items[i]))
    case _ => []
  }

  /** `Object.values(v)`, which throws on null and undefined. A string yields its
      characters as one-character strings; numbers and booleans yield nothing. */
  function Values(v: Value): (vs: seq<Value>)
    requires !Nullish(v)
    ensures IsObject(v) ==> |vs| == |Entries(v)| && forall i :: 0 <= i < |vs| ==> vs[i] == Entries(v)[i].1
  {
    if v.Str? then seq(|v.s|, i requires 0 <= i < |v.s| => Str([v.s[i]]))
    else
      var es := Entries(v);
      seq(|es|, i requires 0 <= i < |es| => es[i].1)
  }
}
