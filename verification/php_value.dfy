/** The few PHP values the component inspects: the variadic constructor
    arguments, the values passed to `set`, and validation payloads. */
module PhpValue {

  /** A PHP value. Floats and resources are not represented; every object
      other than a closure is the single opaque `Obj`, and a closure is
      represented by the total string predicate it computes. */
  datatype Value =
    | Null
    | Bool(b: bool)
    | Int(i: int)
    | Str(s: string)
    | Arr(elems: seq<Value>)
    | Obj
    | Closure(call: string -> bool)

  /** PHP's conversion to boolean, `!!$v`. */
  predicate Truthy(v: Value)
    ensures !Truthy(v) <==>
      || v == Null
      || v == Bool(false)
      || v == Int(0)
      || v == Str("")
      || v == Str("0")
      || v == Arr([])
  {
    match v
    case Null => false
    case Bool(b) => b
    case Int(i) => i != 0
    case Str(s) => s != "" && s != "0"
    case Arr(elems) => |elems| > 0
    case Obj => true
    case Closure(_) => true
  }

  /** The bit a value stands for: `!($v) ? '0' : '1'`. */
  function BitChar(v: Value): (c: char)
    ensures c == '0' || c == '1'
    ensures c == '1' <==> Truthy(v)
  {
    if !Truthy(v) then '0' else '1'
  }

  /** PHP's `gettype`. A closure is an object. */
  function TypeName(v: Value): (name: string)
    ensures name == "object" <==> v.Obj? || v.Closure?
    ensures name == "string" <==> v.Str?
    ensures name == "integer" <==> v.Int?
    ensures name == "array" <==> v.Arr?
  {
    match v
    case Null => "NULL"
    case Bool(_) => "boolean"
    case Int(_) => "integer"
    case Str(_) => "string"
    case Arr(_) => "array"
    case Obj => "object"
    case Closure(_) => "object"
  }

  /** PHP's `abs` on an integer (no overflow: integers are unbounded here). */
  function Abs(x: int): (r: nat)
    ensures r == x || r == -x
  {
    if x < 0 then -x else x
  }
}
