/** The JSON-like Python values that travel through the system: keyword
    arguments, dictionaries built for HTTP requests, and the documents kept in
    the bot's JSON cache files. */
module Values {

  import opened Wrappers

  datatype Value =
    | VNone
    | VBool(b: bool)
    | VInt(i: int)
    | VFloat(r: real)
    | VStr(s: string)
    | VList(items: seq<Value>)
    | VDict(entries: map<string, Value>)

  /** A dictionary with string keys, as produced by `dict(...)` literals */
  type Dict = map<string, Value>

  /** Python truthiness: `None`, `False`, zero, and empty strings, lists and
      dicts are falsy; everything else is truthy. */
  predicate Truthy(v: Value) {
    match v
    case VNone => false
    case VBool(b) => b
    case VInt(i) => i != 0
    case VFloat(r) => r != 0.0
    case VStr(s) => |s| > 0
    case VList(items) => |items| > 0
    case VDict(entries) => |entries| > 0
  }

  /** `x` given as an optional string (`None` when absent) */
  function OfOptionalString(x: Option<string>): Value {
    match x
    case Some(s) => VStr(s)
    case None => VNone
  }
}
