/** Python values as they appear in a configuration tree, the errors the
    engine raises, and the Option/Result wrappers used to model them. */
module Values {

  /** A JSON-like Python value. Dictionaries are keyed by strings. */
  datatype Value =
    | VNone
    | VBool(b: bool)
    | VInt(i: int)
    | VStr(s: string)
    | VList(items: seq<Value>)
    | VMap(entries: map<string, Value>)

  /** The Python exceptions the core raises. */
  datatype Error =
    | KeyError          // a missing dictionary key
    | TypeError         // an operation on values of the wrong type
    | ValueError        // a malformed key, a locked key, a symbol conflict, list.remove miss
    | AttributeError    // calling a dict method on something that is not a dict
    | RecursionError    // Python's recursion limit was reached

  datatype Option<+T> = None | Some(value: T)

  datatype Result<+T> = Ok(value: T) | Err(error: Error)

  /** Python truthiness, as used by `name or count` and `if data:`. */
  predicate Truthy(v: Value)
    ensures !Truthy(v) <==> v in {VNone, VBool(false), VInt(0), VStr(""), VList([]), VMap(map[])}
  {
    match v
    case VNone => false
    case VBool(b) => b
    case VInt(i) => i != 0
    case VStr(s) => s != ""
    case VList(l) => l != []
    case VMap(m) => m != map[]
  }

  /** The identifier a merge records: its name when truthy, otherwise the
      ordinal the configuration supplies. */
  function Identifier(name: Value, ordinal: nat): (id: Value)
    ensures Truthy(name) ==> id == name
    ensures !Truthy(name) ==> id == VInt(ordinal)
  {
    if Truthy(name) then name else VInt(ordinal)
  }

  /** Looking a key up with `dict.get`: a missing key reads as None. */
  function GetOrNone(m: map<string, Value>, k: string): (v: Value)
    ensures k in m ==> v == m[k]
    ensures k !in m ==> v == VNone
  {
    if k in m then m[k] else VNone
  }

  /** `zip` stops at the shorter of its arguments. */
  function Min(a: nat, b: nat): nat
  {
    if a < b then a else b
  }
}
