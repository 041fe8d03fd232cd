/**
 * The Python values that flow through the quality-data pipeline: JSON documents
 * decoded by the HTTP client, keyword-argument dictionaries, and the few
 * built-ins whose behaviour the source relies on (truthiness, `dict.get`,
 * `str.replace`, `str.join`).
 */
module PyValue {
  import opened Wrappers

  /** A decoded JSON value, as Python holds it. */
  datatype Value =
    | Null
    | Bool(b: bool)
    | Int(i: int)
    | Float(r: real)
    | Str(s: string)
    | List(items: seq<Value>)
    | Obj(fields: map<string, Value>)

  /** A JSON object, i.e. a Python `dict` with string keys. */
  type Record = map<string, Value>

  /** Library routines whose exact behaviour is outside the model. */
  datatype Lib = Lib(
    parseFloat: string -> Option<real>,  // float(s): None where Python raises ValueError
    parseIso: string -> Option<real>,    // datetime.fromisoformat(s), as seconds since the epoch
    str: Value -> string,                // str(v)
    dumps: Record -> string              // json.dumps(item, sort_keys=True)
  )

  /** Python truthiness: None, False, 0, 0.0, "", [] and {} are false. */
  predicate Truthy(v: Value) {
    match v
    case Null => false
    case Bool(b) => b
    case Int(i) => i != 0
    case Float(r) => r != 0.0
    case Str(s) => s != ""
    case List(xs) => xs != []
    case Obj(m) => m != map[]
  }

  /** `a or b`: the first operand when it is truthy, else the second. */
  function Or(a: Value, b: Value): (r: Value)
    ensures Truthy(a) ==> r == a
    ensures !Truthy(a) ==> r == b
  {
    if Truthy(a) then a else b
  }

  /** `d.get(k, default)`. */
  function GetOr(d: Record, k: string, default: Value): (r: Value)
    ensures k in d ==> r == d[k]
    ensures k !in d ==> r == default
  {
    if k in d then d[k] else default
  }

  /** `d.get(k)`. */
  function Get(d: Record, k: string): Value {
    GetOr(d, k, Null)
  }

  /** `s.startswith(p)`, on character sequences. */
  predicate StartsWith(s: string, p: string) {
    |p| <= |s| && s[..|p|] == p
  }

  /** `p in s` for strings: `p` occurs in `s` as a contiguous block. */
  predicate Contains(s: string, p: string)
    decreases |s|
  {
    StartsWith(s, p) || (|s| > 0 && Contains(s[1..], p))
  }

  /** `s.replace(c, t)`: every occurrence of the character `c` becomes `t`. */
  function ReplaceChar(s: string, c: char, t: string): (r: string)
    ensures c !in t ==> c !in r
    ensures c !in s ==> r == s
  {
    if s == [] then []
    else (if s[0] == c then t else [s[0]]) + ReplaceChar(s[1..], c, t)
  }

  /** `sep.join(parts)`. */
  function Join(parts: seq<string>, sep: string): string {
    if parts == [] then ""
    else if |parts| == 1 then parts[0]
    else parts[0] + sep + Join(parts[1..], sep)
  }

  /** `s.split(c)[0]`: the part of `s` before the first `c` (all of `s` without one). */
  function BeforeFirst(s: string, c: char): (r: string)
    ensures StartsWith(s, r)
    ensures c !in r
    ensures |r| < |s| ==> s[|r|] == c
  {
    if s == [] then []
    else if s[0] == c then []
    else [s[0]] + BeforeFirst(s[1..], c)
  }
}
