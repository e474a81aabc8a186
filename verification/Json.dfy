/** JSON values as Python's `json` module delivers them, and the built-ins the code applies to them. */
module Json {
  import opened Prelude

  datatype Json =
    | JNull
    | JBool(b: bool)
    | JNum(n: real)
    | JStr(s: string)
    | JArr(items: seq<Json>)
    | JObj(fields: map<string, Json>)

  /** Python built-ins whose result on unusual JSON values is left open: `str(x)` of a non-string
      and `int(s)` of a string. */
  datatype Platform = Platform(render: Json -> string, parseInt: string -> Option<int>)

  /** Python truth value. */
  predicate Truthy(j: Json) {
    match j
    case JNull => false
    case JBool(b) => b
    case JNum(n) => n != 0.0
    case JStr(s) => s != ""
    case JArr(items) => items != []
    case JObj(fields) => fields != map[]
  }

  /** `d.get(key)`. */
  function Get(d: map<string, Json>, key: string): Json {
    if key in d then d[key] else JNull
  }

  /** `str(x)`. */
  function Str(py: Platform, j: Json): string {
    if j.JStr? then j.s else py.render(j)
  }

  /** `str(x or "")`. */
  function StrOrEmpty(py: Platform, j: Json): string {
    if Truthy(j) then Str(py, j) else ""
  }

  function Truncate(r: real): int {
    if r >= 0.0 then r.Floor else -((-r).Floor)
  }

  /** `int(x or 0)`; `None` when Python raises. */
  function IntOrZero(py: Platform, j: Json): Option<int> {
    if !Truthy(j) then Some(0)
    else
      match j
      case JBool(b) => Some(1)
      case JNum(n) => Some(Truncate(n))
      case JStr(s) => py.parseInt(s)
      case _ => None
  }

  function Number(j: Json): Option<real> {
    match j
    case JBool(b) => Some(if b then 1.0 else 0.0)
    case JNum(n) => Some(n)
    case _ => None
  }

  /** `a == b`: booleans compare as numbers (only at the top level here). */
  predicate PyEq(a: Json, b: Json) {
    if Number(a).Some? && Number(b).Some? then Number(a) == Number(b) else a == b
  }

  /** The members `for item in (x or [])` visits; `None` when Python raises. */
  function Iterate(j: Json): Option<set<Json>> {
    if !Truthy(j) then Some({})
    else
      match j
      case JStr(s) => Some(set i | 0 <= i < |s| :: JStr([s[i]]))
      case JArr(items) => Some(set x | x in items)
      case JObj(fields) => Some(set k | k in fields :: JStr(k))
      case _ => None
  }

  // ----- What the built-ins come to -----

  /** What Python counts as false. */
  lemma FalsyIs(j: Json)
    ensures !Truthy(j) <==>
              j == JNull || j == JBool(false) || j == JNum(0.0) || j == JStr("") || j == JArr([]) || j == JObj(map[])
  {
  }

  /** `int` drops the fraction: it rounds toward zero. */
  lemma TruncateIs(r: real)
    ensures r >= 0.0 ==> 0.0 <= Truncate(r) as real <= r < Truncate(r) as real + 1.0
    ensures r <= 0.0 ==> 0.0 >= Truncate(r) as real >= r > Truncate(r) as real - 1.0
  {
  }

  /** Booleans behave as the numbers 0 and 1. */
  lemma BooleansAreNumbers(py: Platform, b: bool, j: Json)
    ensures var n := JNum(if b then 1.0 else 0.0);
            && (Truthy(JBool(b)) <==> Truthy(n)) && IntOrZero(py, JBool(b)) == IntOrZero(py, n)
            && (PyEq(JBool(b), j) <==> PyEq(n, j)) && PyEq(JBool(b), n)
  {
    assert (1.0).Floor == 1;
  }

  /** What a loop over a value visits: the characters, the items or the keys; a true scalar cannot be looped over. */
  lemma IterateIs(j: Json, x: Json)
    ensures Iterate(j).None? <==> j == JBool(true) || (j.JNum? && j.n != 0.0)
    ensures Iterate(j).Some? && x in Iterate(j).value <==>
              || (j.JStr? && x.JStr? && |x.s| == 1 && x.s[0] in j.s)
              || (j.JArr? && x in j.items)
              || (j.JObj? && x.JStr? && x.s in j.fields)
  {
    match j {
      case JStr(s) =>
        if x.JStr? && |x.s| == 1 && x.s[0] in s {
          var i :| 0 <= i < |s| && s[i] == x.s[0];
          assert x == JStr([s[i]]);
        }
      case _ =>
    }
  }
}
