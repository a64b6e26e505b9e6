/** The JSON value of the core (`serde_json::Value`) and the partial reads its callers make of it. */
module Json {
  import opened Basics

  /** An integer that the value type can hold: an `i64` or a `u64`. */
  type JsonInt = n: int | -0x8000_0000_0000_0000 <= n < 0x1_0000_0000_0000_0000

  datatype Json =
    | Null
    | Bool(b: bool)
    | Int(n: JsonInt)
    | Float
    | Str(s: string)
    | Arr(items: seq<Json>)
    | Obj(members: map<string, Json>)

  /** `value.get(key)` */
  function Get(v: Json, key: string): (r: Option<Json>)
    ensures r.Some? ==> r.value < v
  {
    if v.Obj? && key in v.members then Some(v.members[key]) else None
  }

  /** `value[key]`: null when there is no such member. */
  function Index(v: Json, key: string): Json {
    match Get(v, key)
    case Some(x) => x
    case None => Null
  }

  function AsStr(v: Json): Option<string> {
    if v.Str? then Some(v.s) else None
  }

  function AsU64(v: Json): Option<u64> {
    if v.Int? && v.n >= 0 then Some(v.n) else None
  }

  function AsArray(v: Json): Option<seq<Json>> {
    if v.Arr? then Some(v.items) else None
  }

  function GetStr(v: Json, key: string): Option<string> {
    var x :- Get(v, key);
    AsStr(x)
  }

  function GetU64(v: Json, key: string): Option<u64> {
    var x :- Get(v, key);
    AsU64(x)
  }

  function GetArray(v: Json, key: string): Option<seq<Json>> {
    var x :- Get(v, key);
    AsArray(x)
  }

  function GetOr(o: Option<string>, default: string): string {
    match o
    case Some(s) => s
    case None => default
  }
}
