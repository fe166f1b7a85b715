/**
 * The part of nlohmann::json the core depends on: a JSON value, key lookup on
 * objects, and the checked conversions `get<int>`, `get<long long>` and
 * `get<std::string>`. Objects are std::map-backed in nlohmann::json, so an
 * object is a finite map from keys to values. Floating-point numbers are not
 * part of the model; an integer carries the value nlohmann stores.
 */
module JsonModel {
  import opened Ints
  import opened Wrappers

  datatype Json =
    | JNull
    | JBool(b: bool)
    | JInt(n: int)
    | JStr(s: string)
    | JArr(items: seq<Json>)
    | JObj(fields: map<string, Json>)

  /** nlohmann::json::type_error (code 302, "type must be ..."). */
  datatype JsonError = TypeError

  /** json::contains: false for anything that is not an object. */
  predicate Contains(j: Json, key: string) {
    j.JObj? && key in j.fields
  }

  /** The guard `j.contains(key) && !j[key].is_null()` used for every optional task field. */
  predicate HasValue(j: Json, key: string) {
    Contains(j, key) && !j.fields[key].JNull?
  }

  /** get<int>: numbers and booleans convert (narrowed to 32 bits), everything else is a type error. */
  function GetInt(j: Json): (r: Result<Int32, JsonError>)
    ensures r.Ok? <==> j.JInt? || j.JBool?
    ensures j.JInt? && -Two31 <= j.n < Two31 ==> r == Ok(j.n)
  {
    match j
    case JInt(n) => Ok(WrapInt32(n))
    case JBool(b) => Ok(if b then 1 else 0)
    case _ => Err(TypeError)
  }

  /** get<long long>: numbers and booleans convert (narrowed to 64 bits), everything else is a type error. */
  function GetInt64(j: Json): (r: Result<Int64, JsonError>)
    ensures r.Ok? <==> j.JInt? || j.JBool?
    ensures j.JInt? && -Two63 <= j.n < Two63 ==> r == Ok(j.n)
  {
    match j
    case JInt(n) => Ok(WrapInt64(n))
    case JBool(b) => Ok(if b then 1 else 0)
    case _ => Err(TypeError)
  }

  /** get<std::string> (and the implicit conversion to std::string): only strings convert. */
  function GetString(j: Json): (r: Result<string, JsonError>)
    ensures r.Ok? <==> j.JStr?
    ensures j.JStr? ==> r == Ok(j.s)
  {
    match j
    case JStr(s) => Ok(s)
    case _ => Err(TypeError)
  }
}
