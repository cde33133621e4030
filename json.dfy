/**
 * The JSON values the callback inspects, and the way the JSON library's
 * mutable accessors behave on them. A `None` result means the library throws.
 */
module Json {
  import opened Wrappers

  /** A parsed JSON value. Object fields are kept in the container's iteration order. */
  datatype Json =
    | Null
    | Bool(b: bool)
    | Num(n: int)
    | Str(s: string)
    | Arr(items: seq<Json>)
    | Obj(fields: seq<(string, Json)>)

  /** The value stored under `key`: the first field with that key. */
  function Lookup(fields: seq<(string, Json)>, key: string): Option<Json> {
    if fields == [] then None
    else if fields[0].0 == key then Some(fields[0].1)
    else Lookup(fields[1..], key)
  }

  /** Plain lookup without any conversion: the field `key` of an object, nothing otherwise. */
  function Get(j: Json, key: string): Option<Json> {
    if j.Obj? then Lookup(j.fields, key) else None
  }

  /** `j.contains(key)`: false for anything that is not an object. */
  predicate Contains(j: Json, key: string) {
    Get(j, key).Some?
  }

  /**
   * `j[key]` on a mutable value: a null becomes an empty object, a missing key
   * reads as null, and any other kind of value throws.
   */
  function Member(j: Json, key: string): Option<Json> {
    match j
    case Null => Some(Null)
    case Obj(fields) => Some(match Lookup(fields, key) case Some(v) => v case None => Null)
    case _ => None
  }

  /**
   * `j[0]` on a mutable value: a null becomes an array, an empty array is
   * grown with a null, and any other kind of value throws.
   */
  function At0(j: Json): Option<Json> {
    match j
    case Null => Some(Null)
    case Arr(items) => Some(if items == [] then Null else items[0])
    case _ => None
  }

  /** Conversion to a string: throws unless the value is a string. */
  function AsString(j: Json): Option<string> {
    if j.Str? then Some(j.s) else None
  }

  /** What a range-for over the value visits: array items, object values, nothing for null, the value itself otherwise. */
  function Elements(j: Json): seq<Json> {
    match j
    case Null => []
    case Arr(items) => items
    case Obj(fields) => seq(|fields|, i requires 0 <= i < |fields| => fields[i].1)
    case _ => [j]
  }

  /** `j == NULL`: NULL is an integer constant, so this compares with the number 0. */
  predicate IsIntZero(j: Json) {
    j == Num(0)
  }
}
