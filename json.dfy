/**
 * The decoded JSON tree (RFC 8259 values) that the feed client hands to the
 * mapper, as Moshi builds it: objects keep their members in document order,
 * arrays are lists, numbers are doubles.
 */
module Json {
  import opened Wrappers
  import opened Float64

  datatype Json =
    | JNull
    | JBool(b: bool)
    | JNumber(n: Double)
    | JString(s: string)
    | JArray(elems: seq<Json>)
    | JObject(members: seq<(string, Json)>)

  type Members = seq<(string, Json)>

  /**
   * `map[key]` on a decoded object: the value of the first member named
   * `key`, or `null` (`JNull`) when there is none. The decoder refuses
   * duplicate names, so the first member is the only one.
   */
  function Get(members: Members, key: string): Json
  {
    if members == [] then JNull
    else if members[0].0 == key then members[0].1
    else Get(members[1..], key)
  }

  /** `Get` finds the first member named `key`, and `null` when no member has that name. */
  lemma {:induction false} GetFindsFirst(members: Members, key: string, i: nat)
    requires i < |members| && members[i].0 == key
    requires forall j :: 0 <= j < i ==> members[j].0 != key
    ensures Get(members, key) == members[i].1
  {
    if i > 0 {
      GetFindsFirst(members[1..], key, i - 1);
    }
  }

  lemma {:induction false} GetAbsent(members: Members, key: string)
    requires forall i :: 0 <= i < |members| ==> members[i].0 != key
    ensures Get(members, key) == JNull
  {
    if members != [] {
      GetAbsent(members[1..], key);
    }
  }

  /** Follows `path` through nested objects; `null` as soon as a step is not an object. */
  function At(v: Json, path: seq<string>): Json
    decreases path
  {
    if path == [] then v
    else if v.JObject? then At(Get(v.members, path[0]), path[1..])
    else JNull
  }

  // Kotlin's unchecked casts on a decoded value.

  function AsString(v: Json): (r: Result<string>)
    ensures r.Success? <==> v.JString?
    ensures r.Success? ==> v == JString(r.value)
    ensures v == JNull ==> r == Failure(NullCast)
  {
    match v
    case JString(s) => Success(s)
    case JNull => Failure(NullCast)
    case _ => Failure(ClassCast)
  }

  function AsBoolean(v: Json): (r: Result<bool>)
    ensures r.Success? <==> v.JBool?
    ensures r.Success? ==> v == JBool(r.value)
    ensures v == JNull ==> r == Failure(NullCast)
  {
    match v
    case JBool(b) => Success(b)
    case JNull => Failure(NullCast)
    case _ => Failure(ClassCast)
  }

  function AsDouble(v: Json): (r: Result<Double>)
    ensures r.Success? <==> v.JNumber?
    ensures r.Success? ==> v == JNumber(r.value)
    ensures v == JNull ==> r == Failure(NullCast)
  {
    match v
    case JNumber(n) => Success(n)
    case JNull => Failure(NullCast)
    case _ => Failure(ClassCast)
  }

  function AsArray(v: Json): (r: Result<seq<Json>>)
    ensures r.Success? <==> v.JArray?
    ensures r.Success? ==> v == JArray(r.value)
    ensures v == JNull ==> r == Failure(NullCast)
  {
    match v
    case JArray(elems) => Success(elems)
    case JNull => Failure(NullCast)
    case _ => Failure(ClassCast)
  }

  function AsObject(v: Json): (r: Result<Members>)
    ensures r.Success? <==> v.JObject?
    ensures r.Success? ==> v == JObject(r.value)
    ensures v == JNull ==> r == Failure(NullCast)
  {
    match v
    case JObject(members) => Success(members)
    case JNull => Failure(NullCast)
    case _ => Failure(ClassCast)
  }
}
