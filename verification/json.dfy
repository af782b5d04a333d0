/**
 * JSON values as the client sees them: the subset of QJsonValue the protocol
 * uses (strings, booleans and nested objects), and QJsonValue's total
 * accessors toString() and toBool(), which fall back to a default when the
 * key is absent or the value has another kind.
 */
module Json {

  datatype Option<+T> = None | Some(value: T)

  datatype Value =
    | JString(str: string)
    | JBool(b: bool)
    | JObject(fields: map<string, Value>)

  /** A QJsonObject: string keys, one value per key. */
  type Object = map<string, Value>

  /** The value of data[key].toString(): the string stored there, or "" otherwise. */
  function StringAt(data: Object, key: string): (s: string)
    ensures ReadsString(data, key, s)
  {
    if key in data && data[key].JString? then data[key].str else ""
  }

  /** The value of data[key].toBool(): the boolean stored there, or false otherwise. */
  function BoolAt(data: Object, key: string): (v: bool)
    ensures ReadsBool(data, key, v)
  {
    key in data && data[key].JBool? && data[key].b
  }

  /**
   * Reading `key` as a string yields `s`: either the key holds exactly the
   * string s, or it holds no string at all and s is the default "".
   */
  ghost predicate ReadsString(data: Object, key: string, s: string)
  {
    || (key in data && data[key] == JString(s))
    || (s == "" && (key !in data || !data[key].JString?))
  }

  /** Reading `key` as a boolean yields `v`: either the key holds exactly v, or no boolean and v is false. */
  ghost predicate ReadsBool(data: Object, key: string, v: bool)
  {
    || (key in data && data[key] == JBool(v))
    || (!v && (key !in data || !data[key].JBool?))
  }

  /** The entries of `data` whose keys lie in `keys`. */
  function Restrict(data: Object, keys: set<string>): (r: Object)
    ensures r.Keys == data.Keys * keys
    ensures forall k :: k in r ==> r[k] == data[k]
  {
    map k | k in data && k in keys :: data[k]
  }

  /** A key reads as at most one string, so the accessor's result is the only one. */
  lemma ReadsStringUnique(data: Object, key: string, s: string, t: string)
    requires ReadsString(data, key, s) && ReadsString(data, key, t)
    ensures s == t
  {
  }

  /** A key reads as at most one boolean. */
  lemma ReadsBoolUnique(data: Object, key: string, v: bool, w: bool)
    requires ReadsBool(data, key, v) && ReadsBool(data, key, w)
    ensures v == w
  {
  }
}
