/** JSON values as `json.load` produces them, and the handful of Python
    operations the extractors apply to them: `key in v`, `v[key]`,
    `v.get(key, default)`, iteration (`for x in v`, `list.extend(v)`) and
    truthiness (`if not v`). */
module Json {
  import opened Prelude

  /** A JSON value. Objects are association lists in insertion order, with
      distinct keys as in every Python dict. Numbers carry an integer: no
      modelled operation treats a float differently from an int. */
  datatype Json =
    | JNull
    | JBool(b: bool)
    | JNum(n: int)
    | JStr(s: string)
    | JArr(items: seq<Json>)
    | JObj(fields: seq<(string, Json)>)

  /** The value stored under `key`, if any. */
  function Lookup(fields: seq<(string, Json)>, key: string): (r: Option<Json>)
    ensures r.Some? <==> exists i :: 0 <= i < |fields| && fields[i].0 == key
    ensures r.Some? ==> (key, r.value) in fields
  {
    if |fields| == 0 then None
    else if fields[0].0 == key then Some(fields[0].1)
    else Lookup(fields[1..], key)
  }

  /** `haystack` contains `needle` as a contiguous piece (Python's `needle in haystack` on strings). */
  predicate IsSubstring(needle: string, haystack: string)
    decreases |haystack|
  {
    (|needle| <= |haystack| && haystack[..|needle|] == needle)
    || (|haystack| > 0 && IsSubstring(needle, haystack[1..]))
  }

  /** Python's `key in v` for a string `key`: key membership for a dict,
      element equality for a list, substring test for a str; a TypeError
      for null, booleans and numbers. */
  function In(key: string, v: Json): (r: Py<bool>)
    ensures r.Raises? <==> !(v.JObj? || v.JArr? || v.JStr?)
    ensures v.JObj? ==> r == Returns(Lookup(v.fields, key).Some?)
  {
    match v
    case JObj(fields) => Returns(Lookup(fields, key).Some?)
    case JArr(items) => Returns(JStr(key) in items)
    case JStr(s) => Returns(IsSubstring(key, s))
    case _ => Raises
  }

  /** Python's `v[key]` for a string `key`: only a dict holding `key` answers;
      a missing key is a KeyError and any other value a TypeError. */
  function Subscript(v: Json, key: string): (r: Py<Json>)
    ensures r.Returns? <==> v.JObj? && Lookup(v.fields, key).Some?
  {
    if v.JObj? then
      match Lookup(v.fields, key)
      case Some(x) => Returns(x)
      case None => Raises
    else Raises
  }

  /** Python's `v.get(key, default)`: defined on dicts only (anything else
      has no attribute `get`). */
  function Get(v: Json, key: string, default: Json): (r: Py<Json>)
    ensures r.Returns? <==> v.JObj?
  {
    if v.JObj? then
      match Lookup(v.fields, key)
      case Some(x) => Returns(x)
      case None => Returns(default)
    else Raises
  }

  /** One single-character string per character of `s`: what iterating a str yields. */
  function CharItems(s: string): (r: seq<Json>)
    ensures |r| == |s|
    ensures forall i :: 0 <= i < |s| ==> r[i] == JStr([s[i]])
  {
    if |s| == 0 then [] else [JStr([s[0]])] + CharItems(s[1..])
  }

  /** The keys of a dict, in order, as JSON strings. */
  function KeyItems(fields: seq<(string, Json)>): (r: seq<Json>)
    ensures |r| == |fields|
    ensures forall i :: 0 <= i < |fields| ==> r[i] == JStr(fields[i].0)
  {
    if |fields| == 0 then [] else [JStr(fields[0].0)] + KeyItems(fields[1..])
  }

  /** What `for x in v` yields: the elements of a list, the characters of a
      str, the keys of a dict; null, booleans and numbers are not iterable. */
  function Iterate(v: Json): (r: Py<seq<Json>>)
    ensures r.Raises? <==> !(v.JObj? || v.JArr? || v.JStr?)
  {
    match v
    case JArr(items) => Returns(items)
    case JStr(s) => Returns(CharItems(s))
    case JObj(fields) => Returns(KeyItems(fields))
    case _ => Raises
  }

  /** Python's truthiness of a loaded JSON value. */
  predicate Truthy(v: Json) {
    match v
    case JNull => false
    case JBool(b) => b
    case JNum(n) => n != 0
    case JStr(s) => |s| > 0
    case JArr(items) => |items| > 0
    case JObj(fields) => |fields| > 0
  }
}
