/**
 * JSON values as Python's `json` module hands them over (objects keep their key
 * order), and the few Python operations on them the generators use, each with
 * the exception Python raises where it raises one.
 */
module Json {
  import opened Wrappers
  import opened Text

  /** A decoded JSON value. Objects keep their fields in insertion order; numbers are integers. */
  datatype Json =
    | Null
    | Bool(b: bool)
    | Int(i: int)
    | Str(s: string)
    | Arr(items: seq<Json>)
    | Obj(fields: seq<(string, Json)>)

  /** The exceptions a Python operation on a JSON value can raise. */
  datatype PyError = TypeError | KeyError | IndexError | AttributeError | ValueError(message: string)

  /** Python truthiness: `None`, `False`, `0` and empty strings, lists and dicts are false. */
  predicate Truthy(j: Json) {
    match j
    case Null => false
    case Bool(b) => b
    case Int(i) => i != 0
    case Str(s) => s != ""
    case Arr(items) => |items| > 0
    case Obj(fields) => |fields| > 0
  }

  /** The keys of an object, in order. */
  function Keys(fields: seq<(string, Json)>): (ks: seq<string>)
    ensures |ks| == |fields|
    decreases |fields|
  {
    if |fields| == 0 then [] else [fields[0].0] + Keys(fields[1..])
  }

  /** The value under `key`. */
  function Lookup(fields: seq<(string, Json)>, key: string): (r: Option<Json>)
    ensures r.Some? <==> key in Keys(fields)
    decreases |fields|
  {
    if |fields| == 0 then None
    else if fields[0].0 == key then Some(fields[0].1)
    else Lookup(fields[1..], key)
  }

  /** No key occurs twice, as in a Python dict. */
  predicate DistinctKeys(fields: seq<(string, Json)>) {
    forall i, j :: 0 <= i < j < |Keys(fields)| ==> Keys(fields)[i] != Keys(fields)[j]
  }

  /** `d[key] = value`: an existing key keeps its place, a new one goes last. */
  function Put(fields: seq<(string, Json)>, key: string, value: Json): (r: seq<(string, Json)>)
    ensures key in Keys(fields) ==> Keys(r) == Keys(fields)
    ensures key !in Keys(fields) ==> Keys(r) == Keys(fields) + [key]
    ensures Lookup(r, key) == Some(value)
    ensures forall other :: other != key ==> Lookup(r, other) == Lookup(fields, other)
    decreases |fields|
  {
    if |fields| == 0 then [(key, value)]
    else if fields[0].0 == key then
      var r := [(key, value)] + fields[1..];
      assert r[1..] == fields[1..];
      r
    else
      var rest := Put(fields[1..], key, value);
      var r := [fields[0]] + rest;
      assert r[1..] == rest;
      r
  }

  /** Dict assignment keeps the keys of an object distinct. */
  lemma PutKeepsDistinct(fields: seq<(string, Json)>, key: string, value: Json)
    requires DistinctKeys(fields)
    ensures DistinctKeys(Put(fields, key, value))
  {
    var ks := Keys(fields);
    if key !in ks {
      assert Keys(Put(fields, key, value)) == ks + [key];
    }
  }

  /** `key in container`: a key of a dict, an element of a list, a substring of a string. */
  function In(key: string, container: Json): (r: Result<bool, PyError>)
    ensures container.Obj? ==> r == Ok(key in Keys(container.fields))
    ensures !container.Obj? && !container.Arr? && !container.Str? ==> r == Err(TypeError)
  {
    match container
    case Obj(fields) => Ok(key in Keys(fields))
    case Arr(items) => Ok(Str(key) in items)
    case Str(s) => Ok(Contains(s, key))
    case _ => Err(TypeError)
  }

  /** `container[key]` with a string key: only a dict holding the key answers. */
  function GetItem(container: Json, key: string): (r: Result<Json, PyError>)
    ensures r.Ok? <==> container.Obj? && key in Keys(container.fields)
  {
    match container
    case Obj(fields) => if key in Keys(fields) then Ok(Lookup(fields, key).value) else Err(KeyError)
    case _ => Err(TypeError)
  }

  /** `container.get(key, default)`: only dicts have `get`. */
  function Get(container: Json, key: string, default: Json): (r: Result<Json, PyError>)
    ensures r.Ok? <==> container.Obj?
  {
    match container
    case Obj(fields) => Ok(Lookup(fields, key).GetOr(default))
    case _ => Err(AttributeError)
  }

  /** `container[0]`: the first element of a list, the first character of a string. */
  function First(container: Json): (r: Result<Json, PyError>)
    ensures container.Arr? && |container.items| > 0 ==> r == Ok(container.items[0])
    ensures r.Ok? ==> (container.Arr? || container.Str?) && Truthy(container)
  {
    match container
    case Arr(items) => if |items| > 0 then Ok(items[0]) else Err(IndexError)
    case Str(s) => if |s| > 0 then Ok(Str([s[0]])) else Err(IndexError)
    case Obj(_) => Err(KeyError)
    case _ => Err(TypeError)
  }

  /** `str(value)` for the scalar values. */
  function PyStr(j: Json): string {
    match j
    case Null => "None"
    case Bool(b) => if b then "True" else "False"
    case Int(i) => IntToString(i)
    case Str(s) => s
    case Arr(_) => "[...]"
    case Obj(_) => "{...}"
  }

  /** A list of strings as JSON. */
  function Strs(ss: seq<string>): (r: seq<Json>)
    ensures |r| == |ss| && forall k :: 0 <= k < |ss| ==> r[k] == Str(ss[k])
  {
    seq(|ss|, k requires 0 <= k < |ss| => Str(ss[k]))
  }
}
