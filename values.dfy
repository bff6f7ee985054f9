/** The JSON-like Python values the modelled code passes around: service
    records, form answers, question content. */
module Values {

  import opened Results
  import opened Text

  datatype Value =
    | Null
    | Bool(b: bool)
    | Int(i: int)
    | Str(s: string)
    | List(items: seq<Value>)
    | Dict(entries: map<string, Value>)

  /** Python truthiness. */
  predicate Truthy(v: Value) {
    match v
    case Null => false
    case Bool(b) => b
    case Int(i) => i != 0
    case Str(s) => s != []
    case List(items) => items != []
    case Dict(entries) => entries != map[]
  }

  /** `str(i)` of an integer. */
  function IntToString(i: int): (r: string)
    ensures r != []
  {
    if i < 0 then "-" + NatToString(-i) else NatToString(i)
  }

  predicate IsAscii(s: string) {
    forall k :: 0 <= k < |s| ==> s[k] as int < 128
  }

  /** Python 2 `str(v)`.  Text that is not ASCII cannot be encoded; the
      rendering of a list or a dict is the parameter `repr`. */
  function PyStr(v: Value, repr: Value -> string): (r: Result<string>)
    ensures v.Str? && IsAscii(v.s) ==> r == Ok(v.s)
    ensures r.Raise? <==> v.Str? && !IsAscii(v.s)
  {
    match v
    case Null => Ok("None")
    case Bool(b) => Ok(if b then "True" else "False")
    case Int(i) => Ok(IntToString(i))
    case Str(s) => if IsAscii(s) then Ok(s) else Raise(UnicodeEncodeError)
    case List(_) => Ok(repr(v))
    case Dict(_) => Ok(repr(v))
  }

  /** `unicode(v)`: like `str(v)`, but text of any kind is returned as it
      is. */
  function PyUnicode(v: Value, repr: Value -> string): (r: string)
    ensures v.Str? ==> r == v.s
    ensures !v.Str? ==> PyStr(v, repr) == Ok(r)
  {
    match v
    case Str(s) => s
    case _ => PyStr(v, repr).value
  }

  /** `v[key]` with a text key: only a dictionary can be indexed by text. */
  function Getitem(v: Value, key: string): (r: Result<Value>)
    ensures r.Ok? <==> v.Dict? && key in v.entries
    ensures r.Ok? ==> r.value == v.entries[key]
    ensures r.Raise? ==> r.error == (if v.Dict? then KeyError(key) else TypeError)
  {
    match v
    case Dict(entries) => if key in entries then Ok(entries[key]) else Raise(KeyError(key))
    case _ => Raise(TypeError)
  }

  /** `key in v` with a text key: a key of a dictionary, an item of a list,
      a part of a text; other values cannot be searched. */
  function PyIn(key: string, v: Value): (r: Result<bool>)
    ensures r.Raise? <==> !(v.Dict? || v.List? || v.Str?)
    ensures v.Dict? ==> r == Ok(key in v.entries)
    ensures v.List? ==> r == Ok(Str(key) in v.items)
  {
    match v
    case Dict(entries) => Ok(key in entries)
    case List(items) => Ok(Str(key) in items)
    case Str(s) => Ok(Contains(s, key))
    case _ => Raise(TypeError)
  }

  /** Texts as values. */
  function Strs(values: seq<string>): (r: seq<Value>)
    ensures |r| == |values| && forall k :: 0 <= k < |r| ==> r[k] == Str(values[k])
  {
    if values == [] then [] else [Str(values[0])] + Strs(values[1..])
  }
}
