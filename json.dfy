/**
 * The JSON-shaped values that the ledger's `to_dict`/`from_dict` methods
 * produce and consume: Python dictionaries keyed by strings, lists, numbers,
 * strings and `None`. The textual JSON encoding itself is not modelled; the
 * hash and signature functions are applied to these values directly.
 */
module Json {

  datatype Value =
    | Null
    | Bool(b: bool)
    | Int(i: int)
    | Real(r: real)
    | Str(s: string)
    | Arr(items: seq<Value>)
    | Obj(fields: map<string, Value>)

  /** Why decoding a dictionary failed: Python raises KeyError or later a TypeError. */
  datatype DecodeError =
    | NotAnObject
    | MissingKey(key: string)
    | WrongType(key: string)
}

/** Reading the fields of a decoded dictionary, as `data[key]` and `data.get(key, default)` do. */
module JsonFields {
  import opened Wrappers
  import opened Json

  /** `data[key]` where the value must be a string. */
  function RequireStr(f: map<string, Value>, key: string): (r: Result<string, DecodeError>)
    ensures r.Ok? <==> key in f && f[key].Str?
    ensures r.Ok? ==> f[key] == Str(r.value)
  {
    if key !in f then Err(MissingKey(key))
    else if f[key].Str? then Ok(f[key].s)
    else Err(WrongType(key))
  }

  /** `data[key]` where the value must be a list. */
  function RequireArr(f: map<string, Value>, key: string): (r: Result<seq<Value>, DecodeError>)
    ensures r.Ok? <==> key in f && f[key].Arr?
    ensures r.Ok? ==> f[key] == Arr(r.value)
  {
    if key !in f then Err(MissingKey(key))
    else if f[key].Arr? then Ok(f[key].items)
    else Err(WrongType(key))
  }

  /** `data[key]` where the value must be an integer. */
  function RequireInt(f: map<string, Value>, key: string): (r: Result<int, DecodeError>)
    ensures r.Ok? <==> key in f && f[key].Int?
    ensures r.Ok? ==> f[key] == Int(r.value)
  {
    if key !in f then Err(MissingKey(key))
    else if f[key].Int? then Ok(f[key].i)
    else Err(WrongType(key))
  }

  /** `data.get(key, default)` where a present value must be an integer. */
  function IntOr(f: map<string, Value>, key: string, default: int): (r: Result<int, DecodeError>)
    ensures key !in f ==> r == Ok(default)
    ensures key in f ==> (r.Ok? <==> f[key].Int?) && (r.Ok? ==> f[key] == Int(r.value))
  {
    if key !in f then Ok(default)
    else if f[key].Int? then Ok(f[key].i)
    else Err(WrongType(key))
  }

  /** A string-or-None value: `null` reads as None. */
  function StrOrNone(v: Value, key: string): (r: Result<Option<string>, DecodeError>)
    ensures r == Ok(None) <==> v == Null
    ensures r.Ok? && r.value.Some? <==> v.Str?
    ensures v.Str? ==> r == Ok(Some(v.s))
  {
    match v
    case Null => Ok(None)
    case Str(s) => Ok(Some(s))
    case _ => Err(WrongType(key))
  }

  /** `data.get(key)`: a missing key and `null` both read as None. */
  function GetStr(f: map<string, Value>, key: string): (r: Result<Option<string>, DecodeError>)
    ensures key !in f ==> r == Ok(None)
    ensures key in f ==> r == StrOrNone(f[key], key)
  {
    if key !in f then Ok(None) else StrOrNone(f[key], key)
  }

  /** `data.get(key)` for a number: a missing key and `null` read as None, integers are widened. */
  function GetNumber(f: map<string, Value>, key: string): (r: Result<Option<real>, DecodeError>)
    ensures key !in f ==> r == Ok(None)
    ensures key in f && f[key] == Null ==> r == Ok(None)
    ensures key in f && f[key].Real? ==> r == Ok(Some(f[key].r))
    ensures key in f && f[key].Int? ==> r == Ok(Some(f[key].i as real))
    ensures r.Ok? ==> key !in f || f[key] == Null || f[key].Real? || f[key].Int?
  {
    if key !in f then Ok(None)
    else match f[key]
      case Null => Ok(None)
      case Int(i) => Ok(Some(i as real))
      case Real(x) => Ok(Some(x))
      case _ => Err(WrongType(key))
  }
}
