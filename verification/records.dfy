/**
 * Loosely typed records, as the scrapers and the exporter handle them: every
 * item is a mapping from field names to JSON-like values, and the Python
 * exceptions that a malformed record provokes become `Failure` values.
 */
module Records {
  import opened Text

  datatype Value =
    | Null                          // Python None / JSON null
    | Str(s: string)
    | Num(n: int)
    | Arr(items: seq<Value>)        // Python list
    | Obj(fields: map<string, Value>)  // Python dict

  type Record = map<string, Value>

  /** The exceptions the modelled code can raise. */
  datatype Failure =
    | KeyError(key: string)
    | IndexError
    | TypeError
    | AttributeError                // a string method called on a value that is not a string
    | ValueError
    | StatusError(status: string)   // `raise Exception(resp)` on a non-OK write

  datatype Result<T> = Ok(value: T) | Err(error: Failure) {
    predicate IsFailure() { Err? }
    function PropagateFailure<U>(): Result<U>
      requires Err?
    {
      Err(error)
    }
    function Extract(): T
      requires Ok?
    {
      value
    }
  }

  /** The result of a step that returns nothing: it completed, or raised. */
  datatype Outcome = Pass | Fail(error: Failure)

  datatype Option<T> = None | Some(value: T)

  /** A non-empty sequence is its front followed by its last element. */
  lemma SplitLast<T>(xs: seq<T>)
    requires xs != []
    ensures xs == xs[..|xs| - 1] + [xs[|xs| - 1]]
  {
  }

  /** `xs[index]` with Python's indexing: a negative index counts from the end. */
  function PyIndex<T>(xs: seq<T>, index: int): (r: Result<T>)
    ensures r.Ok? <==> -|xs| <= index < |xs|
    ensures 0 <= index < |xs| ==> r == Ok(xs[index])
    ensures -|xs| <= index < 0 ==> r == Ok(xs[|xs| + index])
  {
    if 0 <= index < |xs| then Ok(xs[index])
    else if -|xs| <= index < 0 then Ok(xs[|xs| + index])
    else Err(IndexError)
  }

  /** `r.get(k)`: the value, or None when the key is absent. */
  function Get(r: Record, k: string): (v: Value)
    ensures k !in r ==> v == Null
    ensures k in r ==> v == r[k]
  {
    if k in r then r[k] else Null
  }

  /** Python truthiness of a value. */
  predicate Truthy(v: Value) {
    match v
    case Null => false
    case Str(s) => s != []
    case Num(n) => n != 0
    case Arr(xs) => xs != []
    case Obj(m) => m != map[]
  }

  /**
   * `"%s" % v`. Exact for None, strings and integers; lists and dicts are
   * rendered by a fixed placeholder (Python's repr of containers is not part of
   * this model).
   */
  function Show(v: Value): string {
    match v
    case Null => "None"
    case Str(s) => s
    case Num(n) => IntToString(n)
    case Arr(_) => "[...]"
    case Obj(_) => "{...}"
  }

  /** `d[k]` on a value that must be a dict. */
  function Field(v: Value, k: string): (r: Result<Value>)
    ensures r.Ok? <==> (v.Obj? && k in v.fields)
    ensures r.Ok? ==> r.value == v.fields[k]
  {
    match v
    case Obj(m) => if k in m then Ok(m[k]) else Err(KeyError(k))
    case _ => Err(TypeError)
  }

  /**
   * `v[0]`: the first element of a list, the first character of a string;
   * a dict decoded from JSON has no key 0, and None or a number cannot be
   * indexed.
   */
  function First(v: Value): (r: Result<Value>)
    ensures v.Arr? ==> (r.Ok? <==> v.items != [])
    ensures v.Arr? && r.Ok? ==> r.value == v.items[0]
    ensures (v.Null? || v.Num?) ==> r == Err(TypeError)
  {
    match v
    case Arr(xs) => if xs != [] then Ok(xs[0]) else Err(IndexError)
    case Str(s) => if s != [] then Ok(Str([s[0]])) else Err(IndexError)
    case Obj(_) => Err(KeyError("0"))
    case _ => Err(TypeError)
  }

  /** `r[k]` on a record. */
  function Lookup(r: Record, k: string): (res: Result<Value>)
    ensures res.Ok? <==> k in r
    ensures res.Ok? ==> res.value == r[k]
  {
    if k in r then Ok(r[k]) else Err(KeyError(k))
  }
}
