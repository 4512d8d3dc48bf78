/**
 * The values the voice bot handles: Python literals produced by the literal
 * decoder, JSON documents returned by the workflow endpoint, and the Python
 * exceptions that the reply handler lets escape.
 */
module Values {

  datatype Option<+T> = None | Some(value: T)

  /** A Python literal value, as `ast.literal_eval` can produce it. A complex
      number keeps its real and imaginary parts. */
  datatype Value =
    | PyNone
    | PyBool(truth: bool)
    | PyInt(i: int)
    | PyFloat(r: real)
    | PyComplex(re: real, im: real)
    | PyStr(s: string)
    | PyBytes(bytes: seq<bv8>)
    | PyEllipsis
    | PyList(elems: seq<Value>)
    | PyTuple(parts: seq<Value>)
    | PySet(members: seq<Value>)
    | PyDict(entries: seq<(Value, Value)>)

  /** A decoded JSON document; objects keep the last value of a repeated key, as Python's decoder does. */
  datatype Json =
    | JNull
    | JBool(b: bool)
    | JNumber(n: real)
    | JString(str: string)
    | JArray(items: seq<Json>)
    | JObject(fields: map<string, Json>)

  /** The Python exceptions a lookup on a decoded JSON document can raise. */
  datatype PyError = TypeError | KeyError | IndexError | AttributeError

  /** The result of a Python expression: a value, or the exception it raised. */
  datatype Outcome<+T> = Ok(value: T) | Raised(error: PyError) {

    predicate IsFailure() {
      Raised?
    }

    function PropagateFailure<U>(): Outcome<U>
      requires Raised?
    {
      Raised(error)
    }

    function Extract(): T
      requires Ok?
    {
      value
    }
  }
}
