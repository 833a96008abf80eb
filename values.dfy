/** Values shared by every part of the authentication core: optional values,
    the PHP values that travel through request payloads and JSON envelopes,
    and a first-match search over a table of rows. */
module Values {

  /** PHP's `null` next to a value of type T. */
  datatype Option<+T> = None | Some(value: T) {
    /** The contained value, or `default` for None (PHP's `??`). */
    function GetOr(default: T): T {
      if Some? then value else default
    }
  }

  /** A byte, as returned by `random_bytes`. */
  type byte = b: int | 0 <= b < 256

  /** A PHP value as it appears in a request payload, a decoded claim set or a
      response body. A PHP list is `List`, an array with string keys is `Dict`
      (entries in insertion order), and `(object)[]` / `new \stdClass()` is
      `EmptyObject`, which JSON-encodes as `{}`. Floats are not modelled. */
  datatype Value =
    | Null
    | Bool(b: bool)
    | Int(i: int)
    | Str(s: string)
    | List(items: seq<Value>)
    | Dict(entries: seq<(string, Value)>)
    | EmptyObject

  /** `$array[$key] ?? null` for a payload read as a dictionary. */
  function Field(payload: map<string, Value>, key: string): Value {
    if key in payload then payload[key] else Null
  }

  /** Index of the first row that satisfies `p`, as the first row a
      `->where(...)->first()` query returns when rows come back in table order. */
  function FirstIndex<T>(rows: seq<T>, p: T -> bool): (r: Option<nat>)
    ensures r.Some? ==> r.value < |rows| && p(rows[r.value])
    ensures r.Some? ==> forall j :: 0 <= j < r.value ==> !p(rows[j])
    ensures r.None? <==> forall j :: 0 <= j < |rows| ==> !p(rows[j])
  {
    if |rows| == 0 then None
    else if p(rows[0]) then Some(0)
    else match FirstIndex(rows[1..], p)
      case None => None
      case Some(k) => Some(k + 1)
  }
}
