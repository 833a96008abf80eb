/** The uniform JSON envelope every endpoint answers with
    (app/Traits/ApiResponseTrait.php): success is
    `{status: "success", data, message: null}`, failure is
    `{status: "error", data: null, message, errors}`, and 204 carries no body. */
module ApiResponse {
  import opened Values
  import opened Text

  /** The JSON body. `message: None` is JSON null; `errors: None` means the key is absent. */
  datatype Payload = Payload(status: string, data: Value, message: Option<string>, errors: Option<Value>)

  /** An HTTP response: status code and optional JSON body. */
  datatype Response = Response(code: int, body: Option<Payload>)

  /** A caught PHP Throwable: its class name and its trace text. */
  datatype Exception = Exception(className: string, trace: string)

  const OK := 200
  const CREATED := 201
  const NO_CONTENT := 204
  const UNAUTHORIZED := 401
  const FORBIDDEN := 403
  const CONFLICT := 409
  const UNPROCESSABLE := 422
  const SERVER_ERROR := 500

  /** Longest trace text a development-mode server error carries. */
  const TRACE_LIMIT := 4000

  predicate IsSuccessCode(code: int) {
    200 <= code < 300
  }

  /** The envelope's invariant: 204 has no body; otherwise the status word
      follows the code, a success carries data and neither message nor errors,
      and an error carries null data, a message and an `errors` object that is
      never an empty array. */
  predicate WellFormed(r: Response) {
    match r.body
    case None => r.code == NO_CONTENT
    case Some(p) =>
      && r.code != NO_CONTENT
      && (p.status == "success" || p.status == "error")
      && (p.status == "success" <==> IsSuccessCode(r.code))
      && (IsSuccessCode(r.code) ==> p.message.None? && p.errors.None? && p.data != Null)
      && (!IsSuccessCode(r.code) ==>
            && p.data == Null && p.message.Some? && p.errors.Some?
            && (p.errors.value == EmptyObject || (p.errors.value.Dict? && p.errors.value.entries != [])))
  }

  /** `apiRespond($data, $httpCode, $message, $errors)`. */
  function ApiRespond(data: Value, code: int, message: Option<string>, errors: seq<(string, Value)>): (r: Response)
    ensures r.code == code && WellFormed(r)
    ensures r.body.Some? && IsSuccessCode(code) ==>
              r.body.value.data == (if data == Null then EmptyObject else data)
    ensures r.body.Some? && !IsSuccessCode(code) ==>
              && r.body.value.message == Some(message.GetOr("Error"))
              && r.body.value.errors == Some(if errors == [] then EmptyObject else Dict(errors))
  {
    if code == NO_CONTENT then Response(code, None)
    else if IsSuccessCode(code) then
      Response(code, Some(Payload("success", if data == Null then EmptyObject else data, None, None)))
    else
      Response(code, Some(Payload("error", Null, Some(message.GetOr("Error")),
                                  Some(if errors == [] then EmptyObject else Dict(errors)))))
  }

  /** `success($data, $message)`: 200 with the given array as data; the message is dropped. */
  function Success(data: seq<(string, Value)>, message: Option<string>): (r: Response)
    ensures r.code == OK && WellFormed(r)
    ensures r.body.Some? && r.body.value.data == Dict(data) && r.body.value.message.None?
  {
    ApiRespond(Dict(data), OK, message, [])
  }

  /** `noContent()`: a bare 204. */
  function NoContent(): (r: Response)
    ensures r.code == NO_CONTENT && r.body.None? && WellFormed(r)
  {
    Response(NO_CONTENT, None)
  }

  /** `error($message, $httpCode, $errors)`. */
  function Error(message: string, code: int, errors: seq<(string, Value)>): (r: Response)
    ensures r.code == code && WellFormed(r)
    ensures code == NO_CONTENT <==> r.body.None?
    ensures r.body.Some? && !IsSuccessCode(code) ==>
              && r.body.value.message == Some(message)
              && r.body.value.errors == Some(if errors == [] then EmptyObject else Dict(errors))
  {
    ApiRespond(Null, code, Some(message), errors)
  }

  /** `unauthorized($message)`: 401 with the message and `errors: {}`. */
  function Unauthorized(message: string): (r: Response)
    ensures r.code == UNAUTHORIZED && WellFormed(r)
    ensures r.body == Some(Payload("error", Null, Some(message), Some(EmptyObject)))
  {
    ApiRespond(Null, UNAUTHORIZED, Some(message), [])
  }

  /** `forbidden($message)`: 403 with the message and `errors: {}`. */
  function Forbidden(message: string): (r: Response)
    ensures r.code == FORBIDDEN && WellFormed(r)
    ensures r.body == Some(Payload("error", Null, Some(message), Some(EmptyObject)))
  {
    ApiRespond(Null, FORBIDDEN, Some(message), [])
  }

  /** `serverError($message, $exception)` under the application environment
      `environment`: the exception's class and at most 4000 characters of
      its trace are exposed only in development. */
  function ServerError(message: string, exception: Option<Exception>, environment: string): (r: Response)
    ensures r.code == SERVER_ERROR && WellFormed(r)
    ensures r.body.Some? && r.body.value.message == Some(message)
    ensures !(environment == "development" && exception.Some?) ==> r.body.value.errors == Some(EmptyObject)
    ensures environment == "development" && exception.Some? ==>
              var trace := exception.value.trace;
              var shown := if |trace| <= TRACE_LIMIT then trace else trace[..TRACE_LIMIT];
              && |shown| <= TRACE_LIMIT && shown <= trace
              && r.body.value.errors == Some(Dict([("exception", Str(exception.value.className)), ("trace", Str(shown))]))
  {
    var errors :=
      if environment == "development" && exception.Some? then
        var trace := exception.value.trace;
        [("exception", Str(exception.value.className)),
         ("trace", Str(if |trace| <= TRACE_LIMIT then trace else trace[..TRACE_LIMIT]))]
      else [];
    ApiRespond(Null, SERVER_ERROR, Some(message), errors)
  }

  // ---------------------------------------------------------------------
  // validationError: per-field normalisation
  // ---------------------------------------------------------------------

  /** `array_values(array_filter($items, fn($v) => is_string($v) && $v !== ''))`. */
  function NonEmptyStrings(items: seq<Value>): (r: seq<string>)
    ensures forall k :: 0 <= k < |r| ==> r[k] != "" && Str(r[k]) in items
    ensures forall v :: v in items && v.Str? && v.s != "" ==> v.s in r
    ensures |r| <= |items|
    ensures items == [] ==> r == []
    ensures |items| == 1 ==> r == if items[0].Str? && items[0].s != "" then [items[0].s] else []
  {
    if items == [] then []
    else
      var rest := NonEmptyStrings(items[1..]);
      if items[0].Str? && items[0].s != "" then [items[0].s] + rest else rest
  }

  /** Filtering distributes over concatenation: with the one-element cases
      above, the result keeps every non-empty string, in order, as often as
      it occurs, and nothing else. */
  lemma {:induction false} NonEmptyStringsAppend(a: seq<Value>, b: seq<Value>)
    ensures NonEmptyStrings(a + b) == NonEmptyStrings(a) + NonEmptyStrings(b)
  {
    if a == [] {
      assert a + b == b;
    } else {
      assert (a + b)[0] == a[0];
      assert (a + b)[1..] == a[1..] + b;
      NonEmptyStringsAppend(a[1..], b);
    }
  }

  /** A list already made of non-empty strings is kept whole. */
  lemma {:induction false} NonEmptyStringsOfStrings(items: seq<Value>)
    requires forall k :: 0 <= k < |items| ==> items[k].Str? && items[k].s != ""
    ensures |NonEmptyStrings(items)| == |items|
    ensures forall k :: 0 <= k < |items| ==> NonEmptyStrings(items)[k] == items[k].s
  {
    if items != [] {
      NonEmptyStringsOfStrings(items[1..]);
    }
  }

  /** The values of a PHP array with string keys, in order. */
  function DictValues(entries: seq<(string, Value)>): (r: seq<Value>)
    ensures |r| == |entries| && forall k :: 0 <= k < |r| ==> r[k] == entries[k].1
  {
    if entries == [] then [] else [entries[0].1] + DictValues(entries[1..])
  }

  /** A filtered list collapses to its only element, or stays a list. */
  function Collapse(list: seq<string>): (r: Value)
    ensures |list| == 1 ==> r == Str(list[0])
    ensures |list| != 1 ==> r.List? && |r.items| == |list|
    ensures r.List? ==> forall k :: 0 <= k < |r.items| ==> r.items[k] == Str(list[k])
  {
    if |list| == 1 then Str(list[0]) else List(seq(|list|, k requires 0 <= k < |list| => Str(list[k])))
  }

  /** The normalised message(s) of one field; None when the cast throws. */
  function NormalizeField(err: Value): (r: Option<Value>)
    ensures err.Str? ==> r == Some(err)
    ensures (err.List? || err.Dict?) ==> r.Some? && (r.value.Str? || r.value.List?)
    ensures (err.List? || err.Dict?) && r.value.Str? ==> r.value.s != ""
    ensures (err.List? || err.Dict?) && r.value.List? ==>
              |r.value.items| != 1 && forall k :: 0 <= k < |r.value.items| ==> r.value.items[k].Str? && r.value.items[k].s != ""
    ensures err.List? ==> r == Some(Collapse(NonEmptyStrings(err.items)))
    ensures err.Dict? ==> r == Some(Collapse(NonEmptyStrings(DictValues(err.entries))))
    ensures !(err.Str? || err.List? || err.Dict?) ==> r == (match StringCast(err) case None => None case Some(s) => Some(Str(s)))
  {
    match err
    case Str(_) => Some(err)
    case List(items) => Some(Collapse(NonEmptyStrings(items)))
    case Dict(entries) => Some(Collapse(NonEmptyStrings(DictValues(entries))))
    case _ => match StringCast(err) case None => None case Some(s) => Some(Str(s))
  }

  /** Normalising a normalised message changes nothing. */
  lemma NormalizeFieldIdempotent(err: Value)
    requires NormalizeField(err).Some?
    ensures NormalizeField(NormalizeField(err).value) == NormalizeField(err)
  {
    var v := NormalizeField(err).value;
    if v.List? {
      NonEmptyStringsOfStrings(v.items);
      var list := NonEmptyStrings(v.items);
      assert Collapse(list) == v;
    }
  }

  /** The whole `$normalized` array: same fields, same order, each value
      normalised; None as soon as one field throws. */
  function NormalizeAll(errors: seq<(string, Value)>): (r: Option<seq<(string, Value)>>)
    ensures r.Some? <==> forall k :: 0 <= k < |errors| ==> NormalizeField(errors[k].1).Some?
    ensures r.Some? ==> |r.value| == |errors|
    ensures r.Some? ==> forall k :: 0 <= k < |errors| ==>
              r.value[k].0 == errors[k].0 && Some(r.value[k].1) == NormalizeField(errors[k].1)
  {
    if errors == [] then Some([])
    else match NormalizeField(errors[0].1)
      case None => None
      case Some(v) =>
        match NormalizeAll(errors[1..])
        case None => None
        case Some(rest) => Some([(errors[0].0, v)] + rest)
  }

  function PrependAll(done: seq<(string, Value)>, rest: Option<seq<(string, Value)>>): Option<seq<(string, Value)>> {
    match rest case None => None case Some(more) => Some(done + more)
  }

  lemma PrependAllTwice(a: seq<(string, Value)>, b: seq<(string, Value)>, rest: Option<seq<(string, Value)>>)
    ensures PrependAll(a, PrependAll(b, rest)) == PrependAll(a + b, rest)
  {
    if rest.Some? { assert a + (b + rest.value) == (a + b) + rest.value; }
  }

  /** Field `i` normalised, the fields after it still to go. */
  lemma NormalizeAllStep(errors: seq<(string, Value)>, i: nat, v: Value)
    requires i < |errors| && NormalizeField(errors[i].1) == Some(v)
    ensures NormalizeAll(errors[i..]) == PrependAll([(errors[i].0, v)], NormalizeAll(errors[i + 1..]))
  {
    assert errors[i..][0] == errors[i];
    assert errors[i..][1..] == errors[i + 1..];
  }

  /** One turn of the loop below keeps its invariant. */
  lemma NormalizeLoopStep(errors: seq<(string, Value)>, i: nat, normalized: seq<(string, Value)>, v: Value)
    requires i < |errors| && NormalizeField(errors[i].1) == Some(v)
    requires NormalizeAll(errors) == PrependAll(normalized, NormalizeAll(errors[i..]))
    ensures NormalizeAll(errors) == PrependAll(normalized + [(errors[i].0, v)], NormalizeAll(errors[i + 1..]))
  {
    NormalizeAllStep(errors, i, v);
    PrependAllTwice(normalized, [(errors[i].0, v)], NormalizeAll(errors[i + 1..]));
  }

  /** The loop of `validationError` that builds `$normalized`, field by
      field; None as soon as a field's value cannot be cast to a string. */
  method NormalizeErrors(errors: seq<(string, Value)>) returns (r: Option<seq<(string, Value)>>)
    ensures r == NormalizeAll(errors)
  {
    var normalized: seq<(string, Value)> := [];
    var i := 0;
    assert errors[0..] == errors;
    match NormalizeAll(errors) {
      case None =>
      case Some(all) => assert [] + all == all;
    }
    while i < |errors|
      invariant 0 <= i <= |errors|
      invariant NormalizeAll(errors) == PrependAll(normalized, NormalizeAll(errors[i..]))
    {
      var (field, err) := errors[i];
      var value := NormalizeField(err);
      if value.None? {
        assert errors[i..][0] == errors[i];
        return None;
      }
      NormalizeLoopStep(errors, i, normalized, value.value);
      normalized := normalized + [(field, value.value)];
      i := i + 1;
    }
    assert errors[|errors|..] == [];
    assert normalized + [] == normalized;
    r := Some(normalized);
  }

  /** `validationError($errors, $message)`: a 422 whose `errors` are the
      normalised fields; None when a field value cannot be cast to a string. */
  method ValidationError(errors: seq<(string, Value)>, message: string) returns (r: Option<Response>)
    ensures r.Some? <==> NormalizeAll(errors).Some?
    ensures r.Some? ==> r.value == ApiRespond(Null, UNPROCESSABLE, Some(message), NormalizeAll(errors).value)
    ensures r.Some? ==> r.value.code == UNPROCESSABLE && WellFormed(r.value)
  {
    var normalized := NormalizeErrors(errors);
    if normalized.None? {
      return None;
    }
    r := Some(ApiRespond(Null, UNPROCESSABLE, Some(message), normalized.value));
  }
}
