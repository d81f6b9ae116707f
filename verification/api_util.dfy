/** Response builders and the partial-update helper of pythonsrc/util/api_util.py. */
module ApiUtil {
  import opened Wrappers
  import opened JsonUtil

  /** A response body: a JSON document or plain text. */
  datatype Body = Json(value: Value) | Text(text: string)

  /** An HTTP response reduced to its status code and body. */
  datatype Response = Response(status: int, body: Body)

  /** A Python exception escaping a handler; Flask answers it with a 500. */
  datatype Fault =
    | AttributeError(attribute: string)
    | KeyError(key: string)
    | UnboundLocalError(variable: string)

  /** A request argument as webargs delivers it: marshmallow's `missing`
      sentinel when absent, which is distinct from an explicit JSON null. */
  datatype Arg<T> = Missing | Given(value: T)

  /** Python truthiness of an integer argument: `missing` and 0 are false. */
  predicate TruthyInt(a: Arg<int>)
  {
    a.Given? && a.value != 0
  }

  const DefaultBadRequestMessage: string := "The request could not be processed."

  /** The entry stored under `key` in a JSON-object body, if any. */
  function BodyField(r: Response, key: string): Option<Value>
  {
    if r.body.Json? && r.body.value.Dict? && key in r.body.value.entries
    then Some(r.body.value.entries[key])
    else None
  }

  /** The keys of a JSON-object body (empty for any other body). */
  function BodyKeys(r: Response): set<string>
  {
    if r.body.Json? && r.body.value.Dict? then r.body.value.entries.Keys else {}
  }

  /** A JSON response whose body is `{"message": text}`. */
  function MessageResponse(status: int, text: string): (r: Response)
    ensures r.status == status
    ensures BodyKeys(r) == {"message"}
    ensures BodyField(r, "message") == Some(Str(text))
  {
    Response(status, Json(Dict(map["message" := Str(text)])))
  }

  /** The 404 handler; its `error` argument is ignored. */
  function NotFound(): (r: Response)
    ensures r.status == 404
    ensures BodyKeys(r) == {"message"}
    ensures BodyField(r, "message") == Some(Str("Not Found"))
  {
    MessageResponse(404, "Not Found")
  }

  /** The 400 handler; `None` stands for a call without an argument. */
  function BadRequest(error: Option<Value>): (r: Response)
    ensures r.status == 400
    ensures BodyKeys(r) == {"message"}
    ensures error.Some? ==> BodyField(r, "message") == Some(error.value)
    ensures error.None? ==> BodyField(r, "message") == Some(Str(DefaultBadRequestMessage))
  {
    Response(400, Json(Dict(map["message" := error.GetOr(Str(DefaultBadRequestMessage))])))
  }

  /** The 422 answer for a duplicate resource. */
  function AlreadyExists(): (r: Response)
    ensures r.status == 422
    ensures BodyKeys(r) == {"message", "errors"}
    ensures BodyField(r, "message") == Some(Str("Validation Failed"))
    ensures BodyField(r, "errors") == Some(List([Dict(map["code" := Str("already_exists")])]))
  {
    Response(422, Json(Dict(map[
      "message" := Str("Validation Failed"),
      "errors" := List([Dict(map["code" := Str("already_exists")])])])))
  }

  /** The 404 handler's answer has the same shape as the hand-built message
      answers. */
  lemma NotFoundIsMessage()
    ensures NotFound() == MessageResponse(404, "Not Found")
  {
  }

  /** `bad_request` given a text builds exactly the hand-built 400 answer
      carrying that text, and called without one it carries the default
      sentence. */
  lemma BadRequestOfText(t: string)
    ensures BadRequest(Some(Str(t))) == MessageResponse(400, t)
    ensures BadRequest(None) == MessageResponse(400, DefaultBadRequestMessage)
  {
  }

  /** The validation exception webargs wraps: its class name and its messages. */
  datatype ValidationException = ValidationException(className: string, messages: Value)

  /** The `UnprocessableEntity` error the 422 handler receives. `data` is
      `None` when the error has no `data` attribute at all; an empty map is a
      falsy `data`. */
  datatype UnprocessableEntity = UnprocessableEntity(
    className: string,
    name: Option<string>,
    data: Option<map<string, ValidationException>>)

  /** The 422 handler. Only errors carrying non-empty `data` with an `exc`
      entry produce a response: the falsy-data branch never binds
      `error_messages`, so building the body fails. */
  function HandleUnprocessableEntity(error: UnprocessableEntity): (r: Result<Response, Fault>)
    ensures error.data.None? ==> r == Failure(AttributeError("data"))
    ensures error.data.Some? && |error.data.value| == 0 ==>
      r == Failure(UnboundLocalError("error_messages"))
    ensures error.data.Some? && |error.data.value| > 0 && "exc" !in error.data.value ==>
      r == Failure(KeyError("exc"))
    ensures r.Success? <==> error.data.Some? && "exc" in error.data.value
    ensures r.Success? ==>
      && r.value.status == 422
      && BodyKeys(r.value) == {"message", "errors"}
      && BodyField(r.value, "message") == Some(Str(error.data.value["exc"].className))
      && BodyField(r.value, "errors") == Some(error.data.value["exc"].messages)
  {
    match error.data
    case None => Failure(AttributeError("data"))
    case Some(data) =>
      if |data| > 0 then
        if "exc" in data then
          var exc := data["exc"];
          Success(Response(422, Json(Dict(map[
            "message" := Str(exc.className),
            "errors" := exc.messages]))))
        else Failure(KeyError("exc"))
      else
        // `exception_name` is computed here, but `error_messages` stays unbound.
        Failure(UnboundLocalError("error_messages"))
  }

  /** An error whose `data` is empty makes the handler as written fail
      instead of answering 422. */
  lemma EmptyDataBreaksHandler()
    ensures HandleUnprocessableEntity(
      UnprocessableEntity("UnprocessableEntity", Some("Unprocessable Entity"), Some(map[])))
      == Failure(UnboundLocalError("error_messages"))
  {
  }

  /** The 422 handler with the falsy-data branch completed: it reports the
      error's own name (or class name) with an empty error list. */
  function HandleUnprocessableEntityCorrected(error: UnprocessableEntity): (r: Result<Response, Fault>)
    ensures r.Failure? <==> error.data.None? || (|error.data.value| > 0 && "exc" !in error.data.value)
    ensures r.Success? ==> r.value.status == 422 && BodyKeys(r.value) == {"message", "errors"}
    ensures error.data.Some? && |error.data.value| == 0 ==>
      && r.Success?
      && BodyField(r.value, "message") == Some(Str(error.name.GetOr(error.className)))
      && BodyField(r.value, "errors") == Some(List([]))
    ensures HandleUnprocessableEntity(error).Success? ==> r == HandleUnprocessableEntity(error)
  {
    match error.data
    case Some(data) =>
      if |data| == 0 then
        Success(Response(422, Json(Dict(map[
          "message" := Str(error.name.GetOr(error.className)),
          "errors" := List([])]))))
      else HandleUnprocessableEntity(error)
    case None => HandleUnprocessableEntity(error)
  }

  /** The duplicate-resource answer is the answer the 422 handler gives for a
      validation exception named "Validation Failed" whose messages are the
      one `already_exists` error. */
  lemma AlreadyExistsIsValidationAnswer(className: string, name: Option<string>)
    ensures HandleUnprocessableEntity(UnprocessableEntity(className, name, Some(map[
      "exc" := ValidationException("Validation Failed",
                                   List([Dict(map["code" := Str("already_exists")])]))])))
      == Success(AlreadyExists())
  {
  }

  /** One `(key, value)` pair of `update_from_args`. */
  type ArgPair = (string, Arg<Value>)

  /** Whether a pair is copied onto the object: public key and a real value. */
  predicate Applies(pair: ArgPair)
  {
    !IsPrivate(pair.0) && pair.1.Given?
  }

  /** The value the last applicable pair for `k` carries, if there is one. */
  function LastAssigned(args: seq<ArgPair>, k: string): Option<Value>
  {
    if |args| == 0 then None
    else match LastAssigned(args[1..], k)
      case Some(v) => Some(v)
      case None => if args[0].0 == k && Applies(args[0]) then Some(args[0].1.value) else None
  }

  /** `LastAssigned` names exactly the value of the last applicable pair for `k`. */
  lemma {:induction false} LastAssignedIsLast(args: seq<ArgPair>, k: string, i: nat)
    requires i < |args| && args[i].0 == k && Applies(args[i])
    requires forall j :: i < j < |args| ==> !(args[j].0 == k && Applies(args[j]))
    ensures LastAssigned(args, k) == Some(args[i].1.value)
  {
    if i == 0 {
      LastAssignedNone(args[1..], k);
    } else {
      LastAssignedIsLast(args[1..], k, i - 1);
    }
  }

  /** Without an applicable pair for `k`, nothing is assigned to it. */
  lemma {:induction false} LastAssignedNone(args: seq<ArgPair>, k: string)
    requires forall j :: 0 <= j < |args| ==> !(args[j].0 == k && Applies(args[j]))
    ensures LastAssigned(args, k) == None
  {
    if |args| > 0 {
      LastAssignedNone(args[1..], k);
    }
  }

  /** `update_from_args`: copies the applicable pairs onto the object in order.
      Each attribute ends up with the value of the last applicable pair naming
      it; every other attribute keeps its value. */
  function UpdateFromArgs(obj: map<string, Value>, args: seq<ArgPair>): (r: map<string, Value>)
    ensures forall k :: k in r <==> k in obj || LastAssigned(args, k).Some?
    ensures forall k :: LastAssigned(args, k).Some? ==> r[k] == LastAssigned(args, k).value
    ensures forall k :: k in obj && LastAssigned(args, k).None? ==> r[k] == obj[k]
    decreases |args|
  {
    if |args| == 0 then obj
    else
      var (key, value) := args[0];
      var next := if !IsPrivate(key) && value.Given? then obj[key := value.value] else obj;
      UpdateFromArgs(next, args[1..])
  }

  /** Applying the same arguments a second time changes nothing more. */
  lemma UpdateFromArgsIdempotent(obj: map<string, Value>, args: seq<ArgPair>)
    ensures UpdateFromArgs(UpdateFromArgs(obj, args), args) == UpdateFromArgs(obj, args)
  {
    var once := UpdateFromArgs(obj, args);
    var twice := UpdateFromArgs(once, args);
    assert twice.Keys == once.Keys;
  }

  /** Applying `a` then `b` is applying `a + b`: pairs take effect one by one. */
  lemma {:induction false} UpdateFromArgsSequential(obj: map<string, Value>, a: seq<ArgPair>, b: seq<ArgPair>)
    ensures UpdateFromArgs(obj, a + b) == UpdateFromArgs(UpdateFromArgs(obj, a), b)
    decreases |a|
  {
    if |a| > 0 {
      assert (a + b)[0] == a[0];
      assert (a + b)[1..] == a[1..] + b;
      var (key, value) := a[0];
      var next := if !IsPrivate(key) && value.Given? then obj[key := value.value] else obj;
      UpdateFromArgsSequential(next, a[1..], b);
    } else {
      assert a + b == b;
    }
  }
}
