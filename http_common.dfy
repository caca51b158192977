/**
 * Values the three API clients share: header values as Python objects, the default
 * request headers of `header.py`, and HTTP responses as the clients see them.
 */
module HttpCommon {
  import opened Wrappers
  import opened PyDict

  /** Python objects that occur as request header values. */
  datatype HeaderValue =
    | Str(s: string)
    | Int(i: int)
    | Bool(b: bool)
    | NoneValue
      /** A pydantic model, an Enum member or a UUID, with what `json.dumps` makes of it. */
    | Serializable(kind: SerialKind, dumped: string)

  datatype SerialKind = PydanticModel | EnumMember | Uuid

  /** Python truthiness of a header value (models, enum members and UUIDs are objects, hence true). */
  predicate Truthy(v: HeaderValue) {
    match v
    case Str(s) => s != ""
    case Int(i) => i != 0
    case Bool(b) => b
    case NoneValue => false
    case Serializable(_, _) => true
  }

  type Headers = Dict<string, HeaderValue>

  const CONTENT_TYPE := "Content-type"
  const ACCEPT := "Accept"
  const ACCEPT_ENCODING := "Accept-Encoding"
  const JSON_CONTENT_TYPE := "application/json"
  const GZIP := "gzip"

  /** `header.API_REQUEST`: the default headers every request carries. */
  const API_REQUEST: Headers :=
    [(CONTENT_TYPE, Str(JSON_CONTENT_TYPE)), (ACCEPT, Str(JSON_CONTENT_TYPE)), (ACCEPT_ENCODING, Str(GZIP))]

  lemma ApiRequestDistinct()
    ensures KeysDistinct(API_REQUEST)
    ensures Keys(API_REQUEST) == [CONTENT_TYPE, ACCEPT, ACCEPT_ENCODING]
  {
  }

  /** The response body, as the text `response.json()` decodes. */
  type Json = string

  datatype HttpResponse = HttpResponse(status: int, json: Json)

  /** `status_code in OK_STATUS_CODES_RANGE`, the range being `range(200, 300)`. */
  predicate IsOk(status: int) { 200 <= status < 300 }

  /**
   * `HTTPStatus(code)` succeeds exactly for the values of the `http.HTTPStatus`
   * enumeration (as of Python 3.9); any other code raises `ValueError`.
   */
  predicate IsHttpStatus(code: int) {
    || 100 <= code <= 103
    || 200 <= code <= 208 || code == 226
    || 300 <= code <= 305 || code == 307 || code == 308
    || 400 <= code <= 418 || 421 <= code <= 426 || code == 428 || code == 429 || code == 431 || code == 451
    || 500 <= code <= 508 || code == 510 || code == 511
  }

  /**
   * A response model as the clients use it: deserialising a body gives a value, or
   * `None` where pydantic raises a validation error.
   */
  type ResponseModel<T> = Json -> Option<T>

  /**
   * The first model, in list order and skipping the `None` entries, that accepts the
   * body; `None` when none does.
   */
  function FirstParse<T>(models: seq<Option<ResponseModel<T>>>, json: Json): Option<T>
  {
    if models == [] then None
    else if models[0].Some? && models[0].value(json).Some? then models[0].value(json)
    else FirstParse(models[1..], json)
  }

  /** `FirstParse` gives the value of the first model that accepts the body, and `None` only when none does. */
  lemma {:induction false} FirstParseIsFirst<T>(models: seq<Option<ResponseModel<T>>>, json: Json)
    ensures FirstParse(models, json).None? <==>
            forall i :: 0 <= i < |models| && models[i].Some? ==> models[i].value(json).None?
    ensures FirstParse(models, json).Some? ==>
            exists i :: 0 <= i < |models| && models[i].Some? && models[i].value(json) == FirstParse(models, json)
                        && forall j :: 0 <= j < i && models[j].Some? ==> models[j].value(json).None?
  {
    if models != [] && !(models[0].Some? && models[0].value(json).Some?) {
      FirstParseIsFirst(models[1..], json);
      var r := FirstParse(models, json);
      assert forall i :: 1 <= i < |models| ==> models[i] == models[1..][i - 1];
      if r.Some? {
        var i :| 0 <= i < |models[1..]| && models[1..][i].Some? && models[1..][i].value(json) == r
                  && forall j :: 0 <= j < i && models[1..][j].Some? ==> models[1..][j].value(json).None?;
        assert models[i + 1] == models[1..][i];
      }
    } else if models != [] {
      assert models[0].value(json) == FirstParse(models, json);
    }
  }
}
