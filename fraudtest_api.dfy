/**
 * The `ApiClient` helpers of the generated fraud-prevention-test 0.1.0 SDK: request
 * headers are cleaned and serialised before the defaults are filled in, and the
 * response is tried against a list of models.
 *
 * Its `__fill_request_headers` (lines 128-139) is the same code as the OpenWorld
 * core's and is modelled by `OpenWorldApi.FillRequestHeaders`.
 */
module FraudTestApi {
  import opened Wrappers
  import opened PyDict
  import opened HttpCommon
  import OpenWorldApi

  /**
   * What `__build_response` raises: `OpenWorldServiceException` with the parsed error
   * body and the status code, the `ValueError` of `HTTPStatus(code)` for a code that is
   * no HTTP status, or whatever `response.json()` or `Error.parse_obj` raises on an error
   * body they cannot read.
   */
  datatype ServiceException<E> =
    | ServiceException(error: E, code: int)
    | StatusValueError(code: int)
    | ErrorBodyError(message: string)

  /**
   * `__build_response`: a status outside 200-299 raises before any model is tried. The
   * error body is parsed first (`errorOf` fails where `response.json()` or
   * `Error.parse_obj` raises), and only then does `HTTPStatus` see the code. Otherwise the
   * first model that accepts the body gives the result.
   */
  method BuildResponse<T, E>(response: HttpResponse, responseModels: seq<Option<ResponseModel<T>>>,
                             errorOf: Json -> Result<E, string>) returns (r: Result<Option<T>, ServiceException<E>>)
    ensures r.Err? <==> !IsOk(response.status)
    ensures !IsOk(response.status) && errorOf(response.json).Err? ==>
              r == Err(ErrorBodyError(errorOf(response.json).error))
    ensures !IsOk(response.status) && errorOf(response.json).Ok? && IsHttpStatus(response.status) ==>
              r == Err(ServiceException(errorOf(response.json).value, response.status))
    ensures !IsOk(response.status) && errorOf(response.json).Ok? && !IsHttpStatus(response.status) ==>
              r == Err(StatusValueError(response.status))
    ensures IsOk(response.status) ==> r == Ok(FirstParse(responseModels, response.json))
  {
    if !IsOk(response.status) {
      var error := errorOf(response.json);
      if error.Err? {
        return Err(ErrorBodyError(error.error));
      }
      if !IsHttpStatus(response.status) {
        return Err(StatusValueError(response.status));
      }
      return Err(ServiceException(error.value, response.status));
    }
    var responseObject: Option<T> := None;
    for i := 0 to |responseModels|
      invariant FirstParse(responseModels, response.json) == FirstParse(responseModels[i..], response.json)
    {
      assert responseModels[i..][1..] == responseModels[i + 1..];
      var model := responseModels[i];
      if model.None? {
        continue;
      }
      var parsed := model.value(response.json);
      if parsed.Some? {
        return Ok(parsed);
      }
    }
    return Ok(responseObject);
  }

  /** The value sent for a header: `json.dumps` of a model, enum member or UUID, the value itself otherwise. */
  function Serialized(v: HeaderValue): (r: HeaderValue)
    ensures !v.Serializable? ==> r == v
    ensures v.Serializable? ==> r == Str(v.dumped)
  {
    match v
    case Serializable(_, dumped) => Str(dumped)
    case _ => v
  }

  /** The falsy headers of `h` dropped and the others serialised, in order. */
  function Cleaned(h: Headers): Headers
    decreases |h|
  {
    if h == [] then []
    else
      var c := Cleaned(h[..|h| - 1]);
      var (key, value) := h[|h| - 1];
      if Truthy(value) then Set(c, key, Serialized(value)) else c
  }

  lemma {:induction false} CleanedGet(h: Headers, k: string)
    requires KeysDistinct(h)
    ensures Get(Cleaned(h), k) == if k in Keys(h) && Truthy(Get(h, k).value) then Some(Serialized(Get(h, k).value)) else None
    decreases |h|
  {
    if h != [] {
      var n := |h| - 1;
      var h' := h[..n];
      CleanedGet(h', k);
      assert h' + [h[n]] == h;
      GetPrefix(h', [h[n]], k);
      KeysPrefix(h, n);
      assert h[..n + 1] == h;
      if h[n].0 == k {
        assert k !in Keys(h');
      }
    }
  }

  lemma {:induction false} CleanedDistinct(h: Headers)
    ensures KeysDistinct(Cleaned(h))
    decreases |h|
  {
    if h != [] {
      CleanedDistinct(h[..|h| - 1]);
      var (key, value) := h[|h| - 1];
      SetKeepsDistinct(Cleaned(h[..|h| - 1]), key, Serialized(value));
    }
  }

  /**
   * `__prepare_request_headers`: headers with falsy values are dropped, models, enum
   * members and UUIDs are JSON-encoded, every other value is kept, and the defaults
   * fill in what is left missing.
   */
  method PrepareRequestHeaders(headers: Headers) returns (r: Headers)
    requires KeysDistinct(headers)
    ensures forall k :: k in Keys(r) ==> k in Keys(headers) || k in Keys(API_REQUEST)
    ensures forall k :: k in Keys(headers) && Truthy(Get(headers, k).value) ==>
                          Get(r, k) == Some(Serialized(Get(headers, k).value))
    ensures forall k :: k in Keys(headers) && !Truthy(Get(headers, k).value) && k !in Keys(API_REQUEST) ==>
                          k !in Keys(r)
    ensures forall k :: k in Keys(API_REQUEST) && !(k in Keys(headers) && Truthy(Get(headers, k).value)) ==>
                          Get(r, k) == Get(API_REQUEST, k)
  {
    var requestHeaders: Headers := [];
    for i := 0 to |headers|
      invariant requestHeaders == Cleaned(headers[..i])
    {
      var (headerKey, headerValue) := headers[i];
      assert headers[..i + 1][..i] == headers[..i];
      if !Truthy(headerValue) {
        continue;
      }
      var needsSerialization := headerValue.Serializable?;
      requestHeaders := Set(requestHeaders, headerKey, if needsSerialization then Str(headerValue.dumped) else headerValue);
    }
    assert headers[..|headers|] == headers;
    CleanedDistinct(headers);
    r := OpenWorldApi.FillRequestHeaders(requestHeaders);
    forall k ensures Get(requestHeaders, k) == if k in Keys(headers) && Truthy(Get(headers, k).value)
                                                then Some(Serialized(Get(headers, k).value)) else None {
      CleanedGet(headers, k);
    }
  }
}
