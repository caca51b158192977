/**
 * The ExpediaGroup core `ApiClient` helpers: error responses are dispatched to the
 * exception declared for their status code, and the caller's headers are merged over
 * a copy of the defaults.
 */
module ExpediaGroupApi {
  import opened Wrappers
  import opened PyDict
  import opened HttpCommon

  /**
   * An entry of `error_responses`: the exception class to raise and the model of its
   * body, which fails where `response.json()` or `model_validate` raises.
   */
  datatype ErrorContract<E> = ErrorContract(exceptionClass: string, model: Json -> Result<E, string>)

  /**
   * What `__build_response` raises: the contract's exception for a declared status,
   * `ExpediaGroupApiException` for any other non-2xx status, the `ValueError` of
   * `HTTPStatus(code)` for a code that is no HTTP status, and whatever `response.json()`
   * or the error model raises on an error body they cannot read.
   */
  datatype ApiException<E> =
    | ContractException(exceptionClass: string, error: E, code: int)
    | ExpediaGroupApiException(error: E, code: int)
    | StatusValueError(code: int)
    | ErrorBodyError(message: string)

  /**
   * The model that reads the error body of `status`: the declared contract's, or the
   * generic `Error` model (`errorOf`) for an undeclared status.
   */
  function ErrorModel<E>(status: int, errorResponses: Dict<int, ErrorContract<E>>,
                         errorOf: Json -> Result<E, string>): (m: Json -> Result<E, string>)
    ensures status in Keys(errorResponses) ==> m == Get(errorResponses, status).value.model
    ensures status !in Keys(errorResponses) ==> m == errorOf
  {
    if status in Keys(errorResponses) then Get(errorResponses, status).value.model else errorOf
  }

  /**
   * `__build_response`: a non-2xx status raises. The error body is read first, by the
   * declared contract's model or the generic one, and only then does `HTTPStatus` see
   * the code: an unreadable body raises its own error, a code that is no HTTP status
   * `HTTPStatus`'s `ValueError`, otherwise the contract's exception or, for an
   * undeclared status, the generic one. A 2xx body goes to the first model that
   * validates it, or gives `None`.
   */
  method BuildResponse<T, E>(response: HttpResponse, responseModels: seq<Option<ResponseModel<T>>>,
                             errorResponses: Dict<int, ErrorContract<E>>, errorOf: Json -> Result<E, string>)
    returns (r: Result<Option<T>, ApiException<E>>)
    ensures r.Err? <==> !IsOk(response.status)
    ensures !IsOk(response.status) ==>
              var body := ErrorModel(response.status, errorResponses, errorOf)(response.json);
              && (body.Err? ==> r == Err(ErrorBodyError(body.error)))
              && (body.Ok? && !IsHttpStatus(response.status) ==> r == Err(StatusValueError(response.status)))
    ensures !IsOk(response.status) && IsHttpStatus(response.status) && response.status in Keys(errorResponses) ==>
              var c := Get(errorResponses, response.status).value;
              c.model(response.json).Ok? ==>
                r == Err(ContractException(c.exceptionClass, c.model(response.json).value, response.status))
    ensures !IsOk(response.status) && IsHttpStatus(response.status) && response.status !in Keys(errorResponses) ==>
              errorOf(response.json).Ok? ==>
                r == Err(ExpediaGroupApiException(errorOf(response.json).value, response.status))
    ensures IsOk(response.status) ==> r == Ok(FirstParse(responseModels, response.json))
  {
    if !IsOk(response.status) {
      var exception: ApiException<E>;
      if response.status in Keys(errorResponses) {
        var contract := Get(errorResponses, response.status).value;
        var errorObject := contract.model(response.json);
        if errorObject.Err? {
          exception := ErrorBodyError(errorObject.error);
        } else if !IsHttpStatus(response.status) {
          exception := StatusValueError(response.status);
        } else {
          exception := ContractException(contract.exceptionClass, errorObject.value, response.status);
        }
      } else {
        var errorObject := errorOf(response.json);
        if errorObject.Err? {
          exception := ErrorBodyError(errorObject.error);
        } else if !IsHttpStatus(response.status) {
          exception := StatusValueError(response.status);
        } else {
          exception := ExpediaGroupApiException(errorObject.value, response.status);
        }
      }
      return Err(exception);
    }
    var responseObject: Option<T> := None;
    for i := 0 to |responseModels|
      invariant FirstParse(responseModels, response.json) == FirstParse(responseModels[i..], response.json)
    {
      assert responseModels[i..][1..] == responseModels[i + 1..];
      var model := responseModels[i];
      if model.None? {
        continue;
      }
      var parsed := model.value(response.json);
      if parsed.Some? {
        return Ok(parsed);
      }
    }
    return Ok(responseObject);
  }

  /**
   * `__fill_request_headers`: empty headers give the `API_REQUEST` constant itself;
   * otherwise the caller's headers are merged over a copy of it, the caller's values
   * winning, the default keys first in their own order.
   */
  method FillRequestHeaders(requestHeaders: Headers) returns (r: Headers)
    requires KeysDistinct(requestHeaders)
    ensures requestHeaders == [] ==> r == API_REQUEST
    ensures forall k :: Get(r, k) == if k in Keys(requestHeaders) then Get(requestHeaders, k) else Get(API_REQUEST, k)
    ensures forall k :: k in Keys(r) <==> k in Keys(requestHeaders) || k in Keys(API_REQUEST)
    ensures KeysDistinct(r)
    ensures |r| >= |API_REQUEST| && Keys(r)[..|API_REQUEST|] == Keys(API_REQUEST)
  {
    ApiRequestDistinct();
    if requestHeaders == [] {
      return API_REQUEST;
    }
    var headers := API_REQUEST;
    headers := Update(headers, requestHeaders);
    forall k ensures Get(headers, k) == if k in Keys(requestHeaders) then Get(requestHeaders, k) else Get(API_REQUEST, k) {
      UpdateGet(API_REQUEST, requestHeaders, k);
    }
    UpdateKeepsDistinct(API_REQUEST, requestHeaders);
    UpdateKeepsPositions(API_REQUEST, requestHeaders);
    return headers;
  }

  /** `RequestHeaders.unwrap`: no headers or an empty dict give `{}`; otherwise the dict itself. */
  function Unwrap(headers: Option<Headers>): (r: Headers)
    ensures headers.None? ==> r == []
    ensures headers.Some? ==> r == headers.value
  {
    if headers.None? || headers.value == [] then [] else headers.value
  }

  /** `__prepare_request_headers` */
  method PrepareRequestHeaders(headers: Option<Headers>) returns (r: Headers)
    requires headers.Some? ==> KeysDistinct(headers.value)
    ensures forall k :: Get(r, k) == if k in Keys(Unwrap(headers)) then Get(Unwrap(headers), k) else Get(API_REQUEST, k)
    ensures Unwrap(headers) == [] ==> r == API_REQUEST
  {
    var requestHeaders := Unwrap(headers);
    r := FillRequestHeaders(requestHeaders);
  }
}
