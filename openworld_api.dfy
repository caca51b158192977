/**
 * The OpenWorld core `ApiClient` helpers: default-header filling, response dispatch
 * on the status code, and the JSON serialisation fallback for request bodies.
 */
module OpenWorldApi {
  import opened Wrappers
  import opened PyDict
  import opened HttpCommon

  /**
   * What `__build_response` raises: `OpenWorldServiceException` carrying the parsed
   * error body and the status code, the `ValueError` of `HTTPStatus(code)` for a code
   * that is no HTTP status, whatever `response.json()` or `Error.from_json` raises on an
   * error body they cannot read, or whatever `from_dict` raises on a body it cannot load.
   */
  datatype ServiceError<E> =
    | ServiceException(error: E, code: int)
    | StatusValueError(code: int)
    | ErrorBodyError(message: string)
    | DeserializationError(message: string)

  /**
   * `__build_response`: a status outside 200-299 raises. The keyword arguments of the
   * exception are evaluated in order, so the error body is read first (`errorOf`, which
   * fails where `response.json()` or `Error.from_json` raises) and only then does
   * `HTTPStatus` see the code. No response model gives `None`; otherwise the model loads
   * the body.
   */
  function BuildResponse<T, E>(response: HttpResponse, responseModel: Option<Json -> Result<T, string>>,
                               errorOf: Json -> Result<E, string>): (r: Result<Option<T>, ServiceError<E>>)
    ensures !IsOk(response.status) <==> r.Err? && !r.error.DeserializationError?
    ensures !IsOk(response.status) && errorOf(response.json).Err? ==>
              r == Err(ErrorBodyError(errorOf(response.json).error))
    ensures !IsOk(response.status) && errorOf(response.json).Ok? && IsHttpStatus(response.status) ==>
              r == Err(ServiceException(errorOf(response.json).value, response.status))
    ensures !IsOk(response.status) && errorOf(response.json).Ok? && !IsHttpStatus(response.status) ==>
              r == Err(StatusValueError(response.status))
    ensures IsOk(response.status) && responseModel.None? ==> r == Ok(None)
    ensures IsOk(response.status) && responseModel.Some? ==>
              match responseModel.value(response.json)
              case Ok(v) => r == Ok(Some(v))
              case Err(m) => r == Err(DeserializationError(m))
  {
    if !IsOk(response.status) then
      match errorOf(response.json)
      case Err(m) => Err(ErrorBodyError(m))
      case Ok(error) =>
        if IsHttpStatus(response.status) then Err(ServiceException(error, response.status))
        else Err(StatusValueError(response.status))
    else if responseModel.None? then Ok(None)
    else match responseModel.value(response.json)
      case Ok(v) => Ok(Some(v))
      case Err(m) => Err(DeserializationError(m))
  }

  /** The objects `to_json` cannot encode itself. */
  datatype BodyObject = DateTime(isoformat: string) | EnumObject(value: string) | OtherObject

  /** `__serialization_helper`: ISO text for a datetime, the value of an Enum member, otherwise `None`. */
  function SerializationHelper(obj: BodyObject): (r: Option<string>)
    ensures r.Some? <==> !obj.OtherObject?
    ensures obj.DateTime? ==> r == Some(obj.isoformat)
    ensures obj.EnumObject? ==> r == Some(obj.value)
  {
    match obj
    case DateTime(iso) => Some(iso)
    case EnumObject(v) => Some(v)
    case OtherObject => None
  }

  /**
   * `__fill_request_headers`: every default header the caller did not give is added,
   * after the caller's own headers and in the order of `API_REQUEST`; the caller's
   * values win. `None` is the empty dict here, as both are falsy.
   */
  method FillRequestHeaders(requestHeaders: Headers) returns (r: Headers)
    requires KeysDistinct(requestHeaders)
    ensures KeysDistinct(r)
    ensures forall k :: k in Keys(r) <==> k in Keys(requestHeaders) || k in Keys(API_REQUEST)
    ensures forall k :: k in Keys(requestHeaders) ==> Get(r, k) == Get(requestHeaders, k)
    ensures forall k :: k in Keys(API_REQUEST) && k !in Keys(requestHeaders) ==> Get(r, k) == Get(API_REQUEST, k)
    ensures |requestHeaders| <= |r| && r[..|requestHeaders|] == requestHeaders
    ensures requestHeaders == [] ==> r == API_REQUEST
  {
    ApiRequestDistinct();
    r := AddMissing(requestHeaders, API_REQUEST);
  }

  /** The loop of `__fill_request_headers`, over the pairs of `defaults`. */
  method AddMissing(requestHeaders: Headers, defaults: Headers) returns (r: Headers)
    requires KeysDistinct(requestHeaders) && KeysDistinct(defaults)
    ensures KeysDistinct(r)
    ensures forall k :: k in Keys(r) <==> k in Keys(requestHeaders) || k in Keys(defaults)
    ensures forall k :: k in Keys(requestHeaders) ==> Get(r, k) == Get(requestHeaders, k)
    ensures forall k :: k in Keys(defaults) && k !in Keys(requestHeaders) ==> Get(r, k) == Get(defaults, k)
    ensures |requestHeaders| <= |r| && r[..|requestHeaders|] == requestHeaders
    ensures requestHeaders == [] ==> r == defaults
  {
    r := requestHeaders;
    for i := 0 to |defaults|
      invariant r == requestHeaders + MissingFrom(requestHeaders, defaults[..i])
    {
      var (key, value) := defaults[i];
      assert defaults[..i + 1][..i] == defaults[..i];
      assert key in Keys(r) <==> key in Keys(requestHeaders) by {
        KeysConcat(requestHeaders, MissingFrom(requestHeaders, defaults[..i]));
        MissingKeys(requestHeaders, defaults[..i]);
        KeysPrefix(defaults, i);
        assert key !in Keys(defaults[..i]);
      }
      if key in Keys(r) {
        continue;
      }
      r := r + [(key, value)];
    }
    assert defaults[..|defaults|] == defaults;
    FilledProperties(requestHeaders, defaults);
  }

  /** The pairs of `defaults` whose key `h` lacks, in order. */
  function MissingFrom(h: Headers, defaults: Headers): Headers
    decreases |defaults|
  {
    if defaults == [] then []
    else
      var m := MissingFrom(h, defaults[..|defaults| - 1]);
      if defaults[|defaults| - 1].0 in Keys(h) then m else m + [defaults[|defaults| - 1]]
  }

  lemma {:induction false} MissingKeys(h: Headers, defaults: Headers)
    ensures forall k :: k in Keys(MissingFrom(h, defaults)) <==> k in Keys(defaults) && k !in Keys(h)
    decreases |defaults|
  {
    if defaults != [] {
      var n := |defaults| - 1;
      MissingKeys(h, defaults[..n]);
      KeysPrefix(defaults, n);
      assert defaults[..n + 1] == defaults;
      KeysConcat(MissingFrom(h, defaults[..n]), [defaults[n]]);
    }
  }

  lemma {:induction false} MissingDistinct(h: Headers, defaults: Headers)
    requires KeysDistinct(defaults)
    ensures KeysDistinct(MissingFrom(h, defaults))
    decreases |defaults|
  {
    if defaults != [] {
      var n := |defaults| - 1;
      var d' := defaults[..n];
      var m := MissingFrom(h, d');
      MissingDistinct(h, d');
      if defaults[n].0 !in Keys(h) {
        MissingKeys(h, d');
        KeysPrefix(defaults, n);
        assert defaults[..n + 1] == defaults;
        assert defaults[n].0 !in Keys(m);
        forall i, j | 0 <= i < j < |m + [defaults[n]]|
          ensures (m + [defaults[n]])[i].0 != (m + [defaults[n]])[j].0
        {
          if j == |m| {
            assert Keys(m)[i] == m[i].0;
          }
        }
      }
    }
  }

  lemma {:induction false} MissingGet(h: Headers, defaults: Headers, k: string)
    requires KeysDistinct(defaults)
    requires k in Keys(MissingFrom(h, defaults))
    ensures Get(MissingFrom(h, defaults), k) == Get(defaults, k)
    decreases |defaults|
  {
    var n := |defaults| - 1;
    var d' := defaults[..n];
    var m := MissingFrom(h, d');
    assert d' + [defaults[n]] == defaults;
    GetPrefix(d', [defaults[n]], k);
    MissingKeys(h, d');
    if defaults[n].0 in Keys(h) || k in Keys(m) {
      MissingGet(h, d', k);
      if defaults[n].0 !in Keys(h) {
        GetPrefix(m, [defaults[n]], k);
      }
    } else {
      GetPrefix(m, [defaults[n]], k);
      KeysConcat(m, [defaults[n]]);
      MissingKeys(h, defaults);
      KeysPrefix(defaults, n);
      assert defaults[..n + 1] == defaults;
    }
  }

  lemma {:induction false} MissingAll(defaults: Headers)
    ensures MissingFrom([], defaults) == defaults
    decreases |defaults|
  {
    if defaults != [] {
      var n := |defaults| - 1;
      MissingAll(defaults[..n]);
      assert defaults[..n] + [defaults[n]] == defaults;
    }
  }

  /** What the filled dict holds: the properties `AddMissing` promises. */
  lemma FilledProperties(h: Headers, defaults: Headers)
    requires KeysDistinct(h) && KeysDistinct(defaults)
    ensures var r := h + MissingFrom(h, defaults);
      KeysDistinct(r)
      && (forall k :: k in Keys(r) <==> k in Keys(h) || k in Keys(defaults))
      && (forall k :: k in Keys(h) ==> Get(r, k) == Get(h, k))
      && (forall k :: k in Keys(defaults) && k !in Keys(h) ==> Get(r, k) == Get(defaults, k))
      && |h| <= |r| && r[..|h|] == h
      && (h == [] ==> r == defaults)
  {
    var m := MissingFrom(h, defaults);
    var r := h + m;
    MissingKeys(h, defaults);
    KeysConcat(h, m);
    FilledDistinct(h, defaults);
    forall k ensures Get(r, k) == if k in Keys(h) then Get(h, k) else Get(m, k) {
      GetPrefix(h, m, k);
    }
    forall k | k in Keys(defaults) && k !in Keys(h) ensures Get(r, k) == Get(defaults, k) {
      MissingGet(h, defaults, k);
    }
    if h == [] {
      MissingAll(defaults);
      assert r == m;
    }
  }

  lemma FilledDistinct(h: Headers, defaults: Headers)
    requires KeysDistinct(h) && KeysDistinct(defaults)
    ensures KeysDistinct(h + MissingFrom(h, defaults))
  {
    var m := MissingFrom(h, defaults);
    var r := h + m;
    MissingKeys(h, defaults);
    MissingDistinct(h, defaults);
    forall i, j | 0 <= i < j < |r| ensures r[i].0 != r[j].0 {
      if i < |h| && j >= |h| {
        assert Keys(h)[i] == r[i].0 && Keys(h)[i] in Keys(h);
        assert Keys(m)[j - |h|] == r[j].0 && Keys(m)[j - |h|] in Keys(m);
      } else if j < |h| {
        assert r[i] == h[i] && r[j] == h[j];
      } else {
        assert r[i] == m[i - |h|] && r[j] == m[j - |h|];
      }
    }
  }
}
