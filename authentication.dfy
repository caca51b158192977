/**
 * The OAuth token model of the generated fraud-prevention-test 0.1.1 SDK: the token
 * response, its expiry, and the bearer header sent with each request. The token
 * response arrives already validated, as `parse_obj` would give it.
 */
module Authentication {
  import opened Wrappers
  import opened Text
  import opened PyDict
  import opened Clock

  const BEARER := "Bearer "
  const AUTHORIZATION := "Authorization"

  type RequestHeaders = Dict<string, string>

  /** `Credentials`: a client key and secret. */
  datatype Credentials = Credentials(key: string, secret: string)

  /** `_TokenResponse` */
  datatype TokenResponse = TokenResponse(accessToken: string, expiresIn: int, scope: string, tokenType: string,
                                         idToken: Option<string>, refreshToken: Option<string>)

  /** `HttpBearerAuth`: the access token is set once, by the constructor. */
  datatype HttpBearerAuth = HttpBearerAuth(accessToken: string)
  {
    /** `__str__`: the `Bearer` scheme followed by the token, which can be read back. */
    function Str(): (r: string)
      ensures StartsWith(r, BEARER)
      ensures RemovePrefix(r, BEARER) == accessToken
    {
      BEARER + accessToken
    }

    /** `__call__`: the request's `Authorization` header becomes the bearer text; nothing else changes. */
    function Call(headers: RequestHeaders): (r: RequestHeaders)
      ensures Get(r, AUTHORIZATION) == Some(Str())
      ensures forall k :: k != AUTHORIZATION ==> Get(r, k) == Get(headers, k)
      ensures AUTHORIZATION in Keys(headers) ==> Keys(r) == Keys(headers)
    {
      Set(headers, AUTHORIZATION, Str())
    }
  }

  /** `Token` */
  class Token {
    var token: TokenResponse
    var expirationTime: Instant
    var authHeader: HttpBearerAuth

    /** `__init__(data)` at instant `now`: the token expires `expires_in` seconds later. */
    constructor (data: TokenResponse, now: Instant)
      ensures token == data
      ensures expirationTime == now + Seconds(data.expiresIn)
      ensures authHeader == HttpBearerAuth(data.accessToken)
      ensures HeaderCurrent()
    {
      token := data;
      expirationTime := now + Seconds(data.expiresIn);
      authHeader := HttpBearerAuth(data.accessToken);
    }

    /** The stored bearer header carries the current access token. */
    predicate HeaderCurrent()
      reads this
    {
      authHeader.accessToken == token.accessToken
    }

    function AccessToken(): string reads this { token.accessToken }
    function RefreshToken(): Option<string> reads this { token.refreshToken }
    function IdToken(): Option<string> reads this { token.idToken }

    /** `is_expired()` at instant `now` */
    predicate IsExpired(now: Instant)
      reads this
    {
      now >= expirationTime
    }

    /** `is_about_expired()` at instant `now`: expired within the refresh gap. */
    predicate IsAboutExpired(now: Instant)
      reads this
    {
      now + Seconds(REFRESH_TOKEN_TIME_GAP_IN_SECONDS) >= expirationTime
    }

    /**
     * `update(data)` at instant `now`, as written: the token data and its expiry are
     * replaced, but the stored bearer header is not rebuilt.
     */
    method Update(data: TokenResponse, now: Instant)
      modifies this
      ensures token == data
      ensures expirationTime == now + Seconds(data.expiresIn)
      ensures authHeader == old(authHeader)
    {
      token := data;
      expirationTime := now + Seconds(data.expiresIn);
    }

    /** `update(data)` as evidently intended: the bearer header follows the new token. */
    method UpdateCorrected(data: TokenResponse, now: Instant)
      modifies this
      ensures token == data
      ensures expirationTime == now + Seconds(data.expiresIn)
      ensures authHeader == HttpBearerAuth(data.accessToken)
      ensures HeaderCurrent()
    {
      token := data;
      expirationTime := now + Seconds(data.expiresIn);
      authHeader := HttpBearerAuth(data.accessToken);
    }
  }

  /** An expired token is about to expire as well: the refresh gap is not negative. */
  lemma ExpiredIsAboutExpired(t: Token, now: Instant)
    ensures t.IsExpired(now) ==> t.IsAboutExpired(now)
  {
  }

  /**
   * The stale header `Token.Update` leaves behind: after an update to a different
   * access token, the header sent with requests still carries the old one.
   */
  method StaleHeaderAfterUpdate(first: TokenResponse, second: TokenResponse, created: Instant, now: Instant)
    returns (sent: string, current: string)
    requires first.accessToken != second.accessToken
    ensures sent == BEARER + first.accessToken
    ensures current == second.accessToken
    ensures sent != BEARER + current
  {
    var t := new Token(first, created);
    t.Update(second, now);
    sent := t.authHeader.Str();
    current := t.AccessToken();
    assert RemovePrefix(sent, BEARER) == first.accessToken;
  }

  /** With the corrected update the header sent is the bearer text of the current token. */
  method CurrentHeaderAfterUpdate(first: TokenResponse, second: TokenResponse, created: Instant, now: Instant)
    returns (sent: string, current: string)
    ensures current == second.accessToken
    ensures sent == BEARER + current
  {
    var t := new Token(first, created);
    t.UpdateCorrected(second, now);
    sent := t.authHeader.Str();
    current := t.AccessToken();
  }
}
