/**
 * The Rapid API's signature authentication: the `Authorization` header text built
 * from the API key, the signature and the timestamp, and the token that holds such a
 * header for a fixed life span. The SHA-512 signature itself is computed outside
 * this model and arrives as text.
 */
module RapidAuth {
  import opened Wrappers
  import opened Text
  import opened PyDict
  import opened Clock

  const EAN := "EAN"
  const API_KEY := "APIKey"
  const SIGNATURE := "Signature"
  const TIMESTAMP := "timestamp"
  const AUTHORIZATION := "Authorization"

  /** The headers of an outgoing `requests` request. */
  type RequestHeaders = Dict<string, string>

  /** `RapidAuthHeader`: its three fields are set once, by the constructor. */
  datatype RapidAuthHeader = RapidAuthHeader(signature: string, apiKey: string, timestamp: string)
  {
    /** `__str__` */
    function Str(): (r: string)
      ensures StartsWith(r, EAN + " " + API_KEY + "=")
      ensures r == EAN + " " + API_KEY + "=" + apiKey + "," + SIGNATURE + "=" + signature + ","
                   + TIMESTAMP + "=" + timestamp
    {
      EAN + " " + API_KEY + "=" + apiKey + "," + SIGNATURE + "=" + signature + "," + TIMESTAMP + "=" + timestamp
    }

    /** `__call__`: the request's `Authorization` header becomes the header text; nothing else changes. */
    function Call(headers: RequestHeaders): (r: RequestHeaders)
      ensures Get(r, AUTHORIZATION) == Some(Str())
      ensures forall k :: k != AUTHORIZATION ==> Get(r, k) == Get(headers, k)
      ensures AUTHORIZATION in Keys(headers) ==> Keys(r) == Keys(headers)
    {
      Set(headers, AUTHORIZATION, Str())
    }

    /** The fields the text can be read back from: none of them holds a comma. */
    predicate Unambiguous() {
      ',' !in apiKey && ',' !in signature && ',' !in timestamp
    }
  }

  /**
   * Reads an `Authorization` value of the Rapid form back into its three fields: the
   * inverse of `RapidAuthHeader.Str` on comma-free fields.
   */
  function ParseAuthorization(s: string): Option<RapidAuthHeader>
  {
    var head := EAN + " " + API_KEY + "=";
    if !StartsWith(s, head) then None
    else
      var parts := Split(s[|head|..], ',');
      var sig := SIGNATURE + "=";
      var ts := TIMESTAMP + "=";
      if |parts| != 3 || !StartsWith(parts[1], sig) || !StartsWith(parts[2], ts) then None
      else Some(RapidAuthHeader(parts[1][|sig|..], parts[0], parts[2][|ts|..]))
  }

  /** The header text determines the header: parsing it gives the same three fields back. */
  lemma ParseStr(h: RapidAuthHeader)
    requires h.Unambiguous()
    ensures ParseAuthorization(h.Str()) == Some(h)
  {
    var head := EAN + " " + API_KEY + "=";
    var sigPrefix := SIGNATURE + "=";
    var tsPrefix := TIMESTAMP + "=";
    var sig := sigPrefix + h.signature;
    var ts := tsPrefix + h.timestamp;
    var rest := h.apiKey + [','] + sig + [','] + ts;
    var s := h.Str();
    assert s == head + rest;
    assert StartsWith(s, head);
    assert s[|head|..] == rest;
    assert ',' !in sigPrefix && ',' !in tsPrefix;
    SplitThree(h.apiKey, sig, ts);
    var parts := Split(rest, ',');
    assert parts == [h.apiKey, sig, ts];
    assert StartsWith(parts[1], sigPrefix) && parts[1][|sigPrefix|..] == h.signature;
    assert StartsWith(parts[2], tsPrefix) && parts[2][|tsPrefix|..] == h.timestamp;
  }

  lemma SplitThree(a: string, b: string, c: string)
    requires ',' !in a && ',' !in b && ',' !in c
    ensures Split(a + [','] + b + [','] + c, ',') == [a, b, c]
  {
    assert a + [','] + b + [','] + c == a + [','] + (b + [','] + c);
    SplitAtFirst(a, b + [','] + c, ',');
    SplitAtFirst(b, c, ',');
    SplitNone(c, ',');
  }

  /**
   * `RapidToken`: a header and the instant it stops being valid, a fixed life span
   * after it was stored.
   */
  class RapidToken {
    var authHeader: RapidAuthHeader
    var expirationTime: Instant

    /** `__init__(auth_header)`, at instant `now`. */
    constructor (authHeader: RapidAuthHeader, now: Instant)
      ensures this.authHeader == authHeader
      ensures expirationTime == now + Seconds(RAPID_TOKEN_LIFE_SPAN_IN_SECONDS)
    {
      this.authHeader := authHeader;
      expirationTime := now + Seconds(RAPID_TOKEN_LIFE_SPAN_IN_SECONDS);
    }

    /** `update(auth_header)`, at instant `now`: a new header and a restarted life span. */
    method Update(authHeader: RapidAuthHeader, now: Instant)
      modifies this
      ensures this.authHeader == authHeader
      ensures expirationTime == now + Seconds(RAPID_TOKEN_LIFE_SPAN_IN_SECONDS)
      ensures AccessToken() == authHeader.Str()
      ensures !IsAboutExpired(now)
    {
      this.authHeader := authHeader;
      expirationTime := now + Seconds(RAPID_TOKEN_LIFE_SPAN_IN_SECONDS);
    }

    /** `is_expired()` at instant `now` */
    predicate IsExpired(now: Instant)
      reads this
    {
      now >= expirationTime
    }

    /** `is_about_expired()` at instant `now`: expired within the refresh gap. */
    predicate IsAboutExpired(now: Instant)
      reads this
    {
      now + Seconds(REFRESH_TOKEN_TIME_GAP_IN_SECONDS) >= expirationTime
    }

    /** `access_token`: the text of the stored header. */
    function AccessToken(): (r: string)
      reads this
      ensures StartsWith(r, EAN + " " + API_KEY + "=")
      ensures authHeader.Unambiguous() ==> ParseAuthorization(r) == Some(authHeader)
    {
      ParseStr'(authHeader);
      authHeader.Str()
    }
  }

  lemma ParseStr'(h: RapidAuthHeader)
    ensures h.Unambiguous() ==> ParseAuthorization(h.Str()) == Some(h)
  {
    if h.Unambiguous() {
      ParseStr(h);
    }
  }

  /** An expired token is about to expire as well: the refresh gap is not negative. */
  lemma ExpiredIsAboutExpired(t: RapidToken, now: Instant)
    ensures t.IsExpired(now) ==> t.IsAboutExpired(now)
  {
  }

  /**
   * A token stays valid, and is not yet about to expire, from the instant it is
   * stored until the refresh gap before its life span ends.
   */
  lemma FreshToken(t: RapidToken, stored: Instant, now: Instant)
    requires t.expirationTime == stored + Seconds(RAPID_TOKEN_LIFE_SPAN_IN_SECONDS)
    requires stored <= now < stored + Seconds(RAPID_TOKEN_LIFE_SPAN_IN_SECONDS - REFRESH_TOKEN_TIME_GAP_IN_SECONDS)
    ensures !t.IsExpired(now) && !t.IsAboutExpired(now)
  {
  }

  /** Five seconds before the end of its life span a token is about to expire but not expired. */
  lemma FiveSecondsLeft(t: RapidToken, now: Instant)
    requires t.expirationTime == now + Seconds(5)
    ensures t.IsAboutExpired(now) && !t.IsExpired(now)
  {
  }

  /** Five seconds after the end of its life span a token is expired, hence about to expire. */
  lemma FiveSecondsOver(t: RapidToken, now: Instant)
    requires t.expirationTime == now - Seconds(5)
    ensures t.IsAboutExpired(now) && t.IsExpired(now)
  {
  }
}
