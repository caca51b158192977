/**
 * Client configuration: the authentication settings, which refuse empty credentials
 * or an empty token endpoint, and the client settings built on top of them. The
 * default URLs of the `url` constant module are not part of this model; each is
 * a parameter named after the constant it stands for.
 */
module Configuration {
  import opened Wrappers
  import opened Text

  /** `Credentials`: a client key and secret. */
  datatype Credentials = Credentials(key: string, secret: string)

  /** `DEFAULT_CREDENTIALS`: both halves are the empty string. */
  const DEFAULT_CREDENTIALS := Credentials("", "")

  /** The configuration exception, with the names of the empty settings in the order checked. */
  datatype ConfigurationException = ConfigurationException(missing: seq<string>) | EmptyEndpoint

  /** The three settings `__post_init__` checks, in order, with their names. */
  function Checked(credentials: Credentials, authEndpoint: string): seq<(string, string)>
  {
    [("Key", credentials.key), ("Secret", credentials.secret), ("Auth_Endpoint", authEndpoint)]
  }

  /** The names of the checked settings that are empty, in the order of `Checked`. */
  function Missing(attributes: seq<(string, string)>): (r: seq<string>)
    ensures |r| <= |attributes|
    decreases |attributes|
  {
    if attributes == [] then []
    else
      var m := Missing(attributes[..|attributes| - 1]);
      var (name, value) := attributes[|attributes| - 1];
      if value == "" then m + [name] else m
  }

  /** What the missing list says about each setting, both ways. */
  lemma MissingOfChecked(credentials: Credentials, authEndpoint: string)
    ensures var m := Missing(Checked(credentials, authEndpoint));
      ("Key" in m <==> credentials.key == "") &&
      ("Secret" in m <==> credentials.secret == "") &&
      ("Auth_Endpoint" in m <==> authEndpoint == "") &&
      (m == [] <==> credentials.key != "" && credentials.secret != "" && authEndpoint != "") &&
      (credentials.key == "" ==> m[0] == "Key") &&
      (authEndpoint == "" ==> m[|m| - 1] == "Auth_Endpoint")
  {
    MissingOfCheckedIs(credentials, authEndpoint);
  }

  /** The missing list written out: one entry per empty setting, in the order checked. */
  lemma MissingOfCheckedIs(credentials: Credentials, authEndpoint: string)
    ensures Missing(Checked(credentials, authEndpoint)) ==
            (if credentials.key == "" then ["Key"] else []) +
            (if credentials.secret == "" then ["Secret"] else []) +
            (if authEndpoint == "" then ["Auth_Endpoint"] else [])
  {
    var a := Checked(credentials, authEndpoint);
    var k := if credentials.key == "" then ["Key"] else [];
    var s := if credentials.secret == "" then ["Secret"] else [];
    assert a[..1][..0] == [];
    assert Missing(a[..1]) == k;
    assert a[..2][..1] == a[..1];
    assert Missing(a[..2]) == k + s;
    assert a[..3][..2] == a[..2];
    assert a[..3] == a;
  }

  /** `AuthConfig`: its two settings are set once, by the constructor. */
  datatype AuthConfig = AuthConfig(credentials: Credentials, authEndpoint: string)

  /**
   * `AuthConfig(credentials, auth_endpoint)`: the constructor followed by
   * `__post_init__`, which raises when the key, the secret or the endpoint is empty.
   * The properties give back the inputs unchanged.
   */
  method NewAuthConfig(credentials: Credentials, authEndpoint: string)
    returns (r: Result<AuthConfig, ConfigurationException>)
    ensures r.Ok? <==> credentials.key != "" && credentials.secret != "" && authEndpoint != ""
    ensures r.Ok? ==> r.value == AuthConfig(credentials, authEndpoint)
    ensures r.Err? ==> r.error == ConfigurationException(Missing(Checked(credentials, authEndpoint)))
  {
    var attributes := Checked(credentials, authEndpoint);
    var missing: seq<string> := [];
    for i := 0 to |attributes|
      invariant missing == Missing(attributes[..i])
    {
      assert attributes[..i + 1][..i] == attributes[..i];
      if attributes[i].1 == "" {
        missing := missing + [attributes[i].0];
      }
    }
    assert attributes[..|attributes|] == attributes;
    MissingOfChecked(credentials, authEndpoint);
    if |missing| > 0 {
      return Err(ConfigurationException(missing));
    }
    return Ok(AuthConfig(credentials, authEndpoint));
  }

  /** `AuthConfig()` raises: the default credentials are empty, so `Key` and `Secret` are reported. */
  lemma DefaultCredentialsRaise(authEndpoint: string)
    ensures Missing(Checked(DEFAULT_CREDENTIALS, authEndpoint)) ==
            ["Key", "Secret"] + (if authEndpoint == "" then ["Auth_Endpoint"] else [])
  {
    MissingOfCheckedIs(DEFAULT_CREDENTIALS, authEndpoint);
  }

  /** `ClientConfig`, the timeout aside. */
  datatype ClientConfig = ClientConfig(authConfig: AuthConfig, endpoint: string)

  /**
   * `ClientConfig(key, secret, endpoint, request_timeout_milliseconds, auth_endpoint)`.
   * An omitted `endpoint` or `auth_endpoint` is `None` here and takes the default
   * (`ENDPOINT`, `AUTH_ENDPOINT`); a given empty text (or an explicit Python `None`,
   * falsy in the same way) is `Some("")`. The authentication settings are built
   * first, so their exception wins over an empty endpoint.
   */
  method NewClientConfig(key: string, secret: string, endpoint: Option<string>, authEndpoint: Option<string>,
                         ENDPOINT: string, AUTH_ENDPOINT: string)
    returns (r: Result<ClientConfig, ConfigurationException>)
    ensures var e := endpoint.GetOr(ENDPOINT);
      var a := authEndpoint.GetOr(AUTH_ENDPOINT);
      (r.Ok? <==> key != "" && secret != "" && a != "" && e != "") &&
      (r.Ok? ==> r.value == ClientConfig(AuthConfig(Credentials(key, secret), a), e)) &&
      (Missing(Checked(Credentials(key, secret), a)) != [] ==>
         r == Err(ConfigurationException(Missing(Checked(Credentials(key, secret), a))))) &&
      (Missing(Checked(Credentials(key, secret), a)) == [] && e == "" ==> r == Err(EmptyEndpoint))
  {
    var a := authEndpoint.GetOr(AUTH_ENDPOINT);
    var auth := NewAuthConfig(Credentials(key, secret), a);
    MissingOfChecked(Credentials(key, secret), a);
    if auth.Err? {
      return Err(auth.error);
    }
    var e := endpoint.GetOr(ENDPOINT);
    if e == "" {
      return Err(EmptyEndpoint);
    }
    return Ok(ClientConfig(auth.value, e));
  }
}
