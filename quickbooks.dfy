/**
 * The QuickBooks provider: client credentials, the OAuth2 client
 * configuration built once at construction, and the capabilities the
 * authentication framework calls (name, start of the flow, user projection,
 * refresh availability).
 */
module QuickBooks {
  import opened Wrappers
  import opened Sessions

  // Permission scopes of the QuickBooks API and of OpenID Connect.
  const ScopeAccounting := "com.intuit.quickbooks.accounting"
  const ScopePayment := "com.intuit.quickbooks.payment"
  const ScopeOpenID := "openid"
  const ScopeProfile := "profile"
  const ScopeEmail := "email"
  const ScopePhone := "phone"
  const ScopeAddress := "address"

  /** The scopes requested when the caller names none. */
  const DefaultScopes: seq<string> := [ScopeOpenID, ScopeProfile, ScopeEmail, ScopePhone]

  // The two environments currently use the same endpoints.
  const SandboxAuthURL := "https://appcenter.intuit.com/connect/oauth2"
  const SandboxTokenURL := "https://oauth.platform.intuit.com/oauth2/v1/tokens/bearer"
  const ProductionAuthURL := "https://appcenter.intuit.com/connect/oauth2"
  const ProductionTokenURL := "https://oauth.platform.intuit.com/oauth2/v1/tokens/bearer"

  datatype Endpoint = Endpoint(authURL: string, tokenURL: string)

  const SandboxEndpoint := Endpoint(SandboxAuthURL, SandboxTokenURL)
  const ProductionEndpoint := Endpoint(ProductionAuthURL, ProductionTokenURL)

  /** The OAuth2 client configuration handed to the transport library. */
  datatype OAuthConfig = OAuthConfig(
    clientID: string,
    clientSecret: string,
    redirectURL: string,
    endpoint: Endpoint,
    scopes: seq<string>)

  /** The framework's generic user record, restricted to the fields the provider fills. */
  datatype User = User(accessToken: string, provider: string, refreshToken: string)

  /**
   * The client configuration for a provider: its credentials, the endpoint
   * pair of the environment chosen by `isProd`, and the caller's scopes or,
   * when there are none, the default ones.
   */
  method NewConfig(provider: Provider, scopes: seq<string>, isProd: bool) returns (c: OAuthConfig)
    ensures c.clientID == provider.clientKey
    ensures c.clientSecret == provider.secret
    ensures c.redirectURL == provider.callbackURL
    ensures c.endpoint == if isProd then ProductionEndpoint else SandboxEndpoint
    ensures scopes == [] ==> c.scopes == DefaultScopes
    ensures scopes != [] ==> c.scopes == scopes
  {
    var authURL, tokenURL := ProductionAuthURL, ProductionTokenURL;
    if !isProd {
      authURL, tokenURL := SandboxAuthURL, SandboxTokenURL;
    }
    c := OAuthConfig(provider.clientKey, provider.secret, provider.callbackURL, Endpoint(authURL, tokenURL), scopes);
    if |c.scopes| == 0 {
      c := c.(scopes := DefaultScopes);
    }
  }

  class Provider {
    var clientKey: string
    var secret: string
    var callbackURL: string
    var config: OAuthConfig
    var providerName: string

    /**
     * A provider named "quickbooks"; the environment is read once, here, and
     * the endpoints chosen from it do not change afterwards.
     */
    constructor New(clientKey: string, secret: string, callbackURL: string, scopes: seq<string>, isProd: bool)
      ensures this.clientKey == clientKey && this.secret == secret && this.callbackURL == callbackURL
      ensures Name() == "quickbooks"
      ensures config.clientID == clientKey && config.clientSecret == secret && config.redirectURL == callbackURL
      ensures config.endpoint == if isProd then ProductionEndpoint else SandboxEndpoint
      ensures config.scopes == if scopes == [] then DefaultScopes else scopes
    {
      this.clientKey := clientKey;
      this.secret := secret;
      this.callbackURL := callbackURL;
      providerName := "quickbooks";
      new;
      config := NewConfig(this, scopes, isProd);
    }

    /**
     * The name the framework registers this provider under: `quickbooks`
     * after construction, then whatever `SetName` last gave it.
     */
    function Name(): (name: string)
      reads this
      ensures name == providerName
    {
      providerName
    }

    /** Renames the provider, to tell several instances apart; nothing else changes. */
    method SetName(name: string)
      modifies this`providerName
      ensures Name() == name
    {
      providerName := name;
    }

    /**
     * Starts the flow: a new session holding only the authorization URL that
     * the OAuth2 library builds from the configuration and `state`.
     */
    method BeginAuth(state: string, authCodeURL: (OAuthConfig, string) -> string)
      returns (r: Result<Session, AuthError>)
      ensures r.Ok? && fresh(r.value)
      ensures r.value.authURL == authCodeURL(config, state)
      ensures r.value.accessToken == "" && r.value.refreshToken == "" && r.value.idToken == ""
      ensures r.value.accessTokenExpiresAt == 0 && r.value.refreshTokenExpiresAt == 0
      ensures r.value.parsedIDToken == None
      ensures authCodeURL(config, state) != "" ==> r.value.GetAuthURL() == Ok(authCodeURL(config, state))
    {
      var url := authCodeURL(config, state);
      var session := new Session(url);
      return Ok(session);
    }

    /**
     * Projects the session's tokens and the provider's name into a user
     * record; the record is returned even when the access token is missing,
     * together with an error naming the provider.
     */
    function FetchUser(s: Session): (r: (User, Option<AuthError>))
      reads this, s
      ensures r.0.accessToken == s.accessToken
      ensures r.0.refreshToken == s.refreshToken
      ensures r.0.provider == Name()
      ensures r.1.Some? <==> s.accessToken == ""
      ensures r.1.Some? ==> r.1.value.IncompleteSession? && Name() <= r.1.value.message
    {
      var user := User(s.accessToken, Name(), s.refreshToken);
      if user.accessToken == "" then
        (user, Some(IncompleteSession(providerName + " cannot get user information without accessToken")))
      else
        (user, None)
    }

    /** The provider always reports that tokens can be refreshed. */
    function RefreshTokenAvailable(): (available: bool)
      ensures available
    {
      true
    }
  }
}
