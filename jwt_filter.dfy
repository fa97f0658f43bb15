/** The per-request authentication step of
    backend/.../config/JwtAuthenticationFilter.java: a bearer token in the
    `Authorization` header (section 2.1 of RFC 6750) authenticates the
    request when the token names a user who loads and the token is valid for
    that user. Token parsing, token validation and the user lookup are
    functions passed in; an exception they throw is an `Err`. */
module JwtFilter {
  import opened Base
  import opened Text

  const BearerPrefix: string := "Bearer "

  /** What `loadUserByUsername` returns, as far as the filter uses it. */
  datatype UserDetails = UserDetails(username: string, authorities: seq<string>)

  /** The `UsernamePasswordAuthenticationToken` put in the security context. */
  datatype Authentication = Authentication(principal: UserDetails, authorities: seq<string>)

  /** The token services the filter calls. */
  datatype TokenServices = TokenServices(
    extractUsername: string -> Result<Option<string>, string>,
    loadUserByUsername: string -> Result<UserDetails, string>,
    isTokenValid: (string, UserDetails) -> bool)

  /** `authHeader.startsWith("Bearer ")`. */
  predicate IsBearer(header: Option<string>) {
    header.Some? && StartsWith(header.value, BearerPrefix)
  }

  /** `authHeader.substring(7)`. */
  function BearerToken(header: string): (token: string)
    requires StartsWith(header, BearerPrefix)
    ensures header == BearerPrefix + token
  {
    assert header == header[..7] + header[7..];
    header[7..]
  }

  /** The token is read back exactly as a client writes it. */
  lemma BearerTokenRoundTrip(token: string)
    ensures StartsWith(BearerPrefix + token, BearerPrefix)
    ensures BearerToken(BearerPrefix + token) == token
  {
    assert (BearerPrefix + token)[..7] == BearerPrefix;
  }

  /** The authentication a request with no prior authentication earns: a
      bearer header whose token names a user who loads, and for whom the
      token is valid. */
  function Earned(header: Option<string>, services: TokenServices): (r: Option<Authentication>)
    ensures r.Some? ==> IsBearer(header)
    ensures r.Some? ==>
              var token := BearerToken(header.value);
              && services.extractUsername(token).Ok?
              && services.extractUsername(token).value.Some?
              && var user := services.loadUserByUsername(services.extractUsername(token).value.value);
              && user.Ok? && services.isTokenValid(token, user.value)
              && r.value == Authentication(user.value, user.value.authorities)
    ensures IsBearer(header) ==>
              var token := BearerToken(header.value);
              (services.extractUsername(token).Ok? && services.extractUsername(token).value.Some?
               && services.loadUserByUsername(services.extractUsername(token).value.value).Ok?
               && services.isTokenValid(token, services.loadUserByUsername(services.extractUsername(token).value.value).value))
              ==> r.Some?
  {
    if !IsBearer(header) then None
    else
      var token := BearerToken(header.value);
      match services.extractUsername(token)
      case Err(_) => None
      case Ok(None) => None
      case Ok(Some(email)) =>
        match services.loadUserByUsername(email)
        case Err(_) => None
        case Ok(user) =>
          if services.isTokenValid(token, user) then Some(Authentication(user, user.authorities)) else None
  }

  /** The request's security context and the rest of the filter chain, which
      the filter hands the request to. */
  class FilterState {
    var authentication: Option<Authentication>
    /** How often the rest of the chain has been run. */
    var chainCalls: nat

    constructor (authentication: Option<Authentication>)
      ensures this.authentication == authentication && chainCalls == 0
    {
      this.authentication := authentication;
      this.chainCalls := 0;
    }

    /** `filterChain.doFilter`. */
    method ContinueChain()
      modifies this`chainCalls
      ensures chainCalls == old(chainCalls) + 1
    {
      chainCalls := chainCalls + 1;
    }

    /** `doFilterInternal`. */
    method DoFilterInternal(header: Option<string>, services: TokenServices)
      modifies this
      // the chain runs exactly once on every path
      ensures chainCalls == old(chainCalls) + 1
      // an existing authentication is never replaced
      ensures old(authentication).Some? ==> authentication == old(authentication)
      // otherwise the request is authenticated exactly when it earns it
      ensures old(authentication).None? ==> authentication == Earned(header, services)
    {
      if header.None? || !StartsWith(header.value, BearerPrefix) {
        ContinueChain();
        return;
      }
      var jwt := BearerToken(header.value);
      var extracted := services.extractUsername(jwt);
      if extracted.Err? {
        ContinueChain();
        return;
      }
      var userEmail := extracted.value;
      if userEmail.Some? && authentication.None? {
        var loaded := services.loadUserByUsername(userEmail.value);
        if loaded.Ok? {
          var userDetails := loaded.value;
          var isTokenValid := services.isTokenValid(jwt, userDetails);
          if isTokenValid {
            authentication := Some(Authentication(userDetails, userDetails.authorities));
          }
        }
      }
      ContinueChain();
    }
  }

  /** A request with no or a non-bearer header is passed on unauthenticated,
      whatever the token services say. */
  lemma NonBearerEarnsNothing(header: Option<string>, services: TokenServices)
    requires !IsBearer(header)
    ensures Earned(header, services).None?
  {
  }

  /** A token that fails to parse, or names no user, earns nothing. */
  lemma UnreadableTokenEarnsNothing(token: string, services: TokenServices)
    requires services.extractUsername(token).Err? || services.extractUsername(token) == Ok(None)
    ensures Earned(Some(BearerPrefix + token), services).None?
  {
    BearerTokenRoundTrip(token);
  }
}
