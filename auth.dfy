/**
 * The authorization header a PubControlClient sends: basic credentials win
 * over JWT credentials, and with neither there is no header. Base64
 * encoding, HS256 signing and the wall clock are outside the model and are
 * supplied as an `Environment`.
 */
module Auth {
  import opened Wrappers
  import opened Values

  /** A JWT signing key, as raw bytes. */
  type Key = Bytes

  /** A JWT claim set. */
  type Claims = Record

  /**
   * The foreign functions the header uses: Base64 of the UTF-8 bytes of a
   * string, the compact HS256 token for a claim set and key, and the current
   * time in milliseconds.
   */
  datatype Environment = Environment(
    base64: string -> string,
    signHs256: (Claims, Key) -> string,
    nowMillis: int)

  /** How long a generated token lives, in milliseconds. */
  const TokenLifetimeMillis: int := 3600 * 1000

  const ExpClaim: string := "exp"

  /** The prefix of a JWT header; there is no space between it and the token. */
  const BearerPrefix: string := "Bearer"

  /** The credential fields of a client; `None` is `null`. */
  datatype Credentials = Credentials(
    basicUser: Option<string>,
    basicPass: Option<string>,
    jwtClaim: Option<Claims>,
    jwtKey: Key)

  /** No credentials: the state of a new client. */
  function NoCredentials(): Credentials {
    Credentials(None, None, None, [])
  }

  predicate HasBasic(c: Credentials) {
    c.basicUser.Some? && c.basicPass.Some?
  }

  /** The configured claims carry an expiry: `get("exp")` is not `null`. */
  predicate HasExpiry(claims: Claims) {
    ExpClaim in claims && claims[ExpClaim] != Null
  }

  /**
   * The claims that are signed: a copy of the configured ones, with `exp`
   * set to one hour after `nowMillis` when the configured claims have none.
   */
  function SignedClaims(claims: Claims, nowMillis: int): (r: Claims)
    ensures r.Keys == claims.Keys + {ExpClaim}
    ensures forall k :: k in claims && k != ExpClaim ==> r[k] == claims[k]
    ensures HasExpiry(claims) ==> r == claims
    ensures !HasExpiry(claims) ==> r[ExpClaim] == Date(nowMillis + TokenLifetimeMillis)
  {
    if HasExpiry(claims) then claims
    else claims[ExpClaim := Date(nowMillis + TokenLifetimeMillis)]
  }

  /**
   * `genAuthHeader`: basic credentials give the Base64 of `user:pass` with no
   * scheme prefix; otherwise JWT claims give `Bearer` immediately followed by
   * the signed token; otherwise there is no header.
   */
  function AuthHeader(c: Credentials, env: Environment): (r: Option<string>)
    ensures r.Some? <==> HasBasic(c) || c.jwtClaim.Some?
    ensures HasBasic(c) ==> r == Some(env.base64(c.basicUser.value + ":" + c.basicPass.value))
    ensures !HasBasic(c) && c.jwtClaim.Some? ==>
              r == Some(BearerPrefix + env.signHs256(SignedClaims(c.jwtClaim.value, env.nowMillis), c.jwtKey))
  {
    if HasBasic(c) then
      Some(env.base64(c.basicUser.value + ":" + c.basicPass.value))
    else if c.jwtClaim.Some? then
      var token := env.signHs256(SignedClaims(c.jwtClaim.value, env.nowMillis), c.jwtKey);
      Some(BearerPrefix + token)
    else
      None
  }

  /**
   * The precedence is fixed: with basic credentials set, whatever JWT
   * credentials are stored beside them are ignored; with neither set there
   * is no header.
   */
  lemma BasicOverridesJwt(c: Credentials, claims: Option<Claims>, key: Key, env: Environment)
    requires HasBasic(c)
    ensures AuthHeader(c.(jwtClaim := claims, jwtKey := key), env) == AuthHeader(c, env)
  {
  }

  /**
   * A JWT header is never prefixed with `Bearer ` (with a space): the token
   * follows the six letters directly.
   */
  lemma JwtHeaderShape(c: Credentials, env: Environment)
    requires !HasBasic(c) && c.jwtClaim.Some?
    ensures AuthHeader(c, env).value[..|BearerPrefix|] == BearerPrefix
    ensures AuthHeader(c, env).value[|BearerPrefix|..]
            == env.signHs256(SignedClaims(c.jwtClaim.value, env.nowMillis), c.jwtKey)
  {
  }
}
