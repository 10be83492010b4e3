/** Bearer credentials and process configuration.

    `jsonwebtoken`'s `sign` and `verify` are not modelled: a `Codec` carries them as two
    function values, and `RoundTrips` is the one property every member relies on (a token
    signed with a secret verifies, under that secret, to the payload it was signed with).
    Expiry (`expiresIn: '7d'`) is not modelled. */
module Jwt {
  import opened Base
  import opened Text

  /** The token payload: `userId`, `email` and, for some issuers, `plan`. */
  datatype Claims = Claims(userId: Option<nat>, email: string, plan: Option<string>)

  /** `jwt.sign(payload, secret)` and `jwt.verify(token, secret)` (`None` where `verify` throws). */
  datatype Codec = Codec(sign: (Claims, string) -> string, verify: (string, string) -> Option<Claims>)

  /** A token signed with secret `k` verifies under `k` to its own payload. */
  ghost predicate RoundTrips(c: Codec)
  {
    forall p: Claims, k: string :: c.verify(c.sign(p, k), k) == Some(p)
  }

  /** A token signed with one secret does not verify under another. */
  ghost predicate KeyBound(c: Codec)
  {
    forall p: Claims, k: string, k': string :: k != k' ==> c.verify(c.sign(p, k), k') == None
  }

  /** A signed token is a non-empty word (`jsonwebtoken` emits base64url segments joined by
      dots), so a `"Bearer <token>"` header splits into exactly two words. */
  ghost predicate Compact(c: Codec)
  {
    forall p: Claims, k: string :: c.sign(p, k) != "" && ' ' !in c.sign(p, k)
  }

  /** The process environment the handlers read: `JWT_SECRET`, `STRIPE_SECRET_KEY`,
      `GOOGLE_CLIENT_ID`. */
  datatype Env = Env(jwtSecret: Option<string>, stripeSecretKey: Option<string>, googleClientId: Option<string>)

  /** Fallback secret of controllers/AuthController.js and controllers/PaymentController.js. */
  const IssuerDefaultSecret: string := "seu_secret"

  /** Fallback secret of routes/recovery.js and routes/subscriptions.js. */
  const RouteDefaultSecret: string := "sua-chave-secreta-aqui"

  /** `process.env.JWT_SECRET || fallback`. */
  function Secret(env: Env, fallback: string): (k: string)
    ensures Present(env.jwtSecret) ==> k == env.jwtSecret.value
    ensures !Present(env.jwtSecret) ==> k == fallback
  {
    OrElse(env.jwtSecret, fallback)
  }

  /** The token after `"Bearer "` when the header is present and starts with it
      (`authHeader.substring(7)`), the way routes/recovery.js and routes/subscriptions.js read it. */
  function BearerToken(header: Option<string>): (t: Option<string>)
    ensures t.Some? <==> header.Some? && StartsWith(header.value, "Bearer ")
    ensures t.Some? ==> header.value == "Bearer " + t.value
  {
    if header.Some? && StartsWith(header.value, "Bearer ") then
      assert header.value == header.value[..7] + header.value[7..];
      Some(header.value[7..])
    else None
  }

  /** `req.headers.authorization?.split(' ')[1]`: the second word of the header, the way
      controllers/AuthController.js and the `/current` route read it. */
  function BearerWord(header: Option<string>): (w: Option<string>)
    ensures w.Some? ==> header.Some? && ' ' in header.value && ' ' !in w.value
  {
    if header.Some? then SecondField(header.value) else None
  }

  /** The header a client sends for a token. */
  function BearerHeader(token: string): string
  {
    "Bearer " + token
  }

  /** Reading back the header of a token gives the token. */
  lemma BearerHeaderRoundTrip(token: string)
    ensures BearerToken(Some(BearerHeader(token))) == Some(token)
  {
    assert BearerHeader(token)[..7] == "Bearer ";
  }

  /** With `JWT_SECRET` unset the two fallback secrets differ, so a token issued by the
      controllers never verifies in the routes, whatever it carries. */
  lemma DefaultSecretsDisagree(c: Codec, env: Env, p: Claims)
    requires KeyBound(c) && !Present(env.jwtSecret)
    ensures c.verify(c.sign(p, Secret(env, IssuerDefaultSecret)), Secret(env, RouteDefaultSecret)) == None
  {
    assert IssuerDefaultSecret != RouteDefaultSecret by {
      assert IssuerDefaultSecret[2] != RouteDefaultSecret[2];
    }
  }

  /** With `JWT_SECRET` set, every file signs and verifies with the same secret. */
  lemma ConfiguredSecretShared(c: Codec, env: Env, p: Claims)
    requires RoundTrips(c) && Present(env.jwtSecret)
    ensures c.verify(c.sign(p, Secret(env, IssuerDefaultSecret)), Secret(env, RouteDefaultSecret)) == Some(p)
  {
  }
}
