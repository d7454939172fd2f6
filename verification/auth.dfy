/** Issue and validation of the session token (a JSON Web Token signed with
    HS256 under a key fixed in the process).

    The signature is not computed: a token is either `Signed(payload, key,
    algorithm)`, a well-formed token whose signature was produced with `key`
    under `algorithm`, or `Malformed`, anything the decoder cannot parse. A
    missing `Token` header is `None`. Only the key holder can produce a
    `Signed` token with `PRIVATE_KEY`, which is the one fact about HMAC the
    model relies on. */
module Auth {
  import opened Common
  import opened Usuarios

  const ALGORITHM: string := "HS256"
  const PRIVATE_KEY: string := "hv5!7Fo*k55aX21myW$th37$d90Ugg3@lb"

  /** `timedelta(days=30)`, in seconds. */
  const TOKEN_LIFETIME: int := 30 * 24 * 60 * 60

  /** The claims `gerar_token` signs. `exp` is the expiry instant. */
  datatype Payload = Payload(id: int, nome: string, email: string, exp: Instant)

  datatype Token =
    | Signed(payload: Payload, key: string, algorithm: string)
    | Malformed(raw: string)

  /** `jwt.ExpiredSignatureError`, and every other decoding error
      (bad signature, disallowed algorithm, undecodable input, no token). */
  datatype TokenError = ExpiredSignature | InvalidToken

  datatype Validation = Valid(payload: Payload) | Rejected(error: TokenError)

  /** `gerar_token(usuario)` at instant `now`. */
  function GerarToken(u: Usuario, now: Instant): (t: Token)
    ensures t.Signed? && t.key == PRIVATE_KEY && t.algorithm == ALGORITHM
    ensures t.payload.id == u.id && t.payload.nome == u.nome && t.payload.email == u.email
    ensures t.payload.exp == now + TOKEN_LIFETIME
  {
    Signed(Payload(u.id, u.nome, u.email, now + TOKEN_LIFETIME), PRIVATE_KEY, ALGORITHM)
  }

  /** `validar_token(token)` at instant `now`. As in the decoder, the
      signature and algorithm are checked first and expiry only after them;
      a token expires at the instant `exp` itself. The expiry error is
      re-raised as `ExpiredSignatureError` and every other error propagates
      unchanged, so both kinds stay distinguishable. */
  function ValidarToken(header: Option<Token>, now: Instant): (r: Validation)
    ensures r.Valid? ==> header == Some(Signed(r.payload, PRIVATE_KEY, ALGORITHM))
    ensures r.Valid? ==> now < r.payload.exp
    ensures r == Rejected(ExpiredSignature) ==>
              header.Some? && header.value.Signed? && header.value.key == PRIVATE_KEY &&
              header.value.algorithm == ALGORITHM && header.value.payload.exp <= now
  {
    match header
    case None => Rejected(InvalidToken)
    case Some(Malformed(_)) => Rejected(InvalidToken)
    case Some(Signed(p, key, alg)) =>
      if key != PRIVATE_KEY || alg != ALGORITHM then Rejected(InvalidToken)
      else if p.exp <= now then Rejected(ExpiredSignature)
      else Valid(p)
  }

  /** Round trip: a token issued at `issued` validates, at every instant
      before its expiry, to exactly the user's id, nome and email with
      `exp == issued + 30 days`. */
  lemma TokenRoundTrip(u: Usuario, issued: Instant, now: Instant)
    requires now < issued + TOKEN_LIFETIME
    ensures ValidarToken(Some(GerarToken(u, issued)), now)
            == Valid(Payload(u.id, u.nome, u.email, issued + TOKEN_LIFETIME))
  {
  }

  /** From its expiry on, an issued token is rejected as expired although its
      signature is good. */
  lemma IssuedTokenExpires(u: Usuario, issued: Instant, now: Instant)
    requires issued + TOKEN_LIFETIME <= now
    ensures ValidarToken(Some(GerarToken(u, issued)), now) == Rejected(ExpiredSignature)
  {
  }

  /** Token lifecycle: validity only ever ends by the clock passing `exp`.
      A token valid at `later` was valid at every earlier instant with the
      same payload, and an expired token stays expired. */
  lemma ValidityIsMonotone(header: Option<Token>, earlier: Instant, later: Instant)
    requires earlier <= later
    ensures ValidarToken(header, later).Valid? ==> ValidarToken(header, earlier) == ValidarToken(header, later)
    ensures ValidarToken(header, earlier) == Rejected(ExpiredSignature) ==>
              ValidarToken(header, later) == Rejected(ExpiredSignature)
  {
  }

  /** A token not produced with `PRIVATE_KEY` under HS256, an undecodable
      token and a missing header are all rejected with a non-expiry error at
      every instant, whatever their claimed expiry. */
  lemma ForeignTokensAreInvalid(header: Option<Token>, now: Instant)
    requires header.None? || header.value.Malformed? ||
             header.value.key != PRIVATE_KEY || header.value.algorithm != ALGORITHM
    ensures ValidarToken(header, now) == Rejected(InvalidToken)
  {
  }
}
