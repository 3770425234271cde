/**
  The token rules of the `Auth` service (src/services/auth.py): each constructor
  stamps a fixed scope and a lifetime onto the subject claim, and each verifier
  accepts one scope. Time is integer seconds since the epoch, passed in as `now`.
*/
module AuthTokens {
  import opened Wrappers
  import opened Http
  import opened Crypto

  const ACCESS_SCOPE := "access_token"
  const REFRESH_SCOPE := "refresh_token"
  const EMAIL_SCOPE := "email_token"

  /** 15 minutes. */
  const ACCESS_DEFAULT_TTL := 15 * 60
  /** 7 days. */
  const REFRESH_DEFAULT_TTL := 7 * 24 * 60 * 60
  /** 3 days. */
  const EMAIL_TTL := 3 * 24 * 60 * 60

  /** `if expires_delta:` chooses the given number of seconds; `None` and `0` are falsy and give the default. */
  function Lifetime(expiresDelta: Option<int>, default: int): int
  {
    if expiresDelta.Some? && expiresDelta.value != 0 then expiresDelta.value else default
  }

  /** `create_access_token({"sub": sub}, expires_delta)`. */
  function CreateAccessToken(sub: string, expiresDelta: Option<int>, now: int): (t: Jwt)
    ensures t.signedWithSecret
    ensures t.claims.sub == Some(sub) && t.claims.scope == ACCESS_SCOPE && t.claims.iat == now
    ensures expiresDelta.None? || expiresDelta == Some(0) ==> t.claims.exp == now + 900
    ensures expiresDelta.Some? && expiresDelta.value != 0 ==> t.claims.exp == now + expiresDelta.value
  {
    Encode(Claims(Some(sub), ACCESS_SCOPE, now, now + Lifetime(expiresDelta, ACCESS_DEFAULT_TTL)))
  }

  /** `create_refresh_token({"sub": sub}, expires_delta)` as written: it stamps the email scope. */
  function CreateRefreshToken(sub: string, expiresDelta: Option<int>, now: int): (t: Jwt)
    ensures t.signedWithSecret
    ensures t.claims.sub == Some(sub) && t.claims.scope == EMAIL_SCOPE && t.claims.iat == now
    ensures expiresDelta.None? || expiresDelta == Some(0) ==> t.claims.exp == now + 604800
    ensures expiresDelta.Some? && expiresDelta.value != 0 ==> t.claims.exp == now + expiresDelta.value
  {
    Encode(Claims(Some(sub), EMAIL_SCOPE, now, now + Lifetime(expiresDelta, REFRESH_DEFAULT_TTL)))
  }

  /** `create_refresh_token` as its verifier and docstring intend it: the refresh scope. */
  function CreateRefreshTokenIntended(sub: string, expiresDelta: Option<int>, now: int): (t: Jwt)
    ensures t.signedWithSecret
    ensures t.claims.sub == Some(sub) && t.claims.scope == REFRESH_SCOPE && t.claims.iat == now
    ensures t.claims.exp == now + Lifetime(expiresDelta, REFRESH_DEFAULT_TTL)
  {
    Encode(Claims(Some(sub), REFRESH_SCOPE, now, now + Lifetime(expiresDelta, REFRESH_DEFAULT_TTL)))
  }

  /** `create_email_token({"sub": sub})`: three days, email scope. */
  function CreateEmailToken(sub: string, now: int): (t: Jwt)
    ensures t.signedWithSecret
    ensures t.claims == Claims(Some(sub), EMAIL_SCOPE, now, now + 259200)
  {
    Encode(Claims(Some(sub), EMAIL_SCOPE, now, now + EMAIL_TTL))
  }

  /** `decode_refresh_token(token)`: the subject of a decodable refresh-scoped token, otherwise 401. */
  function DecodeRefreshToken(t: Jwt, now: int): (r: Result<Option<string>, HttpError>)
    ensures r.Ok? <==> t.signedWithSecret && now <= t.claims.exp && t.claims.scope == REFRESH_SCOPE
    ensures r.Ok? ==> r.value == t.claims.sub
    ensures r.Err? ==> r.error.status == UNAUTHORIZED
  {
    match Decode(t, now)
    case None => Err(HttpError(UNAUTHORIZED, "Could not validate credentials"))
    case Some(c) =>
      if c.scope == REFRESH_SCOPE then Ok(c.sub)
      else Err(HttpError(UNAUTHORIZED, "Invalid scope for token"))
  }

  /** `get_email_from_token(token)`: the subject of a decodable email-scoped token; 401 on another scope, 422 when it does not decode. */
  function GetEmailFromToken(t: Jwt, now: int): (r: Result<Option<string>, HttpError>)
    ensures r.Ok? <==> t.signedWithSecret && now <= t.claims.exp && t.claims.scope == EMAIL_SCOPE
    ensures r.Ok? ==> r.value == t.claims.sub
    ensures r.Err? ==> r.error.status == (if t.signedWithSecret && now <= t.claims.exp then UNAUTHORIZED else UNPROCESSABLE_ENTITY)
  {
    match Decode(t, now)
    case None => Err(HttpError(UNPROCESSABLE_ENTITY, "Invalid token for email verification"))
    case Some(c) =>
      if c.scope == EMAIL_SCOPE then Ok(c.sub)
      else Err(HttpError(UNAUTHORIZED, "Invalid scope for token"))
  }

  /** The token check at the start of `get_current_user`: a decodable access token with a subject, otherwise 401. */
  function AccessTokenSubject(t: Jwt, now: int): (r: Result<string, HttpError>)
    ensures r.Ok? <==> t.signedWithSecret && now <= t.claims.exp && t.claims.scope == ACCESS_SCOPE && t.claims.sub.Some?
    ensures r.Ok? ==> t.claims.sub == Some(r.value)
    ensures r.Err? ==> r.error == HttpError(UNAUTHORIZED, "Could not validate credentials")
  {
    match Decode(t, now)
    case None => Err(HttpError(UNAUTHORIZED, "Could not validate credentials"))
    case Some(c) =>
      if c.scope == ACCESS_SCOPE && c.sub.Some? then Ok(c.sub.value)
      else Err(HttpError(UNAUTHORIZED, "Could not validate credentials"))
  }

  // ---------------------------------------------------------------------------
  // Which verifier accepts which token
  // ---------------------------------------------------------------------------

  /** Each verifier accepts exactly the signed, unexpired tokens of its own scope. */
  lemma VerifiersAcceptOneScope(t: Jwt, now: int)
    ensures DecodeRefreshToken(t, now).Ok? <==> (Decode(t, now).Some? && t.claims.scope == REFRESH_SCOPE)
    ensures GetEmailFromToken(t, now).Ok? <==> (Decode(t, now).Some? && t.claims.scope == EMAIL_SCOPE)
    ensures AccessTokenSubject(t, now).Ok? <==> (Decode(t, now).Some? && t.claims.scope == ACCESS_SCOPE && t.claims.sub.Some?)
    ensures DecodeRefreshToken(t, now).Ok? ==> DecodeRefreshToken(t, now).value == t.claims.sub
    ensures GetEmailFromToken(t, now).Ok? ==> GetEmailFromToken(t, now).value == t.claims.sub
    ensures AccessTokenSubject(t, now).Ok? ==> Some(AccessTokenSubject(t, now).value) == t.claims.sub
  {
  }

  /** Failures are 401, except an undecodable token at the email check, which is 422. */
  lemma VerifierErrorCodes(t: Jwt, now: int)
    ensures DecodeRefreshToken(t, now).Err? ==> DecodeRefreshToken(t, now).error.status == UNAUTHORIZED
    ensures AccessTokenSubject(t, now).Err? ==> AccessTokenSubject(t, now).error.status == UNAUTHORIZED
    ensures GetEmailFromToken(t, now).Err? ==>
              GetEmailFromToken(t, now).error.status == (if Decode(t, now).None? then UNPROCESSABLE_ENTITY else UNAUTHORIZED)
  {
  }

  /** An access token authenticates its subject up to and including its expiry second, and never after. */
  lemma AccessTokenAcceptedUntilExpiry(sub: string, expiresDelta: Option<int>, issued: int, now: int)
    ensures var t := CreateAccessToken(sub, expiresDelta, issued);
            AccessTokenSubject(t, now) ==
              (if now <= issued + Lifetime(expiresDelta, ACCESS_DEFAULT_TTL) then Ok(sub)
               else Err(HttpError(UNAUTHORIZED, "Could not validate credentials")))
  {
  }

  /** An email token confirms its subject for three days, and after that is a 422. */
  lemma EmailTokenAcceptedUntilExpiry(sub: string, issued: int, now: int)
    ensures GetEmailFromToken(CreateEmailToken(sub, issued), now) ==
              (if now <= issued + EMAIL_TTL then Ok(Some(sub))
               else Err(HttpError(UNPROCESSABLE_ENTITY, "Invalid token for email verification")))
  {
  }

  /** The defect: no token that `create_refresh_token` issues is ever accepted by `decode_refresh_token`. */
  lemma IssuedRefreshTokenRejected(sub: string, expiresDelta: Option<int>, issued: int, now: int)
    ensures DecodeRefreshToken(CreateRefreshToken(sub, expiresDelta, issued), now).Err?
    ensures DecodeRefreshToken(CreateRefreshToken(sub, expiresDelta, issued), now).error.status == UNAUTHORIZED
  {
  }

  /** The defect, other side: every unexpired refresh token passes the email-confirmation check. */
  lemma IssuedRefreshTokenPassesEmailCheck(sub: string, expiresDelta: Option<int>, issued: int, now: int)
    requires now <= issued + Lifetime(expiresDelta, REFRESH_DEFAULT_TTL)
    ensures GetEmailFromToken(CreateRefreshToken(sub, expiresDelta, issued), now) == Ok(Some(sub))
  {
  }

  /** With the intended scope, a refresh token decodes to its subject until it expires, and is refused by the email check. */
  lemma IntendedRefreshTokenRoundTrip(sub: string, expiresDelta: Option<int>, issued: int, now: int)
    ensures var t := CreateRefreshTokenIntended(sub, expiresDelta, issued);
            DecodeRefreshToken(t, now) ==
              (if now <= issued + Lifetime(expiresDelta, REFRESH_DEFAULT_TTL) then Ok(Some(sub))
               else Err(HttpError(UNAUTHORIZED, "Could not validate credentials")))
    ensures GetEmailFromToken(CreateRefreshTokenIntended(sub, expiresDelta, issued), now).Err?
  {
  }

  /** No issued token of any kind authenticates as an access token except an access token. */
  lemma OnlyAccessTokensAuthenticate(sub: string, expiresDelta: Option<int>, issued: int, now: int)
    ensures AccessTokenSubject(CreateRefreshToken(sub, expiresDelta, issued), now).Err?
    ensures AccessTokenSubject(CreateRefreshTokenIntended(sub, expiresDelta, issued), now).Err?
    ensures AccessTokenSubject(CreateEmailToken(sub, issued), now).Err?
  {
  }
}
