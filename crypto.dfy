/**
  Abstract stand-ins for the two foreign libraries the authentication code relies on:
  bcrypt password hashing (passlib) and signed JSON Web Tokens (python-jose).
  Both are idealised: a hash remembers what it was computed from, so that `Verify`
  can be stated exactly, and a token carries its claims plus whether it was signed
  with the server's secret key.
*/
module Crypto {
  import opened Wrappers

  /** A bcrypt digest. `salt` is the random salt bcrypt draws on every call. */
  datatype PasswordHash = PasswordHash(salt: nat, preimage: string)

  /** `Auth.get_password_hash`; the random salt is a parameter. */
  function Hash(password: string, salt: nat): (h: PasswordHash)
    ensures Verify(password, h)
  {
    PasswordHash(salt, password)
  }

  /** `Auth.verify_password`: does the plain password match the stored digest? */
  predicate Verify(plain: string, h: PasswordHash): (ok: bool)
    ensures ok <==> h == PasswordHash(h.salt, plain)
  {
    h.preimage == plain
  }

  /** A digest verifies exactly the password it was computed from, whatever the salt. */
  lemma VerifyHashExactly(password: string, candidate: string, salt: nat)
    ensures Verify(candidate, Hash(password, salt)) <==> candidate == password
  {
  }

  /**
    The claims of a token: subject (`sub`, nullable), `scope`, issued-at and expiry,
    both in integer seconds since the epoch.
  */
  datatype Claims = Claims(sub: Option<string>, scope: string, iat: int, exp: int)

  /**
    A token as presented by a client. `signedWithSecret` is false for anything that
    was not produced by `Encode` with the server's key (forged, truncated, garbage).
  */
  datatype Jwt = Jwt(claims: Claims, signedWithSecret: bool)

  /** `jwt.encode(claims, SECRET_KEY, algorithm=ALGORITHM)`. */
  function Encode(c: Claims): (t: Jwt)
    ensures t.signedWithSecret && t.claims == c
  {
    Jwt(c, true)
  }

  /**
    `jwt.decode(token, SECRET_KEY, algorithms=[ALGORITHM])`: `None` is a `JWTError`
    (bad signature or an `exp` already in the past at `now`).
  */
  function Decode(t: Jwt, now: int): (r: Option<Claims>)
    ensures r.Some? <==> t.signedWithSecret && now <= t.claims.exp
    ensures r.Some? ==> r.value == t.claims
  {
    if t.signedWithSecret && now <= t.claims.exp then Some(t.claims) else None
  }

  /** A token the server encoded decodes to its own claims until it expires, and never after. */
  lemma EncodeDecodeRoundTrip(c: Claims, now: int)
    ensures Decode(Encode(c), now) == (if now <= c.exp then Some(c) else None)
  {
  }

  /** Nothing unsigned ever decodes. */
  lemma ForgedNeverDecodes(t: Jwt, now: int)
    requires !t.signedWithSecret
    ensures Decode(t, now) == None
  {
  }
}
