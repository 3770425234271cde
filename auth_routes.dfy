/**
  The decision logic of the authentication routes (src/routes/auth.py): guard
  checks on the user table followed by in-place updates through the user
  repository. Each route is a spec function over the table's rows, giving the
  response and the rows afterwards, and a method that runs the handler's steps
  against a `UserTable` and is proved to agree with it. Sending the confirmation
  email is left out.
*/
module AuthRoutes {
  import opened Wrappers
  import opened Http
  import opened Crypto
  import opened AuthTokens
  import opened UserRepository

  /** The `UserModel` body of `/signup`, with the plain password. */
  datatype SignupRequest = SignupRequest(username: string, email: string, password: string)

  /** The OAuth2 password form of `/login`; `username` carries the email. */
  datatype LoginForm = LoginForm(username: string, password: string)

  datatype TokenPair = TokenPair(accessToken: Jwt, refreshToken: Jwt, tokenType: string)

  /** `expires_delta=7200` at login. */
  const LOGIN_ACCESS_TTL := 7200

  const ALREADY_CONFIRMED := "Your email is already confirmed"
  const EMAIL_CONFIRMED := "Email confirmed"

  /** `get_user_by_email(payload['sub'])`; a null subject compares `email IS NULL` and finds no one. */
  function UserForSubject(rows: seq<User>, sub: Option<string>): Option<User>
  {
    if sub.None? then None else FindByEmail(rows, sub.value)
  }

  /** `signup`: the response and the rows afterwards. */
  function SignupSpec(rows: seq<User>, nextId: nat, req: SignupRequest, salt: nat, now: int)
    : (Result<User, HttpError>, seq<User>)
  {
    if FindByEmail(rows, req.email).Some? then
      (Err(HttpError(CONFLICT, "Account already exists")), rows)
    else
      var u := User(nextId, req.username, req.email, Hash(req.password, salt), now, false, None, None);
      (Ok(u), rows + [u])
  }

  /**
    Which constructor the routes mint refresh tokens with: `create_refresh_token` as
    written (the email scope) or as its verifier intends it (the refresh scope).
  */
  datatype RefreshMint = AsWritten | Intended

  /** The refresh token login and refresh issue, with the default 7-day lifetime. */
  function MintRefreshToken(m: RefreshMint, email: string, now: int): (t: Jwt)
    ensures t.signedWithSecret && t.claims.sub == Some(email) && t.claims.iat == now
    ensures t.claims.exp == now + REFRESH_DEFAULT_TTL
    ensures t.claims.scope == (if m.AsWritten? then EMAIL_SCOPE else REFRESH_SCOPE)
  {
    match m
    case AsWritten => CreateRefreshToken(email, None, now)
    case Intended => CreateRefreshTokenIntended(email, None, now)
  }

  /** `login`, minting its refresh token with `m`: the response and the rows afterwards. */
  function LoginSpec(rows: seq<User>, form: LoginForm, now: int, m: RefreshMint): (Result<TokenPair, HttpError>, seq<User>)
  {
    match FindByEmail(rows, form.username)
    case None => (Err(HttpError(UNAUTHORIZED, "Invalid email")), rows)
    case Some(u) =>
      if !u.confirmed then (Err(HttpError(UNAUTHORIZED, "Email not confirmed")), rows)
      else if !Verify(form.password, u.password) then (Err(HttpError(UNAUTHORIZED, "Invalid password")), rows)
      else
        var access := CreateAccessToken(u.email, Some(LOGIN_ACCESS_TTL), now);
        var refresh := MintRefreshToken(m, u.email, now);
        (Ok(TokenPair(access, refresh, "bearer")), WithToken(rows, u.email, Some(refresh)))
  }

  /**
    `refresh_token`, rotating with a token minted by `m`: the response and the rows
    afterwards. A decodable token whose subject has no user makes the handler read an
    attribute of `None`: a 500.
  */
  function RefreshSpec(rows: seq<User>, token: Jwt, now: int, m: RefreshMint): (Result<TokenPair, HttpError>, seq<User>)
  {
    match DecodeRefreshToken(token, now)
    case Err(e) => (Err(e), rows)
    case Ok(sub) =>
      match UserForSubject(rows, sub)
      case None => (Err(InternalError()), rows)
      case Some(u) =>
        if u.refreshToken != Some(token) then
          (Err(HttpError(UNAUTHORIZED, "Invalid refresh token")), WithToken(rows, u.email, None))
        else
          var access := CreateAccessToken(u.email, None, now);
          var refresh := MintRefreshToken(m, u.email, now);
          (Ok(TokenPair(access, refresh, "bearer")), WithToken(rows, u.email, Some(refresh)))
  }

  /** `confirmed_email/{token}`: the message and the rows afterwards. */
  function ConfirmSpec(rows: seq<User>, token: Jwt, now: int): (Result<string, HttpError>, seq<User>)
  {
    match GetEmailFromToken(token, now)
    case Err(e) => (Err(e), rows)
    case Ok(sub) =>
      match UserForSubject(rows, sub)
      case None => (Err(HttpError(BAD_REQUEST, "Verification error")), rows)
      case Some(u) =>
        if u.confirmed then (Ok(ALREADY_CONFIRMED), rows)
        else (Ok(EMAIL_CONFIRMED), Confirmed(rows, u.email))
  }

  // ---------------------------------------------------------------------------
  // Signup and login
  // ---------------------------------------------------------------------------

  /**
    Signup fails with 409 exactly when the email is taken, and then changes nothing;
    otherwise it appends one unconfirmed user whose stored password is the hash of
    the given one, found afterwards by its email.
  */
  lemma SignupOutcome(rows: seq<User>, nextId: nat, req: SignupRequest, salt: nat, now: int)
    requires ValidUsers(rows, nextId)
    ensures var (r, rows') := SignupSpec(rows, nextId, req, salt, now);
            (r.Err? <==> FindByEmail(rows, req.email).Some?) &&
            (r.Err? ==> r.error.status == CONFLICT && rows' == rows) &&
            (r.Ok? ==> ValidUsers(rows', nextId + 1) && rows' == rows + [r.value] &&
                       r.value.id == nextId && r.value.email == req.email && r.value.username == req.username &&
                       r.value.password == Hash(req.password, salt) && Verify(req.password, r.value.password) &&
                       !r.value.confirmed && r.value.refreshToken == None &&
                       FindByEmail(rows', req.email) == Some(r.value))
  {
    var (r, rows') := SignupSpec(rows, nextId, req, salt, now);
    if r.Ok? {
      FindByEmailMeaning(rows, req.email);
      AddedIsFound(rows, r.value, req.email);
    }
  }

  /**
    Login rejects in a fixed order and changes nothing when it does: unknown email,
    then unconfirmed, then wrong password. Otherwise it issues a 7200-second access
    token and the refresh token `m` mints for that email and stores the refresh token
    on the user, leaving every other user as it was.
  */
  lemma LoginOutcome(rows: seq<User>, nextId: nat, form: LoginForm, now: int, m: RefreshMint, other: string)
    requires ValidUsers(rows, nextId)
    ensures var (r, rows') := LoginSpec(rows, form, now, m);
            var u := FindByEmail(rows, form.username);
            (r == Err(HttpError(UNAUTHORIZED, "Invalid email")) <==> u.None?) &&
            (r == Err(HttpError(UNAUTHORIZED, "Email not confirmed")) <==> u.Some? && !u.value.confirmed) &&
            (r == Err(HttpError(UNAUTHORIZED, "Invalid password")) <==>
               u.Some? && u.value.confirmed && !Verify(form.password, u.value.password)) &&
            (r.Err? ==> rows' == rows) &&
            (r.Ok? ==> u.Some? && u.value.confirmed && Verify(form.password, u.value.password) &&
                       ValidUsers(rows', nextId) &&
                       r.value.accessToken.claims.scope == ACCESS_SCOPE &&
                       r.value.accessToken.claims.sub == Some(form.username) &&
                       r.value.accessToken.claims.exp == now + LOGIN_ACCESS_TTL &&
                       r.value.refreshToken == MintRefreshToken(m, form.username, now) &&
                       FindByEmail(rows', form.username) == Some(u.value.(refreshToken := Some(r.value.refreshToken))) &&
                       (other != form.username ==> FindByEmail(rows', other) == FindByEmail(rows, other)))
  {
    var u := FindByEmail(rows, form.username);
    FindByEmailMeaning(rows, form.username);
    if u.Some? {
      WithTokenEffect(rows, nextId, form.username, Some(MintRefreshToken(m, form.username, now)), other);
    }
  }

  /** A freshly signed-up user cannot log in until the email is confirmed; after confirming, the same password logs in. */
  lemma SignupConfirmLogin(rows: seq<User>, nextId: nat, req: SignupRequest, salt: nat, now: int, later: int, m: RefreshMint)
    requires ValidUsers(rows, nextId) && FindByEmail(rows, req.email).None?
    requires now <= later <= now + EMAIL_TTL
    ensures var rows1 := SignupSpec(rows, nextId, req, salt, now).1;
            var form := LoginForm(req.email, req.password);
            var (c, rows2) := ConfirmSpec(rows1, CreateEmailToken(req.email, now), later);
            LoginSpec(rows1, form, later, m).0 == Err(HttpError(UNAUTHORIZED, "Email not confirmed")) &&
            c == Ok(EMAIL_CONFIRMED) &&
            LoginSpec(rows2, form, later, m).0.Ok?
  {
    SignupOutcome(rows, nextId, req, salt, now);
    var (r1, rows1) := SignupSpec(rows, nextId, req, salt, now);
    assert FindByEmail(rows1, req.email) == Some(r1.value);
    EmailTokenAcceptedUntilExpiry(req.email, now, later);
    ConfirmedEffect(rows1, nextId + 1, req.email, req.email);
  }

  // ---------------------------------------------------------------------------
  // Refresh
  // ---------------------------------------------------------------------------

  /** The defect at the route: every token `create_refresh_token` issues is refused with 401 and changes nothing. */
  lemma RefreshRejectsIssuedTokens(rows: seq<User>, sub: string, expiresDelta: Option<int>, issued: int, now: int)
    ensures var (r, rows') := RefreshSpec(rows, CreateRefreshToken(sub, expiresDelta, issued), now, AsWritten);
            r.Err? && r.error.status == UNAUTHORIZED && rows' == rows
  {
    IssuedRefreshTokenRejected(sub, expiresDelta, issued, now);
  }

  /** So the refresh token that login hands out never refreshes: the route refuses it and changes nothing. */
  lemma LoginThenRefreshFails(rows: seq<User>, form: LoginForm, now: int, later: int)
    requires LoginSpec(rows, form, now, AsWritten).0.Ok?
    ensures var (r, rows') := LoginSpec(rows, form, now, AsWritten);
            var (r2, rows2) := RefreshSpec(rows', r.value.refreshToken, later, AsWritten);
            r2.Err? && r2.error.status == UNAUTHORIZED && rows2 == rows'
  {
    var u := FindByEmail(rows, form.username).value;
    RefreshRejectsIssuedTokens(rows, u.email, None, now, later);
    RefreshRejectsIssuedTokens(LoginSpec(rows, form, now, AsWritten).1, u.email, None, now, later);
  }

  /**
    A decodable refresh-scoped token that is not the one stored for its user revokes
    that user's stored token (sets it to None) and is refused with 401; other users
    are untouched.
  */
  lemma RefreshMismatchRevokes(rows: seq<User>, nextId: nat, token: Jwt, now: int, m: RefreshMint, email: string, other: string)
    requires ValidUsers(rows, nextId)
    requires DecodeRefreshToken(token, now) == Ok(Some(email))
    requires FindByEmail(rows, email).Some? && FindByEmail(rows, email).value.refreshToken != Some(token)
    ensures var (r, rows') := RefreshSpec(rows, token, now, m);
            r == Err(HttpError(UNAUTHORIZED, "Invalid refresh token")) &&
            ValidUsers(rows', nextId) &&
            FindByEmail(rows', email) == Some(FindByEmail(rows, email).value.(refreshToken := None)) &&
            (other != email ==> FindByEmail(rows', other) == FindByEmail(rows, other))
  {
    FindByEmailMeaning(rows, email);
    WithTokenEffect(rows, nextId, email, None, other);
  }

  /**
    Rotation: a successful refresh stores a newly minted refresh token, and presenting
    the old one again (while it is still unexpired) hits the mismatch branch: 401 and
    the stored token revoked. The new token differs from the old one by its scope when
    minted as written, and by its issue second when minted as intended, so the intended
    route needs the presented token to have been issued before the current second.
  */
  lemma RefreshReplayFails(rows: seq<User>, nextId: nat, token: Jwt, now: int, later: int, m: RefreshMint)
    requires ValidUsers(rows, nextId)
    requires RefreshSpec(rows, token, now, m).0.Ok?
    requires m.AsWritten? || token.claims.iat < now
    requires later <= token.claims.exp
    ensures var rows1 := RefreshSpec(rows, token, now, m).1;
            var email := token.claims.sub.value;
            var (r2, rows2) := RefreshSpec(rows1, token, later, m);
            r2 == Err(HttpError(UNAUTHORIZED, "Invalid refresh token")) &&
            FindByEmail(rows1, email).value.refreshToken == Some(RefreshSpec(rows, token, now, m).0.value.refreshToken) &&
            FindByEmail(rows2, email).Some? && FindByEmail(rows2, email).value.refreshToken == None
  {
    VerifiersAcceptOneScope(token, now);
    VerifiersAcceptOneScope(token, later);
    var email := token.claims.sub.value;
    var u := FindByEmail(rows, email).value;
    FindByEmailMeaning(rows, email);
    var refresh := MintRefreshToken(m, u.email, now);
    WithTokenEffect(rows, nextId, email, Some(refresh), email);
    var rows1 := RefreshSpec(rows, token, now, m).1;
    assert Some(refresh) != Some(token) by {
      if m.AsWritten? {
        assert refresh.claims.scope != token.claims.scope;
      } else {
        assert refresh.claims.iat != token.claims.iat;
      }
    }
    RefreshMismatchRevokes(rows1, nextId, token, later, m, email, email);
  }

  /**
    The limit of rotation in the intended route: a refresh in the same second as the
    presented token's issue second mints an identical token (same claims, and signing
    is deterministic), so the table is left as it was and the token refreshes again.
  */
  lemma SameSecondRotationRepeatsToken(rows: seq<User>, nextId: nat, email: string, now: int)
    requires ValidUsers(rows, nextId)
    requires FindByEmail(rows, email).Some?
    requires FindByEmail(rows, email).value.refreshToken == Some(MintRefreshToken(Intended, email, now))
    ensures var t := MintRefreshToken(Intended, email, now);
            var (r, rows1) := RefreshSpec(rows, t, now, Intended);
            r.Ok? && r.value.refreshToken == t && rows1 == rows &&
            RefreshSpec(rows1, t, now, Intended).0.Ok?
  {
    var t := MintRefreshToken(Intended, email, now);
    FindByEmailMeaning(rows, email);
    var i := IndexOfEmail(rows, email).value;
    assert rows[i := rows[i].(refreshToken := Some(t))] == rows;
  }

  /**
    With the intended scope the refresh route works: presenting the stored, unexpired
    refresh token returns a new pair and stores the new refresh token.
  */
  lemma IntendedRefreshTokenRefreshes(rows: seq<User>, nextId: nat, email: string, issued: int, later: int)
    requires ValidUsers(rows, nextId)
    requires FindByEmail(rows, email).Some?
    requires FindByEmail(rows, email).value.refreshToken == Some(CreateRefreshTokenIntended(email, None, issued))
    requires later <= issued + REFRESH_DEFAULT_TTL
    ensures var (r, rows') := RefreshSpec(rows, CreateRefreshTokenIntended(email, None, issued), later, Intended);
            r.Ok? && r.value.accessToken.claims.sub == Some(email) &&
            r.value.refreshToken == MintRefreshToken(Intended, email, later) &&
            FindByEmail(rows', email) == Some(FindByEmail(rows, email).value.(refreshToken := Some(r.value.refreshToken)))
  {
    IntendedRefreshTokenRoundTrip(email, None, issued, later);
    FindByEmailMeaning(rows, email);
    var refresh := MintRefreshToken(Intended, email, later);
    WithTokenEffect(rows, nextId, email, Some(refresh), email);
  }

  /**
    The corrected flow end to end: the refresh token that the intended login hands out
    refreshes at the intended route at any second until it expires.
  */
  lemma IntendedLoginThenRefresh(rows: seq<User>, nextId: nat, form: LoginForm, now: int, later: int)
    requires ValidUsers(rows, nextId)
    requires LoginSpec(rows, form, now, Intended).0.Ok?
    requires later <= now + REFRESH_DEFAULT_TTL
    ensures var (r, rows1) := LoginSpec(rows, form, now, Intended);
            var (r2, rows2) := RefreshSpec(rows1, r.value.refreshToken, later, Intended);
            r2.Ok? && r2.value.accessToken.claims.sub == Some(form.username) &&
            FindByEmail(rows2, form.username).Some? &&
            FindByEmail(rows2, form.username).value.refreshToken == Some(r2.value.refreshToken)
  {
    LoginOutcome(rows, nextId, form, now, Intended, form.username);
    var rows1 := LoginSpec(rows, form, now, Intended).1;
    IntendedRefreshTokenRefreshes(rows1, nextId, form.username, now, later);
  }

  // ---------------------------------------------------------------------------
  // Email confirmation
  // ---------------------------------------------------------------------------

  /**
    Confirmation: a token that does not pass the email check is refused with its error
    and an unknown user with 400, both changing nothing; an already confirmed user gets
    "already confirmed" and nothing changes; otherwise exactly that user becomes confirmed.
  */
  lemma ConfirmOutcome(rows: seq<User>, nextId: nat, token: Jwt, now: int, other: string)
    requires ValidUsers(rows, nextId)
    ensures var (r, rows') := ConfirmSpec(rows, token, now);
            var e := GetEmailFromToken(token, now);
            (e.Err? ==> r == Err(e.error) && rows' == rows) &&
            (e.Ok? && UserForSubject(rows, e.value).None? ==>
               r == Err(HttpError(BAD_REQUEST, "Verification error")) && rows' == rows) &&
            (e.Ok? && UserForSubject(rows, e.value).Some? ==>
               var u := UserForSubject(rows, e.value).value;
               ValidUsers(rows', nextId) &&
               (u.confirmed ==> r == Ok(ALREADY_CONFIRMED) && rows' == rows) &&
               (!u.confirmed ==> r == Ok(EMAIL_CONFIRMED)) &&
               FindByEmail(rows', u.email) == Some(u.(confirmed := true)) &&
               (other != u.email ==> FindByEmail(rows', other) == FindByEmail(rows, other)))
  {
    var e := GetEmailFromToken(token, now);
    if e.Ok? && UserForSubject(rows, e.value).Some? {
      var u := UserForSubject(rows, e.value).value;
      FindByEmailMeaning(rows, e.value.value);
      var i := IndexOfEmail(rows, u.email).value;
      FindByEmailIsTheMatch(rows, nextId, i);
      ConfirmedEffect(rows, nextId, u.email, other);
    }
  }

  /** Confirming again with the same (unexpired) token answers "already confirmed" and changes nothing. */
  lemma ConfirmRouteIdempotent(rows: seq<User>, nextId: nat, token: Jwt, now: int, later: int)
    requires ValidUsers(rows, nextId)
    requires ConfirmSpec(rows, token, now).0.Ok?
    requires now <= later <= token.claims.exp
    ensures var rows1 := ConfirmSpec(rows, token, now).1;
            ConfirmSpec(rows1, token, later) == (Ok(ALREADY_CONFIRMED), rows1)
  {
    var email := token.claims.sub.value;
    ConfirmOutcome(rows, nextId, token, now, email);
  }

  /**
    The defect, other side: the refresh token that login hands out is accepted by the
    email-confirmation route, which answers "already confirmed".
  */
  lemma LoginRefreshTokenConfirmsEmail(rows: seq<User>, nextId: nat, form: LoginForm, now: int, later: int)
    requires ValidUsers(rows, nextId)
    requires LoginSpec(rows, form, now, AsWritten).0.Ok?
    requires now <= later <= now + REFRESH_DEFAULT_TTL
    ensures var (r, rows1) := LoginSpec(rows, form, now, AsWritten);
            ConfirmSpec(rows1, r.value.refreshToken, later) == (Ok(ALREADY_CONFIRMED), rows1)
  {
    LoginOutcome(rows, nextId, form, now, AsWritten, form.username);
    var (r, rows1) := LoginSpec(rows, form, now, AsWritten);
    IssuedRefreshTokenPassesEmailCheck(form.username, None, now, later);
  }

  // ---------------------------------------------------------------------------
  // The handlers, step by step against the user table
  // ---------------------------------------------------------------------------

  /** `signup`: look the email up, hash the password (with a fresh salt), create the user. */
  method Signup(users: UserTable, req: SignupRequest, salt: nat, now: int) returns (r: Result<User, HttpError>)
    requires users.Valid()
    modifies users
    ensures users.Valid()
    ensures (r, users.rows) == SignupSpec(old(users.rows), old(users.nextId), req, salt, now)
    ensures users.nextId == if r.Ok? then old(users.nextId) + 1 else old(users.nextId)
  {
    var existing := users.GetUserByEmail(req.email);
    if existing.Some? {
      return Err(HttpError(CONFLICT, "Account already exists"));
    }
    var body := UserBody(req.username, req.email, Hash(req.password, salt));
    var u := users.CreateUser(body, now);
    r := Ok(u);
  }

  /** `login`: the three guards, then issue both tokens and store the refresh token. */
  method Login(users: UserTable, form: LoginForm, now: int) returns (r: Result<TokenPair, HttpError>)
    requires users.Valid()
    modifies users
    ensures users.Valid() && users.nextId == old(users.nextId)
    ensures (r, users.rows) == LoginSpec(old(users.rows), form, now, AsWritten)
  {
    var user := users.GetUserByEmail(form.username);
    if user.None? {
      return Err(HttpError(UNAUTHORIZED, "Invalid email"));
    }
    if !user.value.confirmed {
      return Err(HttpError(UNAUTHORIZED, "Email not confirmed"));
    }
    if !Verify(form.password, user.value.password) {
      return Err(HttpError(UNAUTHORIZED, "Invalid password"));
    }
    var access := CreateAccessToken(user.value.email, Some(LOGIN_ACCESS_TTL), now);
    var refresh := CreateRefreshToken(user.value.email, None, now);
    users.UpdateToken(user.value, Some(refresh));
    r := Ok(TokenPair(access, refresh, "bearer"));
  }

  /** `refresh_token`: decode, find the user, revoke on mismatch, otherwise rotate. */
  method Refresh(users: UserTable, token: Jwt, now: int) returns (r: Result<TokenPair, HttpError>)
    requires users.Valid()
    modifies users
    ensures users.Valid() && users.nextId == old(users.nextId)
    ensures (r, users.rows) == RefreshSpec(old(users.rows), token, now, AsWritten)
  {
    var sub := DecodeRefreshToken(token, now);
    if sub.Err? {
      return Err(sub.error);
    }
    var user: Option<User> := None;
    if sub.value.Some? {
      user := users.GetUserByEmail(sub.value.value);
    }
    if user.None? {
      return Err(InternalError());
    }
    if user.value.refreshToken != Some(token) {
      users.UpdateToken(user.value, None);
      return Err(HttpError(UNAUTHORIZED, "Invalid refresh token"));
    }
    var access := CreateAccessToken(user.value.email, None, now);
    var refresh := CreateRefreshToken(user.value.email, None, now);
    users.UpdateToken(user.value, Some(refresh));
    r := Ok(TokenPair(access, refresh, "bearer"));
  }

  /** `confirmed_email/{token}`: check the token, find the user, confirm unless already confirmed. */
  method ConfirmEmail(users: UserTable, token: Jwt, now: int) returns (r: Result<string, HttpError>)
    requires users.Valid()
    modifies users
    ensures users.Valid() && users.nextId == old(users.nextId)
    ensures (r, users.rows) == ConfirmSpec(old(users.rows), token, now)
  {
    var sub := GetEmailFromToken(token, now);
    if sub.Err? {
      return Err(sub.error);
    }
    var user: Option<User> := None;
    if sub.value.Some? {
      user := users.GetUserByEmail(sub.value.value);
    }
    if user.None? {
      return Err(HttpError(BAD_REQUEST, "Verification error"));
    }
    if user.value.confirmed {
      return Ok(ALREADY_CONFIRMED);
    }
    users.ConfirmedEmail(user.value.email);
    r := Ok(EMAIL_CONFIRMED);
  }
}
