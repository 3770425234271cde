/**
  `Auth.get_current_user` (src/services/auth.py): the access-token check followed by
  a read-through cache of users in Redis, keyed `user:<email>`, whose entries live
  900 seconds. The Redis store is modelled as a map from key to the cached user and
  its expiry second (`None`: no expiry set).
*/
module CurrentUser {
  import opened Wrappers
  import opened Http
  import opened Crypto
  import opened AuthTokens
  import opened UserRepository

  /** `expire(key, 900)`. */
  const CACHE_TTL := 900

  datatype CacheEntry = CacheEntry(user: User, expiresAt: Option<int>)

  /** `f'user:{email}'`. */
  function CacheKey(email: string): (k: string)
    ensures |k| == |email| + 5 && k[..5] == "user:" && k[5..] == email
  {
    "user:" + email
  }

  /** Redis `get`: a key whose expiry second has been reached is gone. */
  function CacheGet(cache: map<string, CacheEntry>, key: string, now: int): (r: Option<User>)
    ensures r.Some? ==> key in cache && r.value == cache[key].user
    ensures key in cache && cache[key].expiresAt.None? ==> r == Some(cache[key].user)
    ensures key in cache && cache[key].expiresAt.Some? ==> (r.Some? <==> now < cache[key].expiresAt.value)
    ensures key !in cache ==> r.None?
  {
    if key in cache && (cache[key].expiresAt.None? || now < cache[key].expiresAt.value)
    then Some(cache[key].user) else None
  }

  /** Every entry is filed under the key of its own user's email. */
  ghost predicate CacheConsistent(cache: map<string, CacheEntry>)
  {
    forall k :: k in cache ==> k == CacheKey(cache[k].user.email)
  }

  /** What one call of `get_current_user` returns and leaves in the cache. */
  function CurrentUserSpec(cache: map<string, CacheEntry>, rows: seq<User>, t: Jwt, now: int)
    : (Result<User, HttpError>, map<string, CacheEntry>)
  {
    match AccessTokenSubject(t, now)
    case Err(e) => (Err(e), cache)
    case Ok(email) =>
      match CacheGet(cache, CacheKey(email), now)
      case Some(u) => (Ok(u), cache)
      case None =>
        match FindByEmail(rows, email)
        case None => (Err(HttpError(UNAUTHORIZED, "Could not validate credentials")), cache)
        case Some(u) => (Ok(u), cache[CacheKey(email) := CacheEntry(u, Some(now + CACHE_TTL))])
  }

  // ---------------------------------------------------------------------------
  // Properties
  // ---------------------------------------------------------------------------

  /** Distinct emails have distinct cache keys. */
  lemma CacheKeyInjective(a: string, b: string)
    ensures CacheKey(a) == CacheKey(b) ==> a == b
  {
    if CacheKey(a) == CacheKey(b) {
      assert a == CacheKey(a)[5..];
      assert b == CacheKey(b)[5..];
    }
  }

  /**
    Only a decodable access token with a subject authenticates, and the user returned
    is the one with that email; the cache stays consistent.
  */
  lemma AuthenticatedUserMatchesSubject(cache: map<string, CacheEntry>, rows: seq<User>, t: Jwt, now: int)
    requires CacheConsistent(cache)
    ensures CacheConsistent(CurrentUserSpec(cache, rows, t, now).1)
    ensures CurrentUserSpec(cache, rows, t, now).0.Ok? ==>
              Decode(t, now).Some? && t.claims.scope == ACCESS_SCOPE &&
              t.claims.sub == Some(CurrentUserSpec(cache, rows, t, now).0.value.email)
  {
    var (r, c') := CurrentUserSpec(cache, rows, t, now);
    VerifiersAcceptOneScope(t, now);
    if r.Ok? {
      var email := AccessTokenSubject(t, now).value;
      if CacheGet(cache, CacheKey(email), now).Some? {
        CacheKeyInjective(email, cache[CacheKey(email)].user.email);
      } else {
        FindByEmailMeaning(rows, email);
      }
    }
  }

  /** Every failure is a 401 and leaves the cache as it was. */
  lemma FailureLeavesCache(cache: map<string, CacheEntry>, rows: seq<User>, t: Jwt, now: int)
    ensures CurrentUserSpec(cache, rows, t, now).0.Err? ==>
              CurrentUserSpec(cache, rows, t, now).0.error.status == UNAUTHORIZED &&
              CurrentUserSpec(cache, rows, t, now).1 == cache
  {
    VerifierErrorCodes(t, now);
  }

  /** On a cache hit the user table is not consulted: any two tables give the cached user and leave the cache alone. */
  lemma HitIgnoresTable(cache: map<string, CacheEntry>, rows1: seq<User>, rows2: seq<User>, t: Jwt, now: int, email: string)
    requires AccessTokenSubject(t, now) == Ok(email)
    requires CacheGet(cache, CacheKey(email), now).Some?
    ensures CurrentUserSpec(cache, rows1, t, now) == CurrentUserSpec(cache, rows2, t, now)
    ensures CurrentUserSpec(cache, rows1, t, now) == (Ok(cache[CacheKey(email)].user), cache)
  {
  }

  /**
    On a miss the user is loaded from the table and cached for 900 seconds: every later
    call with a still-valid token within that window returns the same user, whatever the
    table holds by then, and changes nothing.
  */
  lemma ReadThroughWithinTtl(cache: map<string, CacheEntry>, rows: seq<User>, rows': seq<User>,
                             t: Jwt, now: int, later: int)
    requires AccessTokenSubject(t, now).Ok?
    requires CacheGet(cache, CacheKey(AccessTokenSubject(t, now).value), now).None?
    requires CurrentUserSpec(cache, rows, t, now).0.Ok?
    requires now <= later < now + CACHE_TTL && later <= t.claims.exp
    ensures var (r, c') := CurrentUserSpec(cache, rows, t, now);
            CurrentUserSpec(c', rows', t, later) == (r, c')
  {
    var email := AccessTokenSubject(t, now).value;
    assert AccessTokenSubject(t, later) == Ok(email);
  }

  /** Once 900 seconds have passed, the entry a miss stored no longer answers, so the table is read again. */
  lemma EntryExpiresAfterTtl(cache: map<string, CacheEntry>, rows: seq<User>, rows': seq<User>,
                             t: Jwt, now: int, later: int)
    requires AccessTokenSubject(t, now).Ok?
    requires CacheGet(cache, CacheKey(AccessTokenSubject(t, now).value), now).None?
    requires now + CACHE_TTL <= later <= t.claims.exp
    ensures var email := AccessTokenSubject(t, now).value;
            var c' := CurrentUserSpec(cache, rows, t, now).1;
            CacheGet(c', CacheKey(email), later).None? &&
            CurrentUserSpec(c', rows', t, later).0 ==
              (match FindByEmail(rows', email)
               case None => Err(HttpError(UNAUTHORIZED, "Could not validate credentials"))
               case Some(u) => Ok(u))
  {
    var email := AccessTokenSubject(t, now).value;
    assert AccessTokenSubject(t, later) == Ok(email);
  }

  /** The `Auth` service's state: the Redis connection, seen as its key space. */
  class AuthService {
    var cache: map<string, CacheEntry>

    constructor ()
      ensures cache == map[]
    {
      cache := map[];
    }

    /** Redis `set(key, value)`: stores the value and clears any expiry. */
    method CacheSet(key: string, user: User)
      modifies this
      ensures cache == old(cache)[key := CacheEntry(user, None)]
    {
      cache := cache[key := CacheEntry(user, None)];
    }

    /** Redis `expire(key, seconds)` on an existing key. */
    method CacheExpire(key: string, seconds: int, now: int)
      requires key in cache
      modifies this
      ensures cache == old(cache)[key := old(cache)[key].(expiresAt := Some(now + seconds))]
    {
      cache := cache[key := cache[key].(expiresAt := Some(now + seconds))];
    }

    /** `get_current_user(token)`. */
    method GetCurrentUser(users: UserTable, token: Jwt, now: int) returns (r: Result<User, HttpError>)
      requires users.Valid()
      modifies this
      ensures (r, cache) == CurrentUserSpec(old(cache), users.rows, token, now)
    {
      var sub := AccessTokenSubject(token, now);
      if sub.Err? {
        return Err(sub.error);
      }
      var email := sub.value;
      var key := CacheKey(email);
      var cached := CacheGet(cache, key, now);
      if cached.None? {
        var user := users.GetUserByEmail(email);
        if user.None? {
          return Err(HttpError(UNAUTHORIZED, "Could not validate credentials"));
        }
        CacheSet(key, user.value);
        CacheExpire(key, CACHE_TTL, now);
        assert cache == old(cache)[key := CacheEntry(user.value, Some(now + CACHE_TTL))];
        r := Ok(user.value);
      } else {
        r := Ok(cached.value);
      }
    }
  }
}
