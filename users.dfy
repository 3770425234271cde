/**
  The user table of src/repository/users.py: users keyed by a unique email, each
  with a bcrypt password digest, a `confirmed` flag, a nullable stored refresh
  token and a nullable avatar URL. The repository functions find a user by email,
  add a user, and assign one field of a stored user in place.
*/
module UserRepository {
  import opened Wrappers
  import opened Crypto

  datatype User = User(
    id: nat, username: string, email: string, password: PasswordHash, createdAt: int,
    confirmed: bool, refreshToken: Option<Jwt>, avatar: Option<string>)

  /** A request body (`UserModel`) whose password the caller has already hashed. */
  datatype UserBody = UserBody(username: string, email: string, password: PasswordHash)

  /** Ids are positive, strictly increasing and below the next id; emails are unique (`unique=True`). */
  ghost predicate ValidUsers(rows: seq<User>, nextId: nat)
  {
    0 < nextId &&
    (forall i, j :: 0 <= i < j < |rows| ==> rows[i].id < rows[j].id) &&
    (forall i, j :: 0 <= i < j < |rows| ==> rows[i].email != rows[j].email) &&
    (forall i :: 0 <= i < |rows| ==> 0 < rows[i].id < nextId)
  }

  /**
    Position of the first user with that email: `filter(User.email == email).first()`.
    The same first-match search as `ContactRepository.IndexOf`, over the email column;
    each table keeps its own so that its lemmas are stated over its own key.
  */
  function IndexOfEmail(rows: seq<User>, email: string): (r: Option<nat>)
    ensures r.Some? ==> r.value < |rows| && rows[r.value].email == email
    ensures r.Some? ==> forall k :: 0 <= k < r.value ==> rows[k].email != email
    ensures r.None? ==> forall k :: 0 <= k < |rows| ==> rows[k].email != email
  {
    if |rows| == 0 then None
    else if rows[0].email == email then Some(0)
    else match IndexOfEmail(rows[1..], email)
      case None => None
      case Some(k) => Some(k + 1)
  }

  /** The user with that email, or `None`. */
  function FindByEmail(rows: seq<User>, email: string): (r: Option<User>)
  {
    match IndexOfEmail(rows, email)
    case None => None
    case Some(i) => Some(rows[i])
  }

  /** The table after the stored refresh token of the user with that email is set to `t`. */
  function WithToken(rows: seq<User>, email: string, t: Option<Jwt>): seq<User>
  {
    match IndexOfEmail(rows, email)
    case None => rows
    case Some(i) => rows[i := rows[i].(refreshToken := t)]
  }

  /** The table after the user with that email is marked confirmed. */
  function Confirmed(rows: seq<User>, email: string): seq<User>
  {
    match IndexOfEmail(rows, email)
    case None => rows
    case Some(i) => rows[i := rows[i].(confirmed := true)]
  }

  /** The table after the avatar of the user with that email is set to `url`. */
  function WithAvatar(rows: seq<User>, email: string, url: string): seq<User>
  {
    match IndexOfEmail(rows, email)
    case None => rows
    case Some(i) => rows[i := rows[i].(avatar := Some(url))]
  }

  // ---------------------------------------------------------------------------
  // Properties
  // ---------------------------------------------------------------------------

  /**
    Since emails are unique, at most one user matches an email, and `FindByEmail`
    returns it: a stored user is found by its own email.
  */
  lemma FindByEmailIsTheMatch(rows: seq<User>, nextId: nat, i: nat)
    requires ValidUsers(rows, nextId) && i < |rows|
    ensures FindByEmail(rows, rows[i].email) == Some(rows[i])
    ensures forall j :: 0 <= j < |rows| && rows[j].email == rows[i].email ==> j == i
  {
    var r := IndexOfEmail(rows, rows[i].email);
    assert r.Some?;
  }

  /** `FindByEmail` returns a stored user with that email, and `None` exactly when there is none. */
  lemma FindByEmailMeaning(rows: seq<User>, email: string)
    ensures FindByEmail(rows, email).Some? ==> FindByEmail(rows, email).value in rows && FindByEmail(rows, email).value.email == email
    ensures FindByEmail(rows, email).None? <==> forall k :: 0 <= k < |rows| ==> rows[k].email != email
  {
    if FindByEmail(rows, email).None? {
      assert IndexOfEmail(rows, email).None?;
    }
  }

  /** Positions and emails alone decide `IndexOfEmail`. */
  lemma {:induction false} SameEmailsSameIndex(a: seq<User>, b: seq<User>, email: string)
    requires |a| == |b|
    requires forall k :: 0 <= k < |a| ==> a[k].email == b[k].email
    ensures IndexOfEmail(a, email) == IndexOfEmail(b, email)
  {
    if |a| > 0 && a[0].email != email {
      SameEmailsSameIndex(a[1..], b[1..], email);
    }
  }

  /**
    Assigning one field of the user with email `email` (`u'` is that user afterwards):
    the table stays valid, that user is found as `u'`, every other email finds what it
    found before.
  */
  lemma PointUpdate(rows: seq<User>, nextId: nat, email: string, i: nat, u': User, other: string)
    requires ValidUsers(rows, nextId) && IndexOfEmail(rows, email) == Some(i)
    requires u'.id == rows[i].id && u'.email == rows[i].email
    ensures ValidUsers(rows[i := u'], nextId)
    ensures FindByEmail(rows[i := u'], email) == Some(u')
    ensures other != email ==> FindByEmail(rows[i := u'], other) == FindByEmail(rows, other)
  {
    var w := rows[i := u'];
    SameEmailsSameIndex(rows, w, email);
    SameEmailsSameIndex(rows, w, other);
  }

  /** `update_token(u, t)` sets that user's stored refresh token to `t` and changes no other field or user. */
  lemma WithTokenEffect(rows: seq<User>, nextId: nat, email: string, t: Option<Jwt>, other: string)
    requires ValidUsers(rows, nextId) && FindByEmail(rows, email).Some?
    ensures ValidUsers(WithToken(rows, email, t), nextId)
    ensures FindByEmail(WithToken(rows, email, t), email) == Some(FindByEmail(rows, email).value.(refreshToken := t))
    ensures other != email ==> FindByEmail(WithToken(rows, email, t), other) == FindByEmail(rows, other)
  {
    var i := IndexOfEmail(rows, email).value;
    PointUpdate(rows, nextId, email, i, rows[i].(refreshToken := t), other);
  }

  /** `confirmed_email(e)` sets that user's flag and changes no other field or user. */
  lemma ConfirmedEffect(rows: seq<User>, nextId: nat, email: string, other: string)
    requires ValidUsers(rows, nextId) && FindByEmail(rows, email).Some?
    ensures ValidUsers(Confirmed(rows, email), nextId)
    ensures FindByEmail(Confirmed(rows, email), email) == Some(FindByEmail(rows, email).value.(confirmed := true))
    ensures other != email ==> FindByEmail(Confirmed(rows, email), other) == FindByEmail(rows, other)
  {
    var i := IndexOfEmail(rows, email).value;
    PointUpdate(rows, nextId, email, i, rows[i].(confirmed := true), other);
  }

  /** Confirming twice is confirming once. */
  lemma ConfirmedIdempotent(rows: seq<User>, email: string)
    ensures Confirmed(Confirmed(rows, email), email) == Confirmed(rows, email)
  {
    SameEmailsSameIndex(rows, Confirmed(rows, email), email);
  }

  /** `update_avatar(e, url)` sets that user's avatar and changes no other field or user. */
  lemma WithAvatarEffect(rows: seq<User>, nextId: nat, email: string, url: string, other: string)
    requires ValidUsers(rows, nextId) && FindByEmail(rows, email).Some?
    ensures ValidUsers(WithAvatar(rows, email, url), nextId)
    ensures FindByEmail(WithAvatar(rows, email, url), email) == Some(FindByEmail(rows, email).value.(avatar := Some(url)))
    ensures other != email ==> FindByEmail(WithAvatar(rows, email, url), other) == FindByEmail(rows, other)
  {
    var i := IndexOfEmail(rows, email).value;
    PointUpdate(rows, nextId, email, i, rows[i].(avatar := Some(url)), other);
  }

  /** A user added under a fresh email is found by it; every other email finds what it found before. */
  lemma {:induction false} AddedIsFound(rows: seq<User>, u: User, email: string)
    requires FindByEmail(rows, u.email).None?
    ensures FindByEmail(rows + [u], email) == (if email == u.email then Some(u) else FindByEmail(rows, email))
  {
    if |rows| > 0 {
      assert (rows + [u])[1..] == rows[1..] + [u];
      if rows[0].email != u.email && rows[0].email != email {
        AddedIsFound(rows[1..], u, email);
      }
    }
  }

  // ---------------------------------------------------------------------------
  // The table the repository functions work on
  // ---------------------------------------------------------------------------

  /** The `users` table as seen through the session. */
  class UserTable {
    var rows: seq<User>
    var nextId: nat

    ghost predicate Valid()
      reads this
    {
      ValidUsers(rows, nextId)
    }

    constructor ()
      ensures Valid() && rows == [] && nextId == 1
    {
      rows := [];
      nextId := 1;
    }

    /** `get_user_by_email(email)`: the user with that email, or `None`; nothing changes. */
    method GetUserByEmail(email: string) returns (r: Option<User>)
      requires Valid()
      ensures r == FindByEmail(rows, email)
      ensures r.Some? ==> r.value in rows && r.value.email == email
      ensures r.None? <==> forall k :: 0 <= k < |rows| ==> rows[k].email != email
    {
      var i := IndexOfEmail(rows, email);
      r := if i.Some? then Some(rows[i.value]) else None;
    }

    /**
      `create_user(body)`: one new user with a fresh id and the body's username, email
      and (already hashed) password; not yet confirmed, no token, no avatar. The email
      must be new: the column is unique.
    */
    method CreateUser(body: UserBody, now: int) returns (u: User)
      requires Valid() && FindByEmail(rows, body.email).None?
      modifies this
      ensures Valid()
      ensures u == User(old(nextId), body.username, body.email, body.password, now, false, None, None)
      ensures rows == old(rows) + [u] && nextId == old(nextId) + 1
    {
      u := User(nextId, body.username, body.email, body.password, now, false, None, None);
      FindByEmailMeaning(rows, body.email);
      rows := rows + [u];
      nextId := nextId + 1;
    }

    /** `update_token(user, token)` on a stored user. */
    method UpdateToken(user: User, token: Option<Jwt>)
      requires Valid() && user in rows
      modifies this
      ensures Valid() && nextId == old(nextId)
      ensures rows == WithToken(old(rows), user.email, token)
    {
      var i := IndexOfEmail(rows, user.email);
      WithTokenEffect(rows, nextId, user.email, token, user.email);
      rows := rows[i.value := rows[i.value].(refreshToken := token)];
    }

    /** `confirmed_email(email)`; there is no `None` check, so the user must exist. */
    method ConfirmedEmail(email: string)
      requires Valid() && FindByEmail(rows, email).Some?
      modifies this
      ensures Valid() && nextId == old(nextId)
      ensures rows == Confirmed(old(rows), email)
    {
      var i := IndexOfEmail(rows, email);
      ConfirmedEffect(rows, nextId, email, email);
      rows := rows[i.value := rows[i.value].(confirmed := true)];
    }

    /** `update_avatar(email, url)`: the updated user; there is no `None` check. */
    method UpdateAvatar(email: string, url: string) returns (u: User)
      requires Valid() && FindByEmail(rows, email).Some?
      modifies this
      ensures Valid() && nextId == old(nextId)
      ensures rows == WithAvatar(old(rows), email, url)
      ensures Some(u) == FindByEmail(rows, email) && u.avatar == Some(url)
    {
      var i := IndexOfEmail(rows, email);
      WithAvatarEffect(rows, nextId, email, url, email);
      u := rows[i.value].(avatar := Some(url));
      rows := rows[i.value := u];
    }
  }
}
