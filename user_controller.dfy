/**
 The handlers of controllers/userController.go that change the database, as methods of a class
 whose fields are the two tables they touch: users (keyed by ID) and refresh sessions (keyed by
 ID, unique by token). HTTP is reduced to the request parts each handler reads (an already bound
 JSON body, or None when binding failed; a cookie, or None when it is absent) and to a Response
 carrying the status, the message and what is handed back (a user view or the two tokens that
 the handler puts in cookies). The foreign calls are parameters: `hash(password)` is what bcrypt produces
 for a submitted password (None when it fails), `verify(hash, password)` is bcrypt's
 comparison, `accessToken` is what the JWT issuer returned (None when signing failed), and the
 random refresh token and the clock reading `now` are given.
 */
module UserController {
  import opened Wrappers
  import opened RefreshToken

  /** A row of the users table. `password` holds whatever the handlers stored there. */
  datatype User = User(id: nat, name: string, email: string, password: string, role: string)

  datatype RegisterBody = RegisterBody(name: string, email: string, password: string, role: string)
  datatype Credentials = Credentials(email: string, password: string)
  datatype PasswordChange = PasswordChange(currentPassword: string, newPassword: string)
  datatype Profile = Profile(name: string, email: string)

  datatype Status = OK | BadRequest | Unauthorized | InternalServerError

  datatype Payload =
    | Empty
    | UserView(name: string, email: string)              // never the password
    | Tokens(accessToken: string, refreshToken: string)  // the two cookies' values

  datatype Response = Response(status: Status, message: string, payload: Payload)

  type Users = map<nat, User>

  /** Every user is stored under its own ID; IDs start at 1 and stay below the next one to hand out. */
  predicate UsersKeyed(users: Users, nextId: nat) {
    forall id :: id in users ==> users[id].id == id && 0 < id < nextId
  }

  /** The users table's unique constraint on email. */
  predicate EmailsUnique(users: Users) {
    forall a, b :: a in users && b in users && users[a].email == users[b].email ==> a == b
  }

  /** The IDs of the users that `email = ?` selects. */
  function WithEmail(users: Users, email: string): set<nat> {
    set id | id in users && users[id].email == email
  }

  /** `DB.First(&user, "email = ?", email)`: the user with that email, if any. */
  function FindByEmail(users: Users, email: string): (r: Option<User>)
    requires EmailsUnique(users)
    requires forall id :: id in users ==> users[id].id == id
    ensures r.None? <==> WithEmail(users, email) == {}
    ensures r.Some? ==> WithEmail(users, email) == {r.value.id} && users[r.value.id] == r.value
    ensures r.Some? ==> r.value.email == email
  {
    if WithEmail(users, email) == {} then None
    else
      var id :| id in WithEmail(users, email);
      assert WithEmail(users, email) == {id};
      Some(users[id])
  }

  /** Storing `u` under `id` keeps emails unique when no other user has its email. */
  lemma {:induction false} PutUserKeepsEmailsUnique(users: Users, id: nat, u: User)
    requires EmailsUnique(users)
    requires WithEmail(users, u.email) <= {id}
    ensures EmailsUnique(users[id := u])
  {
    forall other | other in users && other != id
      ensures users[other].email != u.email
    {
      assert users[other].email == u.email ==> other in WithEmail(users, u.email);
    }
  }

  /** A user's own email selects that user only. */
  lemma {:induction false} OwnEmailSelectsOnlySelf(users: Users, id: nat)
    requires EmailsUnique(users) && id in users
    ensures WithEmail(users, users[id].email) == {id}
  {
  }

  /** Whether Login's credential checks pass: the email names a user and the password verifies. */
  predicate Authenticates(users: Users, c: Credentials, verify: (string, string) -> bool)
    requires EmailsUnique(users)
    requires forall id :: id in users ==> users[id].id == id
  {
    var u := FindByEmail(users, c.email);
    u.Some? && verify(u.value.password, c.password)
  }

  const BadBody := Response(BadRequest, "failed to read body", Empty)

  class Controller {
    var users: Users
    var sessions: Table
    var nextUserId: nat     // the users table's auto-increment counter
    var nextSessionId: nat  // the refresh_sessions table's auto-increment counter

    /** The database's constraints, and every session belongs to a stored user. */
    ghost predicate Valid()
      reads this
    {
      && 0 < nextUserId && 0 < nextSessionId
      && UsersKeyed(users, nextUserId)
      && EmailsUnique(users)
      && ValidTable(sessions)
      && (forall id :: id in sessions ==> 0 < id < nextSessionId && sessions[id].userId in users)
    }

    /** An empty database. */
    constructor ()
      ensures Valid()
      ensures users == map[] && sessions == map[]
    {
      users := map[];
      sessions := map[];
      nextUserId := 1;
      nextSessionId := 1;
    }

    /**
     RegisterUser: stores a new user whose password field is the hash of the submitted password and
     answers with its name and email. Fails, changing nothing, when the body does not bind, when
     hashing fails, or when the email is already taken.
     */
    method RegisterUser(body: Option<RegisterBody>, hash: string -> Option<string>) returns (r: Response)
      requires Valid()
      modifies this
      ensures Valid()
      ensures sessions == old(sessions) && nextSessionId == old(nextSessionId)
      ensures body.None? ==> r == Response(BadRequest, "", Empty)
      ensures body.Some? && hash(body.value.password).None? ==>
        r == Response(BadRequest, "cannot hash the password", Empty)
      ensures body.Some? && hash(body.value.password).Some? && WithEmail(old(users), body.value.email) != {} ==>
        r == Response(BadRequest, "fail to create the user", Empty)
      ensures r.status == OK <==>
        body.Some? && hash(body.value.password).Some? && WithEmail(old(users), body.value.email) == {}
      ensures r.status != OK ==> users == old(users) && nextUserId == old(nextUserId)
      ensures r.status == OK ==>
        var b, id := body.value, old(nextUserId);
        && r == Response(OK, "", UserView(b.name, b.email))
        && id !in old(users)
        && users == old(users)[id := User(id, b.name, b.email, hash(b.password).value, b.role)]
        && nextUserId == id + 1
    {
      if body.None? {
        return Response(BadRequest, "", Empty);
      }
      var b := body.value;
      var hashed := hash(b.password);
      if hashed.None? {
        return Response(BadRequest, "cannot hash the password", Empty);
      }
      if WithEmail(users, b.email) != {} {
        return Response(BadRequest, "fail to create the user", Empty);
      }
      var id := nextUserId;
      PutUserKeepsEmailsUnique(users, id, User(id, b.name, b.email, hashed.value, b.role));
      users := users[id := User(id, b.name, b.email, hashed.value, b.role)];
      nextUserId := nextUserId + 1;
      r := Response(OK, "", UserView(b.name, b.email));
    }

    /**
     Login: when the email names a user, the password verifies and an access token was issued,
     stores one new session for that user carrying the refresh token and expiring seven days from
     `now`, and hands back both tokens. Every failure leaves both tables as they were, including
     the access-token failure, which happens after the refresh token was drawn.
     */
    method Login(body: Option<Credentials>, verify: (string, string) -> bool,
                 accessToken: Option<string>, refreshToken: string, now: int)
      returns (r: Response)
      requires Valid()
      modifies this
      ensures Valid()
      ensures users == old(users) && nextUserId == old(nextUserId)
      ensures body.None? ==> r == BadBody
      ensures body.Some? && FindByEmail(old(users), body.value.email).None? ==>
        r == Response(BadRequest, "invalid email or password or user not found", Empty)
      ensures body.Some? && FindByEmail(old(users), body.value.email).Some? &&
              !Authenticates(old(users), body.value, verify) ==>
        r == Response(BadRequest, "invalid email or password", Empty)
      ensures body.Some? && Authenticates(old(users), body.value, verify) && accessToken.None? ==>
        r == Response(BadRequest, "failed to create token", Empty)
      ensures r.status == OK <==>
        body.Some? && Authenticates(old(users), body.value, verify) && accessToken.Some?
      ensures r.status != OK ==> sessions == old(sessions) && nextSessionId == old(nextSessionId)
      ensures r.status == OK ==>
        var u, id := FindByEmail(old(users), body.value.email).value, old(nextSessionId);
        && r == Response(OK, "", Tokens(accessToken.value, refreshToken))
        && id !in old(sessions)
        && sessions == Save(old(sessions), RefreshSession(id, u.id, refreshToken, now + Lifetime, now))
        && nextSessionId == id + 1
    {
      if body.None? {
        return BadBody;
      }
      var c := body.value;
      var user := FindByEmail(users, c.email);
      if user.None? {
        return Response(BadRequest, "invalid email or password or user not found", Empty);
      }
      var u := user.value;
      if !verify(u.password, c.password) {
        return Response(BadRequest, "invalid email or password", Empty);
      }
      if accessToken.None? {
        return Response(BadRequest, "failed to create token", Empty);
      }
      var row := RefreshSession(nextSessionId, u.id, refreshToken, now + Lifetime, now);
      SaveKeepsValid(sessions, row);
      sessions := Save(sessions, row);
      nextSessionId := nextSessionId + 1;
      r := Response(OK, "", Tokens(accessToken.value, refreshToken));
    }

    /**
     Refresh: when the cookie names a stored session that has not expired (expiry is strict: a
     session expiring exactly at `now` is still good), rewrites that row in place with the new
     token and seven more days, and hands back a new access token (empty when signing failed,
     as the source ignores that error) and the new refresh token. Every failure answers 401 and
     changes nothing. No user row and no other session ever changes.
     */
    method Refresh(cookie: Option<string>, newRefreshToken: string, accessToken: Option<string>, now: int)
      returns (r: Response)
      requires Valid()
      modifies this
      ensures Valid()
      ensures users == old(users) && nextUserId == old(nextUserId) && nextSessionId == old(nextSessionId)
      ensures cookie.None? ==> r == Response(Unauthorized, "missing refresh token", Empty)
      ensures cookie.Some? && FindByToken(old(sessions), cookie.value).None? ==>
        r == Response(Unauthorized, "invalid refresh token", Empty)
      ensures cookie.Some? && FindByToken(old(sessions), cookie.value).Some? &&
              FindByToken(old(sessions), cookie.value).value.expiresAt < now ==>
        r == Response(Unauthorized, "refresh token expired", Empty)
      ensures r.status == OK <==>
        cookie.Some? && FindByToken(old(sessions), cookie.value).Some? &&
        now <= FindByToken(old(sessions), cookie.value).value.expiresAt
      ensures r.status != OK ==> sessions == old(sessions)
      ensures r.status == OK ==>
        var s := FindByToken(old(sessions), cookie.value).value;
        && r == Response(OK, "token refreshed", Tokens(accessToken.GetOr(""), newRefreshToken))
        && sessions == Save(old(sessions), Rotated(s, newRefreshToken, now))
    {
      if cookie.None? {
        return Response(Unauthorized, "missing refresh token", Empty);
      }
      var found := FindByToken(sessions, cookie.value);
      if found.None? {
        return Response(Unauthorized, "invalid refresh token", Empty);
      }
      var s := found.value;
      if s.expiresAt < now {
        return Response(Unauthorized, "refresh token expired", Empty);
      }
      var row := Rotated(s, newRefreshToken, now);
      SaveKeepsValid(sessions, row);
      sessions := Save(sessions, row);
      r := Response(OK, "token refreshed", Tokens(accessToken.GetOr(""), newRefreshToken));
    }

    /**
     Logout: deletes every session carrying the cookie's token (the empty token when the cookie
     is absent) and no other, and always answers "logged out".
     */
    method Logout(cookie: Option<string>) returns (r: Response)
      requires Valid()
      modifies this
      ensures Valid()
      ensures users == old(users) && nextUserId == old(nextUserId) && nextSessionId == old(nextSessionId)
      ensures r == Response(OK, "logged out", Empty)
      ensures sessions == DeleteByToken(old(sessions), cookie.GetOr(""))
    {
      sessions := DeleteByToken(sessions, cookie.GetOr(""));
      r := Response(OK, "logged out", Empty);
    }

    /**
     UpdatePassword for the signed-in user `userId`: when the current password verifies against
     the stored hash, stores the new password exactly as given (unhashed). Sessions are never
     touched, so existing refresh tokens stay valid.
     */
    method UpdatePassword(userId: nat, body: Option<PasswordChange>, verify: (string, string) -> bool)
      returns (r: Response)
      requires Valid()
      modifies this
      ensures Valid()
      ensures sessions == old(sessions) && nextSessionId == old(nextSessionId) && nextUserId == old(nextUserId)
      ensures userId !in old(users) ==> r == Response(InternalServerError, "failed to get the user", Empty)
      ensures userId in old(users) && body.None? ==> r == BadBody
      ensures userId in old(users) && body.Some? &&
              !verify(old(users)[userId].password, body.value.currentPassword) ==>
        r == Response(Unauthorized, "wrong password", Empty)
      ensures r.status == OK <==>
        userId in old(users) && body.Some? && verify(old(users)[userId].password, body.value.currentPassword)
      ensures r.status != OK ==> users == old(users)
      ensures r.status == OK ==>
        && r == Response(OK, "successfully updated", Empty)
        && users == old(users)[userId := old(users)[userId].(password := body.value.newPassword)]
    {
      if userId !in users {
        return Response(InternalServerError, "failed to get the user", Empty);
      }
      if body.None? {
        return BadBody;
      }
      var record := users[userId];
      if !verify(record.password, body.value.currentPassword) {
        return Response(Unauthorized, "wrong password", Empty);
      }
      OwnEmailSelectsOnlySelf(users, userId);
      PutUserKeepsEmailsUnique(users, userId, record.(password := body.value.newPassword));
      users := users[userId := record.(password := body.value.newPassword)];
      r := Response(OK, "successfully updated", Empty);
    }

    /**
     UpdateUserByUser for the signed-in user `userId`: two updates in a row, the name and then the
     email. The email update is refused when another user already has that email; the name
     update has then already happened.
     */
    method UpdateUserByUser(userId: nat, body: Option<Profile>) returns (r: Response)
      requires Valid()
      modifies this
      ensures Valid()
      ensures sessions == old(sessions) && nextSessionId == old(nextSessionId) && nextUserId == old(nextUserId)
      ensures userId !in old(users) ==> r == Response(InternalServerError, "failed to get the user", Empty) && users == old(users)
      ensures userId in old(users) && body.None? ==> r == BadBody && users == old(users)
      ensures userId in old(users) && body.Some? ==>
        var u, p := old(users)[userId], body.value;
        if WithEmail(old(users), p.email) <= {userId} then
          && r == Response(OK, "successfully updated", Empty)
          && users == old(users)[userId := u.(name := p.name, email := p.email)]
        else
          && r == Response(InternalServerError, "failed to update", Empty)
          && users == old(users)[userId := u.(name := p.name)]
    {
      if userId !in users {
        return Response(InternalServerError, "failed to get the user", Empty);
      }
      if body.None? {
        return BadBody;
      }
      var p := body.value;
      OwnEmailSelectsOnlySelf(users, userId);
      PutUserKeepsEmailsUnique(users, userId, users[userId].(name := p.name));
      users := users[userId := users[userId].(name := p.name)];
      if !(WithEmail(users, p.email) <= {userId}) {
        return Response(InternalServerError, "failed to update", Empty);
      }
      PutUserKeepsEmailsUnique(users, userId, users[userId].(email := p.email));
      users := users[userId := users[userId].(email := p.email)];
      r := Response(OK, "successfully updated", Empty);
    }
  }
}
