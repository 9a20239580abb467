/**
 Clients of the Controller that chain handlers, as a browser would: each states what the
 handlers' contracts alone promise about the sequence.
 */
module SessionLifecycle {
  import opened Wrappers
  import opened RefreshToken
  import opened UserController

  /**
   A refresh token handed out by Login works once: the first Refresh with it succeeds, and after
   that rotation the same token is refused as invalid. The random tokens are assumed distinct
   from each other and from every stored token.
   */
  method RefreshTokenIsSingleUse(c: Controller, creds: Credentials, verify: (string, string) -> bool,
                                 access: string, token: string, rotated: string, unused: string, now: int)
    returns (login: Response, first: Response, replay: Response)
    requires c.Valid()
    requires Authenticates(c.users, creds, verify)
    requires WithToken(c.sessions, token) == {} && WithToken(c.sessions, rotated) == {}
    requires token != rotated
    modifies c
    ensures c.Valid()
    ensures login == Response(OK, "", Tokens(access, token))
    ensures first == Response(OK, "token refreshed", Tokens(access, rotated))
    ensures replay == Response(Unauthorized, "invalid refresh token", Empty)
  {
    var before := c.sessions;
    login := c.Login(Some(creds), verify, Some(access), token, now);
    InsertedRowIsFound(before, RefreshSession(old(c.nextSessionId), FindByEmail(old(c.users), creds.email).value.id,
                                              token, now + Lifetime, now));
    var afterLogin := c.sessions;
    assert WithToken(afterLogin, rotated) == {} by {
      assert forall id :: id in afterLogin && id in before ==> afterLogin[id] == before[id];
    }
    first := c.Refresh(Some(token), rotated, Some(access), now);
    var s := FindByToken(afterLogin, token).value;
    RotationRetiresOldToken(afterLogin, s.id, rotated, now);
    replay := c.Refresh(Some(token), unused, Some(access), now);
  }

  /**
   A session lives exactly seven days: a Refresh presenting the login's token at time `at`
   succeeds if and only if `at` is at most seven days after the login, and is refused as expired
   otherwise. (Each call of this method is one alternative presentation, on a fresh login.)
   */
  method SessionLivesSevenDays(c: Controller, creds: Credentials, verify: (string, string) -> bool,
                               access: string, token: string, rotated: string, loginAt: int, at: int)
    returns (r: Response)
    requires c.Valid()
    requires Authenticates(c.users, creds, verify)
    requires WithToken(c.sessions, token) == {}
    modifies c
    ensures c.Valid()
    ensures r.status == OK <==> at <= loginAt + Lifetime
    ensures loginAt + Lifetime < at ==> r == Response(Unauthorized, "refresh token expired", Empty)
  {
    var before := c.sessions;
    var login := c.Login(Some(creds), verify, Some(access), token, loginAt);
    InsertedRowIsFound(before, RefreshSession(old(c.nextSessionId), FindByEmail(old(c.users), creds.email).value.id,
                                              token, loginAt + Lifetime, loginAt));
    r := c.Refresh(Some(token), rotated, Some(access), at);
  }

  /**
   Logout revokes: afterwards the token is refused as invalid, and logging out again with it
   still answers "logged out" and leaves the sessions as the first logout left them.
   */
  method LogoutRevokes(c: Controller, token: string, newToken: string, now: int)
    returns (first: Response, again: Response, refresh: Response)
    requires c.Valid()
    modifies c
    ensures c.Valid()
    ensures first == Response(OK, "logged out", Empty)
    ensures again == Response(OK, "logged out", Empty)
    ensures c.sessions == DeleteByToken(old(c.sessions), token)
    ensures refresh == Response(Unauthorized, "invalid refresh token", Empty)
  {
    first := c.Logout(Some(token));
    again := c.Logout(Some(token));
    refresh := c.Refresh(Some(token), newToken, None, now);
  }

  /**
   Registering a second user with an email already registered fails and leaves the first user's
   record as it was.
   */
  method SecondRegistrationWithSameEmailFails(c: Controller, first: RegisterBody, second: RegisterBody,
                                              hash: string -> Option<string>)
    returns (r1: Response, r2: Response)
    requires c.Valid()
    requires WithEmail(c.users, first.email) == {}
    requires second.email == first.email
    requires hash(first.password).Some? && hash(second.password).Some?
    modifies c
    ensures c.Valid()
    ensures r1.status == OK
    ensures r2 == Response(BadRequest, "fail to create the user", Empty)
    ensures var id := old(c.nextUserId);
      id in c.users && c.users[id] == User(id, first.name, first.email, hash(first.password).value, first.role)
  {
    r1 := c.RegisterUser(Some(first), hash);
    var id := old(c.nextUserId);
    assert id in WithEmail(c.users, second.email);
    r2 := c.RegisterUser(Some(second), hash);
  }

  /**
   Changing the password locks the user out of Login while leaving their sessions alive.
   UpdatePassword stores the new password unhashed, and bcrypt's comparison accepts only stored
   values that are well-formed hashes (`isHash`). So once a password that is not such a hash is
   stored, every Login for that email fails as a wrong password, whatever password is given,
   and every existing refresh session is still there.
   */
  method PasswordChangeLocksOutLogin(c: Controller, userId: nat, change: PasswordChange,
                                     verify: (string, string) -> bool, isHash: string -> bool,
                                     creds: Credentials, access: string, token: string, now: int)
    returns (changed: Response, login: Response)
    requires c.Valid()
    requires forall stored, password :: verify(stored, password) ==> isHash(stored)
    requires !isHash(change.newPassword)
    requires userId in c.users && verify(c.users[userId].password, change.currentPassword)
    requires creds.email == c.users[userId].email
    modifies c
    ensures c.Valid()
    ensures changed == Response(OK, "successfully updated", Empty)
    ensures login == Response(BadRequest, "invalid email or password", Empty)
    ensures c.sessions == old(c.sessions)
  {
    changed := c.UpdatePassword(userId, Some(change), verify);
    OwnEmailSelectsOnlySelf(c.users, userId);
    login := c.Login(Some(creds), verify, Some(access), token, now);
  }
}
