/**
  Properties that span several service calls, proved as client code of the operations'
  contracts alone: a consumed reset token is dead, logout is idempotent, a fresh
  registration can log in, and the full register / login / logout / reset walk-through.
 */
module Scenarios {
  import opened Common
  import opened Model
  import opened Errors
  import opened Validation
  import opened Auth
  import UserRepo
  import SessionRepo
  import TokenRepo
  import opened Services

  /** A reset token works once: after a successful reset the same token is unknown. */
  method ResetTokenIsSingleUse(repo: UserRepo.UserRepository, tokenRepo: TokenRepo.ResetTokenRepository,
                               token: Uuid, firstPassword: string, secondPassword: string,
                               hasher: Hasher, firstNow: Instant, secondNow: Instant)
    returns (first: AuthResult<()>, second: AuthResult<()>)
    modifies repo, tokenRepo
    ensures first.Ok? ==> second == Err(TokenInvalid)
  {
    first := ResetPassword(repo, tokenRepo, token, firstPassword, hasher, firstNow);
    second := ResetPassword(repo, tokenRepo, token, secondPassword, hasher, secondNow);
  }

  /** Logging out twice leaves the store exactly as logging out once. */
  method LogoutTwice(sessionRepo: SessionRepo.SessionRepository, sessionId: Uuid)
    modifies sessionRepo
    ensures sessionRepo.sessions == SessionRepo.Without(old(sessionRepo.sessions), sessionId)
  {
    LogoutUser(sessionRepo, sessionId);
    LogoutUser(sessionRepo, sessionId);
  }

  /** Under the hasher's round-trip assumption, a user who has just registered can log in with
      the same password, and the new session is live at the instant of the login. */
  method RegisterThenLogin(repo: UserRepo.UserRepository, sessionRepo: SessionRepo.SessionRepository,
                           username: string, email: string, password: string, hasher: Hasher,
                           userId: Uuid, sessionId: Uuid, now: Instant, later: Instant)
    returns (registered: AuthResult<()>, login: AuthResult<Uuid>)
    requires VerifiesOwnHash(hasher)
    modifies repo, sessionRepo
    ensures registered.Ok? ==> login == Ok(sessionId)
    ensures registered.Ok? && old(sessionRepo.FindBySessionId(sessionId)).None? ==>
      IsLoggedIn(sessionRepo, sessionId, later)
  {
    registered := RegisterUser(repo, username, email, password, hasher, userId, now);
    if registered.Ok? {
      NewcomerFound(repo, old(repo.users), User(userId, username, email, hasher.hash(password).value, now));
    }
    login := LoginUser(repo, sessionRepo, username, password, hasher, sessionId, later);
  }

  /** A user appended under a username nobody had is the one a lookup by that name finds. */
  lemma NewcomerFound(repo: UserRepo.UserRepository, before: seq<User>, user: User)
    requires repo.users == before + [user]
    requires forall u :: u in before ==> u.username != user.username
    ensures repo.FindByUsername(user.username) == Some(user)
  {
    var found := repo.FindByUsername(user.username);
    assert user in repo.users;
    assert found.value !in before;
  }

  /** The sample registration of the demo driver, and a new password for the reset, pass the
      field checks. The strings are parameters pinned by `requires` rather than literals in the
      `ensures`: with literals the verifier unfolds Trim and ByteLen over them and runs out of
      resources. */
  lemma ExampleInputsValid(username: string, email: string, password: string, newPassword: string)
    requires username == "kelvin" && email == "kelvin@example.com"
    requires password == "securepassword" && newPassword == "NewSecure456!"
    ensures FieldsValid(username, email, password) && ValidatePassword(newPassword).Ok?
  {
    ExampleUsernameValid(username);
    ExampleEmailValid(email);
    PasswordLength(password);
    PasswordLength(newPassword);
  }

  lemma ExampleUsernameValid(username: string)
    requires username == "kelvin"
    ensures ValidateUsername(username).Ok?
  {
    assert !IsWhitespace(username[0]) && !IsWhitespace(username[5]);
    UsernameNoUpperBound([], username, []);
    assert [] + username + [] == username;
  }

  lemma ExampleEmailValid(email: string)
    requires email == "kelvin@example.com"
    ensures ValidateEmail(email).Ok?
  {
    assert email[6] == '@' && email[14] == '.';
  }

  /** The three hasher assumptions can hold together, so the walk-through is not vacuous:
      appending a marker is a hasher that meets all of them. */
  lemma HasherAssumptionsConsistent()
    ensures var h := Hasher((p: string) => Ok(p + "#"), (q: string, hv: string) => Ok(hv == q + "#"));
      NeverFails(h) && VerifiesOwnHash(h) && RejectsOtherPasswords(h)
  {
    forall p: string, q: string
      ensures q + "#" == p + "#" ==> q == p
    {
      MarkerInjective(p, q);
    }
  }

  /** Distinct passwords get distinct marked hashes. */
  lemma MarkerInjective(p: string, q: string)
    ensures q + "#" == p + "#" ==> q == p
  {
    if q + "#" == p + "#" {
      assert q == (q + "#")[..|q|];
    }
  }

  /** Walk-through, step 1: registering into an empty store stores exactly one user. */
  method RegisterFirst(users: UserRepo.UserRepository, username: string, email: string, password: string,
                       hasher: Hasher, userId: Uuid, now: Instant) returns (registered: AuthResult<()>)
    requires users.users == []
    requires FieldsValid(username, email, password) && NeverFails(hasher)
    modifies users
    ensures registered.Ok?
    ensures users.users == [User(userId, username, email, hasher.hash(password).value, now)]
  {
    registered := RegisterUser(users, username, email, password, hasher, userId, now);
  }

  /** Step 2: a wrong password is refused, the right one opens a session, logout closes it. */
  method LoginLogout(users: UserRepo.UserRepository, sessions: SessionRepo.SessionRepository, user: User,
                     password: string, wrongPassword: string, hasher: Hasher, s1: Uuid, s2: Uuid, now: Instant)
    returns (wrong: AuthResult<Uuid>, right: AuthResult<Uuid>, loggedIn: bool, loggedOut: bool)
    requires users.users == [user] && sessions.sessions == []
    requires hasher.hash(password) == Ok(user.passwordHash) && wrongPassword != password
    requires VerifiesOwnHash(hasher) && RejectsOtherPasswords(hasher)
    modifies sessions
    ensures wrong == Err(InvalidPasswordLogin)
    ensures right == Ok(s2) && loggedIn && !loggedOut
  {
    assert users.FindByUsername(user.username) == Some(user);
    wrong := LoginUser(users, sessions, user.username, wrongPassword, hasher, s1, now);
    right := LoginUser(users, sessions, user.username, password, hasher, s2, now);
    loggedIn := IsLoggedIn(sessions, s2, now);
    LogoutUser(sessions, s2);
    loggedOut := IsLoggedIn(sessions, s2, now);
  }

  /** Step 3: a reset requested by email and redeemed at once replaces the only user's hash. */
  method RequestAndReset(users: UserRepo.UserRepository, tokens: TokenRepo.ResetTokenRepository, user: User,
                         newPassword: string, hasher: Hasher, tokenId: Uuid, now: Instant)
    returns (requested: AuthResult<Uuid>, reset: AuthResult<()>)
    requires users.users == [user] && tokens.tokens == []
    requires ValidatePassword(newPassword).Ok? && NeverFails(hasher)
    modifies users, tokens
    ensures requested == Ok(tokenId) && reset.Ok?
    ensures users.users == [user.(passwordHash := hasher.hash(newPassword).value)]
    ensures tokens.FindToken(tokenId).None?
  {
    assert users.FindByEmail(user.email) == Some(user);
    requested := RequestPasswordReset(users, tokens, user.email, tokenId, now);
    reset := ResetPassword(users, tokens, tokenId, newPassword, hasher, now);
  }

  /** Step 4: after the reset the old password is refused, the new one accepted, and the spent
      token reported unknown. */
  method LoginAfterReset(users: UserRepo.UserRepository, sessions: SessionRepo.SessionRepository,
                         tokens: TokenRepo.ResetTokenRepository, user: User, password: string,
                         newPassword: string, hasher: Hasher, tokenId: Uuid, s3: Uuid, s4: Uuid, now: Instant)
    returns (oldLogin: AuthResult<Uuid>, newLogin: AuthResult<Uuid>, reuse: AuthResult<()>)
    requires users.users == [user] && tokens.FindToken(tokenId).None?
    requires hasher.hash(newPassword) == Ok(user.passwordHash) && newPassword != password
    requires VerifiesOwnHash(hasher) && RejectsOtherPasswords(hasher)
    modifies sessions, users, tokens
    ensures oldLogin == Err(InvalidPasswordLogin) && newLogin == Ok(s4)
    ensures reuse == Err(TokenInvalid)
  {
    assert users.FindByUsername(user.username) == Some(user);
    oldLogin := LoginUser(users, sessions, user.username, password, hasher, s3, now);
    newLogin := LoginUser(users, sessions, user.username, newPassword, hasher, s4, now);
    reuse := ResetPassword(users, tokens, tokenId, newPassword, hasher, now);
  }

  /** The whole walk-through, from empty stores. Hashing is assumed never to fault, to verify its
      own hashes and to reject other passwords; ExampleInputsValid shows that the sample inputs
      meet the requirements on the fields. */
  method Walkthrough(username: string, email: string, password: string, wrongPassword: string,
                     newPassword: string, hasher: Hasher, userId: Uuid, s1: Uuid, s2: Uuid,
                     s3: Uuid, s4: Uuid, tokenId: Uuid, now: Instant)
    returns (registered: AuthResult<()>, wrong: AuthResult<Uuid>, right: AuthResult<Uuid>,
             loggedIn: bool, loggedOut: bool, requested: AuthResult<Uuid>, reset: AuthResult<()>,
             oldLogin: AuthResult<Uuid>, newLogin: AuthResult<Uuid>, reuse: AuthResult<()>)
    requires FieldsValid(username, email, password) && ValidatePassword(newPassword).Ok?
    requires wrongPassword != password && newPassword != password
    requires NeverFails(hasher) && VerifiesOwnHash(hasher) && RejectsOtherPasswords(hasher)
    ensures registered.Ok? && wrong == Err(InvalidPasswordLogin)
    ensures right == Ok(s2) && loggedIn && !loggedOut
    ensures requested == Ok(tokenId) && reset.Ok?
    ensures oldLogin == Err(InvalidPasswordLogin) && newLogin == Ok(s4)
    ensures reuse == Err(TokenInvalid)
  {
    var users := new UserRepo.UserRepository();
    var sessions := new SessionRepo.SessionRepository();
    var tokens := new TokenRepo.ResetTokenRepository();
    registered := RegisterFirst(users, username, email, password, hasher, userId, now);
    var user := User(userId, username, email, hasher.hash(password).value, now);
    wrong, right, loggedIn, loggedOut := LoginLogout(users, sessions, user, password, wrongPassword, hasher, s1, s2, now);
    requested, reset := RequestAndReset(users, tokens, user, newPassword, hasher, tokenId, now);
    var renewed := user.(passwordHash := hasher.hash(newPassword).value);
    oldLogin, newLogin, reuse := LoginAfterReset(users, sessions, tokens, renewed, password, newPassword,
                                                 hasher, tokenId, s3, s4, now);
  }
}
