/**
  The identity service (src/user/services.rs): registration, login, logout, session lookup,
  password change and the reset-token flow, composed from the validators, the hasher and
  the three stores. Each operation checks in a fixed order and stops at the first failure.
 */
module Services {
  import opened Common
  import opened Model
  import opened Errors
  import opened Validation
  import opened Auth
  import Sessions
  import ResetTokens
  import UserRepo
  import SessionRepo
  import TokenRepo

  /** `login_user` builds its session inline with a 24-hour window (not `Session::new`). */
  const LoginSessionLifetime: int := 24 * Hour

  /** `register_user`. `id` and `now` stand for `Uuid::new_v4()` and `Utc::now()`. */
  method RegisterUser(repo: UserRepo.UserRepository, username: string, email: string, password: string,
                      hasher: Hasher, id: Uuid, now: Instant) returns (r: AuthResult<()>)
    modifies repo
    ensures r == Err(InvalidUsername) <==> !ValidateUsername(username).Ok?
    ensures r == Err(InvalidEmail) <==> ValidateUsername(username).Ok? && !ValidateEmail(email).Ok?
    ensures r == Err(InvalidPassword) <==>
      ValidateUsername(username).Ok? && ValidateEmail(email).Ok? && !ValidatePassword(password).Ok?
    ensures r == Err(UsernameExists) <==>
      FieldsValid(username, email, password) && exists u :: u in old(repo.users) && u.username == username
    ensures r == Err(EmailExists) <==>
      FieldsValid(username, email, password) && (forall u :: u in old(repo.users) ==> u.username != username)
      && exists u :: u in old(repo.users) && u.email == email
    ensures r == Err(PasswordHashingFailed) <==> Admissible(old(repo.users), username, email, password) && hasher.hash(password).Err?
    ensures r.Ok? <==> Admissible(old(repo.users), username, email, password) && hasher.hash(password).Ok?
    ensures r.Err? ==> repo.users == old(repo.users)
    ensures r.Ok? ==> repo.users == old(repo.users) + [User(id, username, email, hasher.hash(password).value, now)]
    ensures UserRepo.UniqueUsernames(old(repo.users)) ==> UserRepo.UniqueUsernames(repo.users)
    ensures UserRepo.UniqueEmails(old(repo.users)) ==> UserRepo.UniqueEmails(repo.users)
    ensures UserRepo.UniqueIds(old(repo.users)) && old(repo.FindById(id)).None? ==> UserRepo.UniqueIds(repo.users)
  {
    if !ValidateUsername(username).Ok? {
      return Err(InvalidUsername);
    }
    if !ValidateEmail(email).Ok? {
      return Err(InvalidEmail);
    }
    if !ValidatePassword(password).Ok? {
      return Err(InvalidPassword);
    }
    if repo.FindByUsername(username).Some? {
      return Err(UsernameExists);
    }
    if repo.FindByEmail(email).Some? {
      return Err(EmailExists);
    }
    var hashed := hasher.hash(password);
    if hashed.Err? {
      return Err(PasswordHashingFailed);
    }
    var user := User(id, username, email, hashed.value, now);
    UserRepo.AppendKeepsUnique(repo.users, user);
    repo.AddUser(user);
    return Ok(());
  }

  /** Every check of `register_user` before hashing passes. */
  ghost predicate Admissible(users: seq<User>, username: string, email: string, password: string) {
    && FieldsValid(username, email, password)
    && (forall u :: u in users ==> u.username != username)
    && (forall u :: u in users ==> u.email != email)
  }

  /** `login_user`. `sessionId` and `now` stand for `Uuid::new_v4()` and both `Utc::now()` reads. */
  method LoginUser(repo: UserRepo.UserRepository, sessionRepo: SessionRepo.SessionRepository,
                   username: string, password: string, hasher: Hasher, sessionId: Uuid, now: Instant)
    returns (r: AuthResult<Uuid>)
    modifies sessionRepo
    ensures r == Err(UserNotFound) <==> repo.FindByUsername(username).None?
    ensures r == Err(InvalidPasswordLogin) <==>
      repo.FindByUsername(username).Some? && !Accepts(hasher, password, repo.FindByUsername(username).value.passwordHash)
    ensures r.Ok? <==>
      repo.FindByUsername(username).Some? && Accepts(hasher, password, repo.FindByUsername(username).value.passwordHash)
    ensures r.Err? ==> sessionRepo.sessions == old(sessionRepo.sessions)
    ensures r.Ok? ==> r.value == sessionId
    ensures r.Ok? ==>
      sessionRepo.sessions == old(sessionRepo.sessions) +
      [Sessions.Session(sessionId, repo.FindByUsername(username).value.id, now, now + LoginSessionLifetime)]
    ensures r.Ok? && old(sessionRepo.FindBySessionId(sessionId)).None? ==>
      && IsLoggedIn(sessionRepo, sessionId, now)
      && GetUserFromSession(sessionRepo, repo, sessionId, now).Some?
      && GetUserFromSession(sessionRepo, repo, sessionId, now).value.id == repo.FindByUsername(username).value.id
  {
    var found := repo.FindByUsername(username);
    if found.None? {
      return Err(UserNotFound);
    }
    var user := found.value;
    var ok := hasher.verify(password, user.passwordHash);
    if ok.Err? {
      return Err(InvalidPasswordLogin);
    }
    if !ok.value {
      return Err(InvalidPasswordLogin);
    }
    var session := Sessions.Session(sessionId, user.id, now, now + LoginSessionLifetime);
    sessionRepo.AddSession(session);
    return Ok(session.id);
  }

  /** `is_logged_in`: the first session with that id exists and has not expired; absence and
      expiry are reported alike. */
  function IsLoggedIn(sessionRepo: SessionRepo.SessionRepository, sessionId: Uuid, now: Instant): (b: bool)
    reads sessionRepo
    ensures b <==> sessionRepo.FindBySessionId(sessionId).Some?
                   && Sessions.IsValid(sessionRepo.FindBySessionId(sessionId).value, now)
    ensures SessionRepo.UniqueIds(sessionRepo.sessions) ==>
      (b <==> exists s :: s in sessionRepo.sessions && s.id == sessionId && Sessions.IsValid(s, now))
  {
    sessionRepo.ValidateSession(sessionId, now)
  }

  /** `logout_user`: unconditional removal; logging out an unknown or already removed
      session is a no-op. */
  method LogoutUser(sessionRepo: SessionRepo.SessionRepository, sessionId: Uuid)
    modifies sessionRepo
    ensures sessionRepo.sessions == SessionRepo.Without(old(sessionRepo.sessions), sessionId)
    ensures forall now :: !IsLoggedIn(sessionRepo, sessionId, now)
    ensures old(sessionRepo.FindBySessionId(sessionId)).None? ==> sessionRepo.sessions == old(sessionRepo.sessions)
  {
    sessionRepo.RemoveSession(sessionId);
  }

  /** `get_user_from_session`: the owner of a live session, resolved through the user store. */
  function GetUserFromSession(sessionRepo: SessionRepo.SessionRepository, userRepo: UserRepo.UserRepository,
                              sessionId: Uuid, now: Instant): (r: Option<User>)
    reads sessionRepo, userRepo
    ensures !IsLoggedIn(sessionRepo, sessionId, now) ==> r.None?
    ensures IsLoggedIn(sessionRepo, sessionId, now) ==>
      r == userRepo.FindById(sessionRepo.FindBySessionId(sessionId).value.userId)
    ensures r.Some? ==> r.value in userRepo.users
  {
    match sessionRepo.FindBySessionId(sessionId)
    case None => None
    case Some(session) =>
      if !Sessions.IsValid(session, now) then None
      else userRepo.FindById(session.userId)
  }

  /** `change_password`: a live session, its owner, the old password, then the new one. */
  method ChangePassword(sessionRepo: SessionRepo.SessionRepository, userRepo: UserRepo.UserRepository,
                        sessionId: Uuid, oldPassword: string, newPassword: string,
                        hasher: Hasher, now: Instant) returns (r: AuthResult<()>)
    modifies userRepo
    ensures r == Err(SessionExpired) <==> !IsLoggedIn(sessionRepo, sessionId, now)
    ensures r == Err(UserNotFound) <==>
      IsLoggedIn(sessionRepo, sessionId, now) && old(GetUserFromSession(sessionRepo, userRepo, sessionId, now)).None?
    ensures r == Err(InvalidPasswordLogin) <==>
      var owner := old(GetUserFromSession(sessionRepo, userRepo, sessionId, now));
      owner.Some? && !Accepts(hasher, oldPassword, owner.value.passwordHash)
    ensures r == Err(InvalidPassword) <==>
      var owner := old(GetUserFromSession(sessionRepo, userRepo, sessionId, now));
      owner.Some? && Accepts(hasher, oldPassword, owner.value.passwordHash) && !ValidatePassword(newPassword).Ok?
    ensures r == Err(PasswordHashingFailed) <==>
      var owner := old(GetUserFromSession(sessionRepo, userRepo, sessionId, now));
      owner.Some? && Accepts(hasher, oldPassword, owner.value.passwordHash) && ValidatePassword(newPassword).Ok?
      && hasher.hash(newPassword).Err?
    ensures r.Ok? <==>
      var owner := old(GetUserFromSession(sessionRepo, userRepo, sessionId, now));
      owner.Some? && Accepts(hasher, oldPassword, owner.value.passwordHash) && ValidatePassword(newPassword).Ok?
      && hasher.hash(newPassword).Ok?
    ensures r.Err? ==> userRepo.users == old(userRepo.users)
    ensures r.Ok? ==> userRepo.users == UserRepo.WithPassword(old(userRepo.users),
      sessionRepo.FindBySessionId(sessionId).value.userId, hasher.hash(newPassword).value)
  {
    var found := sessionRepo.FindBySessionId(sessionId);
    if found.None? {
      return Err(SessionExpired);
    }
    var session := found.value;
    if !Sessions.IsValid(session, now) {
      return Err(SessionExpired);
    }
    var userId := session.userId;
    var owner := userRepo.FindById(userId);
    if owner.None? {
      return Err(UserNotFound);
    }
    var user := owner.value;
    var ok := hasher.verify(oldPassword, user.passwordHash);
    if ok.Err? {
      return Err(InvalidPasswordLogin);
    }
    if !ok.value {
      return Err(InvalidPasswordLogin);
    }
    if !ValidatePassword(newPassword).Ok? {
      return Err(InvalidPassword);
    }
    var newHash := hasher.hash(newPassword);
    if newHash.Err? {
      return Err(PasswordHashingFailed);
    }
    userRepo.UpdatePassword(userId, newHash.value);
    return Ok(());
  }

  /** `request_password_reset`: a new 30-minute token for the first user with that email.
      `tokenId` and `now` stand for `Uuid::new_v4()` and `Utc::now()` inside `ResetToken::new`. */
  method RequestPasswordReset(repo: UserRepo.UserRepository, tokenRepo: TokenRepo.ResetTokenRepository,
                              email: string, tokenId: Uuid, now: Instant) returns (r: AuthResult<Uuid>)
    modifies tokenRepo
    ensures r.Err? <==> repo.FindByEmail(email).None?
    ensures r.Err? ==> r.error == UserNotFound && tokenRepo.tokens == old(tokenRepo.tokens)
    ensures r.Ok? ==> r.value == tokenId
    ensures r.Ok? ==>
      tokenRepo.tokens == old(tokenRepo.tokens) + [ResetTokens.NewToken(repo.FindByEmail(email).value.id, tokenId, now)]
    ensures r.Ok? && old(tokenRepo.FindToken(tokenId)).None? ==>
      && tokenRepo.FindToken(tokenId).Some?
      && tokenRepo.FindToken(tokenId).value.userId == repo.FindByEmail(email).value.id
      && ResetTokens.IsValid(tokenRepo.FindToken(tokenId).value, now)
  {
    var found := repo.FindByEmail(email);
    if found.None? {
      return Err(UserNotFound);
    }
    var token := ResetTokens.NewToken(found.value.id, tokenId, now);
    tokenRepo.AddToken(token);
    return Ok(token.token);
  }

  /** The token is known and has not expired at `now`. */
  function Redeemable(tokenRepo: TokenRepo.ResetTokenRepository, token: Uuid, now: Instant): bool
    reads tokenRepo
  {
    tokenRepo.FindToken(token).Some? && ResetTokens.IsValid(tokenRepo.FindToken(token).value, now)
  }

  /** `reset_password`: a known, unexpired token and an acceptable new password set the owner's
      hash and consume the token. */
  method ResetPassword(repo: UserRepo.UserRepository, tokenRepo: TokenRepo.ResetTokenRepository,
                       token: Uuid, newPassword: string, hasher: Hasher, now: Instant) returns (r: AuthResult<()>)
    modifies repo, tokenRepo
    ensures r == Err(TokenInvalid) <==> old(tokenRepo.FindToken(token)).None?
    ensures r == Err(TokenExpired) <==> old(tokenRepo.FindToken(token)).Some? && !old(Redeemable(tokenRepo, token, now))
    ensures r == Err(InvalidPassword) <==> old(Redeemable(tokenRepo, token, now)) && !ValidatePassword(newPassword).Ok?
    ensures r == Err(PasswordHashingFailed) <==>
      old(Redeemable(tokenRepo, token, now)) && ValidatePassword(newPassword).Ok? && hasher.hash(newPassword).Err?
    ensures r.Ok? <==>
      old(Redeemable(tokenRepo, token, now)) && ValidatePassword(newPassword).Ok? && hasher.hash(newPassword).Ok?
    ensures r.Err? ==> repo.users == old(repo.users) && tokenRepo.tokens == old(tokenRepo.tokens)
    ensures r.Ok? ==>
      && repo.users == UserRepo.WithPassword(old(repo.users), old(tokenRepo.FindToken(token)).value.userId,
                                             hasher.hash(newPassword).value)
      && tokenRepo.tokens == TokenRepo.Without(old(tokenRepo.tokens), token)
    ensures r.Ok? ==> tokenRepo.FindToken(token).None?
  {
    var found := tokenRepo.FindToken(token);
    if found.None? {
      return Err(TokenInvalid);
    }
    var tokenData := found.value;
    if !ResetTokens.IsValid(tokenData, now) {
      return Err(TokenExpired);
    }
    if !ValidatePassword(newPassword).Ok? {
      return Err(InvalidPassword);
    }
    var newHash := hasher.hash(newPassword);
    if newHash.Err? {
      return Err(PasswordHashingFailed);
    }
    repo.UpdatePassword(tokenData.userId, newHash.value);
    tokenRepo.RemoveToken(token);
    return Ok(());
  }
}
