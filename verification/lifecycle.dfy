/** Properties of the session lifecycle that span several requests: the
    store constraints hold after every endpoint; a registered user can log
    in; a refresh token handed out at login can be exchanged; and, as
    written, a refresh token whose record was revoked (by logout or by a
    password change) can still be exchanged. */
module Lifecycle {
  import opened Base
  import Uuid
  import Password
  import Jwt
  import Gate
  import opened Store
  import opened Handlers

  /** The store writes a new session for `user` at this request would
      succeed: the new refresh token's hash and the new record id are not
      taken. */
  predicate FreshSession(cfg: Config, env: Env, st: State, user: Uuid.UUID)
  {
    && Sha256Hex(cfg.text.show(cfg.issue.refresh(user, env.now, env.refreshJti).token)) !in st.sessions
    && forall g :: g in st.sessions ==> st.sessions[g].id != env.newRecordId
  }

  // ---------------------------------------------------------------------
  // The store constraints hold after every endpoint
  // ---------------------------------------------------------------------

  lemma StartSessionInv(cfg: Config, env: Env, st: State, u: User, status: nat)
    ensures Inv(st) ==> Inv(StartSession(cfg, env, st, u, status).0)
  {
    var access := cfg.issue.access(u.id, u.email, env.now, env.accessJti, env.accessRegId);
    var refresh := cfg.issue.refresh(u.id, env.now, env.refreshJti);
    CommitInv(cfg, env, st, u, status, cfg.text.show(access.token), access.expiresAt,
              cfg.text.show(refresh.token), refresh.expiresAt);
  }

  lemma EnrollInv(cfg: Config, env: Env, st: State, email: string, digest: string)
    ensures Inv(st) ==> Inv(Enroll(cfg, env, st, email, digest).0)
  {
    CreateUserInv(st, env.newUserId, email, digest);
    if !env.faults.createUser && CreateUser(st, env.newUserId, email, digest).Some? {
      var st1 := CreateUser(st, env.newUserId, email, digest).value;
      StartSessionInv(cfg, env, st1, NewUser(env.newUserId, email, digest), 201);
    }
  }

  lemma RegisterInv(cfg: Config, env: Env, st: State, email: string, password: string)
    ensures Inv(st) ==> Inv(Register(cfg, env, st, email, password).0)
  {
    var h := Password.HashPassword(Password.Default, password, env.salt, cfg.kdf);
    if h.Ok? {
      EnrollInv(cfg, env, st, email, h.value);
    }
  }

  lemma LoginInv(cfg: Config, env: Env, st: State, email: string, password: string)
    ensures Inv(st) ==> Inv(Login(cfg, env, st, email, password).0)
  {
    match UserByEmail(st, email)
    case None =>
    case Some(u) => StartSessionInv(cfg, env, st, u, 200);
  }

  lemma RotateInv(cfg: Config, env: Env, st: State, h: TokenHash, prior: Record, u: User)
    requires h in st.sessions && prior == st.sessions[h]
    ensures Inv(st) ==> Inv(Rotate(cfg, env, st, h, prior, u).0)
  {
    var refresh := cfg.issue.refresh(u.id, env.now, env.refreshJti);
    var st1 := if env.faults.revoke then st else RevokeRefreshToken(st, h);
    RevokeInv(st, h);
    var h1 := Sha256Hex(cfg.text.show(refresh.token));
    CreateRefreshTokenInv(st1, h1, NewRecord(cfg, env, u.id, refresh.expiresAt));
    match StoreSession(cfg, env, st1, h1, u.id, refresh.expiresAt)
    case None =>
    case Some(st2) => TouchInv(st2, prior.id, env.now);
  }

  lemma RefreshInv(cfg: Config, env: Env, st: State, text: string)
    ensures Inv(st) ==> Inv(Refresh(cfg, env, st, text).0)
  {
    match Jwt.ExtractUserIdFromRefreshToken(cfg.jwt, cfg.text.read(text), env.now)
    case Err(_) =>
    case Ok(uid) =>
      match Lookup(cfg, st, Sha256Hex(text), env.now)
      case None =>
      case Some(rec) =>
        match UserById(st, uid)
        case None =>
        case Some(u) => RotateInv(cfg, env, st, Sha256Hex(text), rec, u);
  }

  lemma LogoutInv(cfg: Config, env: Env, st: State, text: string)
    ensures Inv(st) ==> Inv(Logout(cfg, env, st, text).0)
  {
    RevokeInv(st, Sha256Hex(text));
  }

  lemma ChangePasswordInv(cfg: Config, env: Env, st: State, ctx: Gate.Context, current: string, replacement: string)
    ensures Inv(st) ==> Inv(ChangePassword(cfg, env, st, ctx, current, replacement).0)
  {
    var uid := Gate.GetUserId(ctx).0;
    if Gate.RequireAuth(ctx).None? && UserById(st, uid).Some? {
      ReplacePasswordInv(cfg, env, st, uid, replacement);
    }
  }

  lemma ReplacePasswordInv(cfg: Config, env: Env, st: State, uid: Uuid.UUID, replacement: string)
    requires UserById(st, uid).Some?
    ensures Inv(st) ==> Inv(ReplacePassword(cfg, env, st, uid, replacement).0)
  {
    match Password.HashPassword(Password.Default, replacement, env.salt, cfg.kdf)
    case Err(_) =>
    case Ok(digest) =>
      UpdatePasswordInv(st, uid, digest);
      match UpdatePassword(st, uid, digest)
      case None =>
      case Some(st1) => RevokeAllInv(st1, uid);
  }

  // ---------------------------------------------------------------------
  // Refusals
  // ---------------------------------------------------------------------

  /** An unknown e-mail, a digest that does not parse and a wrong password
      all get the same answer, and none changes the store. */
  lemma LoginRefusalsAlike(cfg: Config, env: Env, st: State, email: string, password: string)
    requires UserByEmail(st, email).None?
             || Password.ParseHash(UserByEmail(st, email).value.digest).Err?
             || CheckPassword(cfg, password, UserByEmail(st, email).value.digest) == Ok(false)
    ensures Login(cfg, env, st, email, password) == (st, InvalidCredentials)
  {
    if UserByEmail(st, email).Some? {
      var d := UserByEmail(st, email).value.digest;
      if Password.ParseHash(d).Err? {
        assert CheckPassword(cfg, password, d) == Err(Password.ParseFailed(Password.ParseHash(d).error));
      }
    }
  }

  /** A wrong current password and a weak new one are refused with the
      store unchanged. */
  lemma ChangePasswordRefusals(cfg: Config, env: Env, st: State, ctx: Gate.Context, current: string,
                               replacement: string)
    requires Gate.RequireAuth(ctx).None? && UserById(st, Gate.GetUserId(ctx).0).Some?
    ensures CheckPassword(cfg, current, UserById(st, Gate.GetUserId(ctx).0).value.digest) == Ok(false) ==>
              ChangePassword(cfg, env, st, ctx, current, replacement)
              == (st, Response(401, Failure("Current password is incorrect")))
    ensures CheckPassword(cfg, current, UserById(st, Gate.GetUserId(ctx).0).value.digest) == Ok(true)
            && Password.ValidatePasswordStrength(replacement).Some? ==>
              ChangePassword(cfg, env, st, ctx, current, replacement)
              == (st, Response(400, Failure(Password.StrengthMessage(Password.ValidatePasswordStrength(replacement).value))))
  {
  }

  // ---------------------------------------------------------------------
  // Round trips
  // ---------------------------------------------------------------------

  /** A digest the handlers store verifies the password it was made from,
      in either variant. */
  lemma CheckHashedPassword(cfg: Config, password: string, salt: Bytes)
    ensures CheckPassword(cfg, password, Password.HashPassword(Password.Default, password, Some(salt), cfg.kdf).value)
            == Ok(true)
  {
    Password.DefaultCostsUsable();
    Password.VerifyHashedPassword(Password.Default, password, salt, cfg.kdf);
  }

  /** With a fresh hash and record id, a session is started. */
  lemma StartSessionSucceeds(cfg: Config, env: Env, st: State, u: User, status: nat)
    requires !env.faults.createToken && FreshSession(cfg, env, st, u.id)
    ensures StartSession(cfg, env, st, u, status).1.status == status
  {
  }

  /** With a fresh hash and record id, a rotation succeeds. */
  lemma RotateSucceeds(cfg: Config, env: Env, st: State, h: TokenHash, prior: Record, u: User)
    requires h in st.sessions && prior == st.sessions[h]
    requires !env.faults.createToken && FreshSession(cfg, env, st, u.id)
    ensures Rotate(cfg, env, st, h, prior, u).1.status == 200
  {
    var st1 := if env.faults.revoke then st else RevokeRefreshToken(st, h);
    assert st1.sessions.Keys == st.sessions.Keys;
    assert forall g :: g in st1.sessions ==> st1.sessions[g].id == st.sessions[g].id;
  }

  /** The user a registration creates is the one a later login finds. */
  lemma RegisteredUserFound(cfg: Config, env: Env, st: State, email: string, password: string)
    requires Register(cfg, env, st, email, password).1.status == 201
    ensures env.salt.Some?
    ensures var st1 := Register(cfg, env, st, email, password).0;
            && UserByEmail(st1, email).Some?
            && UserByEmail(st1, email).value.id == env.newUserId
            && UserByEmail(st1, email).value.digest
               == Password.HashPassword(Password.Default, password, env.salt, cfg.kdf).value
  {
    var digest := Password.HashPassword(Password.Default, password, env.salt, cfg.kdf).value;
    var st1 := CreateUser(st, env.newUserId, email, digest).value;
    var r := StartSession(cfg, env, st1, NewUser(env.newUserId, email, digest), 201);
    LookupsUpToLastLogin(st1, r.0, env.newUserId, email);
  }

  /** Register, then log in with the same e-mail and password: the login
      succeeds whenever its session can be stored. */
  lemma RegisterThenLogin(cfg: Config, env1: Env, env2: Env, st: State, email: string, password: string)
    requires Register(cfg, env1, st, email, password).1.status == 201
    requires !env2.faults.createToken
    requires FreshSession(cfg, env2, Register(cfg, env1, st, email, password).0, env1.newUserId)
    ensures Login(cfg, env2, Register(cfg, env1, st, email, password).0, email, password).1.status == 200
  {
    var st1 := Register(cfg, env1, st, email, password).0;
    RegisteredUserFound(cfg, env1, st, email, password);
    var u := UserByEmail(st1, email).value;
    CheckHashedPassword(cfg, password, env1.salt.value);
    StartSessionSucceeds(cfg, env2, st1, u, 200);
  }

  /** The refresh token a login hands out reads back as a token of the
      manager's for that user. */
  lemma IssuedRefreshExtracts(cfg: Config, u: Uuid.UUID, issued: int, jti: Uuid.UUID, at: int)
    requires cfg.issue == StandardIssuer(cfg.jwt)
    requires issued <= at < issued + cfg.jwt.refreshTtl
    requires var t := Jwt.GenerateRefreshToken(cfg.jwt, u, issued, jti).token; cfg.text.read(cfg.text.show(t)) == t
    ensures cfg.issue.refresh(u, issued, jti).expiresAt == issued + cfg.jwt.refreshTtl
    ensures Jwt.ExtractUserIdFromRefreshToken(cfg.jwt,
              cfg.text.read(cfg.text.show(cfg.issue.refresh(u, issued, jti).token)), at) == Ok(u)
  {
    Jwt.IssueExtractRefresh(cfg.jwt, u, issued, jti, at);
  }

  /** Log in, then exchange the refresh token within its lifetime: the
      exchange succeeds in either variant, whenever the new session can be
      stored. */
  lemma LoginThenRefresh(cfg: Config, env1: Env, env2: Env, st: State, email: string, password: string)
    requires cfg.issue == StandardIssuer(cfg.jwt)
    requires Inv(st)
    requires Login(cfg, env1, st, email, password).1.status == 200
    requires env1.now <= env2.now < env1.now + cfg.jwt.refreshTtl
    requires var t := Jwt.GenerateRefreshToken(cfg.jwt, UserByEmail(st, email).value.id, env1.now, env1.refreshJti).token;
             cfg.text.read(cfg.text.show(t)) == t
    requires !env2.faults.createToken
    requires FreshSession(cfg, env2, Login(cfg, env1, st, email, password).0, UserByEmail(st, email).value.id)
    ensures var r := Login(cfg, env1, st, email, password);
            Refresh(cfg, env2, r.0, r.1.body.refreshToken).1.status == 200
  {
    var r := Login(cfg, env1, st, email, password);
    var u := UserByEmail(st, email).value;
    var text := r.1.body.refreshToken;
    IssuedRefreshExtracts(cfg, u.id, env1.now, env1.refreshJti, env2.now);
    LoggedInUserFound(cfg, env1, st, email, password);
    var h := Sha256Hex(text);
    LiveAfterLogin(cfg, env1, st, r.0, h, u.id, env2.now);
    RefreshRotates(cfg, env2, r.0, text, u.id);
    RotateSucceeds(cfg, env2, r.0, h, r.0.sessions[h], UserById(r.0, u.id).value);
  }

  /** The user who logs in is found by id afterwards. */
  lemma LoggedInUserFound(cfg: Config, env: Env, st: State, email: string, password: string)
    requires Inv(st) && Login(cfg, env, st, email, password).1.status == 200
    ensures UserById(Login(cfg, env, st, email, password).0, UserByEmail(st, email).value.id).Some?
  {
    var r := Login(cfg, env, st, email, password);
    var u := UserByEmail(st, email).value;
    var k :| 0 <= k < |st.users| && st.users[k] == u;
    UserByIdUnique(st, k);
    LookupsUpToLastLogin(st, r.0, u.id, email);
  }

  /** The record a login stores is found by the lookup of either variant
      until the refresh token's expiry. */
  lemma LiveAfterLogin(cfg: Config, env: Env, st: State, st1: State, h: TokenHash, user: Uuid.UUID, at: int)
    requires SessionAdded(st, st1, h, user, cfg.issue.refresh(user, env.now, env.refreshJti).expiresAt)
    requires at < cfg.issue.refresh(user, env.now, env.refreshJti).expiresAt
    ensures Lookup(cfg, st1, h, at) == Some(st1.sessions[h])
  {
  }

  /** A refresh whose token reads back, whose record is found and whose
      user is found comes down to the rotation. */
  lemma RefreshRotates(cfg: Config, env: Env, st: State, text: string, uid: Uuid.UUID)
    requires Jwt.ExtractUserIdFromRefreshToken(cfg.jwt, cfg.text.read(text), env.now) == Ok(uid)
    requires Lookup(cfg, st, Sha256Hex(text), env.now).Some? && UserById(st, uid).Some?
    ensures Sha256Hex(text) in st.sessions
    ensures Refresh(cfg, env, st, text)
            == Rotate(cfg, env, st, Sha256Hex(text), st.sessions[Sha256Hex(text)], UserById(st, uid).value)
  {
  }

  // ---------------------------------------------------------------------
  // Revoked refresh tokens
  // ---------------------------------------------------------------------

  /** A refresh token whose record is revoked: as written, the exchange
      goes through; as intended, it is refused as unknown. */
  lemma RevokedTokenReplay(cfg: Config, env: Env, st: State, text: string)
    requires Sha256Hex(text) in st.sessions && st.sessions[Sha256Hex(text)].revoked
    requires Jwt.ExtractUserIdFromRefreshToken(cfg.jwt, cfg.text.read(text), env.now).Ok?
    requires UserById(st, Jwt.ExtractUserIdFromRefreshToken(cfg.jwt, cfg.text.read(text), env.now).value).Some?
    requires !env.faults.createToken
    requires FreshSession(cfg, env, st, Jwt.ExtractUserIdFromRefreshToken(cfg.jwt, cfg.text.read(text), env.now).value)
    ensures Refresh(cfg.(variant := AsWritten), env, st, text).1.status == 200
    ensures Refresh(cfg.(variant := Corrected), env, st, text) == (st, UnknownRefresh)
  {
    var c := cfg.(variant := AsWritten);
    var uid := Jwt.ExtractUserIdFromRefreshToken(cfg.jwt, cfg.text.read(text), env.now).value;
    var h := Sha256Hex(text);
    RefreshRotates(c, env, st, text, uid);
    RotateSucceeds(c, env, st, h, st.sessions[h], UserById(st, uid).value);
  }

  /** Finding: log out, then present the same refresh token again.  As
      written the logged-out token is exchanged for fresh tokens; as
      intended it is refused. */
  lemma ReplayAfterLogout(cfg: Config, env0: Env, env: Env, st: State, text: string)
    requires !env0.faults.revoke && Sha256Hex(text) in st.sessions
    requires Jwt.ExtractUserIdFromRefreshToken(cfg.jwt, cfg.text.read(text), env.now).Ok?
    requires UserById(st, Jwt.ExtractUserIdFromRefreshToken(cfg.jwt, cfg.text.read(text), env.now).value).Some?
    requires !env.faults.createToken
    requires FreshSession(cfg, env, st, Jwt.ExtractUserIdFromRefreshToken(cfg.jwt, cfg.text.read(text), env.now).value)
    ensures var st1 := Logout(cfg, env0, st, text).0;
            && Refresh(cfg.(variant := AsWritten), env, st1, text).1.status == 200
            && Refresh(cfg.(variant := Corrected), env, st1, text) == (st1, UnknownRefresh)
  {
    var st1 := Logout(cfg, env0, st, text).0;
    RevokedTokenReplay(cfg, env, st1, text);
  }

  /** Finding: after a password change every earlier refresh token of the
      user is revoked, yet as written each can still be exchanged; as
      intended each is refused. */
  lemma ReplayAfterPasswordChange(cfg: Config, env0: Env, env: Env, st: State, ctx: Gate.Context,
                                  current: string, replacement: string, text: string)
    requires ChangePassword(cfg, env0, st, ctx, current, replacement).1.status == 200 && !env0.faults.revoke
    requires Sha256Hex(text) in st.sessions && st.sessions[Sha256Hex(text)].userId == Gate.GetUserId(ctx).0
    requires var st1 := ChangePassword(cfg, env0, st, ctx, current, replacement).0;
             var uid := Jwt.ExtractUserIdFromRefreshToken(cfg.jwt, cfg.text.read(text), env.now);
             uid.Ok? && UserById(st1, uid.value).Some? && FreshSession(cfg, env, st1, uid.value)
    requires !env.faults.createToken
    ensures var st1 := ChangePassword(cfg, env0, st, ctx, current, replacement).0;
            && Refresh(cfg.(variant := AsWritten), env, st1, text).1.status == 200
            && Refresh(cfg.(variant := Corrected), env, st1, text) == (st1, UnknownRefresh)
  {
    var st1 := ChangePassword(cfg, env0, st, ctx, current, replacement).0;
    PasswordChangeRevokes(cfg, env0, st, ctx, current, replacement, Sha256Hex(text));
    RevokedTokenReplay(cfg, env, st1, text);
  }

  /** A successful password change revokes every session of the user. */
  lemma PasswordChangeRevokes(cfg: Config, env: Env, st: State, ctx: Gate.Context, current: string,
                              replacement: string, h: TokenHash)
    requires ChangePassword(cfg, env, st, ctx, current, replacement).1.status == 200 && !env.faults.revoke
    requires h in st.sessions && st.sessions[h].userId == Gate.GetUserId(ctx).0
    ensures var st1 := ChangePassword(cfg, env, st, ctx, current, replacement).0;
            h in st1.sessions && st1.sessions[h].revoked
  {
  }

  /** Finding: a stored digest with a pass count of zero.  As written the
      login request dies in the KDF and the recovery middleware answers a
      bare 500; as intended the login is refused like any other. */
  lemma ZeroPassDigestLogin(cfg: Config, env: Env, st: State, email: string, password: string)
    requires UserByEmail(st, email).Some?
    requires Password.ParseHash(UserByEmail(st, email).value.digest).Ok?
    requires Password.ParseHash(UserByEmail(st, email).value.digest).value.iterations == 0
    ensures Login(cfg.(variant := AsWritten), env, st, email, password) == (st, Panic)
    ensures Login(cfg.(variant := Corrected), env, st, email, password) == (st, InvalidCredentials)
  {
  }

  // ---------------------------------------------------------------------
  // The profile
  // ---------------------------------------------------------------------

  /** After a login, the profile read with the identity the middleware
      records for that user shows the e-mail and the login's time. */
  lemma ProfileAfterLogin(cfg: Config, env: Env, st: State, email: string, password: string, ctx: Gate.Context,
                          c: Jwt.AccessClaims)
    requires Inv(st) && Login(cfg, env, st, email, password).1.status == 200 && !env.faults.lastLogin
    requires c.userId == UserByEmail(st, email).value.id && c.userId != Uuid.Nil
    ensures var p := GetProfile(Login(cfg, env, st, email, password).0, Gate.Recorded(ctx, c));
            && p.status == 200
            && p.body.profile.email == email
            && p.body.profile.lastLogin == Some(env.now)
  {
    LoginStampsUser(cfg, env, st, email, password);
    Gate.IdentityRecorded(ctx, c);
  }

  /** After a login, the user found by id is the one found by e-mail, with
      the login's time as its last login. */
  lemma LoginStampsUser(cfg: Config, env: Env, st: State, email: string, password: string)
    requires Inv(st) && Login(cfg, env, st, email, password).1.status == 200 && !env.faults.lastLogin
    ensures var u := UserByEmail(st, email).value;
            UserById(Login(cfg, env, st, email, password).0, u.id) == Some(u.(lastLogin := Timestamptz(env.now, true)))
  {
    var r := Login(cfg, env, st, email, password);
    var u := UserByEmail(st, email).value;
    var k :| 0 <= k < |st.users| && st.users[k] == u;
    UserByIdUnique(st, k);
    LastLoginStamped(st, u.id, env.now);
    assert UserById(r.0, u.id) == UserById(UpdateLastLogin(st, u.id, env.now), u.id);
  }
}
