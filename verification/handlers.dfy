/** The authentication endpoints as transitions of the store: each takes
    the state and the request and yields the new state and the response
    (status and body).  Everything a request draws from outside (the
    clock, the random salt and identifiers, the client's address and
    user agent, and which store writes fail) is gathered in `Env`. */
module Handlers {
  import opened Base
  import Uuid
  import NetAddr
  import Password
  import Jwt
  import Gate
  import opened Store

  /** Which behaviour of the two places where the code and its evident
      intent differ: a digest with unusable costs at verification, and a
      refresh token whose record was revoked. */
  datatype Variant = AsWritten | Corrected

  /** The two token issuers the handlers call: `GenerateAccessToken` and
      `GenerateRefreshToken` of the application's manager. */
  datatype Issuer = Issuer(access: (Uuid.UUID, string, int, Uuid.UUID, Uuid.UUID) -> Jwt.Issued,
                           refresh: (Uuid.UUID, int, Uuid.UUID) -> Jwt.Issued)

  function StandardIssuer(m: Jwt.Manager): Issuer
  {
    Issuer((u: Uuid.UUID, e: string, now: int, jti: Uuid.UUID, regId: Uuid.UUID) =>
             Jwt.GenerateAccessToken(m, u, e, now, jti, regId),
           (u: Uuid.UUID, now: int, jti: Uuid.UUID) => Jwt.GenerateRefreshToken(m, u, now, jti))
  }

  datatype Config = Config(jwt: Jwt.Manager, issue: Issuer, kdf: Password.Kdf, text: Gate.TokenText,
                           v6: NetAddr.V6Parser, variant: Variant)

  /** Store calls that fail on this request: `emailCheck` is the read of
      the duplicate-e-mail check, the others are writes. */
  datatype Faults = Faults(emailCheck: bool, createUser: bool, createToken: bool, lastLogin: bool,
                           updatePassword: bool, revoke: bool, touch: bool)

  const NoFaults := Faults(false, false, false, false, false, false, false)

  datatype Env = Env(now: int, salt: Option<Bytes>, newUserId: Uuid.UUID, newRecordId: nat,
                     accessJti: Uuid.UUID, accessRegId: Uuid.UUID, refreshJti: Uuid.UUID,
                     userAgent: string, clientIp: string, faults: Faults)

  /** The user as shown in a response. */
  datatype UserView = UserView(id: Uuid.UUID, email: string, emailVerified: bool, active: bool,
                               lastLogin: Option<int>)

  datatype Body =
    | Failure(error: string)
    | Session(accessToken: string, refreshToken: string, expiresAt: int, user: Option<UserView>)
    | Message(message: string)
    | Profile(profile: UserView)
    | NoBody                    // the recovery middleware's bare 500

  datatype Response = Response(status: nat, body: Body)

  const InvalidCredentials := Response(401, Failure("Invalid email or password"))
  const InvalidRefresh := Response(401, Failure("Invalid refresh token"))
  const UnknownRefresh := Response(401, Failure("Invalid or expired refresh token"))
  const StoreFailed := Response(500, Failure("Failed to store refresh token"))
  const Panic := Response(500, NoBody)
  const LoggedOut := Response(200, Message("Logged out successfully"))
  const PasswordChanged := Response(200, Message("Password changed successfully. Please log in again."))

  function View(u: User): UserView
  {
    UserView(u.id, u.email, u.emailVerified, u.active, ConvertTimestamptz(u.lastLogin))
  }

  /** Password verification with the default manager, in the configured
      variant. */
  function CheckPassword(cfg: Config, password: string, digest: string): (r: Result<bool, Password.VerifyFailure>)
    ensures cfg.variant.Corrected? ==> r != Err(Password.Panicked)
    ensures r.Ok? ==> (Password.ParseHash(digest).Ok? &&
              var p := Password.ParseHash(digest).value;
              (r.value <==> p.key == cfg.kdf(password, p.salt, p.iterations, p.memory, p.parallelism,
                                             Password.Default.keyLength)))
  {
    if cfg.variant.AsWritten? then Password.VerifyPasswordAsWritten(Password.Default, password, digest, cfg.kdf)
    else Password.VerifyPassword(Password.Default, password, digest, cfg.kdf)
  }

  /** The stored record a presented refresh token stands for: as written,
      any row under its hash; as intended, only a live one. */
  function Lookup(cfg: Config, st: State, h: TokenHash, now: int): (r: Option<Record>)
    ensures r.Some? ==> h in st.sessions && r.value == st.sessions[h]
    ensures cfg.variant.AsWritten? ==> r == GetRefreshToken(st, h)
    ensures cfg.variant.Corrected? ==> (r.Some? <==> h in st.sessions && Live(st.sessions[h], now))
  {
    match GetRefreshToken(st, h)
    case None => None
    case Some(rec) => if cfg.variant.Corrected? && !Live(rec, now) then None else Some(rec)
  }

  /** The record a new session is stored with. */
  function NewRecord(cfg: Config, env: Env, user: Uuid.UUID, expiresAt: int): Record
  {
    Record(env.newRecordId, user, expiresAt, false, NullTime, env.userAgent, NetAddr.ParseIP(env.clientIp, cfg.v6))
  }

  /** Storing the hash of a new refresh token. */
  function StoreSession(cfg: Config, env: Env, st: State, h: TokenHash, user: Uuid.UUID, expiresAt: int)
    : (r: Option<State>)
    ensures r.Some? <==> !env.faults.createToken && CreateRefreshToken(st, h, NewRecord(cfg, env, user, expiresAt)).Some?
    ensures r.Some? ==> r == CreateRefreshToken(st, h, NewRecord(cfg, env, user, expiresAt))
  {
    if env.faults.createToken then None else CreateRefreshToken(st, h, NewRecord(cfg, env, user, expiresAt))
  }

  /** Issuing a session to `u` after register or login: an access and a
      refresh token, the refresh token's hash stored, the last login
      stamped; the response reports the user as read before the stamp. */
  function StartSession(cfg: Config, env: Env, st: State, u: User, status: nat): (r: (State, Response))
    ensures r.1.body.Session? || r == (st, StoreFailed)
    ensures r.1.body.Session? ==>
              && r.1.status == status
              && SessionAdded(st, r.0, Sha256Hex(r.1.body.refreshToken), u.id,
                              cfg.issue.refresh(u.id, env.now, env.refreshJti).expiresAt)
              && SameUpToLastLogin(st.users, r.0.users)
              && (!env.faults.lastLogin ==> r.0.users == UpdateLastLogin(st, u.id, env.now).users)
              && r.1.body.user == Some(View(u))
              && r.1.body.expiresAt == cfg.issue.access(u.id, u.email, env.now, env.accessJti, env.accessRegId).expiresAt
              && r.1.body.accessToken
                 == cfg.text.show(cfg.issue.access(u.id, u.email, env.now, env.accessJti, env.accessRegId).token)
              && r.1.body.refreshToken == cfg.text.show(cfg.issue.refresh(u.id, env.now, env.refreshJti).token)
  {
    var access := cfg.issue.access(u.id, u.email, env.now, env.accessJti, env.accessRegId);
    var refresh := cfg.issue.refresh(u.id, env.now, env.refreshJti);
    Commit(cfg, env, st, u, status, cfg.text.show(access.token), access.expiresAt,
           cfg.text.show(refresh.token), refresh.expiresAt)
  }

  /** The store writes of a new session, once the tokens' texts and expiry
      times are known. */
  function Commit(cfg: Config, env: Env, st: State, u: User, status: nat,
                  access: string, accessExpiry: int, refresh: string, refreshExpiry: int): (r: (State, Response))
    ensures r.1.body.Session? || r == (st, StoreFailed)
    ensures r.1.body.Session? ==>
              && r.1 == Response(status, Session(access, refresh, accessExpiry, Some(View(u))))
              && SessionAdded(st, r.0, Sha256Hex(refresh), u.id, refreshExpiry)
              && SameUpToLastLogin(st.users, r.0.users)
              && (!env.faults.lastLogin ==> r.0.users == UpdateLastLogin(st, u.id, env.now).users)
  {
    match StoreSession(cfg, env, st, Sha256Hex(refresh), u.id, refreshExpiry)
    case None => (st, StoreFailed)
    case Some(st1) =>
      var st2 := if env.faults.lastLogin then st1 else UpdateLastLogin(st1, u.id, env.now);
      (st2, Response(status, Session(access, refresh, accessExpiry, Some(View(u)))))
  }

  lemma CommitInv(cfg: Config, env: Env, st: State, u: User, status: nat,
                  access: string, accessExpiry: int, refresh: string, refreshExpiry: int)
    ensures Inv(st) ==> Inv(Commit(cfg, env, st, u, status, access, accessExpiry, refresh, refreshExpiry).0)
  {
    CreateRefreshTokenInv(st, Sha256Hex(refresh), NewRecord(cfg, env, u.id, refreshExpiry));
    match StoreSession(cfg, env, st, Sha256Hex(refresh), u.id, refreshExpiry)
    case None =>
    case Some(st1) => UpdateLastLoginInv(st1, u.id, env.now);
  }

  // ---------------------------------------------------------------------
  // The endpoints
  // ---------------------------------------------------------------------

  /** `RegisterHandler`. */
  function Register(cfg: Config, env: Env, st: State, email: string, password: string): (r: (State, Response))
    ensures Password.ValidatePasswordStrength(password).Some? ==>
              r == (st, Response(400, Failure(Password.StrengthMessage(Password.ValidatePasswordStrength(password).value))))
    ensures Password.ValidatePasswordStrength(password).None? && EmailTaken(st, email) && !env.faults.emailCheck ==>
              r == (st, Response(409, Failure("User with this email already exists")))
    ensures Password.ValidatePasswordStrength(password).None? && EmailTaken(st, email) && env.faults.emailCheck ==>
              r.0 == st && r.1.status == 500
              && r.1.body in {Failure("Failed to process password"), Failure("Failed to create user")}
    ensures r.1.status != 201 && r.1 != StoreFailed ==> r.0 == st
    ensures r.1.status == 201 ==>
              && Password.ValidatePasswordStrength(password).None? && !EmailTaken(st, email)
              && Enrolled(cfg, env, st, r.0, email, r.1)
  {
    match Password.ValidatePasswordStrength(password)
    case Some(e) => (st, Response(400, Failure(Password.StrengthMessage(e))))
    case None =>
      // Only a successful read answers 409; a failed one falls through.
      if !env.faults.emailCheck && EmailTaken(st, email) then
        (st, Response(409, Failure("User with this email already exists")))
      else
        match Password.HashPassword(Password.Default, password, env.salt, cfg.kdf)
        case Err(_) => (st, Response(500, Failure("Failed to process password")))
        case Ok(digest) => Enroll(cfg, env, st, email, digest)
  }

  /** What a successful registration leaves: the new user findable by id,
      with the e-mail given, and one session for it. */
  predicate Enrolled(cfg: Config, env: Env, st: State, st1: State, email: string, resp: Response)
  {
    && UserById(st1, env.newUserId).Some? && UserById(st1, env.newUserId).value.email == email
    && resp.body.Session?
    && SessionAdded(st, st1, Sha256Hex(resp.body.refreshToken), env.newUserId,
                    cfg.issue.refresh(env.newUserId, env.now, env.refreshJti).expiresAt)
  }

  /** Registration once the digest exists: the user row, then the session. */
  function Enroll(cfg: Config, env: Env, st: State, email: string, digest: string): (r: (State, Response))
    ensures r.1.status != 201 && r.1 != StoreFailed ==> r.0 == st
    ensures r.1.status == 201 ==> !EmailTaken(st, email) && Enrolled(cfg, env, st, r.0, email, r.1)
  {
    var created := if env.faults.createUser then None else CreateUser(st, env.newUserId, email, digest);
    match created
    case None => (st, Response(500, Failure("Failed to create user")))
    case Some(st1) =>
      var r := StartSession(cfg, env, st1, NewUser(env.newUserId, email, digest), 201);
      NewUserStays(st, st1, r.0, env.newUserId, email, digest);
      r
  }

  /** A user just created stays findable by id when only last-login times
      change afterwards. */
  lemma NewUserStays(st: State, st1: State, st2: State, id: Uuid.UUID, email: string, digest: string)
    requires CreateUser(st, id, email, digest) == Some(st1)
    requires SameUpToLastLogin(st1.users, st2.users)
    ensures UserById(st2, id).Some? && UserById(st2, id).value.email == email
  {
    LookupsUpToLastLogin(st1, st2, id, email);
  }

  /** `LoginHandler`. */
  function Login(cfg: Config, env: Env, st: State, email: string, password: string): (r: (State, Response))
    ensures UserByEmail(st, email).None? ==> r == (st, InvalidCredentials)
    ensures r.1.status == 401 ==> r == (st, InvalidCredentials)
    ensures r.1.status == 200 ==>
              UserByEmail(st, email).Some? && CheckPassword(cfg, password, UserByEmail(st, email).value.digest) == Ok(true)
    ensures r.1.status == 200 ==>
              var u := UserByEmail(st, email).value;
              && r.1.body.Session?
              && SessionAdded(st, r.0, Sha256Hex(r.1.body.refreshToken), u.id,
                              cfg.issue.refresh(u.id, env.now, env.refreshJti).expiresAt)
              && SameUpToLastLogin(st.users, r.0.users)
              && (!env.faults.lastLogin ==> r.0.users == UpdateLastLogin(st, u.id, env.now).users)
              && r.1.body.user == Some(View(u))
              && r.1.body.refreshToken == cfg.text.show(cfg.issue.refresh(u.id, env.now, env.refreshJti).token)
    ensures r.1.status == 200 || r.0 == st
    ensures r.1 == Panic ==> cfg.variant.AsWritten?
  {
    match UserByEmail(st, email)
    case None => (st, InvalidCredentials)
    case Some(u) =>
      match CheckPassword(cfg, password, u.digest)
      case Err(e) => if e.Panicked? then (st, Panic) else (st, InvalidCredentials)
      case Ok(valid) => if !valid then (st, InvalidCredentials) else StartSession(cfg, env, st, u, 200)
  }

  /** `RefreshTokenHandler`, with the presented token's text. */
  function Refresh(cfg: Config, env: Env, st: State, text: string): (r: (State, Response))
    ensures Jwt.ExtractUserIdFromRefreshToken(cfg.jwt, cfg.text.read(text), env.now).Err? ==> r == (st, InvalidRefresh)
    ensures (Jwt.ExtractUserIdFromRefreshToken(cfg.jwt, cfg.text.read(text), env.now).Ok?
             && Lookup(cfg, st, Sha256Hex(text), env.now).None?) ==> r == (st, UnknownRefresh)
    ensures r.1.status == 401 ==> r.0 == st
    ensures r.1.status == 200 ==>
              Lookup(cfg, st, Sha256Hex(text), env.now).Some?
              && Jwt.ExtractUserIdFromRefreshToken(cfg.jwt, cfg.text.read(text), env.now).Ok?
              && r.1.body.Session?
              && Rotated(env, st, r.0, Sha256Hex(text), Sha256Hex(r.1.body.refreshToken),
                         Jwt.ExtractUserIdFromRefreshToken(cfg.jwt, cfg.text.read(text), env.now).value,
                         cfg.issue.refresh(Jwt.ExtractUserIdFromRefreshToken(cfg.jwt, cfg.text.read(text), env.now).value,
                                           env.now, env.refreshJti).expiresAt)
    ensures r.1 == StoreFailed ==>
              && r.0.users == st.users && r.0.sessions.Keys == st.sessions.Keys
              && (!env.faults.revoke ==> r.0.sessions[Sha256Hex(text)].revoked)
              && (forall g :: g in st.sessions && g != Sha256Hex(text) ==> r.0.sessions[g] == st.sessions[g])
    ensures r.1.status == 200 || r.1 == StoreFailed || r.0 == st
  {
    match Jwt.ExtractUserIdFromRefreshToken(cfg.jwt, cfg.text.read(text), env.now)
    case Err(_) => (st, InvalidRefresh)
    case Ok(uid) =>
      var h := Sha256Hex(text);
      match Lookup(cfg, st, h, env.now)
      case None => (st, UnknownRefresh)
      case Some(rec) =>
        match UserById(st, uid)
        case None => (st, Response(401, Failure("User not found")))
        case Some(u) => Rotate(cfg, env, st, h, rec, u)
  }

  /** The rotation step of a refresh: new tokens for `u`, the old hash
      revoked, the new hash stored, the old record stamped as used. */
  function Rotate(cfg: Config, env: Env, st: State, h: TokenHash, prior: Record, u: User): (r: (State, Response))
    requires h in st.sessions && prior == st.sessions[h]
    ensures r.1 == StoreFailed || (r.1.status == 200 && r.1.body.Session?)
    ensures r.1.status == 200 ==>
              Rotated(env, st, r.0, h, Sha256Hex(r.1.body.refreshToken), u.id,
                      cfg.issue.refresh(u.id, env.now, env.refreshJti).expiresAt)
    ensures r.1 == StoreFailed ==>
              && r.0.users == st.users && r.0.sessions.Keys == st.sessions.Keys
              && (!env.faults.revoke ==> r.0.sessions[h].revoked)
              && (forall g :: g in st.sessions && g != h ==> r.0.sessions[g] == st.sessions[g])
  {
    var access := cfg.issue.access(u.id, u.email, env.now, env.accessJti, env.accessRegId);
    var refresh := cfg.issue.refresh(u.id, env.now, env.refreshJti);
    var st1 := if env.faults.revoke then st else RevokeRefreshToken(st, h);
    var text := cfg.text.show(refresh.token);
    match StoreSession(cfg, env, st1, Sha256Hex(text), u.id, refresh.expiresAt)
    case None => (st1, StoreFailed)
    case Some(st2) =>
      var st3 := if env.faults.touch then st2 else TouchRefreshToken(st2, prior.id, env.now);
      (st3, Response(200, Session(cfg.text.show(access.token), text, access.expiresAt, None)))
  }

  /** What a successful rotation leaves: the users untouched; the
      presented hash `h` revoked (unless the revoke failed) and its last use
      stamped (unless that failed); one new unrevoked session for `user`
      under `h1`; every other record as it was. */
  predicate Rotated(env: Env, st: State, st1: State, h: TokenHash, h1: TokenHash, user: Uuid.UUID, expiresAt: int)
    requires h in st.sessions
  {
    && st1.users == st.users
    && h1 !in st.sessions
    && st1.sessions.Keys == st.sessions.Keys + {h1}
    && st1.sessions[h1].userId == user && !st1.sessions[h1].revoked && st1.sessions[h1].expiresAt == expiresAt
    && (!env.faults.revoke ==> st1.sessions[h].revoked)
    && (!env.faults.touch ==> st1.sessions[h].lastUsed == Timestamptz(env.now, true))
    && (forall g :: g in st.sessions && g != h && st.sessions[g].id != st.sessions[h].id ==>
          st1.sessions[g] == st.sessions[g])
  }

  /** `LogoutHandler`: the presented token's hash is revoked, and the
      answer is the same whatever the store did. */
  function Logout(cfg: Config, env: Env, st: State, text: string): (r: (State, Response))
    ensures r.1 == LoggedOut
    ensures r.0 == st || r.0 == RevokeRefreshToken(st, Sha256Hex(text))
    ensures !env.faults.revoke ==> r.0 == RevokeRefreshToken(st, Sha256Hex(text))
  {

    var st1 := if env.faults.revoke then st else RevokeRefreshToken(st, Sha256Hex(text));
    (st1, LoggedOut)
  }

  /** `GetProfileHandler`, with the request context the middleware left. */
  function GetProfile(st: State, ctx: Gate.Context): (r: Response)
    ensures Gate.RequireAuth(ctx).Some? ==> r == Response(401, Failure("Authentication required"))
    ensures Gate.RequireAuth(ctx).None? && UserById(st, Gate.GetUserId(ctx).0).None? ==>
              r == Response(404, Failure("User not found"))
    ensures r.status == 200 <==> Gate.RequireAuth(ctx).None? && UserById(st, Gate.GetUserId(ctx).0).Some?
    ensures r.status == 200 ==>
              && r.body.Profile? && r.body.profile.id == Gate.GetUserId(ctx).0 && r.body.profile.active
              && exists k :: 0 <= k < |st.users| && View(st.users[k]) == r.body.profile
  {
    match Gate.RequireAuth(ctx)
    case Some(reply) => Response(reply.status, Failure(reply.error))
    case None =>
      match UserById(st, Gate.GetUserId(ctx).0)
      case None => Response(404, Failure("User not found"))
      case Some(u) => Response(200, Profile(View(u)))
  }

  /** `ChangePasswordHandler`, with the request context the middleware
      left. */
  function ChangePassword(cfg: Config, env: Env, st: State, ctx: Gate.Context, current: string, replacement: string)
    : (r: (State, Response))
    ensures Gate.RequireAuth(ctx).Some? ==> r == (st, Response(401, Failure("Authentication required")))
    ensures r.1.status != 200 ==> r.0 == st
    ensures r.1.status == 200 ==>
              && Gate.RequireAuth(ctx).None?
              && UserById(st, Gate.GetUserId(ctx).0).Some?
              && CheckPassword(cfg, current, UserById(st, Gate.GetUserId(ctx).0).value.digest) == Ok(true)
              && Password.ValidatePasswordStrength(replacement).None?
    ensures r.1.status == 200 ==>
              && PasswordStored(env, st, r.0, Gate.GetUserId(ctx).0)
              && CheckPassword(cfg, replacement, UserById(r.0, Gate.GetUserId(ctx).0).value.digest) == Ok(true)
  {
    match Gate.RequireAuth(ctx)
    case Some(reply) => (st, Response(reply.status, Failure(reply.error)))
    case None =>
      var uid := Gate.GetUserId(ctx).0;
      match UserById(st, uid)
      case None => (st, Response(404, Failure("User not found")))
      case Some(u) =>
        match CheckPassword(cfg, current, u.digest)
        case Err(e) =>
          if e.Panicked? then (st, Panic) else (st, Response(401, Failure("Current password is incorrect")))
        case Ok(valid) =>
          if !valid then (st, Response(401, Failure("Current password is incorrect")))
          else
            match Password.ValidatePasswordStrength(replacement)
            case Some(e) => (st, Response(400, Failure(Password.StrengthMessage(e))))
            case None => ReplacePassword(cfg, env, st, uid, replacement)
  }

  /** The last steps of a password change for the user `uid` found active:
      hash the new password, store the digest, end every session. */
  function ReplacePassword(cfg: Config, env: Env, st: State, uid: Uuid.UUID, replacement: string)
    : (r: (State, Response))
    requires UserById(st, uid).Some?
    ensures r.1.status != 200 ==> r.0 == st
    ensures r.1.status == 200 ==>
              && PasswordStored(env, st, r.0, uid)
              && CheckPassword(cfg, replacement, UserById(r.0, uid).value.digest) == Ok(true)
  {
    match Password.HashPassword(Password.Default, replacement, env.salt, cfg.kdf)
    case Err(_) => (st, Response(500, Failure("Failed to process new password")))
    case Ok(digest) =>
      PasswordReplaced(cfg, st, uid, replacement, env.salt.value);
      StoreDigest(env, st, uid, digest)
  }

  /** What a successful password change leaves: the user still findable,
      the same session keys, every session of the user revoked (unless the
      revoke failed) and every other user's untouched. */
  predicate PasswordStored(env: Env, st: State, st1: State, uid: Uuid.UUID)
  {
    && st1.sessions.Keys == st.sessions.Keys
    && UserById(st1, uid).Some?
    && (!env.faults.revoke ==> forall g :: g in st1.sessions && st1.sessions[g].userId == uid ==> st1.sessions[g].revoked)
    && (forall g :: g in st.sessions && st.sessions[g].userId != uid ==> st1.sessions[g] == st.sessions[g])
  }

  /** Storing the new digest and revoking the user's sessions. */
  function StoreDigest(env: Env, st: State, uid: Uuid.UUID, digest: string): (r: (State, Response))
    requires UserById(st, uid).Some?
    ensures r.1.status != 200 ==> r.0 == st
    ensures r.1.status == 200 ==>
              && r.1 == PasswordChanged
              && PasswordStored(env, st, r.0, uid)
              && r.0.users == UpdatePassword(st, uid, digest).value.users
  {
    var updated := if env.faults.updatePassword then None else UpdatePassword(st, uid, digest);
    match updated
    case None => (st, Response(500, Failure("Failed to update password")))
    case Some(st1) =>
      (if env.faults.revoke then st1 else RevokeAll(st1, uid), PasswordChanged)
  }

  /** After `UpdatePassword` with the digest of `password`, the user found
      by id carries that digest, and it verifies `password`. */
  lemma PasswordReplaced(cfg: Config, st: State, uid: Uuid.UUID, password: string, salt: Bytes)
    requires UserById(st, uid).Some?
    ensures var d := Password.HashPassword(Password.Default, password, Some(salt), cfg.kdf).value;
            && UpdatePassword(st, uid, d).Some?
            && UserById(UpdatePassword(st, uid, d).value, uid).Some?
            && UserById(UpdatePassword(st, uid, d).value, uid).value.digest == d
            && CheckPassword(cfg, password, d) == Ok(true)
  {
    var d := Password.HashPassword(Password.Default, password, Some(salt), cfg.kdf).value;
    var st1 := UpdatePassword(st, uid, d).value;
    FindSame(st.users, st1.users, ById(uid));
    Password.DefaultCostsUsable();
    Password.VerifyHashedPassword(Password.Default, password, salt, cfg.kdf);
  }
}
