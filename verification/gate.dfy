/** The authentication middleware: reading a bearer token from the
    `Authorization` header, handing it to the access-token validator, and
    recording the caller's identity in the request context; and the
    helpers handlers use to read that identity back. */
module Gate {
  import opened Base
  import Text
  import Uuid
  import Jwt

  /** A value stored in the request context under a string key. */
  datatype CtxValue = UuidVal(u: Uuid.UUID) | StrVal(s: string) | OtherVal

  type Context = map<string, CtxValue>

  const UserIdKey := "user_id"
  const UserEmailKey := "user_email"
  const JwtIdKey := "jwt_id"

  /** An aborted request: the status code and the `error` text sent. */
  datatype Reply = Reply(status: nat, error: string)

  const MissingHeader := Reply(401, "Authorization header is required")
  const BadFormat := Reply(401, "Invalid authorization header format. Use: Bearer <token>")
  const BadToken := Reply(401, "Invalid or expired token")
  const NotAuthenticated := Reply(401, "Authentication required")

  /** What the middleware leaves behind: the context and, when it aborted
      the chain, the reply it sent. */
  datatype Outcome = Outcome(ctx: Context, abort: Option<Reply>)

  /** The token a well-formed header carries, stated independently of the
      split: the header starts with `Bearer` and one space, and what
      follows is not all white space; the token is that remainder trimmed. */
  function BearerToken(header: string): (r: Option<string>)
    ensures r.Some? ==> "Bearer " <= header
    ensures r.Some? ==> r.value != "" && !Text.IsSpace(r.value[0]) && !Text.IsSpace(r.value[|r.value| - 1])
    ensures "Bearer " <= header && r.None? ==> Text.AllSpace(header[7..])
  {
    if "Bearer " <= header && !Text.AllSpace(header[7..]) then Some(Text.TrimSpace(header[7..]))
    else None
  }

  /** The header check as written: split at the first space into exactly
      two parts, the first exactly `Bearer`, the second not blank. */
  predicate SplitWellFormed(header: string)
  {
    var parts := Text.SplitN2(header, ' ');
    |parts| == 2 && parts[0] == "Bearer" && Text.TrimSpace(parts[1]) != ""
  }

  /** `JWTAuthMiddleware` on one request, with `validate` the access-token
      validator. */
  function JwtAuth<E>(header: string, ctx: Context, validate: string -> Result<Jwt.AccessClaims, E>)
    : (o: Outcome)
    ensures header == "" ==> o == Outcome(ctx, Some(MissingHeader))
    ensures header != "" && BearerToken(header).None? ==> o == Outcome(ctx, Some(BadFormat))
    ensures BearerToken(header).Some? && validate(BearerToken(header).value).Err? ==>
              o == Outcome(ctx, Some(BadToken))
    ensures o.abort.Some? ==> o.ctx == ctx
    ensures o.abort.None? <==> BearerToken(header).Some? && validate(BearerToken(header).value).Ok?
    ensures o.abort.None? ==>
              var c := validate(BearerToken(header).value).value;
              o.ctx == Recorded(ctx, c)
  {
    if header == "" then Outcome(ctx, Some(MissingHeader))
    else
      var parts := Text.SplitN2(header, ' ');
      SplitMatchesPrefix(header);
      if |parts| != 2 || parts[0] != "Bearer" || Text.TrimSpace(parts[1]) == "" then
        Outcome(ctx, Some(BadFormat))
      else
        var token := Text.TrimSpace(parts[1]);
        match validate(token)
        case Err(_) => Outcome(ctx, Some(BadToken))
        case Ok(c) =>
          Outcome(Recorded(ctx, c), None)
  }

  /** The split-based check accepts exactly the headers the prefix-based
      definition does, and hands on the same token. */
  lemma SplitMatchesPrefix(header: string)
    ensures SplitWellFormed(header) <==> BearerToken(header).Some?
    ensures SplitWellFormed(header) ==>
              BearerToken(header).value == Text.TrimSpace(Text.SplitN2(header, ' ')[1])
  {
    var parts := Text.SplitN2(header, ' ');
    if "Bearer " <= header {
      assert header == "Bearer" + [' '] + header[7..];
      assert header[6] == ' ';
      assert ' ' !in "Bearer";
      var i := Text.IndexOf(header, ' ');
      assert i == 6;
      assert parts == [header[..6], header[7..]];
      assert parts[0] == "Bearer";
    }
    if SplitWellFormed(header) {
      assert header == "Bearer" + [' '] + parts[1];
      assert "Bearer " <= header;
      assert header[7..] == parts[1];
    }
  }

  /** `GetUserIDFromContext`: the identifier, or the nil one and `false`
      when the key is absent or holds something else. */
  function GetUserId(ctx: Context): (r: (Uuid.UUID, bool))
    ensures r.1 <==> UserIdKey in ctx && ctx[UserIdKey].UuidVal?
    ensures r.1 ==> r.0 == ctx[UserIdKey].u
    ensures !r.1 ==> r.0 == Uuid.Nil
  {
    if UserIdKey !in ctx then (Uuid.Nil, false)
    else match ctx[UserIdKey]
      case UuidVal(u) => (u, true)
      case _ => (Uuid.Nil, false)
  }

  /** `GetUserEmailFromContext`. */
  function GetUserEmail(ctx: Context): (r: (string, bool))
    ensures r.1 <==> UserEmailKey in ctx && ctx[UserEmailKey].StrVal?
    ensures r.1 ==> r.0 == ctx[UserEmailKey].s
    ensures !r.1 ==> r.0 == ""
  {
    if UserEmailKey !in ctx then ("", false)
    else match ctx[UserEmailKey]
      case StrVal(s) => (s, true)
      case _ => ("", false)
  }

  /** `RequireAuth`: `None` lets the handler go on; otherwise the request is
      answered with 401 "Authentication required". */
  function RequireAuth(ctx: Context): (r: Option<Reply>)
    ensures r.Some? <==> !GetUserId(ctx).1 || GetUserId(ctx).0 == Uuid.Nil
    ensures r.Some? ==> r.value == NotAuthenticated
  {
    var (id, ok) := GetUserId(ctx);
    if !ok || id == Uuid.Nil then Some(NotAuthenticated) else None
  }

  /** After the middleware let a request through, the handlers read back
      the identity the validator returned, and `RequireAuth` passes exactly
      when that identity is not the nil UUID. */
  lemma PassedIdentity<E>(header: string, ctx: Context, validate: string -> Result<Jwt.AccessClaims, E>)
    requires JwtAuth(header, ctx, validate).abort.None?
    ensures var o := JwtAuth(header, ctx, validate);
            var c := validate(BearerToken(header).value).value;
            && GetUserId(o.ctx) == (c.userId, true)
            && GetUserEmail(o.ctx) == (c.email, true)
            && (RequireAuth(o.ctx).None? <==> c.userId != Uuid.Nil)
  {
    var c := validate(BearerToken(header).value).value;
    IdentityRecorded(ctx, c);
  }

  /** The context the middleware leaves for claims `c`. */
  function Recorded(ctx: Context, c: Jwt.AccessClaims): Context
  {
    ctx[UserIdKey := UuidVal(c.userId)][UserEmailKey := StrVal(c.email)][JwtIdKey := StrVal(c.jti)]
  }

  lemma IdentityRecorded(ctx: Context, c: Jwt.AccessClaims)
    ensures GetUserId(Recorded(ctx, c)) == (c.userId, true)
    ensures GetUserEmail(Recorded(ctx, c)) == (c.email, true)
  {
    KeysDistinct();
    var r := Recorded(ctx, c);
    assert r[UserIdKey] == UuidVal(c.userId);
    assert r[UserEmailKey] == StrVal(c.email);
  }

  lemma KeysDistinct()
    ensures UserIdKey != UserEmailKey && UserIdKey != JwtIdKey && UserEmailKey != JwtIdKey
  {
    assert |UserIdKey| == 7 && |UserEmailKey| == 10 && |JwtIdKey| == 6;
  }

  /** The token text as the server reads and writes it: the compact form of
      a token, and back. */
  datatype TokenText = TokenText(show: Jwt.Token -> string, read: string -> Jwt.Token)

  /** The compact form reads back as the token, and neither starts nor ends
      with white space (it is base64url text joined by dots). */
  predicate FaithfulText(tt: TokenText, t: Jwt.Token)
  {
    var s := tt.show(t);
    tt.read(s) == t && |s| > 0 && !Text.IsSpace(s[0]) && !Text.IsSpace(s[|s| - 1])
  }

  /** The middleware as installed: `JWTAuthMiddleware` with the manager's
      `ValidateAccessToken` as written, at unix time `now`. It never holds
      a token's expiry against the clock. */
  function ServerAuth(m: Jwt.Manager, now: int, tt: TokenText, header: string, ctx: Context): (o: Outcome)
    ensures o.abort.None? ==>
              BearerToken(header).Some?
              && Jwt.ValidateAccessTokenAsWritten(m, tt.read(BearerToken(header).value), now).Ok?
  {
    JwtAuth(header, ctx, (s: string) => Jwt.ValidateAccessTokenAsWritten(m, tt.read(s), now))
  }

  /** The middleware as evidently intended: the same, with the token's
      expiry and not-before claims enforced. */
  function ServerAuthCorrected(m: Jwt.Manager, now: int, tt: TokenText, header: string, ctx: Context)
    : (o: Outcome)
    ensures o.abort.None? ==>
              BearerToken(header).Some?
              && Jwt.ValidateAccessToken(m, tt.read(BearerToken(header).value), now).Ok?
  {
    JwtAuth(header, ctx, (s: string) => Jwt.ValidateAccessToken(m, tt.read(s), now))
  }

  /** Whatever the validation, a token text it accepts, presented as
      `Bearer <token>`, lets the request through as the identity it
      carries. */
  lemma AcceptedTokenAdmitted<E>(s: string, ctx: Context, validate: string -> Result<Jwt.AccessClaims, E>)
    requires |s| > 0 && !Text.IsSpace(s[0]) && !Text.IsSpace(s[|s| - 1])
    requires validate(s).Ok?
    ensures var o := JwtAuth("Bearer " + s, ctx, validate);
            && o.abort.None?
            && GetUserId(o.ctx) == (validate(s).value.userId, true)
            && GetUserEmail(o.ctx) == (validate(s).value.email, true)
  {
    BearerOfTrimmed(s);
    PassedIdentity("Bearer " + s, ctx, validate);
  }

  /** A token text the installed validation accepts, presented as
      `Bearer <token>`, lets the request through as the identity it
      carries; when the token is also within its lifetime, the corrected
      middleware lets it through as the same identity. */
  lemma ValidTokenAdmitted(m: Jwt.Manager, now: int, tt: TokenText, s: string, ctx: Context)
    requires |s| > 0 && !Text.IsSpace(s[0]) && !Text.IsSpace(s[|s| - 1])
    requires Jwt.ValidateAccessTokenAsWritten(m, tt.read(s), now).Ok?
    ensures var o := ServerAuth(m, now, tt, "Bearer " + s, ctx);
            var c := Jwt.ValidateAccessTokenAsWritten(m, tt.read(s), now).value;
            && o.abort.None?
            && GetUserId(o.ctx) == (c.userId, true)
            && GetUserEmail(o.ctx) == (c.email, true)
    ensures Jwt.ValidateAccessToken(m, tt.read(s), now).Ok? ==>
              var o := ServerAuthCorrected(m, now, tt, "Bearer " + s, ctx);
              var c := Jwt.ValidateAccessToken(m, tt.read(s), now).value;
              && o.abort.None?
              && GetUserId(o.ctx) == (c.userId, true)
              && GetUserEmail(o.ctx) == (c.email, true)
  {
    AcceptedTokenAdmitted(s, ctx, (s: string) => Jwt.ValidateAccessTokenAsWritten(m, tt.read(s), now));
    if Jwt.ValidateAccessToken(m, tt.read(s), now).Ok? {
      AcceptedTokenAdmitted(s, ctx, (s: string) => Jwt.ValidateAccessToken(m, tt.read(s), now));
    }
  }

  /** A header of `Bearer`, one space and a token text that neither starts
      nor ends with white space carries exactly that text. */
  lemma BearerOfTrimmed(s: string)
    requires |s| > 0 && !Text.IsSpace(s[0]) && !Text.IsSpace(s[|s| - 1])
    ensures BearerToken("Bearer " + s) == Some(s)
  {
    var header := "Bearer " + s;
    assert header[7..] == s;
    Text.TrimSpaceOfTrimmed(s);
    assert !Text.AllSpace(s) by { assert !Text.IsSpace(s[0]); }
  }

  /** A fresh access token presented as `Bearer <token>` within its
      lifetime lets the request through, in both middlewares, as the user
      it was issued to. */
  lemma FreshAccessTokenAdmitted(m: Jwt.Manager, user: Uuid.UUID, email: string, issued: int,
                                 jti: Uuid.UUID, regId: Uuid.UUID, now: int, tt: TokenText, ctx: Context)
    requires Jwt.AccessTimesFit(m, issued)
    requires issued <= now < issued + m.accessTtl
    requires FaithfulText(tt, Jwt.GenerateAccessToken(m, user, email, issued, jti, regId).token)
    ensures var t := Jwt.GenerateAccessToken(m, user, email, issued, jti, regId).token;
            var o := ServerAuth(m, now, tt, "Bearer " + tt.show(t), ctx);
            && o.abort.None?
            && GetUserId(o.ctx) == (user, true)
            && GetUserEmail(o.ctx) == (email, true)
    ensures var t := Jwt.GenerateAccessToken(m, user, email, issued, jti, regId).token;
            var o := ServerAuthCorrected(m, now, tt, "Bearer " + tt.show(t), ctx);
            && o.abort.None?
            && GetUserId(o.ctx) == (user, true)
            && GetUserEmail(o.ctx) == (email, true)
  {
    var t := Jwt.GenerateAccessToken(m, user, email, issued, jti, regId).token;
    Jwt.IssueValidateAccess(m, user, email, issued, jti, regId, now);
    var c := Jwt.ValidateAccessToken(m, t, now).value;
    assert Jwt.ValidateAccessTokenAsWritten(m, t, now) == Ok(c);
    ValidTokenAdmitted(m, now, tt, tt.show(t), ctx);
  }

  /** The expiry discrepancy at the middleware: once its lifetime is over,
      an access token still lets the request through the installed
      middleware, and the corrected one answers 401 "Invalid or expired
      token". */
  lemma ExpiredAccessTokenAdmitted(m: Jwt.Manager, user: Uuid.UUID, email: string, issued: int,
                                   jti: Uuid.UUID, regId: Uuid.UUID, now: int, tt: TokenText, ctx: Context)
    requires Jwt.AccessTimesFit(m, issued)
    requires now >= issued + m.accessTtl
    requires FaithfulText(tt, Jwt.GenerateAccessToken(m, user, email, issued, jti, regId).token)
    ensures var t := Jwt.GenerateAccessToken(m, user, email, issued, jti, regId).token;
            ServerAuth(m, now, tt, "Bearer " + tt.show(t), ctx).abort.None?
    ensures var t := Jwt.GenerateAccessToken(m, user, email, issued, jti, regId).token;
            ServerAuthCorrected(m, now, tt, "Bearer " + tt.show(t), ctx) == Outcome(ctx, Some(BadToken))
  {
    var t := Jwt.GenerateAccessToken(m, user, email, issued, jti, regId).token;
    var s := tt.show(t);
    Jwt.AccessNeverExpiresAsWritten(m, user, email, issued, jti, regId, now);
    Jwt.AccessExpires(m, user, email, issued, jti, regId, now);
    ValidTokenAdmitted(m, now, tt, s, ctx);
    BearerOfTrimmed(s);
  }
}
