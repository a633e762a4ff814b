/** The token codec: issuing HMAC-signed access and refresh tokens and
    validating them the way `golang-jwt/jwt/v5`'s `ParseWithClaims` does
    (parse, decode the claim set into the target type, resolve the signing
    method, ask the key function, check the signature, validate the time
    claims), followed by the manager's own audience and issuer checks.

    A token is kept at the level of its header algorithm, its claim set
    (the JSON object, as a map from key to value) and its signature; the
    compact `header.payload.signature` text is not modelled.  The HMAC is a
    symbolic constructor: a signature verifies exactly when it is the MAC
    of the same algorithm and claim set under the same secret. */
module Jwt {
  import opened Base
  import Uuid

  // ---------------------------------------------------------------------
  // Tokens
  // ---------------------------------------------------------------------

  /** The `alg` header.  The library knows the HMAC family, the asymmetric
      families and `none`; any other name it cannot resolve. */
  datatype Alg = HS256 | HS384 | HS512 | Asymmetric(name: string) | AlgNone | Unregistered(name: string)

  predicate IsHmac(a: Alg)
  {
    a.HS256? || a.HS384? || a.HS512?
  }

  /** A JSON value as it can appear in a claim set. */
  datatype Value = Str(s: string) | Num(n: int) | Strs(ss: seq<string>)

  /** The claim names the two claim types use; any other key is carried
      as its own name. */
  datatype Key = Iss | Sub | Aud | Exp | Nbf | Iat | Jti | Email | OtherKey(name: string)

  type Payload = map<Key, Value>

  datatype Signature =
    | Mac(secret: string, alg: Alg, payload: Payload)   // HMAC of header and claims
    | Other(bytes: Bytes)                              // anything else

  datatype Token =
    | Jws(alg: Alg, payload: Payload, sig: Signature)
    | Garbled(text: string)   // not three dot-separated base64 JSON segments

  /** `token.SignedString(secret)` for a freshly built HMAC token. */
  function Sign(secret: string, alg: Alg, payload: Payload): (t: Token)
    requires IsHmac(alg)
  {
    Jws(alg, payload, Mac(secret, alg, payload))
  }

  datatype TokenError =
    | Malformed          // unparsable token or a claim of the wrong JSON type
    | Unverifiable       // unknown algorithm, or the key function refused it
    | SignatureInvalid
    | Expired            // now is not before `exp`
    | NotYetValid        // now is before `nbf`
    | InvalidAudience
    | InvalidIssuer
    | InvalidUserId      // subject is not a UUID

  // ---------------------------------------------------------------------
  // Claim sets
  // ---------------------------------------------------------------------

  /** `jwt.RegisteredClaims`; the dates are whole unix seconds, absent when
      nil. */
  datatype Registered = Registered(
    issuer: string, subject: string, audience: seq<string>,
    expiresAt: Option<int>, notBefore: Option<int>, issuedAt: Option<int>, id: string)

  const NoRegistered: Registered := Registered("", "", [], None, None, None, "")

  /** `JWTClaims`: eight named claims plus the embedded registered claims.
      The three times are Go `int64` values; decoding only ever produces
      values in that range. */
  datatype AccessClaims = AccessClaims(
    userId: Uuid.UUID, email: string, issuedAt: int, expiresAt: int, notBefore: int,
    issuer: string, audience: string, jti: string, registered: Registered)

  /** The JSON keys of the registered claims. */
  const RegisteredKeys: set<Key> := {Iss, Sub, Aud, Exp, Nbf, Iat, Jti}

  /** The JSON keys of the fields `JWTClaims` declares itself. */
  const AccessKeys: set<Key> := {Sub, Email, Iat, Exp, Nbf, Iss, Aud, Jti}

  /** Registered claims as JSON: every field is `omitempty`, and a
      one-element audience is still written as an array. */
  function EncodeRegistered(r: Registered): (p: Payload)
    ensures p.Keys <= RegisteredKeys
  {
    map k | k in RegisteredKeys && RegisteredEntry(r, k).Some? :: RegisteredEntry(r, k).value
  }

  /** The JSON value of one registered claim, `None` when it is empty. */
  function RegisteredEntry(r: Registered, k: Key): Option<Value>
  {
    match k
    case Iss => if r.issuer != "" then Some(Str(r.issuer)) else None
    case Sub => if r.subject != "" then Some(Str(r.subject)) else None
    case Aud => if |r.audience| > 0 then Some(Strs(r.audience)) else None
    case Exp => if r.expiresAt.Some? then Some(Num(r.expiresAt.value)) else None
    case Nbf => if r.notBefore.Some? then Some(Num(r.notBefore.value)) else None
    case Iat => if r.issuedAt.Some? then Some(Num(r.issuedAt.value)) else None
    case Jti => if r.id != "" then Some(Str(r.id)) else None
    case _ => None
  }

  /** `encoding/json`'s rule for an embedded struct: a field of the outer
      struct hides an embedded field with the same JSON name. */
  function Promote(outer: Payload, embedded: Payload): (p: Payload)
    ensures p.Keys == outer.Keys + embedded.Keys
    ensures forall k :: k in outer ==> p[k] == outer[k]
    ensures forall k :: k in embedded && k !in outer ==> p[k] == embedded[k]
  {
    embedded + outer
  }

  /** The part of a claim set that reaches the embedded struct when it is
      decoded: the keys the outer struct does not claim. */
  function Unshadowed(p: Payload, outerKeys: set<Key>): (q: Payload)
    ensures q.Keys == p.Keys - outerKeys
  {
    p - outerKeys
  }

  /** `JWTClaims` as JSON: the outer fields (none `omitempty`) over the
      embedded registered claims. */
  function EncodeAccess(c: AccessClaims): Payload
  {
    Promote(OuterFields(c), EncodeRegistered(c.registered))
  }

  /** The JSON of the fields `JWTClaims` declares itself. */
  function OuterFields(c: AccessClaims): (p: Payload)
    ensures p.Keys == AccessKeys
  {
    map[Sub := Str(Uuid.ToString(c.userId)), Email := Str(c.email),
        Iat := Num(c.issuedAt), Exp := Num(c.expiresAt), Nbf := Num(c.notBefore),
        Iss := Str(c.issuer), Aud := Str(c.audience), Jti := Str(c.jti)]
  }

  /** The embedded registered claims never reach the JSON of an access
      token: all their names are taken by outer fields. */
  lemma EncodeAccessIsOuter(c: AccessClaims)
    ensures EncodeAccess(c) == OuterFields(c)
  {
    var o := OuterFields(c);
    var e := EncodeRegistered(c.registered);
    assert e.Keys <= o.Keys;
    var p := Promote(o, e);
    assert p.Keys == o.Keys;
    assert forall k :: k in p ==> p[k] == o[k];
  }

  /** Decoding a string field: absent is empty, another JSON type is an error. */
  function StrClaim(p: Payload, k: Key): Result<string, TokenError>
  {
    if k !in p then Ok("")
    else match p[k]
      case Str(s) => Ok(s)
      case _ => Err(Malformed)
  }

  /** Decoding an `int64` field: absent is zero, out of range is an error. */
  function IntClaim(p: Payload, k: Key): Result<int64, TokenError>
  {
    if k !in p then Ok(0)
    else match p[k]
      case Num(n) => if MinInt64 <= n <= MaxInt64 then Ok(n) else Err(Malformed)
      case _ => Err(Malformed)
  }

  /** Decoding a `*NumericDate` field. */
  function DateClaim(p: Payload, k: Key): Result<Option<int>, TokenError>
  {
    if k !in p then Ok(None)
    else match p[k]
      case Num(n) => Ok(Some(n))
      case _ => Err(Malformed)
  }

  /** Decoding `ClaimStrings`: a single string or an array of strings. */
  function AudienceClaim(p: Payload): Result<seq<string>, TokenError>
  {
    if Aud !in p then Ok([])
    else match p[Aud]
      case Str(s) => Ok([s])
      case Strs(ss) => Ok(ss)
      case _ => Err(Malformed)
  }

  /** Decoding a `uuid.UUID` field (`UnmarshalText`, which parses). */
  function UuidClaim(p: Payload, k: Key): Result<Uuid.UUID, TokenError>
  {
    if k !in p then Ok(Uuid.Nil)
    else match p[k]
      case Str(s) => (match Uuid.Parse(s) case Some(u) => Ok(u) case None => Err(Malformed))
      case _ => Err(Malformed)
  }

  function DecodeRegistered(p: Payload): Result<Registered, TokenError>
  {
    var iss :- StrClaim(p, Iss);
    var sub :- StrClaim(p, Sub);
    var aud :- AudienceClaim(p);
    var exp :- DateClaim(p, Exp);
    var nbf :- DateClaim(p, Nbf);
    var iat :- DateClaim(p, Iat);
    var jti :- StrClaim(p, Jti);
    Ok(Registered(iss, sub, aud, exp, nbf, iat, jti))
  }

  /** Decoding into `JWTClaims`: each key goes to the outer field of that
      name; only keys no outer field claims reach the embedded struct. */
  function DecodeAccess(p: Payload): Result<AccessClaims, TokenError>
  {
    var sub :- UuidClaim(p, Sub);
    var email :- StrClaim(p, Email);
    var iat :- IntClaim(p, Iat);
    var exp :- IntClaim(p, Exp);
    var nbf :- IntClaim(p, Nbf);
    var iss :- StrClaim(p, Iss);
    var aud :- StrClaim(p, Aud);
    var jti :- StrClaim(p, Jti);
    var reg :- DecodeRegistered(Unshadowed(p, AccessKeys));
    Ok(AccessClaims(sub, email, iat, exp, nbf, iss, aud, jti, reg))
  }

  /** Every registered key is also an outer key of `JWTClaims`, so whatever
      a token carries, the embedded registered claims decode empty. */
  lemma AccessRegisteredAlwaysEmpty(p: Payload)
    ensures DecodeAccess(p).Ok? ==> DecodeAccess(p).value.registered == NoRegistered
  {
    assert RegisteredKeys <= AccessKeys;
    var q := Unshadowed(p, AccessKeys);
    assert forall k :: k in RegisteredKeys ==> k !in q;
  }

  // ---------------------------------------------------------------------
  // The library's parse-and-validate
  // ---------------------------------------------------------------------

  /** The library validator with no leeway and no required claims: `exp`,
      when present, must be after now; `nbf`, when present, not after now;
      `iat` is not checked. */
  function CheckTimes(r: Registered, now: int): (e: Option<TokenError>)
    ensures e == None <==>
              (r.expiresAt.Some? ==> now < r.expiresAt.value)
              && (r.notBefore.Some? ==> r.notBefore.value <= now)
  {
    if r.expiresAt.Some? && now >= r.expiresAt.value then Some(Expired)
    else if r.notBefore.Some? && now < r.notBefore.value then Some(NotYetValid)
    else None
  }

  /** The key function both validators pass: HMAC methods get the secret,
      any other method is refused. */
  function KeyFor(secret: string, alg: Alg): Option<string>
  {
    if IsHmac(alg) then Some(secret) else None
  }

  /** `jwt.ParseWithClaims` into a claims type `C`, with `decode` its JSON
      decoding and `times` the registered claims its validator reads. */
  function ParseWithClaims<C>(t: Token, secret: string, now: int,
                              decode: Payload -> Result<C, TokenError>,
                              times: C -> Registered): (r: Result<C, TokenError>)
    ensures r.Ok? ==> t.Jws? && IsHmac(t.alg) && t.sig == Mac(secret, t.alg, t.payload)
    ensures r.Ok? ==> decode(t.payload) == Ok(r.value) && CheckTimes(times(r.value), now) == None
  {
    match t
    case Garbled(_) => Err(Malformed)
    case Jws(alg, payload, sig) =>
      var c :- decode(payload);
      if alg.Unregistered? then Err(Unverifiable)
      else
        match KeyFor(secret, alg)
        case None => Err(Unverifiable)
        case Some(key) =>
          if sig != Mac(key, alg, payload) then Err(SignatureInvalid)
          else
            match CheckTimes(times(c), now)
            case Some(e) => Err(e)
            case None => Ok(c)
  }

  /** A token that parses under one secret carries that secret's MAC, so it
      fails under any other secret. */
  lemma ParseUnderOtherSecret<C>(t: Token, s1: string, s2: string, now1: int, now2: int,
                                 decode: Payload -> Result<C, TokenError>, times: C -> Registered)
    requires s1 != s2
    requires ParseWithClaims(t, s1, now1, decode, times).Ok?
    ensures ParseWithClaims(t, s2, now2, decode, times) == Err(SignatureInvalid)
  {
  }

  // ---------------------------------------------------------------------
  // The manager
  // ---------------------------------------------------------------------

  /** `JWTManager`; the lifetimes are whole seconds. */
  datatype Manager = Manager(secret: string, issuer: string, audience: string,
                             accessTtl: int, refreshTtl: int)

  datatype Issued = Issued(token: Token, expiresAt: int)

  /** The issue time and the access expiry fit Go's `int64` unix seconds. */
  predicate AccessTimesFit(m: Manager, now: int)
  {
    MinInt64 <= now <= MaxInt64 && MinInt64 <= now + m.accessTtl <= MaxInt64
  }

  function AccessTimes(c: AccessClaims): Registered { c.registered }

  function RefreshTimes(r: Registered): Registered { r }

  /** The claims `GenerateAccessToken` fills in at unix time `now`; `jti`
      and `regId` are the two fresh random identifiers it draws. */
  function AccessClaimsFor(m: Manager, user: Uuid.UUID, email: string, now: int,
                           jti: Uuid.UUID, regId: Uuid.UUID): (c: AccessClaims)
  {
    AccessClaims(user, email, now, now + m.accessTtl, now, m.issuer, m.audience, Uuid.ToString(jti),
                 Registered(m.issuer, Uuid.ToString(user), [m.audience], Some(now + m.accessTtl),
                            Some(now), Some(now), Uuid.ToString(regId)))
  }

  /** `GenerateAccessToken`: the claims above, HS256-signed with the
      manager's secret, and the expiry it reports. */
  function GenerateAccessToken(m: Manager, user: Uuid.UUID, email: string, now: int,
                               jti: Uuid.UUID, regId: Uuid.UUID): (r: Issued)
    ensures r.expiresAt == now + m.accessTtl
    ensures r.token.Jws? && r.token.alg == HS256 && r.token.sig == Mac(m.secret, HS256, r.token.payload)
  {
    Issued(Sign(m.secret, HS256, EncodeAccess(AccessClaimsFor(m, user, email, now, jti, regId))),
           now + m.accessTtl)
  }

  /** The claims `GenerateRefreshToken` fills in at unix time `now` with
      fresh identifier `jti`. */
  function RefreshClaimsFor(m: Manager, user: Uuid.UUID, now: int, jti: Uuid.UUID): (r: Registered)
  {
    Registered(m.issuer, Uuid.ToString(user), [m.audience], Some(now + m.refreshTtl), Some(now), Some(now),
               Uuid.ToString(jti))
  }

  /** `GenerateRefreshToken`. */
  function GenerateRefreshToken(m: Manager, user: Uuid.UUID, now: int, jti: Uuid.UUID): (r: Issued)
    ensures r.expiresAt == now + m.refreshTtl
    ensures r.token.Jws? && r.token.alg == HS256 && r.token.sig == Mac(m.secret, HS256, r.token.payload)
  {
    Issued(Sign(m.secret, HS256, EncodeRegistered(RefreshClaimsFor(m, user, now, jti))), now + m.refreshTtl)
  }

  /** `ValidateAccessToken` exactly as written: the library checks the
      embedded registered claims' times, which always decode empty, and
      the manager then checks only audience and issuer.  The outer `exp`
      and `nbf` are never compared with the clock. */
  function ValidateAccessTokenAsWritten(m: Manager, t: Token, now: int): (r: Result<AccessClaims, TokenError>)
    ensures r.Ok? ==> r.value.audience == m.audience && r.value.issuer == m.issuer
    ensures r.Ok? ==> t.Jws? && IsHmac(t.alg) && t.sig == Mac(m.secret, t.alg, t.payload)
  {
    var c :- ParseWithClaims(t, m.secret, now, DecodeAccess, AccessTimes);
    if c.audience != m.audience then Err(InvalidAudience)
    else if c.issuer != m.issuer then Err(InvalidIssuer)
    else Ok(c)
  }

  /** `ValidateAccessToken` as evidently intended: in addition, the token's
      own expiry and not-before claims are held against the clock. */
  function ValidateAccessToken(m: Manager, t: Token, now: int): (r: Result<AccessClaims, TokenError>)
    ensures r.Ok? ==> r.value.audience == m.audience && r.value.issuer == m.issuer
    ensures r.Ok? ==> r.value.notBefore <= now < r.value.expiresAt
    ensures r.Ok? ==> t.Jws? && IsHmac(t.alg) && t.sig == Mac(m.secret, t.alg, t.payload)
    ensures r.Ok? <==> ValidateAccessTokenAsWritten(m, t, now).Ok?
                       && ValidateAccessTokenAsWritten(m, t, now).value.notBefore <= now
                       && now < ValidateAccessTokenAsWritten(m, t, now).value.expiresAt
    ensures r.Ok? ==> r.value == ValidateAccessTokenAsWritten(m, t, now).value
  {
    var c :- ValidateAccessTokenAsWritten(m, t, now);
    if now >= c.expiresAt then Err(Expired)
    else if now < c.notBefore then Err(NotYetValid)
    else Ok(c)
  }

  /** `ValidateRefreshToken`: the library checks, then a non-empty audience
      list whose first entry is the manager's, then the issuer. */
  function ValidateRefreshToken(m: Manager, t: Token, now: int): (r: Result<Registered, TokenError>)
    ensures r.Ok? ==> |r.value.audience| > 0 && r.value.audience[0] == m.audience
    ensures r.Ok? ==> r.value.issuer == m.issuer
    ensures r.Ok? ==> t.Jws? && IsHmac(t.alg) && t.sig == Mac(m.secret, t.alg, t.payload)
    ensures r.Ok? ==> CheckTimes(r.value, now) == None
  {
    var c :- ParseWithClaims(t, m.secret, now, DecodeRegistered, RefreshTimes);
    if |c.audience| == 0 || c.audience[0] != m.audience then Err(InvalidAudience)
    else if c.issuer != m.issuer then Err(InvalidIssuer)
    else Ok(c)
  }

  /** `ExtractUserIDFromRefreshToken`: validation, then the subject as a UUID. */
  function ExtractUserIdFromRefreshToken(m: Manager, t: Token, now: int): (r: Result<Uuid.UUID, TokenError>)
    ensures ValidateRefreshToken(m, t, now).Err? ==> r == Err(ValidateRefreshToken(m, t, now).error)
    ensures r.Ok? ==> Uuid.Parse(ValidateRefreshToken(m, t, now).value.subject) == Some(r.value)
  {
    var c :- ValidateRefreshToken(m, t, now);
    match Uuid.Parse(c.subject)
    case None => Err(InvalidUserId)
    case Some(u) => Ok(u)
  }

  // ---------------------------------------------------------------------
  // Properties
  // ---------------------------------------------------------------------

  /** A token whose algorithm is not HMAC is refused by both validators,
      whatever it carries. */
  lemma NonHmacRejected(m: Manager, t: Token, now: int)
    requires t.Jws? && !IsHmac(t.alg)
    ensures ValidateAccessTokenAsWritten(m, t, now).Err?
    ensures ValidateAccessToken(m, t, now).Err?
    ensures ValidateRefreshToken(m, t, now).Err?
  {
  }

  /** A token accepted under one manager is refused by a manager with a
      different secret. */
  lemma OtherSecretRejected(m1: Manager, m2: Manager, t: Token, now1: int, now2: int)
    requires m1.secret != m2.secret
    ensures ValidateAccessToken(m1, t, now1).Ok? ==> ValidateAccessToken(m2, t, now2).Err?
    ensures ValidateRefreshToken(m1, t, now1).Ok? ==> ValidateRefreshToken(m2, t, now2).Err?
  {
    if ValidateAccessToken(m1, t, now1).Ok? {
      ParseUnderOtherSecret(t, m1.secret, m2.secret, now1, now2, DecodeAccess, AccessTimes);
    }
    if ValidateRefreshToken(m1, t, now1).Ok? {
      ParseUnderOtherSecret(t, m1.secret, m2.secret, now1, now2, DecodeRegistered, RefreshTimes);
    }
  }

  /** Registered claims survive encoding and decoding unchanged: an
      omitted empty field decodes to the same empty value. */
  lemma DecodeEncodeRegistered(r: Registered)
    ensures DecodeRegistered(EncodeRegistered(r)) == Ok(r)
  {
  }

  /** Access claims whose times are `int64` values survive encoding and
      decoding, except for the embedded registered claims, which come back
      empty whatever they held. */
  lemma DecodeEncodeAccess(c: AccessClaims)
    requires MinInt64 <= c.issuedAt <= MaxInt64 && MinInt64 <= c.expiresAt <= MaxInt64
    requires MinInt64 <= c.notBefore <= MaxInt64
    ensures DecodeAccess(EncodeAccess(c)) == Ok(c.(registered := NoRegistered))
  {
    EncodeAccessIsOuter(c);
    Uuid.ParseToString(c.userId);
    var p := OuterFields(c);
    assert Unshadowed(p, AccessKeys) == map[];
  }

  /** An access claim set read as registered claims: the string audience
      becomes a one-element list and the outer times become the dates. */
  lemma DecodeAccessAsRegistered(c: AccessClaims)
    ensures DecodeRegistered(EncodeAccess(c))
            == Ok(Registered(c.issuer, Uuid.ToString(c.userId), [c.audience], Some(c.expiresAt),
                             Some(c.notBefore), Some(c.issuedAt), c.jti))
  {
    EncodeAccessIsOuter(c);
  }

  /** A registered claim set with an audience cannot be read as access
      claims: its audience is an array where a string is expected. */
  lemma DecodeRegisteredAsAccess(r: Registered)
    requires |r.audience| > 0
    ensures DecodeAccess(EncodeRegistered(r)) == Err(Malformed)
  {
    var p := EncodeRegistered(r);
    assert p[Aud] == Strs(r.audience);
  }

  /** A token signed by the manager over access claims naming its issuer
      and audience passes the validation as written, at any time. */
  lemma SignedAccessValidates(m: Manager, c: AccessClaims, at: int)
    requires MinInt64 <= c.issuedAt <= MaxInt64 && MinInt64 <= c.expiresAt <= MaxInt64
    requires MinInt64 <= c.notBefore <= MaxInt64
    requires c.issuer == m.issuer && c.audience == m.audience
    ensures ValidateAccessTokenAsWritten(m, Sign(m.secret, HS256, EncodeAccess(c)), at)
            == Ok(c.(registered := NoRegistered))
  {
    DecodeEncodeAccess(c);
  }

  /** Issue then validate: within its lifetime a fresh access token
      validates under the same manager to the subject, e-mail, issuer,
      audience and identifier it was issued with; its expiry claim and the
      reported expiry are the issue time plus the access lifetime, and its
      not-before and issued-at claims are the issue time. */
  lemma IssueValidateAccess(m: Manager, user: Uuid.UUID, email: string, now: int,
                            jti: Uuid.UUID, regId: Uuid.UUID, at: int)
    requires AccessTimesFit(m, now)
    requires now <= at < now + m.accessTtl
    ensures GenerateAccessToken(m, user, email, now, jti, regId).expiresAt == now + m.accessTtl
    ensures var r := ValidateAccessToken(m, GenerateAccessToken(m, user, email, now, jti, regId).token, at);
            && r.Ok?
            && r.value.userId == user && r.value.email == email
            && r.value.issuer == m.issuer && r.value.audience == m.audience
            && r.value.jti == Uuid.ToString(jti)
            && r.value.issuedAt == now && r.value.notBefore == now && r.value.expiresAt == now + m.accessTtl
  {
    SignedAccessValidates(m, AccessClaimsFor(m, user, email, now, jti, regId), at);
  }

  /** The intended validation refuses an access token once its lifetime
      has run out. */
  lemma AccessExpires(m: Manager, user: Uuid.UUID, email: string, now: int,
                      jti: Uuid.UUID, regId: Uuid.UUID, at: int)
    requires AccessTimesFit(m, now)
    requires at >= now + m.accessTtl
    ensures ValidateAccessToken(m, GenerateAccessToken(m, user, email, now, jti, regId).token, at)
            == Err(Expired)
  {
    SignedAccessValidates(m, AccessClaimsFor(m, user, email, now, jti, regId), at);
  }

  /** The discrepancy: as written, an access token is accepted at every
      time, however long after its expiry. */
  lemma AccessNeverExpiresAsWritten(m: Manager, user: Uuid.UUID, email: string, now: int,
                                    jti: Uuid.UUID, regId: Uuid.UUID, at: int)
    requires AccessTimesFit(m, now)
    ensures ValidateAccessTokenAsWritten(m, GenerateAccessToken(m, user, email, now, jti, regId).token, at).Ok?
  {
    SignedAccessValidates(m, AccessClaimsFor(m, user, email, now, jti, regId), at);
  }

  /** Issue then extract: within its lifetime a fresh refresh token yields
      the user it was issued for; the reported expiry is the issue time
      plus the refresh lifetime. */
  lemma IssueExtractRefresh(m: Manager, user: Uuid.UUID, now: int, jti: Uuid.UUID, at: int)
    requires now <= at < now + m.refreshTtl
    ensures GenerateRefreshToken(m, user, now, jti).expiresAt == now + m.refreshTtl
    ensures ExtractUserIdFromRefreshToken(m, GenerateRefreshToken(m, user, now, jti).token, at) == Ok(user)
  {
    DecodeEncodeRegistered(RefreshClaimsFor(m, user, now, jti));
    Uuid.ParseToString(user);
  }

  /** A refresh token is refused once its lifetime has run out. */
  lemma RefreshExpires(m: Manager, user: Uuid.UUID, now: int, jti: Uuid.UUID, at: int)
    requires at >= now + m.refreshTtl
    ensures ValidateRefreshToken(m, GenerateRefreshToken(m, user, now, jti).token, at) == Err(Expired)
    ensures ExtractUserIdFromRefreshToken(m, GenerateRefreshToken(m, user, now, jti).token, at) == Err(Expired)
  {
    DecodeEncodeRegistered(RefreshClaimsFor(m, user, now, jti));
  }

  /** A refresh token is not an access token. */
  lemma RefreshTokenNotAccess(m: Manager, user: Uuid.UUID, now: int, jti: Uuid.UUID, at: int)
    ensures ValidateAccessTokenAsWritten(m, GenerateRefreshToken(m, user, now, jti).token, at) == Err(Malformed)
    ensures ValidateAccessToken(m, GenerateRefreshToken(m, user, now, jti).token, at) == Err(Malformed)
  {
    DecodeRegisteredAsAccess(RefreshClaimsFor(m, user, now, jti));
  }

  /** An access token, on the other hand, passes refresh validation and
      yields its user while it is within its lifetime. */
  lemma AccessTokenPassesRefreshValidation(m: Manager, user: Uuid.UUID, email: string, now: int,
                                           jti: Uuid.UUID, regId: Uuid.UUID, at: int)
    requires now <= at < now + m.accessTtl
    ensures ExtractUserIdFromRefreshToken(m, GenerateAccessToken(m, user, email, now, jti, regId).token, at)
            == Ok(user)
  {
    DecodeAccessAsRegistered(AccessClaimsFor(m, user, email, now, jti, regId));
    Uuid.ParseToString(user);
  }
}
