/** The persistent state the handlers work on: the user table, in insertion
    order, and the refresh-session records keyed by the hexadecimal SHA-256
    of the refresh token's text.  Each query is modelled by the effect the
    handlers rely on. */
module Store {
  import opened Base
  import Uuid
  import NetAddr

  /** `pgtype.Timestamptz`: a time that may be NULL. */
  datatype Timestamptz = Timestamptz(time: int, valid: bool)

  const NullTime := Timestamptz(0, false)

  /** `convertPgTimestamptz`: NULL becomes nil, anything else its time. */
  function ConvertTimestamptz(ts: Timestamptz): (r: Option<int>)
    ensures r.None? <==> !ts.valid
    ensures r.Some? ==> r.value == ts.time
  {
    if !ts.valid then None else Some(ts.time)
  }

  datatype User = User(id: Uuid.UUID, email: string, digest: string, emailVerified: bool,
                       active: bool, lastLogin: Timestamptz)

  /** `hex.EncodeToString(sha256.Sum256(token))`, kept symbolic: two texts
      have the same hash only if they are the same text. */
  datatype TokenHash = Sha256Hex(text: string)

  datatype Record = Record(id: nat, userId: Uuid.UUID, expiresAt: int, revoked: bool,
                           lastUsed: Timestamptz, userAgent: string, ip: Option<NetAddr.Addr>)

  datatype State = State(users: seq<User>, sessions: map<TokenHash, Record>)

  /** The table constraints: user ids and e-mails are unique, and so are
      session record ids. */
  predicate Inv(st: State)
  {
    && (forall i, j :: 0 <= i < j < |st.users| ==> st.users[i].id != st.users[j].id)
    && (forall i, j :: 0 <= i < j < |st.users| ==> st.users[i].email != st.users[j].email)
    && (forall h, g :: h in st.sessions && g in st.sessions && h != g ==>
          st.sessions[h].id != st.sessions[g].id)
  }

  // ---------------------------------------------------------------------
  // Users
  // ---------------------------------------------------------------------

  /** How the active-only queries select a user. */
  datatype UserKey = ById(id: Uuid.UUID) | ByEmail(email: string)

  predicate Selects(key: UserKey, u: User)
  {
    u.active && match key
                case ById(id) => u.id == id
                case ByEmail(email) => u.email == email
  }

  /** Position of the first user the key selects. */
  function Find(users: seq<User>, key: UserKey): (r: Option<nat>)
    ensures r.Some? ==> r.value < |users| && Selects(key, users[r.value])
    ensures r.Some? ==> forall k :: 0 <= k < r.value ==> !Selects(key, users[k])
    ensures r.None? <==> forall k :: 0 <= k < |users| ==> !Selects(key, users[k])
  {
    if |users| == 0 then None
    else if Selects(key, users[0]) then Some(0)
    else
      var r := Find(users[1..], key);
      assert forall k :: 1 <= k < |users| ==> users[k] == users[1..][k - 1];
      if r.None? then None else Some(r.value + 1)
  }

  /** `GetUserByEmailIncludeInactive` finds a row. */
  predicate EmailTaken(st: State, email: string)
  {
    exists k :: 0 <= k < |st.users| && st.users[k].email == email
  }

  /** `GetUserByEmail`: an active user with that e-mail. */
  function UserByEmail(st: State, email: string): (r: Option<User>)
    ensures r.Some? ==> r.value in st.users && r.value.email == email && r.value.active
    ensures r.None? <==> forall k :: 0 <= k < |st.users| ==> !(st.users[k].email == email && st.users[k].active)
  {
    match Find(st.users, ByEmail(email))
    case None => None
    case Some(k) => Some(st.users[k])
  }

  /** `GetUserByID`: an active user with that id. */
  function UserById(st: State, id: Uuid.UUID): (r: Option<User>)
    ensures r.Some? ==> r.value in st.users && r.value.id == id && r.value.active
    ensures r.None? <==> forall k :: 0 <= k < |st.users| ==> !(st.users[k].id == id && st.users[k].active)
  {
    match Find(st.users, ById(id))
    case None => None
    case Some(k) => Some(st.users[k])
  }

  /** `CreateUser`: a new active, unverified user with no last login; the
      insert fails when the id or the e-mail is already in the table. */
  function CreateUser(st: State, id: Uuid.UUID, email: string, digest: string): (r: Option<State>)
    ensures r.Some? <==> !EmailTaken(st, email) && forall k :: 0 <= k < |st.users| ==> st.users[k].id != id
    ensures r.Some? ==> r.value.sessions == st.sessions && |r.value.users| == |st.users| + 1
    ensures r.Some? ==> r.value.users[..|st.users|] == st.users
    ensures r.Some? ==> UserById(r.value, id) == Some(NewUser(id, email, digest))
    ensures r.Some? ==> UserByEmail(r.value, email) == Some(NewUser(id, email, digest))
  {
    if EmailTaken(st, email) || exists k :: 0 <= k < |st.users| && st.users[k].id == id then None
    else
      var users := st.users + [NewUser(id, email, digest)];
      assert users[..|st.users|] == st.users;
      assert users[|st.users|] == NewUser(id, email, digest);
      Some(State(users, st.sessions))
  }

  function NewUser(id: Uuid.UUID, email: string, digest: string): User
  {
    User(id, email, digest, false, true, NullTime)
  }

  /** `UpdateUserLastLogin`: the user's last login becomes `now`. */
  function UpdateLastLogin(st: State, id: Uuid.UUID, now: int): (r: State)
    ensures r.sessions == st.sessions && |r.users| == |st.users|
    ensures forall k :: 0 <= k < |st.users| ==>
              r.users[k] == if st.users[k].id == id then st.users[k].(lastLogin := Timestamptz(now, true))
                            else st.users[k]
  {
    State(seq(|st.users|, k requires 0 <= k < |st.users| =>
            if st.users[k].id == id then st.users[k].(lastLogin := Timestamptz(now, true)) else st.users[k]),
          st.sessions)
  }

  /** `UpdateUserPassword`: the user's digest is replaced; no row, no
      update. */
  function UpdatePassword(st: State, id: Uuid.UUID, digest: string): (r: Option<State>)
    ensures r.Some? <==> exists k :: 0 <= k < |st.users| && st.users[k].id == id
    ensures r.Some? ==> r.value.sessions == st.sessions && |r.value.users| == |st.users|
    ensures r.Some? ==> forall k :: 0 <= k < |st.users| ==>
              r.value.users[k] == if st.users[k].id == id then st.users[k].(digest := digest) else st.users[k]
  {
    if !exists k :: 0 <= k < |st.users| && st.users[k].id == id then None
    else
      Some(State(seq(|st.users|, k requires 0 <= k < |st.users| =>
                   if st.users[k].id == id then st.users[k].(digest := digest) else st.users[k]),
                 st.sessions))
  }

  // ---------------------------------------------------------------------
  // Refresh sessions
  // ---------------------------------------------------------------------

  /** `GetRefreshToken`: the row stored under the hash, revoked or not. */
  function GetRefreshToken(st: State, h: TokenHash): (r: Option<Record>)
    ensures r.Some? <==> h in st.sessions
    ensures r.Some? ==> r.value == st.sessions[h]
  {
    if h in st.sessions then Some(st.sessions[h]) else None
  }

  /** A record that still stands for a usable session at `now`. */
  predicate Live(rec: Record, now: int)
  {
    !rec.revoked && now < rec.expiresAt
  }

  /** `CreateRefreshToken`: the insert fails on a hash or record id that is
      already taken. */
  function CreateRefreshToken(st: State, h: TokenHash, rec: Record): (r: Option<State>)
    ensures r.Some? <==> h !in st.sessions && forall g :: g in st.sessions ==> st.sessions[g].id != rec.id
    ensures r.Some? ==> r.value.users == st.users
    ensures r.Some? ==> r.value.sessions.Keys == st.sessions.Keys + {h} && r.value.sessions[h] == rec
    ensures r.Some? ==> forall g :: g in st.sessions ==> r.value.sessions[g] == st.sessions[g]
  {
    if h in st.sessions || exists g :: g in st.sessions && st.sessions[g].id == rec.id then None
    else Some(State(st.users, st.sessions[h := rec]))
  }

  /** `RevokeRefreshToken`: the record under the hash, if any, is revoked. */
  function RevokeRefreshToken(st: State, h: TokenHash): (r: State)
    ensures r.users == st.users && r.sessions.Keys == st.sessions.Keys
    ensures h in st.sessions ==> r.sessions[h] == st.sessions[h].(revoked := true)
    ensures forall g :: g in st.sessions && g != h ==> r.sessions[g] == st.sessions[g]
  {
    if h in st.sessions then State(st.users, st.sessions[h := st.sessions[h].(revoked := true)]) else st
  }

  /** `RevokeAllUserRefreshTokens`: every record of the user is revoked. */
  function RevokeAll(st: State, user: Uuid.UUID): (r: State)
    ensures r.users == st.users && r.sessions.Keys == st.sessions.Keys
    ensures forall g :: g in st.sessions && st.sessions[g].userId == user ==>
              r.sessions[g] == st.sessions[g].(revoked := true)
    ensures forall g :: g in st.sessions && st.sessions[g].userId != user ==> r.sessions[g] == st.sessions[g]
  {
    State(st.users, map g | g in st.sessions ::
                      if st.sessions[g].userId == user then st.sessions[g].(revoked := true) else st.sessions[g])
  }

  /** `UpdateRefreshTokenLastUsed`: the record with that id is stamped
      `now`. */
  function TouchRefreshToken(st: State, id: nat, now: int): (r: State)
    ensures r.users == st.users && r.sessions.Keys == st.sessions.Keys
    ensures forall g :: g in st.sessions && st.sessions[g].id == id ==>
              r.sessions[g] == st.sessions[g].(lastUsed := Timestamptz(now, true))
    ensures forall g :: g in st.sessions && st.sessions[g].id != id ==> r.sessions[g] == st.sessions[g]
  {
    State(st.users, map g | g in st.sessions ::
                      if st.sessions[g].id == id then st.sessions[g].(lastUsed := Timestamptz(now, true))
                      else st.sessions[g])
  }

  /** `b` is the user table `a` with at most the last-login times changed. */
  predicate SameUpToLastLogin(a: seq<User>, b: seq<User>)
  {
    |a| == |b| && forall k :: 0 <= k < |a| ==> b[k].(lastLogin := a[k].lastLogin) == a[k]
  }

  /** `st1` is `st` with exactly one new, unrevoked session for `user`
      under the hash `h`, expiring at `expiresAt`; the users are untouched. */
  predicate SessionAdded(st: State, st1: State, h: TokenHash, user: Uuid.UUID, expiresAt: int)
  {
    && h !in st.sessions
    && st1.sessions.Keys == st.sessions.Keys + {h}
    && (forall g :: g in st.sessions ==> st1.sessions[g] == st.sessions[g])
    && st1.sessions[h].userId == user && !st1.sessions[h].revoked && st1.sessions[h].expiresAt == expiresAt
  }

  // ---------------------------------------------------------------------
  // Properties
  // ---------------------------------------------------------------------

  /** With unique e-mails, at most one user can be found by e-mail, and the
      active-only lookup succeeds exactly for an active holder. */
  lemma UserByEmailUnique(st: State, k: nat)
    requires Inv(st) && k < |st.users|
    ensures UserByEmail(st, st.users[k].email) == if st.users[k].active then Some(st.users[k]) else None
  {
    var e := st.users[k].email;
    var r := UserByEmail(st, e);
    if r.Some? {
      var j :| 0 <= j < |st.users| && st.users[j] == r.value;
      assert st.users[j].email == st.users[k].email;
    }
  }

  /** The same for ids. */
  lemma UserByIdUnique(st: State, k: nat)
    requires Inv(st) && k < |st.users|
    ensures UserById(st, st.users[k].id) == if st.users[k].active then Some(st.users[k]) else None
  {
    var id := st.users[k].id;
    var r := UserById(st, id);
    if r.Some? {
      var j :| 0 <= j < |st.users| && st.users[j] == r.value;
      assert st.users[j].id == st.users[k].id;
    }
  }

  lemma CreateUserInv(st: State, id: Uuid.UUID, email: string, digest: string)
    ensures Inv(st) && CreateUser(st, id, email, digest).Some? ==> Inv(CreateUser(st, id, email, digest).value)
  {
    if Inv(st) && CreateUser(st, id, email, digest).Some? {
      var r := CreateUser(st, id, email, digest).value;
      assert r.users == st.users + [NewUser(id, email, digest)];
    }
  }

  lemma UpdateLastLoginInv(st: State, id: Uuid.UUID, now: int)
    ensures Inv(st) ==> Inv(UpdateLastLogin(st, id, now))
  {
  }

  lemma UpdatePasswordInv(st: State, id: Uuid.UUID, digest: string)
    ensures Inv(st) && UpdatePassword(st, id, digest).Some? ==> Inv(UpdatePassword(st, id, digest).value)
  {
  }

  lemma CreateRefreshTokenInv(st: State, h: TokenHash, rec: Record)
    ensures Inv(st) && CreateRefreshToken(st, h, rec).Some? ==> Inv(CreateRefreshToken(st, h, rec).value)
  {
  }

  lemma RevokeInv(st: State, h: TokenHash)
    ensures Inv(st) ==> Inv(RevokeRefreshToken(st, h))
  {
  }

  lemma RevokeAllInv(st: State, user: Uuid.UUID)
    ensures Inv(st) ==> Inv(RevokeAll(st, user))
  {
  }

  lemma TouchInv(st: State, id: nat, now: int)
    ensures Inv(st) ==> Inv(TouchRefreshToken(st, id, now))
  {
  }

  /** Revoking twice is revoking once. */
  lemma RevokeIdempotent(st: State, h: TokenHash, user: Uuid.UUID)
    ensures RevokeRefreshToken(RevokeRefreshToken(st, h), h) == RevokeRefreshToken(st, h)
    ensures RevokeAll(RevokeAll(st, user), user) == RevokeAll(st, user)
  {
  }

  /** After `RevokeAll` no record of the user is live, and no other user's
      record changed. */
  lemma RevokeAllEndsSessions(st: State, user: Uuid.UUID, now: int)
    ensures forall g :: g in RevokeAll(st, user).sessions && RevokeAll(st, user).sessions[g].userId == user ==>
              !Live(RevokeAll(st, user).sessions[g], now)
    ensures forall g :: g in st.sessions && st.sessions[g].userId != user ==>
              g in RevokeAll(st, user).sessions && RevokeAll(st, user).sessions[g] == st.sessions[g]
  {
  }

  /** Two searches that agree position by position find the same place. */
  lemma {:induction false} FindSame(a: seq<User>, b: seq<User>, key: UserKey)
    requires |a| == |b| && forall k :: 0 <= k < |a| ==> Selects(key, a[k]) == Selects(key, b[k])
    ensures Find(a, key) == Find(b, key)
  {
    if |a| > 0 && !Selects(key, a[0]) {
      FindSame(a[1..], b[1..], key);
    }
  }

  /** Stamping last-login times moves no search result. */
  lemma FindUpToLastLogin(a: seq<User>, b: seq<User>, key: UserKey)
    requires SameUpToLastLogin(a, b)
    ensures Find(a, key) == Find(b, key)
    ensures Find(a, key).Some? ==>
              b[Find(a, key).value].(lastLogin := NullTime) == a[Find(a, key).value].(lastLogin := NullTime)
  {
    forall k | 0 <= k < |a| ensures Selects(key, a[k]) == Selects(key, b[k]) {
      assert b[k].(lastLogin := a[k].lastLogin) == a[k];
    }
    FindSame(a, b, key);
    var f := Find(a, key);
    if f.Some? {
      assert b[f.value].(lastLogin := a[f.value].lastLogin) == a[f.value];
    }
  }

  /** Stamping last-login times changes no lookup except in that time. */
  lemma LookupsUpToLastLogin(st: State, st1: State, id: Uuid.UUID, email: string)
    requires SameUpToLastLogin(st.users, st1.users)
    ensures UserById(st1, id).Some? <==> UserById(st, id).Some?
    ensures UserById(st1, id).Some? ==>
              UserById(st1, id).value.(lastLogin := NullTime) == UserById(st, id).value.(lastLogin := NullTime)
    ensures UserByEmail(st1, email).Some? <==> UserByEmail(st, email).Some?
    ensures UserByEmail(st1, email).Some? ==>
              UserByEmail(st1, email).value.(lastLogin := NullTime) == UserByEmail(st, email).value.(lastLogin := NullTime)
  {
    FindUpToLastLogin(st.users, st1.users, ById(id));
    FindUpToLastLogin(st.users, st1.users, ByEmail(email));
  }

  /** Stamping the last login changes, of the user found by id, only the
      last-login time. */
  lemma LastLoginStamped(st: State, id: Uuid.UUID, now: int)
    ensures UserById(UpdateLastLogin(st, id, now), id).Some? <==> UserById(st, id).Some?
    ensures UserById(st, id).Some? ==>
              UserById(UpdateLastLogin(st, id, now), id).value
              == UserById(st, id).value.(lastLogin := Timestamptz(now, true))
  {
    var st1 := UpdateLastLogin(st, id, now);
    assert SameUpToLastLogin(st.users, st1.users);
    FindUpToLastLogin(st.users, st1.users, ById(id));
  }
}
