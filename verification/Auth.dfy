/**
 The authentication service: two tables, `app.users` and `app.refresh_tokens`, driven by one request
 at a time. Row identifiers are positions, which grow like the serial columns do. Every token drawn is
 new, and hashing is injective; passwords are seen only through the verify function.
 */
module Auth {
  import opened Options
  import opened Clock

  datatype Digest = Sha256(plain: string)

  datatype User = User(
    email: string,
    passwordHash: string,
    active: bool,
    lastLogin: Option<int>,
    resetToken: Option<Digest>,
    resetExpires: Option<int>)

  datatype TokenRow = TokenRow(
    userId: nat,
    hash: Digest,
    expiresAt: int,
    revokedAt: Option<int>,
    replacedBy: Option<Digest>)

  datatype Db = Db(users: seq<User>, tokens: seq<TokenRow>)

  const EMPTY := Db([], [])

  /** Settings, and the password check of the password service. Times are in microseconds. */
  datatype Env = Env(refreshTtl: int, verify: (string, string) -> bool)

  const RESET_TTL := HOUR

  /** A request. `drawn` is the token the service would draw while serving it, and `passwordHash` the
      bcrypt hash it would compute. SetActive is not a request: it stands for the operator's own UPDATE,
      the only way to disable an account. */
  datatype Op =
    | Register(email: string, passwordHash: string, drawn: string)
    | Login(email: string, password: string, drawn: string)
    | Refresh(plain: string, drawn: string)
    | Logout(presented: Option<string>)
    | Forgot(email: string, appEnv: string, drawn: string)
    | Reset(plain: string, passwordHash: string)
    | SetActive(userId: nat, active: bool)

  datatype Event = Event(now: int, op: Op)

  datatype Error =
    | EmailAlreadyExists | InvalidCredentials | AccountDisabled
    | RefreshTokenInvalid | RefreshTokenRevoked | RefreshTokenExpired
    | InvalidOrExpiredResetToken

  datatype Response =
    | Issued(userId: nat, refresh: string)
    | ResetMailed(userId: nat, link: string, returned: Option<string>)
    | PasswordReset(userId: nat)
    | Quiet
    | Failed(error: Error)

  // ----- the queries -----

  function FindToken(tokens: seq<TokenRow>, h: Digest): (r: Option<nat>)
    ensures r.Some? ==> r.value < |tokens| && tokens[r.value].hash == h
    ensures r.None? ==> forall i :: 0 <= i < |tokens| ==> tokens[i].hash != h
  {
    if |tokens| == 0 then None
    else
      var n := |tokens| - 1;
      var r := FindToken(tokens[..n], h);
      if r.Some? then r else if tokens[n].hash == h then Some(n) else None
  }

  function FindEmail(users: seq<User>, email: string): (r: Option<nat>)
    ensures r.Some? ==> r.value < |users| && users[r.value].email == email
    ensures r.None? ==> forall i :: 0 <= i < |users| ==> users[i].email != email
  {
    if |users| == 0 then None
    else
      var n := |users| - 1;
      var r := FindEmail(users[..n], email);
      if r.Some? then r else if users[n].email == email then Some(n) else None
  }

  predicate Resettable(u: User, h: Digest, now: int) {
    u.resetToken == Some(h) && u.resetExpires.Some? && u.resetExpires.value > now && u.active
  }

  function FindReset(users: seq<User>, h: Digest, now: int): (r: Option<nat>)
    ensures r.Some? ==> r.value < |users| && Resettable(users[r.value], h, now)
    ensures r.None? ==> forall i :: 0 <= i < |users| ==> !Resettable(users[i], h, now)
  {
    if |users| == 0 then None
    else
      var n := |users| - 1;
      var r := FindReset(users[..n], h, now);
      if r.Some? then r else if Resettable(users[n], h, now) then Some(n) else None
  }

  // ----- the requests -----

  function IssueTokens(env: Env, db: Db, userId: nat, now: int, drawn: string): Db {
    db.(tokens := db.tokens + [TokenRow(userId, Sha256(drawn), now + env.refreshTtl, None, None)])
  }

  function DoRegister(env: Env, db: Db, now: int, op: Op): (Db, Response)
    requires op.Register?
  {
    if FindEmail(db.users, op.email).Some? then (db, Failed(EmailAlreadyExists))
    else
      var users := db.users + [User(op.email, op.passwordHash, true, None, None, None)];
      (IssueTokens(env, db.(users := users), |db.users|, now, op.drawn), Issued(|db.users|, op.drawn))
  }

  function DoLogin(env: Env, db: Db, now: int, op: Op): (Db, Response)
    requires op.Login?
  {
    match FindEmail(db.users, op.email)
    case None => (db, Failed(InvalidCredentials))
    case Some(u) =>
      if !env.verify(op.password, db.users[u].passwordHash) then (db, Failed(InvalidCredentials))
      else if !db.users[u].active then (db, Failed(AccountDisabled))
      else
        var users := db.users[u := db.users[u].(lastLogin := Some(now))];
        (IssueTokens(env, db.(users := users), u, now, op.drawn), Issued(u, op.drawn))
  }

  /** The join with `app.users` finds no row for a token whose user is missing. */
  function DoRefresh(env: Env, db: Db, now: int, op: Op): (Db, Response)
    requires op.Refresh?
  {
    match FindToken(db.tokens, Sha256(op.plain))
    case None => (db, Failed(RefreshTokenInvalid))
    case Some(i) =>
      var row := db.tokens[i];
      if row.userId >= |db.users| then (db, Failed(RefreshTokenInvalid))
      else if row.revokedAt.Some? then (db, Failed(RefreshTokenRevoked))
      else if row.expiresAt <= now then (db, Failed(RefreshTokenExpired))
      else if !db.users[row.userId].active then (db, Failed(AccountDisabled))
      else
        var rotated := db.tokens[i := row.(revokedAt := Some(now), replacedBy := Some(Sha256(op.drawn)))];
        (IssueTokens(env, db.(tokens := rotated), row.userId, now, op.drawn), Issued(row.userId, op.drawn))
  }

  function DoLogout(db: Db, now: int, op: Op): (Db, Response)
    requires op.Logout?
  {
    if op.presented.None? || op.presented.value == "" then (db, Quiet)
    else
      match FindToken(db.tokens, Sha256(op.presented.value))
      case None => (db, Quiet)
      case Some(i) =>
        if db.tokens[i].revokedAt.Some? then (db, Quiet)
        else (db.(tokens := db.tokens[i := db.tokens[i].(revokedAt := Some(now))]), Quiet)
  }

  /** Development and test environments hand the reset token back to the caller. */
  function Shown(appEnv: string, drawn: string): Option<string> {
    if appEnv in {"dev", "test"} then Some(drawn) else None
  }

  function DoForgot(db: Db, now: int, op: Op): (Db, Response)
    requires op.Forgot?
  {
    match FindEmail(db.users, op.email)
    case None => (db, Quiet)
    case Some(u) =>
      if !db.users[u].active then (db, Quiet)
      else
        var user := db.users[u].(resetToken := Some(Sha256(op.drawn)), resetExpires := Some(now + RESET_TTL));
        (db.(users := db.users[u := user]), ResetMailed(u, op.drawn, Shown(op.appEnv, op.drawn)))
  }

  function DoReset(db: Db, now: int, op: Op): (Db, Response)
    requires op.Reset?
  {
    match FindReset(db.users, Sha256(op.plain), now)
    case None => (db, Failed(InvalidOrExpiredResetToken))
    case Some(u) =>
      var user := db.users[u].(passwordHash := op.passwordHash, resetToken := None, resetExpires := None);
      (db.(users := db.users[u := user]), PasswordReset(u))
  }

  function Step(env: Env, db: Db, e: Event): (Db, Response) {
    match e.op
    case Register(_, _, _) => DoRegister(env, db, e.now, e.op)
    case Login(_, _, _) => DoLogin(env, db, e.now, e.op)
    case Refresh(_, _) => DoRefresh(env, db, e.now, e.op)
    case Logout(_) => DoLogout(db, e.now, e.op)
    case Forgot(_, _, _) => DoForgot(db, e.now, e.op)
    case Reset(_, _) => DoReset(db, e.now, e.op)
    case SetActive(u, active) =>
      (if u < |db.users| then db.(users := db.users[u := db.users[u].(active := active)]) else db, Quiet)
  }

  // ----- the service object -----

  class AuthService {
    const env: Env
    var users: seq<User>
    var tokens: seq<TokenRow>

    function Tables(): Db
      reads this
    {
      Db(users, tokens)
    }

    /** The object is made anew for each request, on the tables as they are. */
    constructor (env: Env, db: Db)
      ensures this.env == env && Tables() == db
    {
      this.env := env;
      users, tokens := db.users, db.tokens;
    }

    method InsertToken(userId: nat, now: int, drawn: string)
      modifies this`tokens
      ensures Tables() == IssueTokens(env, old(Tables()), userId, now, drawn)
    {
      var expiresAt := now + env.refreshTtl;
      tokens := tokens + [TokenRow(userId, Sha256(drawn), expiresAt, None, None)];
    }

    method Register(now: int, email: string, passwordHash: string, drawn: string) returns (r: Response)
      modifies this
      ensures (Tables(), r) == DoRegister(env, old(Tables()), now, Op.Register(email, passwordHash, drawn))
    {
      var taken := FindEmail(users, email);
      if taken.Some? {
        return Failed(EmailAlreadyExists);
      }
      var userId := |users|;
      users := users + [User(email, passwordHash, true, None, None, None)];
      InsertToken(userId, now, drawn);
      return Issued(userId, drawn);
    }

    method Login(now: int, email: string, password: string, drawn: string) returns (r: Response)
      modifies this
      ensures (Tables(), r) == DoLogin(env, old(Tables()), now, Op.Login(email, password, drawn))
    {
      var row := FindEmail(users, email);
      var pwOk := row.Some? && env.verify(password, users[row.value].passwordHash);
      if row.None? || !pwOk {
        return Failed(InvalidCredentials);
      }
      var u := row.value;
      if !users[u].active {
        return Failed(AccountDisabled);
      }
      users := users[u := users[u].(lastLogin := Some(now))];
      InsertToken(u, now, drawn);
      return Issued(u, drawn);
    }

    method RefreshToken(now: int, plain: string, drawn: string) returns (r: Response)
      modifies this
      ensures (Tables(), r) == DoRefresh(env, old(Tables()), now, Op.Refresh(plain, drawn))
    {
      var found := FindToken(tokens, Sha256(plain));
      if found.None? || tokens[found.value].userId >= |users| {
        return Failed(RefreshTokenInvalid);
      }
      var row := tokens[found.value];
      if row.revokedAt.Some? {
        return Failed(RefreshTokenRevoked);
      }
      if row.expiresAt <= now {
        return Failed(RefreshTokenExpired);
      }
      if !users[row.userId].active {
        return Failed(AccountDisabled);
      }
      tokens := tokens[found.value := row.(revokedAt := Some(now), replacedBy := Some(Sha256(drawn)))];
      InsertToken(row.userId, now, drawn);
      return Issued(row.userId, drawn);
    }

    method Logout(now: int, presented: Option<string>) returns (r: Response)
      modifies this
      ensures (Tables(), r) == DoLogout(old(Tables()), now, Op.Logout(presented))
    {
      if presented.None? || presented.value == "" {
        return Quiet;
      }
      var found := FindToken(tokens, Sha256(presented.value));
      if found.Some? && tokens[found.value].revokedAt.None? {
        tokens := tokens[found.value := tokens[found.value].(revokedAt := Some(now))];
      }
      return Quiet;
    }

    method ForgotPassword(now: int, email: string, appEnv: string, drawn: string) returns (r: Response)
      modifies this
      ensures (Tables(), r) == DoForgot(old(Tables()), now, Op.Forgot(email, appEnv, drawn))
    {
      var row := FindEmail(users, email);
      if row.None? || !users[row.value].active {
        return Quiet;
      }
      var u := row.value;
      users := users[u := users[u].(resetToken := Some(Sha256(drawn)), resetExpires := Some(now + RESET_TTL))];
      return ResetMailed(u, drawn, if appEnv == "dev" || appEnv == "test" then Some(drawn) else None);
    }

    method ResetPassword(now: int, plain: string, passwordHash: string) returns (r: Response)
      modifies this
      ensures (Tables(), r) == DoReset(old(Tables()), now, Op.Reset(plain, passwordHash))
    {
      var row := FindReset(users, Sha256(plain), now);
      if row.None? {
        return Failed(InvalidOrExpiredResetToken);
      }
      var u := row.value;
      users := users[u := users[u].(passwordHash := passwordHash, resetToken := None, resetExpires := None)];
      return PasswordReset(u);
    }
  }

  // ----- runs -----

  function After(env: Env, evs: seq<Event>): Db {
    if |evs| == 0 then EMPTY else Step(env, After(env, evs[..|evs| - 1]), evs[|evs| - 1]).0
  }

  function Answer(env: Env, evs: seq<Event>, i: nat): Response
    requires i < |evs|
  {
    Step(env, After(env, evs[..i]), evs[i]).1
  }

  function Draw(op: Op): Option<string> {
    match op
    case Register(_, _, f) => Some(f)
    case Login(_, _, f) => Some(f)
    case Refresh(_, f) => Some(f)
    case Forgot(_, _, f) => Some(f)
    case _ => None
  }

  ghost predicate Drawn(evs: seq<Event>, plain: string) {
    exists i :: 0 <= i < |evs| && Draw(evs[i].op) == Some(plain)
  }

  /** A serial run: the clock does not go back and no token is drawn twice. */
  ghost predicate ValidRun(evs: seq<Event>) {
    && (forall i, j :: 0 <= i < j < |evs| ==> evs[i].now <= evs[j].now)
    && (forall i, j :: 0 <= i < j < |evs| && Draw(evs[i].op).Some? ==> Draw(evs[i].op) != Draw(evs[j].op))
  }
}
