/**
 Users over whole serial runs, told from requests and answers alone: which user an address registered, which
 password that user has, whether the account is active. They decide every answer to a register, a login and a
 forgotten password.
 */
module AuthUsers {
  import opened Options
  import opened Auth

  // ----- what the history says -----

  /** How many users have registered; a new user gets this number. */
  function Registered(env: Env, evs: seq<Event>): nat {
    if |evs| == 0 then 0
    else
      var n := |evs| - 1;
      Registered(env, evs[..n]) + if evs[n].op.Register? && Answer(env, evs, n).Issued? then 1 else 0
  }

  /** The user that an address was registered for. */
  function UserOf(env: Env, evs: seq<Event>, email: string): Option<nat> {
    if |evs| == 0 then None
    else
      var n := |evs| - 1;
      var answer := Answer(env, evs, n);
      if evs[n].op.Register? && evs[n].op.email == email && answer.Issued? then Some(answer.userId)
      else UserOf(env, evs[..n], email)
  }

  /** The hash set by the last successful reset for the user, or else by the registration. */
  function PasswordOf(env: Env, evs: seq<Event>, u: nat): Option<string> {
    if |evs| == 0 then None
    else
      var n := |evs| - 1;
      NextPassword(PasswordOf(env, evs[..n], u), evs[n], Answer(env, evs, n), u)
  }

  function NextPassword(before: Option<string>, e: Event, answer: Response, u: nat): Option<string> {
    if e.op.Register? && answer.Issued? && answer.userId == u then Some(e.op.passwordHash)
    else if e.op.Reset? && answer == PasswordReset(u) then Some(e.op.passwordHash)
    else before
  }

  /** Accounts start active; after that the operator's last word counts. */
  function ActiveOf(env: Env, evs: seq<Event>, u: nat): bool {
    if |evs| == 0 then false
    else
      var n := |evs| - 1;
      NextActive(ActiveOf(env, evs[..n], u), evs[n], Answer(env, evs, n), u)
  }

  function NextActive(before: bool, e: Event, answer: Response, u: nat): bool {
    if e.op.Register? && answer.Issued? && answer.userId == u then true
    else if e.op.SetActive? && e.op.userId == u then e.op.active
    else before
  }

  /** The time of the user's last successful login; registering is not one. */
  function LastLoginOf(env: Env, evs: seq<Event>, u: nat): Option<int> {
    if |evs| == 0 then None
    else
      var n := |evs| - 1;
      var answer := Answer(env, evs, n);
      if evs[n].op.Login? && answer.Issued? && answer.userId == u then Some(evs[n].now)
      else LastLoginOf(env, evs[..n], u)
  }

  // ----- how the table moves -----

  datatype Move = Keep | Add(user: User) | Put(u: nat, user: User)

  predicate Possible(users: seq<User>, m: Move) {
    m.Put? ==> m.u < |users| && m.user.email == users[m.u].email
  }

  function Moved(users: seq<User>, m: Move): seq<User>
    requires Possible(users, m)
  {
    match m
    case Keep => users
    case Add(user) => users + [user]
    case Put(u, user) => users[u := user]
  }

  /** Told from the answer: who is changed, and in which columns. */
  function MoveOf(users: seq<User>, e: Event, answer: Response): Move {
    match e.op
    case Register(email, hash, _) =>
      if answer.Issued? then Add(User(email, hash, true, None, None, None)) else Keep
    case Login(_, _, _) =>
      if answer.Issued? && answer.userId < |users|
      then Put(answer.userId, users[answer.userId].(lastLogin := Some(e.now))) else Keep
    case Forgot(_, _, _) =>
      if answer.ResetMailed? && answer.userId < |users|
      then Put(answer.userId, users[answer.userId].(resetToken := Some(Sha256(answer.link)),
                                                    resetExpires := Some(e.now + RESET_TTL)))
      else Keep
    case Reset(_, hash) =>
      if answer.PasswordReset? && answer.userId < |users|
      then Put(answer.userId, users[answer.userId].(passwordHash := hash, resetToken := None, resetExpires := None))
      else Keep
    case SetActive(u, active) => if u < |users| then Put(u, users[u].(active := active)) else Keep
    case _ => Keep
  }

  lemma UsersMove(env: Env, db: Db, e: Event)
    ensures var (db', answer) := Step(env, db, e);
            var m := MoveOf(db.users, e, answer);
            && Possible(db.users, m) && db'.users == Moved(db.users, m)
            && (e.op.Register? && answer.Issued? ==> answer.userId == |db.users|)
            && (e.op.Login? && answer.Issued? ==> answer.userId < |db.users|)
            && (answer.PasswordReset? || answer.ResetMailed? ==> answer.userId < |db.users|)
  {
  }

  lemma FindEmailAdded(users: seq<User>, user: User, email: string)
    ensures FindEmail(users + [user], email)
         == var r := FindEmail(users, email); if r.None? && user.email == email then Some(|users|) else r
  {
    assert (users + [user])[..|users|] == users;
  }

  lemma {:induction false} FindEmailPut(users: seq<User>, u: nat, user: User, email: string)
    requires u < |users| && user.email == users[u].email
    ensures FindEmail(users[u := user], email) == FindEmail(users, email)
  {
    var n := |users| - 1;
    if u == n {
      assert users[u := user][..n] == users[..n];
    } else {
      assert users[u := user][..n] == users[..n][u := user];
      FindEmailPut(users[..n], u, user, email);
    }
  }

  lemma FindEmailMoved(users: seq<User>, m: Move, email: string)
    requires Possible(users, m)
    ensures FindEmail(Moved(users, m), email)
         == var r := FindEmail(users, email); if m.Add? && r.None? && m.user.email == email then Some(|users|) else r
  {
    match m {
      case Keep =>
      case Add(user) => FindEmailAdded(users, user, email);
      case Put(u, user) => FindEmailPut(users, u, user, email);
    }
  }

  lemma TakenIsRefused(env: Env, db: Db, e: Event)
    requires e.op.Register?
    ensures Step(env, db, e).1.Issued? <==> FindEmail(db.users, e.op.email).None?
  {
  }

  // ----- the table and the history agree -----

  lemma NextCount(env: Env, db: Db, e: Event)
    ensures |Step(env, db, e).0.users| == |db.users| + if e.op.Register? && Step(env, db, e).1.Issued? then 1 else 0
  {
  }

  lemma {:induction false} CountTold(env: Env, evs: seq<Event>)
    ensures |After(env, evs).users| == Registered(env, evs)
  {
    if |evs| > 0 {
      CountTold(env, evs[..|evs| - 1]);
      NextCount(env, After(env, evs[..|evs| - 1]), evs[|evs| - 1]);
    }
  }

  lemma {:induction false} AddressTold(env: Env, evs: seq<Event>, email: string)
    ensures FindEmail(After(env, evs).users, email) == UserOf(env, evs, email)
  {
    if |evs| > 0 {
      var db, e := After(env, evs[..|evs| - 1]), evs[|evs| - 1];
      AddressTold(env, evs[..|evs| - 1], email);
      UsersMove(env, db, e);
      FindEmailMoved(db.users, MoveOf(db.users, e, Step(env, db, e).1), email);
      if e.op.Register? {
        TakenIsRefused(env, db, e);
      }
    }
  }

  /** A row of the table, in the columns that the history tells. */
  predicate Tells(users: seq<User>, u: nat, password: Option<string>, active: bool, lastLogin: Option<int>) {
    if u < |users| then
      password == Some(users[u].passwordHash) && active == users[u].active && lastLogin == users[u].lastLogin
    else password == None && lastLogin == None
  }

  lemma {:induction false} RowTold(env: Env, evs: seq<Event>, u: nat)
    ensures Tells(After(env, evs).users, u, PasswordOf(env, evs, u), ActiveOf(env, evs, u), LastLoginOf(env, evs, u))
  {
    if |evs| > 0 {
      RowTold(env, evs[..|evs| - 1], u);
      UsersMove(env, After(env, evs[..|evs| - 1]), evs[|evs| - 1]);
    }
  }

  // ----- main results -----

  /** The full verdict on a registration: a taken address is refused, any other gets the next user number. */
  lemma {:induction false} RegisterVerdict(env: Env, evs: seq<Event>, now: int, email: string, hash: string,
                                           drawn: string)
    ensures Step(env, After(env, evs), Event(now, Register(email, hash, drawn))).1
         == if UserOf(env, evs, email).Some? then Failed(EmailAlreadyExists) else Issued(Registered(env, evs), drawn)
  {
    AddressTold(env, evs, email);
    CountTold(env, evs);
  }

  /** The full verdict on a login: the address must be registered and the password fit the hash last set for its
      user, or the credentials are refused; a disabled account is refused after that; else it succeeds, for that
      user. */
  lemma {:induction false} LoginVerdict(env: Env, evs: seq<Event>, now: int, email: string, password: string,
                                        drawn: string)
    ensures var answer := Step(env, After(env, evs), Event(now, Login(email, password, drawn))).1;
            match UserOf(env, evs, email)
            case None => answer == Failed(InvalidCredentials)
            case Some(u) =>
              && PasswordOf(env, evs, u).Some?
              && answer == if !env.verify(password, PasswordOf(env, evs, u).value) then Failed(InvalidCredentials)
                           else if !ActiveOf(env, evs, u) then Failed(AccountDisabled)
                           else Issued(u, drawn)
  {
    AddressTold(env, evs, email);
    if UserOf(env, evs, email).Some? {
      RowTold(env, evs, UserOf(env, evs, email).value);
    }
  }

  /** The full verdict on a forgotten password: the user of the address is mailed if the account is active, and
      no one else; the link is handed back in development and test only. */
  lemma {:induction false} ForgotVerdict(env: Env, evs: seq<Event>, now: int, email: string, appEnv: string,
                                         drawn: string)
    ensures var answer := Step(env, After(env, evs), Event(now, Forgot(email, appEnv, drawn))).1;
            match UserOf(env, evs, email)
            case None => answer == Quiet
            case Some(u) =>
              if !ActiveOf(env, evs, u) then answer == Quiet
              else
                && answer.ResetMailed? && answer.userId == u && answer.link == drawn
                && (appEnv == "dev" || appEnv == "test" ==> answer.returned == Some(drawn))
                && (appEnv != "dev" && appEnv != "test" ==> answer.returned == None)
  {
    AddressTold(env, evs, email);
    if UserOf(env, evs, email).Some? {
      RowTold(env, evs, UserOf(env, evs, email).value);
    }
  }

  /** An address keeps its user. */
  lemma {:induction false} AddressKept(env: Env, evs: seq<Event>, n: nat, email: string)
    requires n <= |evs| && UserOf(env, evs[..n], email).Some?
    ensures UserOf(env, evs, email) == UserOf(env, evs[..n], email)
    decreases |evs|
  {
    if n == |evs| {
      assert evs[..n] == evs;
    } else {
      var before, e := evs[..|evs| - 1], evs[|evs| - 1];
      assert before[..n] == evs[..n];
      AddressKept(env, before, n, email);
      AddressTold(env, before, email);
      if e.op.Register? {
        TakenIsRefused(env, After(env, before), e);
      }
    }
  }

  /** Neither another registration nor anything but a reset changes a password. */
  lemma {:induction false} PasswordKept(env: Env, evs: seq<Event>, n: nat, u: nat)
    requires n <= |evs| && PasswordOf(env, evs[..n], u).Some?
    requires forall k :: n <= k < |evs| ==> Answer(env, evs, k) != PasswordReset(u)
    ensures PasswordOf(env, evs, u) == PasswordOf(env, evs[..n], u)
    decreases |evs|
  {
    if n == |evs| {
      assert evs[..n] == evs;
    } else {
      var before := evs[..|evs| - 1];
      assert before[..n] == evs[..n];
      forall k | n <= k < |before| ensures Answer(env, before, k) != PasswordReset(u) {
        assert before[..k] == evs[..k] && Answer(env, evs, k) == Answer(env, before, k);
      }
      PasswordKept(env, before, n, u);
      RowTold(env, before, u);
      UsersMove(env, After(env, before), evs[|evs| - 1]);
    }
  }

  /** After a successful reset, and until the next one for that user, a login with the user's address goes through
      on an active account if and only if the password fits the new hash. */
  lemma {:induction false} LoginAfterReset(env: Env, evs: seq<Event>, i: nat, u: nat, now: int, email: string,
                                           password: string, drawn: string)
    requires i < |evs| && evs[i].op.Reset? && Answer(env, evs, i) == PasswordReset(u)
    requires forall k :: i < k < |evs| ==> Answer(env, evs, k) != PasswordReset(u)
    requires UserOf(env, evs, email) == Some(u) && ActiveOf(env, evs, u)
    ensures Step(env, After(env, evs), Event(now, Login(email, password, drawn))).1.Issued?
       <==> env.verify(password, evs[i].op.passwordHash)
  {
    assert evs[..i + 1][..i] == evs[..i];
    assert PasswordOf(env, evs[..i + 1], u) == Some(evs[i].op.passwordHash);
    PasswordKept(env, evs, i + 1, u);
    LoginVerdict(env, evs, now, email, password, drawn);
  }
}
