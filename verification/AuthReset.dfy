/**
 Password resets over whole serial runs: a reset goes through exactly for the latest link mailed to an
 active user, while it is unused and younger than an hour; and each link works at most once.
 */
module AuthReset {
  import opened Options
  import opened Clock
  import opened Auth
  import opened AuthUsers
  import opened AuthTokens

  datatype Ticket = Ticket(plain: string, mailedAt: int)

  function NextPending(before: Option<Ticket>, e: Event, answer: Response, u: nat): Option<Ticket> {
    match answer
    case ResetMailed(v, link, _) => if v == u then Some(Ticket(link, e.now)) else before
    case PasswordReset(v) => if v == u then None else before
    case _ => before
  }

  /** The link a user could reset with, told from requests and answers: the last one mailed, unless the
      password has been reset since. */
  function Pending(env: Env, evs: seq<Event>, u: nat): Option<Ticket> {
    if |evs| == 0 then None
    else
      var n := |evs| - 1;
      NextPending(Pending(env, evs[..n], u), evs[n], Answer(env, evs, n), u)
  }

  /** The two reset columns of a user, as a ticket. */
  predicate Stores(users: seq<User>, u: nat, t: Option<Ticket>) {
    if u >= |users| then t == None
    else match t
         case None => users[u].resetToken.None? && users[u].resetExpires.None?
         case Some(t) =>
           users[u].resetToken == Some(Sha256(t.plain)) && users[u].resetExpires == Some(t.mailedAt + RESET_TTL)
  }

  lemma StoresForgot(db: Db, now: int, op: Op, u: nat, t: Option<Ticket>)
    requires op.Forgot? && Stores(db.users, u, t)
    ensures var (db', answer) := DoForgot(db, now, op);
            Stores(db'.users, u, NextPending(t, Event(now, op), answer, u))
  {
  }

  lemma StoresReset(db: Db, now: int, op: Op, u: nat, t: Option<Ticket>)
    requires op.Reset? && Stores(db.users, u, t)
    ensures var (db', answer) := DoReset(db, now, op);
            Stores(db'.users, u, NextPending(t, Event(now, op), answer, u))
  {
  }

  /** Other requests leave the reset columns alone, and a new user has none. */
  lemma StoresOther(env: Env, db: Db, e: Event, u: nat, t: Option<Ticket>)
    requires !e.op.Forgot? && !e.op.Reset? && Stores(db.users, u, t)
    ensures Stores(Step(env, db, e).0.users, u, t) && NextPending(t, e, Step(env, db, e).1, u) == t
  {
  }

  lemma StoresStep(env: Env, db: Db, e: Event, u: nat, t: Option<Ticket>)
    requires Stores(db.users, u, t)
    ensures var (db', answer) := Step(env, db, e);
            Stores(db'.users, u, NextPending(t, e, answer, u))
  {
    if e.op.Forgot? {
      StoresForgot(db, e.now, e.op, u, t);
    } else if e.op.Reset? {
      StoresReset(db, e.now, e.op, u, t);
    } else {
      StoresOther(env, db, e, u, t);
    }
  }

  lemma {:induction false} TableStoresPending(env: Env, evs: seq<Event>, u: nat)
    ensures Stores(After(env, evs).users, u, Pending(env, evs, u))
  {
    if |evs| > 0 {
      TableStoresPending(env, evs[..|evs| - 1], u);
      StoresStep(env, After(env, evs[..|evs| - 1]), evs[|evs| - 1], u, Pending(env, evs[..|evs| - 1], u));
    }
  }

  lemma MailedIsDrawn(env: Env, db: Db, e: Event)
    ensures var answer := Step(env, db, e).1;
            answer.ResetMailed? ==> Draw(e.op) == Some(answer.link)
  {
  }

  lemma {:induction false} PendingIsDrawn(env: Env, evs: seq<Event>, u: nat)
    requires Pending(env, evs, u).Some?
    ensures Drawn(evs, Pending(env, evs, u).value.plain)
  {
    var n := |evs| - 1;
    MailedIsDrawn(env, After(env, evs[..n]), evs[n]);
    var answer := Answer(env, evs, n);
    if answer.ResetMailed? && answer.userId == u {
      assert Draw(evs[n].op) == Some(answer.link);
    } else {
      PendingIsDrawn(env, evs[..n], u);
      assert evs[..n] + [evs[n]] == evs;
      DrawnGrows(evs[..n], [evs[n]], Pending(env, evs, u).value.plain);
    }
  }

  predicate Holds(t: Option<Ticket>, plain: string) {
    t.Some? && t.value.plain == plain
  }

  /** A link drawn before the last step is not the one the last step mails. */
  lemma OldLinkNotMailed(env: Env, evs: seq<Event>, plain: string)
    requires ValidRun(evs) && |evs| > 0 && Drawn(evs[..|evs| - 1], plain)
    ensures var answer := Answer(env, evs, |evs| - 1);
            answer.ResetMailed? ==> answer.link != plain
  {
    MailedIsDrawn(env, After(env, evs[..|evs| - 1]), evs[|evs| - 1]);
    if Draw(evs[|evs| - 1].op) == Some(plain) {
      NotDrawnBefore(evs, plain);
    }
  }

  /** A link belongs to one user. */
  lemma {:induction false} OneHolder(env: Env, evs: seq<Event>, u: nat, v: nat, plain: string)
    requires ValidRun(evs) && u != v && Holds(Pending(env, evs, u), plain)
    ensures !Holds(Pending(env, evs, v), plain)
  {
    var n := |evs| - 1;
    ValidPrefix(evs, n);
    var before := evs[..n];
    var answer := Answer(env, evs, n);
    if Holds(Pending(env, before, u), plain) {
      PendingIsDrawn(env, before, u);
      OneHolder(env, before, u, v, plain);
      OldLinkNotMailed(env, evs, plain);
    } else if Holds(Pending(env, before, v), plain) {
      PendingIsDrawn(env, before, v);
      OldLinkNotMailed(env, evs, plain);
    }
  }

  // ----- main results -----

  /** Both ways, for every run: a reset succeeds for a user exactly when the link is that user's pending
      one, less than an hour old, and the account is active; otherwise it is refused. */
  lemma {:induction false} ResetVerdict(env: Env, evs: seq<Event>, now: int, plain: string, passwordHash: string,
                                        u: nat)
    requires ValidRun(evs)
    ensures var answer := Step(env, After(env, evs), Event(now, Reset(plain, passwordHash))).1;
            var t := Pending(env, evs, u);
            && (answer == PasswordReset(u)
                <==> Holds(t, plain) && now < t.value.mailedAt + HOUR && ActiveOf(env, evs, u))
            && (answer.PasswordReset? || answer == Failed(InvalidOrExpiredResetToken))
  {
    TableStoresPending(env, evs, u);
    RowTold(env, evs, u);
    var found := FindReset(After(env, evs).users, Sha256(plain), now);
    if found.Some? {
      TableStoresPending(env, evs, found.value);
      if u != found.value {
        OneHolder(env, evs, found.value, u, plain);
      }
    }
  }

  lemma {:induction false} NeverHeldAgain(env: Env, evs: seq<Event>, n: nat, plain: string, u: nat)
    requires ValidRun(evs) && n <= |evs| && Drawn(evs[..n], plain) && !Holds(Pending(env, evs[..n], u), plain)
    ensures !Holds(Pending(env, evs, u), plain)
    decreases |evs|
  {
    if n == |evs| {
      assert evs[..n] == evs;
    } else {
      var before := evs[..|evs| - 1];
      assert before[..n] == evs[..n] && evs[..n] + before[n..] == before;
      ValidPrefix(evs, |evs| - 1);
      NeverHeldAgain(env, before, n, plain, u);
      DrawnGrows(evs[..n], before[n..], plain);
      OldLinkNotMailed(env, evs, plain);
    }
  }

  /** Right after it has worked, a link is nobody's pending one. */
  lemma {:induction false} UsedLinkGone(env: Env, evs: seq<Event>, i: nat, v: nat)
    requires ValidRun(evs) && i < |evs| && evs[i].op.Reset? && Answer(env, evs, i).PasswordReset?
    ensures Drawn(evs[..i + 1], evs[i].op.plain) && !Holds(Pending(env, evs[..i + 1], v), evs[i].op.plain)
  {
    var plain, u := evs[i].op.plain, Answer(env, evs, i).userId;
    var before, upTo := evs[..i], evs[..i + 1];
    assert upTo[..i] == before && upTo[i] == evs[i] && before + [evs[i]] == upTo;
    ValidPrefix(evs, i);
    ResetVerdict(env, before, evs[i].now, plain, evs[i].op.passwordHash, u);
    PendingIsDrawn(env, before, u);
    DrawnGrows(before, [evs[i]], plain);
    if v != u {
      OneHolder(env, before, u, v, plain);
    }
  }

  /** Each link resets a password at most once: after a success every later use of it is refused. */
  lemma {:induction false} ResetOnce(env: Env, evs: seq<Event>, i: nat, j: nat)
    requires ValidRun(evs) && i < j < |evs|
    requires evs[i].op.Reset? && evs[j].op.Reset? && evs[i].op.plain == evs[j].op.plain
    requires Answer(env, evs, i).PasswordReset?
    ensures Answer(env, evs, j) == Failed(InvalidOrExpiredResetToken)
  {
    var plain, again := evs[i].op.plain, Answer(env, evs, j);
    var v := if again.PasswordReset? then again.userId else 0;
    assert evs[..j][..i + 1] == evs[..i + 1];
    ValidPrefix(evs, j);
    UsedLinkGone(env, evs, i, v);
    NeverHeldAgain(env, evs[..j], i + 1, plain, v);
    ResetVerdict(env, evs[..j], evs[j].now, plain, evs[j].op.passwordHash, v);
  }
}
