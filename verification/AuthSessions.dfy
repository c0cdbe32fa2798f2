/**
 Sessions when refreshes are interleaved with other requests: when a logout really ends a session, and when the
 count of sessions is conserved.
 */
module AuthSessions {
  import opened Options
  import opened Auth
  import opened AuthTokens
  import opened AuthOverlap

  /** A logout with a token that has a row. */
  predicate LogsOut(s: System, a: Action, plain: string) {
    a.Serve? && a.e.op == Logout(Some(plain)) && plain != "" && FindToken(s.db.tokens, Sha256(plain)).Some?
  }

  lemma LogoutRevokes(env: Env, s: System, a: Action, plain: string)
    requires LogsOut(s, a, plain)
    ensures Revoked(Act(env, s, a).0, plain)
  {
    FoundStays(env, s, a, Sha256(plain));
    TokensMove(env, s.db, a.e);
  }

  /** After a logout its token yields another one if and only if a refresh had read the row before and writes
      next; so a logout ends the session exactly when it does not fall between the two. */
  lemma {:induction false} ExchangedAfterLogoutIff(env: Env, acts: seq<Action>, i: nat, j: nat, plain: string)
    requires i < j < |acts| && LogsOut(AfterActs(env, acts[..i]), acts[i], plain)
    ensures Exchanges(env, acts, j, plain) <==> Overlaps(env, acts, i, j, plain)
  {
    LogoutRevokes(env, AfterActs(env, acts[..i]), acts[i], plain);
    NextAfter(env, acts, i);
    RevokedExchangedIff(env, acts, i, j, plain);
  }

  /** One session more for a user: a successful register or login. */
  predicate StartsSession(env: Env, s: System, a: Action, u: nat) {
    && a.Serve? && (a.e.op.Register? || a.e.op.Login?)
    && var answer := Act(env, s, a).1;
       answer.Issued? && answer.userId == u
  }

  /** One session less: a logout that revokes a row of the user. */
  predicate EndsOne(s: System, a: Action, u: nat) {
    && a.Serve? && Effective(s.db, a.e)
    && s.db.tokens[FindToken(s.db.tokens, Sha256(a.e.op.presented.value)).value].userId == u
  }

  /** A Write to a row of the user that was revoked after it had been read. */
  predicate Late(s: System, a: Action, u: nat) {
    && a.Write? && a.worker in s.held && s.held[a.worker].row < |s.db.tokens|
    && s.db.tokens[s.held[a.worker].row].userId == u && s.db.tokens[s.held[a.worker].row].revokedAt.Some?
  }

  function Sessions(env: Env, acts: seq<Action>, u: nat): int {
    if |acts| == 0 then 0
    else
      var s, a := AfterActs(env, acts[..|acts| - 1]), acts[|acts| - 1];
      Sessions(env, acts[..|acts| - 1], u)
      + (if StartsSession(env, s, a, u) then 1 else 0) - (if EndsOne(s, a, u) then 1 else 0)
  }

  function LateWrites(env: Env, acts: seq<Action>, u: nat): nat {
    if |acts| == 0 then 0
    else
      LateWrites(env, acts[..|acts| - 1], u)
      + if Late(AfterActs(env, acts[..|acts| - 1]), acts[|acts| - 1], u) then 1 else 0
  }

  lemma ServedRows(env: Env, s: System, a: Action, u: nat)
    requires a.Serve?
    ensures LiveRows(Act(env, s, a).0.db.tokens, u)
         == LiveRows(s.db.tokens, u)
            + (if StartsSession(env, s, a, u) then 1 else 0) - (if EndsOne(s, a, u) then 1 else 0)
  {
    TokensMove(env, s.db, a.e);
    LiveRowsChanged(s.db.tokens, ChangeOf(env, s.db, a.e), u);
  }

  lemma WrittenRows(env: Env, s: System, a: Action, u: nat)
    requires a.Write?
    ensures LiveRows(Act(env, s, a).0.db.tokens, u) == LiveRows(s.db.tokens, u) + if Late(s, a, u) then 1 else 0
  {
    if a.worker in s.held && s.held[a.worker].row < |s.db.tokens| {
      var i := s.held[a.worker].row;
      var mid := Updated(s.db.tokens, i, a.now, a.drawn);
      LiveRowsUpdated(s.db.tokens, i, mid[i], u);
      LiveRowsAppended(mid, TokenRow(mid[i].userId, Sha256(a.drawn), a.now + env.refreshTtl, None, None), u);
    }
  }

  /** Conservation under interleaving: for every user, the unrevoked rows number the sessions started, less the
      sessions ended, plus one for each Write that came after its row had been revoked. */
  lemma {:induction false} SessionsAccounted(env: Env, acts: seq<Action>, u: nat)
    ensures LiveRows(AfterActs(env, acts).db.tokens, u) == Sessions(env, acts, u) + LateWrites(env, acts, u)
  {
    if |acts| > 0 {
      var before, a := acts[..|acts| - 1], acts[|acts| - 1];
      SessionsAccounted(env, before, u);
      match a {
        case Serve(_) => ServedRows(env, AfterActs(env, before), a, u);
        case Read(_, _, _) =>
        case Write(_, _, _) => WrittenRows(env, AfterActs(env, before), a, u);
      }
    }
  }

  predicate LateAt(env: Env, acts: seq<Action>, k: nat, u: nat)
    requires k < |acts|
  {
    Late(AfterActs(env, acts[..k]), acts[k], u)
  }

  lemma {:induction false} LateIsCounted(env: Env, acts: seq<Action>, k: nat, u: nat)
    requires k < |acts| && LateAt(env, acts, k, u)
    ensures LateWrites(env, acts, u) > 0
  {
    var n := |acts| - 1;
    if k < n {
      assert acts[..n][..k] == acts[..k];
      LateIsCounted(env, acts[..n], k, u);
    }
  }

  lemma {:induction false} CountedIsLate(env: Env, acts: seq<Action>, u: nat) returns (k: nat)
    requires LateWrites(env, acts, u) > 0
    ensures k < |acts| && LateAt(env, acts, k, u)
  {
    var n := |acts| - 1;
    if LateWrites(env, acts[..n], u) > 0 {
      k := CountedIsLate(env, acts[..n], u);
      assert acts[..n][..k] == acts[..k];
    } else {
      k := n;
    }
  }

  /** An exchange of the token, or a logout with it. */
  predicate Spends(env: Env, s: System, a: Action, plain: string) {
    Exchanging(env, s, a, plain) || LogsOut(s, a, plain)
  }

  lemma ServedRowUnrevoked(env: Env, s: System, a: Action, plain: string)
    requires a.Serve? && FindToken(s.db.tokens, Sha256(plain)).None?
    ensures !Revoked(Act(env, s, a).0, plain)
  {
    TokensMove(env, s.db, a.e);
    FindChanged(s.db.tokens, ChangeOf(env, s.db, a.e), Sha256(plain));
  }

  lemma WrittenRowUnrevoked(env: Env, s: System, a: Action, plain: string)
    requires a.Write? && FindToken(s.db.tokens, Sha256(plain)).None?
    ensures !Revoked(Act(env, s, a).0, plain)
  {
    if a.worker in s.held && s.held[a.worker].row < |s.db.tokens| {
      var i, h := s.held[a.worker].row, Sha256(plain);
      var mid := Updated(s.db.tokens, i, a.now, a.drawn);
      FindUpdated(s.db.tokens, i, mid[i], h);
      FindAppended(mid, TokenRow(mid[i].userId, Sha256(a.drawn), a.now + env.refreshTtl, None, None), h);
    }
  }

  lemma NewRowUnrevoked(env: Env, s: System, a: Action, plain: string)
    requires FindToken(s.db.tokens, Sha256(plain)).None?
    ensures !Revoked(Act(env, s, a).0, plain)
  {
    match a {
      case Serve(_) => ServedRowUnrevoked(env, s, a, plain);
      case Read(_, _, _) =>
      case Write(_, _, _) => WrittenRowUnrevoked(env, s, a, plain);
    }
  }

  lemma SpendingRevokes(env: Env, s: System, a: Action, plain: string)
    requires HeldRowsFound(s) && Spends(env, s, a, plain)
    ensures Revoked(Act(env, s, a).0, plain)
  {
    if LogsOut(s, a, plain) {
      LogoutRevokes(env, s, a, plain);
    } else {
      ExchangeRevokes(env, s, a, plain);
    }
  }

  lemma OnlySpendingRevokes(env: Env, s: System, a: Action, plain: string)
    requires HeldRowsFound(s) && !Revoked(s, plain) && Revoked(Act(env, s, a).0, plain)
    ensures Spends(env, s, a, plain)
  {
    var h := Sha256(plain);
    if FindToken(s.db.tokens, h).Some? {
      FoundStays(env, s, a, h);
      if a.Serve? {
        TokensMove(env, s.db, a.e);
      }
    } else {
      NewRowUnrevoked(env, s, a, plain);
    }
  }

  lemma {:induction false} FirstRevoked(env: Env, acts: seq<Action>, k: nat, plain: string) returns (i: nat)
    requires k <= |acts| && Revoked(AfterActs(env, acts[..k]), plain)
    ensures i < k && !Revoked(AfterActs(env, acts[..i]), plain) && Revoked(AfterActs(env, acts[..i + 1]), plain)
    decreases k
  {
    if Revoked(AfterActs(env, acts[..k - 1]), plain) {
      i := FirstRevoked(env, acts, k - 1, plain);
    } else {
      i := k - 1;
    }
  }

  /** Between the Read and the Write of the refresh that action k completes, action i spends the token. */
  predicate SpentBetween(env: Env, acts: seq<Action>, i: nat, k: nat, u: nat)
    requires i < k < |acts|
  {
    && acts[k].Write? && acts[k].worker in AfterActs(env, acts[..k]).held
    && var s := AfterActs(env, acts[..k]);
       var held := s.held[acts[k].worker];
       && held.row < |s.db.tokens| && s.db.tokens[held.row].userId == u
       && Spends(env, AfterActs(env, acts[..i]), acts[i], held.plain)
       && Overlaps(env, acts, i, k, held.plain)
  }

  lemma LateWhenSpent(env: Env, acts: seq<Action>, i: nat, k: nat, u: nat)
    requires i < k < |acts| && SpentBetween(env, acts, i, k, u)
    ensures LateAt(env, acts, k, u)
  {
    var plain := AfterActs(env, acts[..k]).held[acts[k].worker].plain;
    HeldRowsKept(env, acts[..i]);
    HeldRowsKept(env, acts[..k]);
    NextAfter(env, acts, i);
    SpendingRevokes(env, AfterActs(env, acts[..i]), acts[i], plain);
    RevokedForGood(env, acts, i + 1, k, plain);
  }

  lemma SpentWhenLate(env: Env, acts: seq<Action>, k: nat, u: nat) returns (i: nat)
    requires k < |acts| && LateAt(env, acts, k, u)
    ensures i < k && SpentBetween(env, acts, i, k, u)
  {
    var w := acts[k].worker;
    var plain := AfterActs(env, acts[..k]).held[w].plain;
    HeldRowsKept(env, acts[..k]);
    i := FirstRevoked(env, acts, k, plain);
    HeldRowsKept(env, acts[..i]);
    NextAfter(env, acts, i);
    OnlySpendingRevokes(env, AfterActs(env, acts[..i]), acts[i], plain);
    HeldAllAlong(env, acts, i + 1, k, w, plain);
  }

  /** No token of the user is exchanged, or logged out with, between another refresh's Read and Write of it. */
  ghost predicate NoneBetween(env: Env, acts: seq<Action>, u: nat) {
    forall i: nat, k: nat {:trigger SpentBetween(env, acts, i, k, u)} ::
      i < k < |acts| ==> !SpentBetween(env, acts, i, k, u)
  }

  /** Conservation, exactly: over every interleaving a user's unrevoked rows number the sessions started less
      the sessions ended if and only if no token of the user is spent between a Read and a Write of it. */
  lemma {:induction false} SessionsConservedIff(env: Env, acts: seq<Action>, u: nat)
    ensures LiveRows(AfterActs(env, acts).db.tokens, u) == Sessions(env, acts, u) <==> NoneBetween(env, acts, u)
  {
    SessionsAccounted(env, acts, u);
    if LateWrites(env, acts, u) > 0 {
      var k := CountedIsLate(env, acts, u);
      var i := SpentWhenLate(env, acts, k, u);
    }
    forall i: nat, k: nat | i < k < |acts| && SpentBetween(env, acts, i, k, u) ensures LateWrites(env, acts, u) > 0 {
      LateWhenSpent(env, acts, i, k, u);
      LateIsCounted(env, acts, k, u);
    }
  }

  /** It can fail: a logout between the Read and the Write of a refresh leaves the session alive. */
  lemma {:induction false} LogoutOvertaken(env: Env, e: Event, out: Event, plain: string, acts: seq<Action>)
    requires env.refreshTtl > 0 && e.op == Register("user", "hash", plain) && plain != "" && |acts| == 4
    requires acts[0] == Serve(e) && acts[1] == Read(0, e.now, plain)
    requires acts[2] == Serve(out) && out.op == Logout(Some(plain)) && acts[3].Write? && acts[3].worker == 0
    ensures LogsOut(AfterActs(env, acts[..2]), acts[2], plain) && Exchanges(env, acts, 3, plain)
  {
    assert acts[..0] == [];
    NextAfter(env, acts, 0);
    RegisterNew(env, e, plain);
    NextAfter(env, acts, 1);
    ReadNew(env, map[], 0, e.now, plain);
    HeldRowsKept(env, acts[..2]);
    NextAfter(env, acts, 2);
    HeldAfter(env, AfterActs(env, acts[..2]), acts[2], 0, plain);
    ExchangedAfterLogoutIff(env, acts, 2, 3, plain);
  }
}
