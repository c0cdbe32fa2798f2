/**
 Refreshes that overlap. A refresh reads its row in one statement and updates and inserts in later ones, and
 the update does not look at `revoked_at` again; so two refreshes of one token can both go through. This
 happens exactly when both have read the row before either has written it.
 */
module AuthOverlap {
  import opened Options
  import opened Auth
  import opened AuthTokens

  /** Read is the SELECT of a refresh with its checks; Write is the UPDATE and INSERT of the refresh that the
      worker has read for. Serve is any other request, served without interruption. */
  datatype Action =
    | Serve(e: Event)
    | Read(worker: nat, now: int, plain: string)
    | Write(worker: nat, now: int, drawn: string)

  /** What a worker remembers between its Read and its Write. */
  datatype Held = Held(row: nat, plain: string)

  datatype System = System(db: Db, held: map<nat, Held>)

  datatype Verdict = Passed(row: nat) | Refused(error: Error)

  function Checked(db: Db, now: int, plain: string): Verdict {
    match FindToken(db.tokens, Sha256(plain))
    case None => Refused(RefreshTokenInvalid)
    case Some(i) =>
      var row := db.tokens[i];
      if row.userId >= |db.users| then Refused(RefreshTokenInvalid)
      else if row.revokedAt.Some? then Refused(RefreshTokenRevoked)
      else if row.expiresAt <= now then Refused(RefreshTokenExpired)
      else if !db.users[row.userId].active then Refused(AccountDisabled)
      else Passed(i)
  }

  /** UPDATE ... WHERE refresh_token_id = row, whether the row is revoked by now or not. */
  function Updated(tokens: seq<TokenRow>, row: nat, now: int, drawn: string): seq<TokenRow>
    requires row < |tokens|
  {
    tokens[row := tokens[row].(revokedAt := Some(now), replacedBy := Some(Sha256(drawn)))]
  }

  function Rotated(env: Env, db: Db, row: nat, now: int, drawn: string): Db
    requires row < |db.tokens|
  {
    IssueTokens(env, db.(tokens := Updated(db.tokens, row, now, drawn)), db.tokens[row].userId, now, drawn)
  }

  function Act(env: Env, s: System, a: Action): (System, Response) {
    match a
    case Serve(e) =>
      var (db, answer) := Step(env, s.db, e);
      (s.(db := db), answer)
    case Read(w, now, plain) =>
      (match Checked(s.db, now, plain)
       case Passed(i) => (s.(held := s.held[w := Held(i, plain)]), Quiet)
       case Refused(error) => (s.(held := s.held - {w}), Failed(error)))
    case Write(w, now, drawn) =>
      if w in s.held && s.held[w].row < |s.db.tokens| then
        (System(Rotated(env, s.db, s.held[w].row, now, drawn), s.held - {w}),
         Issued(s.db.tokens[s.held[w].row].userId, drawn))
      else
        (s.(held := s.held - {w}), Quiet)
  }

  /** A refresh served without interruption is its Read followed at once by its Write. */
  lemma {:induction false} RefreshIsReadThenWrite(env: Env, s: System, w: nat, now: int, plain: string, drawn: string)
    ensures var (db, answer) := Step(env, s.db, Event(now, Refresh(plain, drawn)));
            var (read, error) := Act(env, s, Read(w, now, plain));
            if answer.Issued? then Act(env, read, Write(w, now, drawn)) == (System(db, s.held - {w}), answer)
            else read.db == db && error == answer && Act(env, read, Write(w, now, drawn)) == (read, Quiet)
  {
    if Checked(s.db, now, plain).Passed? {
      var i := Checked(s.db, now, plain).row;
      assert s.held[w := Held(i, plain)] - {w} == s.held - {w};
    } else {
      assert s.held - {w} - {w} == s.held - {w};
    }
  }

  function AfterActs(env: Env, acts: seq<Action>): System {
    if |acts| == 0 then System(EMPTY, map[]) else Act(env, AfterActs(env, acts[..|acts| - 1]), acts[|acts| - 1]).0
  }

  /** Worker w has read the row of this token, found it in order, and not written yet. */
  predicate Holds(s: System, w: nat, plain: string) {
    w in s.held && s.held[w].plain == plain
  }

  /** The action exchanges this token for a new one. */
  predicate Exchanging(env: Env, s: System, a: Action, plain: string) {
    && Act(env, s, a).1.Issued?
    && match a
       case Serve(e) => e.op.Refresh? && e.op.plain == plain
       case Read(_, _, _) => false
       case Write(w, _, _) => Holds(s, w, plain)
  }

  predicate Exchanges(env: Env, acts: seq<Action>, k: nat, plain: string)
    requires k < |acts|
  {
    Exchanging(env, AfterActs(env, acts[..k]), acts[k], plain)
  }

  // ----- rows under interleaving -----

  ghost predicate HeldRowsFound(s: System) {
    forall w :: w in s.held ==> FindToken(s.db.tokens, Sha256(s.held[w].plain)) == Some(s.held[w].row)
  }

  /** The token has a row, and it is revoked. */
  predicate Revoked(s: System, plain: string) {
    var i := FindToken(s.db.tokens, Sha256(plain));
    i.Some? && s.db.tokens[i.value].revokedAt.Some?
  }

  lemma FoundStays(env: Env, s: System, a: Action, h: Digest)
    requires FindToken(s.db.tokens, h).Some?
    ensures FindToken(Act(env, s, a).0.db.tokens, h) == FindToken(s.db.tokens, h)
  {
    match a {
      case Serve(e) =>
        TokensMove(env, s.db, e);
        FindChanged(s.db.tokens, ChangeOf(env, s.db, e), h);
      case Read(_, _, _) =>
      case Write(w, now, drawn) =>
        if w in s.held && s.held[w].row < |s.db.tokens| {
          var i, mid := s.held[w].row, Updated(s.db.tokens, s.held[w].row, now, drawn);
          FindUpdated(s.db.tokens, i, mid[i], h);
          FindAppended(mid, TokenRow(mid[i].userId, Sha256(drawn), now + env.refreshTtl, None, None), h);
        }
    }
  }

  lemma ChangeKeepsRevoked(tokens: seq<TokenRow>, c: Change, i: nat)
    requires Fits(tokens, c) && i < |tokens| && tokens[i].revokedAt.Some?
    ensures i < |Apply(tokens, c)| && Apply(tokens, c)[i].revokedAt.Some?
  {
  }

  lemma ServedStaysRevoked(env: Env, s: System, e: Event, i: nat)
    requires i < |s.db.tokens| && s.db.tokens[i].revokedAt.Some?
    ensures var tokens := Act(env, s, Serve(e)).0.db.tokens; i < |tokens| && tokens[i].revokedAt.Some?
  {
    TokensMove(env, s.db, e);
    ChangeKeepsRevoked(s.db.tokens, ChangeOf(env, s.db, e), i);
  }

  lemma RevokedStays(env: Env, s: System, a: Action, plain: string)
    requires Revoked(s, plain)
    ensures Revoked(Act(env, s, a).0, plain)
  {
    FoundStays(env, s, a, Sha256(plain));
    if a.Serve? {
      ServedStaysRevoked(env, s, a.e, FindToken(s.db.tokens, Sha256(plain)).value);
    }
  }

  lemma {:induction false} HeldRowsKept(env: Env, acts: seq<Action>)
    ensures HeldRowsFound(AfterActs(env, acts))
  {
    if |acts| > 0 {
      var s, a := AfterActs(env, acts[..|acts| - 1]), acts[|acts| - 1];
      HeldRowsKept(env, acts[..|acts| - 1]);
      var s' := AfterActs(env, acts);
      forall w | w in s'.held ensures FindToken(s'.db.tokens, Sha256(s'.held[w].plain)) == Some(s'.held[w].row) {
        if w in s.held && s'.held[w] == s.held[w] {
          FoundStays(env, s, a, Sha256(s.held[w].plain));
        }
      }
    }
  }

  /** A Write that follows a passed Read always goes through. */
  lemma WriteExchanges(env: Env, s: System, a: Action, plain: string)
    requires HeldRowsFound(s) && a.Write? && Holds(s, a.worker, plain)
    ensures Exchanging(env, s, a, plain)
  {
  }

  lemma ExchangeRevokes(env: Env, s: System, a: Action, plain: string)
    requires HeldRowsFound(s) && Exchanging(env, s, a, plain)
    ensures Revoked(Act(env, s, a).0, plain)
  {
    FoundStays(env, s, a, Sha256(plain));
  }

  /** Once revoked, a token is exchanged only by who has read it before. */
  lemma RevokedRefused(env: Env, s: System, a: Action, plain: string)
    requires Revoked(s, plain) && Exchanging(env, s, a, plain)
    ensures a.Write? && Holds(s, a.worker, plain)
  {
  }

  lemma NextAfter(env: Env, acts: seq<Action>, k: nat)
    requires k < |acts|
    ensures AfterActs(env, acts[..k + 1]) == Act(env, AfterActs(env, acts[..k]), acts[k]).0
  {
    assert acts[..k + 1][..k] == acts[..k];
  }

  lemma {:induction false} RevokedForGood(env: Env, acts: seq<Action>, i: nat, j: nat, plain: string)
    requires i <= j <= |acts| && Revoked(AfterActs(env, acts[..i]), plain)
    ensures Revoked(AfterActs(env, acts[..j]), plain)
    decreases j
  {
    if i < j {
      RevokedForGood(env, acts, i, j - 1, plain);
      NextAfter(env, acts, j - 1);
      RevokedStays(env, AfterActs(env, acts[..j - 1]), acts[j - 1], plain);
    }
  }

  /** The action is one of the worker's. */
  predicate Of(a: Action, w: nat) {
    !a.Serve? && a.worker == w
  }

  predicate Untouched(acts: seq<Action>, i: nat, j: nat, w: nat)
    requires j <= |acts|
  {
    forall k :: i <= k < j ==> !Of(acts[k], w)
  }

  lemma HeldBefore(env: Env, s: System, a: Action, w: nat, plain: string)
    requires Revoked(s, plain) && Holds(Act(env, s, a).0, w, plain)
    ensures Holds(s, w, plain) && !Of(a, w)
  {
  }

  lemma HeldAfter(env: Env, s: System, a: Action, w: nat, plain: string)
    requires Holds(s, w, plain) && !Of(a, w)
    ensures Holds(Act(env, s, a).0, w, plain)
  {
  }

  lemma LastHeld(env: Env, acts: seq<Action>, j: nat, w: nat, plain: string)
    requires j < |acts| && Revoked(AfterActs(env, acts[..j]), plain) && Holds(AfterActs(env, acts[..j + 1]), w, plain)
    ensures Holds(AfterActs(env, acts[..j]), w, plain) && !Of(acts[j], w)
  {
    NextAfter(env, acts, j);
    HeldBefore(env, AfterActs(env, acts[..j]), acts[j], w, plain);
  }

  lemma HeldStep(env: Env, acts: seq<Action>, i: nat, k: nat, w: nat, plain: string)
    requires i <= k < |acts| && Revoked(AfterActs(env, acts[..i]), plain)
    requires Holds(AfterActs(env, acts[..k + 1]), w, plain)
    ensures Holds(AfterActs(env, acts[..k]), w, plain) && !Of(acts[k], w)
  {
    RevokedForGood(env, acts, i, k, plain);
    LastHeld(env, acts, k, w, plain);
  }

  lemma {:induction false} BackToStart(holds: seq<bool>, acted: seq<bool>, i: nat, j: nat)
    requires i <= j < |holds| == |acted| + 1 && holds[j]
    requires forall k :: i <= k < j ==> holds[k + 1] ==> holds[k] && !acted[k]
    ensures holds[i] && forall k :: i <= k < j ==> !acted[k]
    decreases j
  {
    if i < j {
      BackToStart(holds, acted, i, j - 1);
    }
  }

  predicate HeldAt(env: Env, acts: seq<Action>, k: int, w: nat, plain: string)
    requires 0 <= k <= |acts|
  {
    Holds(AfterActs(env, acts[..k]), w, plain)
  }

  function HoldMarks(env: Env, acts: seq<Action>, w: nat, plain: string): (marks: seq<bool>)
    ensures |marks| == |acts| + 1
    ensures forall k :: 0 <= k <= |acts| ==> marks[k] == HeldAt(env, acts, k, w, plain)
  {
    seq(|acts| + 1, k requires 0 <= k <= |acts| => HeldAt(env, acts, k, w, plain))
  }

  function ActMarks(acts: seq<Action>, w: nat): (marks: seq<bool>)
    ensures |marks| == |acts|
  {
    seq(|acts|, k requires 0 <= k < |acts| => Of(acts[k], w))
  }

  lemma MarkedStep(env: Env, acts: seq<Action>, i: nat, k: nat, w: nat, plain: string, next: bool, held: bool)
    requires i <= k < |acts| && Revoked(AfterActs(env, acts[..i]), plain)
    requires next == HeldAt(env, acts, k + 1, w, plain) && held == HeldAt(env, acts, k, w, plain)
    ensures next ==> held && !Of(acts[k], w)
  {
    if next {
      HeldStep(env, acts, i, k, w, plain);
    }
  }

  lemma MarkedBack(env: Env, acts: seq<Action>, i: nat, j: nat, w: nat, plain: string,
                   holds: seq<bool>, acted: seq<bool>)
    requires i <= j <= |acts| && Revoked(AfterActs(env, acts[..i]), plain)
    requires holds == HoldMarks(env, acts, w, plain) && acted == ActMarks(acts, w) && holds[j]
    ensures holds[i] && forall k :: i <= k < j ==> !acted[k]
  {
    forall k | i <= k < j && holds[k + 1] ensures holds[k] && !acted[k] {
      MarkedStep(env, acts, i, k, w, plain, holds[k + 1], holds[k]);
    }
    BackToStart(holds, acted, i, j);
  }

  /** A revoked token is never read with success again: who holds it has held it all along. */
  lemma {:induction false} HeldAllAlong(env: Env, acts: seq<Action>, i: nat, j: nat, w: nat, plain: string)
    requires i <= j <= |acts| && Revoked(AfterActs(env, acts[..i]), plain) && Holds(AfterActs(env, acts[..j]), w, plain)
    ensures Holds(AfterActs(env, acts[..i]), w, plain) && Untouched(acts, i, j, w)
  {
    var acted := ActMarks(acts, w);
    MarkedBack(env, acts, i, j, w, plain, HoldMarks(env, acts, w, plain), acted);
    forall k | i <= k < j ensures !Of(acts[k], w) {
      assert !acted[k];
    }
  }

  lemma {:induction false} HeldOn(env: Env, acts: seq<Action>, i: nat, j: nat, w: nat, plain: string)
    requires i <= j <= |acts| && Holds(AfterActs(env, acts[..i]), w, plain) && Untouched(acts, i, j, w)
    ensures Holds(AfterActs(env, acts[..j]), w, plain)
    decreases j
  {
    if i < j {
      HeldOn(env, acts, i, j - 1, w, plain);
      NextAfter(env, acts, j - 1);
      HeldAfter(env, AfterActs(env, acts[..j - 1]), acts[j - 1], w, plain);
    }
  }

  // ----- main results -----

  /** Worker w has read the token before action i exchanges it, and does nothing more until action j. */
  predicate Overlaps(env: Env, acts: seq<Action>, i: nat, j: nat, plain: string)
    requires i < j < |acts|
  {
    && acts[j].Write?
    && Holds(AfterActs(env, acts[..i + 1]), acts[j].worker, plain)
    && Untouched(acts, i + 1, j, acts[j].worker)
  }

  /** Once a token is revoked, a later action exchanges it if and only if it is the Write of a refresh that has
      read the row before. */
  lemma {:induction false} RevokedExchangedIff(env: Env, acts: seq<Action>, i: nat, j: nat, plain: string)
    requires i < j < |acts| && Revoked(AfterActs(env, acts[..i + 1]), plain)
    ensures Exchanges(env, acts, j, plain) <==> Overlaps(env, acts, i, j, plain)
  {
    if Exchanges(env, acts, j, plain) {
      RevokedForGood(env, acts, i + 1, j, plain);
      RevokedRefused(env, AfterActs(env, acts[..j]), acts[j], plain);
      HeldAllAlong(env, acts, i + 1, j, acts[j].worker, plain);
    }
    if Overlaps(env, acts, i, j, plain) {
      HeldOn(env, acts, i + 1, j, acts[j].worker, plain);
      HeldRowsKept(env, acts[..j]);
      WriteExchanges(env, AfterActs(env, acts[..j]), acts[j], plain);
    }
  }

  /** After one exchange of a token, a later action exchanges it again if and only if the two refreshes overlap:
      the second has read the row before the first wrote it, and writes next. */
  lemma {:induction false} ExchangedAgainIff(env: Env, acts: seq<Action>, i: nat, j: nat, plain: string)
    requires i < j < |acts| && Exchanges(env, acts, i, plain)
    ensures Exchanges(env, acts, j, plain) <==> Overlaps(env, acts, i, j, plain)
  {
    HeldRowsKept(env, acts[..i]);
    ExchangeRevokes(env, AfterActs(env, acts[..i]), acts[i], plain);
    NextAfter(env, acts, i);
    RevokedExchangedIff(env, acts, i, j, plain);
  }

  /** No token is exchanged twice. */
  ghost predicate SingleUse(env: Env, acts: seq<Action>) {
    forall i, j, plain {:trigger Exchanges(env, acts, i, plain), Exchanges(env, acts, j, plain)} ::
      0 <= i < j < |acts| && Exchanges(env, acts, i, plain) ==> !Exchanges(env, acts, j, plain)
  }

  /** No exchange falls between another refresh's Read and Write of the same token. */
  ghost predicate NoOverlap(env: Env, acts: seq<Action>) {
    forall i, j, plain {:trigger Exchanges(env, acts, i, plain), Overlaps(env, acts, i, j, plain)} ::
      0 <= i < j < |acts| && Exchanges(env, acts, i, plain) ==> !Overlaps(env, acts, i, j, plain)
  }

  /** Single use, exactly, over every interleaving of requests and of the two halves of refreshes. */
  lemma {:induction false} SingleUseIff(env: Env, acts: seq<Action>)
    ensures SingleUse(env, acts) <==> NoOverlap(env, acts)
  {
    forall i, j, plain | 0 <= i < j < |acts| && Exchanges(env, acts, i, plain)
      ensures Exchanges(env, acts, j, plain) <==> Overlaps(env, acts, i, j, plain)
    {
      ExchangedAgainIff(env, acts, i, j, plain);
    }
  }

  lemma Doubled(env: Env, acts: seq<Action>, i: nat, j: nat, plain: string)
    requires i < j < |acts| && Exchanges(env, acts, i, plain) && Exchanges(env, acts, j, plain)
    ensures !SingleUse(env, acts)
  {
  }

  function NewUser(env: Env, now: int, plain: string): Db {
    Db([User("user", "hash", true, None, None, None)], [TokenRow(0, Sha256(plain), now + env.refreshTtl, None, None)])
  }

  lemma RegisterNew(env: Env, e: Event, plain: string)
    requires e.op == Register("user", "hash", plain)
    ensures Act(env, System(EMPTY, map[]), Serve(e)).0 == System(NewUser(env, e.now, plain), map[])
  {
  }

  lemma ReadNew(env: Env, held: map<nat, Held>, w: nat, now: int, plain: string)
    requires env.refreshTtl > 0
    ensures Act(env, System(NewUser(env, now, plain), held), Read(w, now, plain)).0
         == System(NewUser(env, now, plain), held[w := Held(0, plain)])
  {
    var tokens := NewUser(env, now, plain).tokens;
    assert tokens[..0] == [];
    assert FindToken(tokens, Sha256(plain)) == Some(0);
  }

  /** It can fail: two refreshes of the first token of a new user both read before either writes. */
  lemma {:induction false} TwoForOne(env: Env, e: Event, plain: string, acts: seq<Action>)
    requires env.refreshTtl > 0 && e.op == Register("user", "hash", plain) && |acts| == 5
    requires acts[0] == Serve(e) && acts[1] == Read(0, e.now, plain) && acts[2] == Read(1, e.now, plain)
    requires acts[3].Write? && acts[3].worker == 0 && acts[4].Write? && acts[4].worker == 1
    ensures Exchanges(env, acts, 3, plain) && Exchanges(env, acts, 4, plain) && !SingleUse(env, acts)
  {
    assert acts[..0] == [];
    NextAfter(env, acts, 0);
    RegisterNew(env, e, plain);
    NextAfter(env, acts, 1);
    ReadNew(env, map[], 0, e.now, plain);
    NextAfter(env, acts, 2);
    ReadNew(env, map[][0 := Held(0, plain)], 1, e.now, plain);
    HeldRowsKept(env, acts[..3]);
    WriteExchanges(env, AfterActs(env, acts[..3]), acts[3], plain);
    NextAfter(env, acts, 3);
    HeldAfter(env, AfterActs(env, acts[..3]), acts[3], 1, plain);
    assert Overlaps(env, acts, 3, 4, plain);
    ExchangedAgainIff(env, acts, 3, 4, plain);
    Doubled(env, acts, 3, 4, plain);
  }
}
