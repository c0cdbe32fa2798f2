/**
 Refresh tokens over whole serial runs: what a token is worth is decided by the requests and answers
 seen so far, it is spent once, and a user's live sessions are conserved.
 */
module AuthTokens {
  import opened Options
  import opened Auth
  import opened AuthUsers

  /** What the history says about one plain token. */
  datatype Status = Unissued | Usable(userId: nat, expiresAt: int) | Spent

  function NextStatus(env: Env, before: Status, e: Event, answer: Response, plain: string): Status {
    if answer.Issued? && answer.refresh == plain then Usable(answer.userId, e.now + env.refreshTtl)
    else if before.Usable? && e.op.Refresh? && e.op.plain == plain && answer.Issued? then Spent
    else if before.Usable? && e.op == Logout(Some(plain)) && plain != "" then Spent
    else before
  }

  /** Read off requests and answers alone: an answer that hands out the token makes it usable for its
      lifetime; a successful refresh with it, or a logout with it, spends it. */
  function StatusAfter(env: Env, evs: seq<Event>, plain: string): Status {
    if |evs| == 0 then Unissued
    else
      var n := |evs| - 1;
      var e, answer := evs[n], Answer(env, evs, n);
      NextStatus(env, StatusAfter(env, evs[..n], plain), e, answer, plain)
  }

  /** The row of a token, if it has one, agrees with a status. */
  predicate RowAgrees(tokens: seq<TokenRow>, plain: string, s: Status) {
    match FindToken(tokens, Sha256(plain))
    case None => s == Unissued
    case Some(i) =>
      if tokens[i].revokedAt.Some? then s == Spent else s == Usable(tokens[i].userId, tokens[i].expiresAt)
  }

  // ----- how the table moves -----

  lemma FindAppended(tokens: seq<TokenRow>, row: TokenRow, h: Digest)
    ensures FindToken(tokens + [row], h)
         == var r := FindToken(tokens, h); if r.None? && row.hash == h then Some(|tokens|) else r
  {
    assert (tokens + [row])[..|tokens|] == tokens;
  }

  lemma {:induction false} FindUpdated(tokens: seq<TokenRow>, i: nat, row: TokenRow, h: Digest)
    requires i < |tokens| && row.hash == tokens[i].hash
    ensures FindToken(tokens[i := row], h) == FindToken(tokens, h)
  {
    var n := |tokens| - 1;
    if i == n {
      assert tokens[i := row][..n] == tokens[..n];
    } else {
      assert tokens[i := row][..n] == tokens[..n][i := row];
      FindUpdated(tokens[..n], i, row, h);
    }
  }

  /** The hash column is a key: no two rows share a digest. */
  predicate DistinctHashes(tokens: seq<TokenRow>) {
    forall i, j :: 0 <= i < j < |tokens| ==> tokens[i].hash != tokens[j].hash
  }

  predicate KnownUsers(db: Db) {
    forall i :: 0 <= i < |db.tokens| ==> db.tokens[i].userId < |db.users|
  }

  ghost predicate TokensDrawn(db: Db, evs: seq<Event>) {
    forall i :: 0 <= i < |db.tokens| ==> Drawn(evs, db.tokens[i].hash.plain)
  }

  lemma DrawnGrows(evs: seq<Event>, more: seq<Event>, plain: string)
    requires Drawn(evs, plain)
    ensures Drawn(evs + more, plain)
  {
    var i :| 0 <= i < |evs| && Draw(evs[i].op) == Some(plain);
    assert (evs + more)[i] == evs[i];
  }

  lemma NotDrawnBefore(evs: seq<Event>, plain: string)
    requires ValidRun(evs) && |evs| > 0 && Draw(evs[|evs| - 1].op) == Some(plain)
    ensures !Drawn(evs[..|evs| - 1], plain)
  {
  }

  lemma ValidPrefix(evs: seq<Event>, n: nat)
    requires ValidRun(evs) && n <= |evs|
    ensures ValidRun(evs[..n])
  {
  }

  /** A step touches the token table in one of four ways. */
  datatype Change =
    | Same
    | Append(row: TokenRow)
    | Revoke(i: nat, at: int)
    | Rotate(i: nat, at: int, row: TokenRow)

  predicate Fits(tokens: seq<TokenRow>, c: Change) {
    c.Revoke? || c.Rotate? ==> c.i < |tokens| && tokens[c.i].revokedAt.None?
  }

  function Apply(tokens: seq<TokenRow>, c: Change): seq<TokenRow>
    requires Fits(tokens, c)
  {
    match c
    case Same => tokens
    case Append(row) => tokens + [row]
    case Revoke(i, at) => tokens[i := tokens[i].(revokedAt := Some(at))]
    case Rotate(i, at, row) => tokens[i := tokens[i].(revokedAt := Some(at), replacedBy := Some(row.hash))] + [row]
  }

  /** A logout that revokes something. */
  predicate Effective(db: Db, e: Event) {
    && e.op.Logout? && e.op.presented.Some? && e.op.presented.value != ""
    && var r := FindToken(db.tokens, Sha256(e.op.presented.value));
       r.Some? && db.tokens[r.value].revokedAt.None?
  }

  function ChangeOf(env: Env, db: Db, e: Event): Change {
    var r := Step(env, db, e).1;
    if r.Issued? then
      var row := TokenRow(r.userId, Sha256(r.refresh), e.now + env.refreshTtl, None, None);
      if e.op.Refresh? then Rotate(FindToken(db.tokens, Sha256(e.op.plain)).value, e.now, row) else Append(row)
    else if Effective(db, e) then
      Revoke(FindToken(db.tokens, Sha256(e.op.presented.value)).value, e.now)
    else
      Same
  }

  lemma TokensMove(env: Env, db: Db, e: Event)
    ensures var (db', r) := Step(env, db, e);
            var c := ChangeOf(env, db, e);
            && Fits(db.tokens, c) && db'.tokens == Apply(db.tokens, c) && |db'.users| >= |db.users|
            && (r.Issued? ==> Draw(e.op) == Some(r.refresh) && r.userId < |db'.users|)
            && (c.Rotate? ==> db.tokens[c.i].userId == r.userId && db.tokens[c.i].hash == Sha256(e.op.plain))
  {
  }

  lemma FindChanged(tokens: seq<TokenRow>, c: Change, h: Digest)
    requires Fits(tokens, c)
    ensures var r := FindToken(tokens, h);
            FindToken(Apply(tokens, c), h)
            == if (c.Append? || c.Rotate?) && r.None? && c.row.hash == h then Some(|tokens|) else r
  {
    match c {
      case Same =>
      case Append(row) => FindAppended(tokens, row, h);
      case Revoke(i, at) => FindUpdated(tokens, i, Apply(tokens, c)[i], h);
      case Rotate(i, at, row) =>
        var mid := tokens[i := tokens[i].(revokedAt := Some(at), replacedBy := Some(row.hash))];
        FindUpdated(tokens, i, mid[i], h);
        FindAppended(mid, row, h);
    }
  }

  predicate AllDigestsOther(tokens: seq<TokenRow>, h: Digest) {
    forall i :: 0 <= i < |tokens| ==> tokens[i].hash != h
  }

  lemma DistinctKept(tokens: seq<TokenRow>, c: Change)
    requires Fits(tokens, c) && DistinctHashes(tokens)
    requires c.Append? || c.Rotate? ==> AllDigestsOther(tokens, c.row.hash)
    ensures DistinctHashes(Apply(tokens, c))
  {
    var tokens' := Apply(tokens, c);
    assert forall i :: 0 <= i < |tokens| ==> tokens'[i].hash == tokens[i].hash;
  }

  lemma DrawnKept(tokens: seq<TokenRow>, c: Change, before: seq<Event>, e: Event)
    requires Fits(tokens, c)
    requires forall i :: 0 <= i < |tokens| ==> Drawn(before, tokens[i].hash.plain)
    requires c.Append? || c.Rotate? ==> Draw(e.op) == Some(c.row.hash.plain)
    ensures forall i :: 0 <= i < |Apply(tokens, c)| ==> Drawn(before + [e], Apply(tokens, c)[i].hash.plain)
  {
    forall i | 0 <= i < |Apply(tokens, c)| ensures Drawn(before + [e], Apply(tokens, c)[i].hash.plain) {
      if i < |tokens| {
        DrawnGrows(before, [e], tokens[i].hash.plain);
      } else {
        assert (before + [e])[|before|] == e;
      }
    }
  }

  lemma KnownDrawnStep(env: Env, before: seq<Event>, e: Event)
    requires KnownUsers(After(env, before)) && TokensDrawn(After(env, before), before)
    ensures var db := Step(env, After(env, before), e).0;
            KnownUsers(db) && TokensDrawn(db, before + [e])
  {
    var db := After(env, before);
    TokensMove(env, db, e);
    DrawnKept(db.tokens, ChangeOf(env, db, e), before, e);
  }

  lemma DistinctStep(env: Env, evs: seq<Event>, before: seq<Event>, e: Event)
    requires ValidRun(evs) && |evs| > 0 && before == evs[..|evs| - 1] && e == evs[|evs| - 1]
    requires DistinctHashes(After(env, before).tokens) && TokensDrawn(After(env, before), before)
    ensures DistinctHashes(Step(env, After(env, before), e).0.tokens)
  {
    var db := After(env, before);
    var c := ChangeOf(env, db, e);
    TokensMove(env, db, e);
    if c.Append? || c.Rotate? {
      NotDrawnBefore(evs, c.row.hash.plain);
      forall i | 0 <= i < |db.tokens| ensures db.tokens[i].hash != c.row.hash {
        assert Drawn(before, db.tokens[i].hash.plain);
      }
    }
    DistinctKept(db.tokens, c);
  }

  lemma {:induction false} TableInvariants(env: Env, evs: seq<Event>)
    requires ValidRun(evs)
    ensures var db := After(env, evs);
            DistinctHashes(db.tokens) && KnownUsers(db) && TokensDrawn(db, evs)
  {
    if |evs| > 0 {
      var before, e := evs[..|evs| - 1], evs[|evs| - 1];
      TableInvariants(env, before);
      assert before + [e] == evs;
      KnownDrawnStep(env, before, e);
      DistinctStep(env, evs, before, e);
    }
  }

  lemma {:induction false} FindUnique(tokens: seq<TokenRow>, i: nat)
    requires DistinctHashes(tokens) && i < |tokens|
    ensures FindToken(tokens, tokens[i].hash) == Some(i)
  {
  }

  /** What a change of the table means for one token. */
  function StatusChange(tokens: seq<TokenRow>, c: Change, plain: string, s: Status): Status
    requires Fits(tokens, c)
  {
    if (c.Append? || c.Rotate?) && c.row.hash == Sha256(plain) then Usable(c.row.userId, c.row.expiresAt)
    else if (c.Revoke? || c.Rotate?) && tokens[c.i].hash == Sha256(plain) then Spent
    else s
  }

  lemma AgreementKept(tokens: seq<TokenRow>, c: Change, plain: string, s: Status)
    requires Fits(tokens, c) && DistinctHashes(tokens) && RowAgrees(tokens, plain, s)
    requires (c.Append? || c.Rotate?) ==> c.row.revokedAt.None? && FindToken(tokens, c.row.hash).None?
    ensures RowAgrees(Apply(tokens, c), plain, StatusChange(tokens, c, plain, s))
  {
    FindChanged(tokens, c, Sha256(plain));
    if (c.Revoke? || c.Rotate?) && tokens[c.i].hash == Sha256(plain) {
      FindUnique(tokens, c.i);
    }
  }

  /** A token drawn in the last step has no row before it. */
  lemma NewTokenHasNoRow(env: Env, evs: seq<Event>, plain: string)
    requires ValidRun(evs) && |evs| > 0 && Draw(evs[|evs| - 1].op) == Some(plain)
    ensures FindToken(After(env, evs[..|evs| - 1]).tokens, Sha256(plain)).None?
  {
    var before := evs[..|evs| - 1];
    TableInvariants(env, before);
    NotDrawnBefore(evs, plain);
    var tokens := After(env, before).tokens;
    forall i | 0 <= i < |tokens| ensures tokens[i].hash != Sha256(plain) {
      assert Drawn(before, tokens[i].hash.plain);
    }
  }

  /** The next status, told from the answer and told from the change of the table. */
  lemma StatusMoves(env: Env, db: Db, e: Event, plain: string, s: Status)
    requires RowAgrees(db.tokens, plain, s) && Fits(db.tokens, ChangeOf(env, db, e))
    ensures NextStatus(env, s, e, Step(env, db, e).1, plain)
         == StatusChange(db.tokens, ChangeOf(env, db, e), plain, s)
  {
    TokensMove(env, db, e);
  }

  lemma StatusStep(env: Env, evs: seq<Event>, plain: string)
    requires ValidRun(evs) && |evs| > 0
    requires RowAgrees(After(env, evs[..|evs| - 1]).tokens, plain, StatusAfter(env, evs[..|evs| - 1], plain))
    ensures RowAgrees(After(env, evs).tokens, plain, StatusAfter(env, evs, plain))
  {
    var n := |evs| - 1;
    var db, s := After(env, evs[..n]), StatusAfter(env, evs[..n], plain);
    var c, r := ChangeOf(env, db, evs[n]), Step(env, db, evs[n]).1;
    TokensMove(env, db, evs[n]);
    TableInvariants(env, evs[..n]);
    if r.Issued? {
      NewTokenHasNoRow(env, evs, r.refresh);
    }
    AgreementKept(db.tokens, c, plain, s);
    StatusMoves(env, db, evs[n], plain, s);
  }

  /** For every token and every run, the table and the history tell the same story. */
  lemma {:induction false} TableMatchesHistory(env: Env, evs: seq<Event>, plain: string)
    requires ValidRun(evs)
    ensures RowAgrees(After(env, evs).tokens, plain, StatusAfter(env, evs, plain))
  {
    if |evs| > 0 {
      TableMatchesHistory(env, evs[..|evs| - 1], plain);
      StatusStep(env, evs, plain);
    }
  }

  // ----- main results -----

  /** The full verdict on a refresh, from history: each error in exactly its case, and success, for the
      user the token was issued to, in the remaining one. */
  lemma {:induction false} RefreshVerdict(env: Env, evs: seq<Event>, now: int, plain: string, next: string)
    requires ValidRun(evs)
    ensures var answer := Step(env, After(env, evs), Event(now, Refresh(plain, next))).1;
            match StatusAfter(env, evs, plain)
            case Unissued => answer == Failed(RefreshTokenInvalid)
            case Spent => answer == Failed(RefreshTokenRevoked)
            case Usable(u, expires) =>
              && u < Registered(env, evs)
              && answer == if expires <= now then Failed(RefreshTokenExpired)
                           else if !ActiveOf(env, evs, u) then Failed(AccountDisabled)
                           else Issued(u, next)
  {
    TableMatchesHistory(env, evs, plain);
    TableInvariants(env, evs);
    if StatusAfter(env, evs, plain).Usable? {
      CountTold(env, evs);
      RowTold(env, evs, StatusAfter(env, evs, plain).userId);
    }
  }

  lemma {:induction false} SpentStays(env: Env, evs: seq<Event>, n: nat, plain: string)
    requires ValidRun(evs) && n <= |evs| && StatusAfter(env, evs[..n], plain) == Spent
    ensures StatusAfter(env, evs, plain) == Spent
    decreases |evs|
  {
    if n == |evs| {
      assert evs[..n] == evs;
    } else {
      var before := evs[..|evs| - 1];
      assert before[..n] == evs[..n];
      ValidPrefix(evs, |evs| - 1);
      SpentStays(env, before, n, plain);
      TableMatchesHistory(env, before, plain);
      TokensMove(env, After(env, before), evs[|evs| - 1]);
      if Draw(evs[|evs| - 1].op) == Some(plain) {
        NewTokenHasNoRow(env, evs, plain);
      }
    }
  }

  lemma NewTokenDiffers(env: Env, evs: seq<Event>, i: nat, plain: string)
    requires ValidRun(evs) && i < |evs| && StatusAfter(env, evs[..i], plain) != Unissued
    ensures Draw(evs[i].op) != Some(plain)
  {
    var upTo := evs[..i + 1];
    ValidPrefix(evs, i);
    ValidPrefix(evs, i + 1);
    assert upTo[..i] == evs[..i];
    if Draw(evs[i].op) == Some(plain) {
      NewTokenHasNoRow(env, upTo, plain);
      TableMatchesHistory(env, evs[..i], plain);
    }
  }

  /** Single use: once a token has been refreshed, every later refresh with it is refused as revoked. */
  lemma {:induction false} RefreshedOnce(env: Env, evs: seq<Event>, i: nat, j: nat)
    requires ValidRun(evs) && i < j < |evs|
    requires evs[i].op.Refresh? && evs[j].op.Refresh? && evs[i].op.plain == evs[j].op.plain
    requires Answer(env, evs, i).Issued?
    ensures Answer(env, evs, j) == Failed(RefreshTokenRevoked)
  {
    var plain := evs[i].op.plain;
    var upTo := evs[..i + 1];
    assert upTo[..i] == evs[..i] && upTo[i] == evs[i];
    ValidPrefix(evs, i);
    ValidPrefix(evs, i + 1);
    ValidPrefix(evs, j);
    RefreshVerdict(env, evs[..i], evs[i].now, plain, evs[i].op.drawn);
    NewTokenDiffers(env, evs, i, plain);
    assert StatusAfter(env, upTo, plain) == Spent;
    assert evs[..j][..i + 1] == upTo;
    SpentStays(env, evs[..j], i + 1, plain);
    RefreshVerdict(env, evs[..j], evs[j].now, plain, evs[j].op.drawn);
  }

  /** Rows are written once: owner, digest and expiry never change, and a revoked row never changes at all. */
  lemma {:induction false} RowsAreFinal(env: Env, evs: seq<Event>, n: nat, i: nat)
    requires n <= |evs| && i < |After(env, evs[..n]).tokens|
    ensures i < |After(env, evs).tokens|
    ensures var was, now := After(env, evs[..n]).tokens[i], After(env, evs).tokens[i];
            && now == was.(revokedAt := now.revokedAt, replacedBy := now.replacedBy)
            && (was.revokedAt.Some? ==> now == was)
    decreases |evs|
  {
    if n == |evs| {
      assert evs[..n] == evs;
    } else {
      var before := evs[..|evs| - 1];
      assert before[..n] == evs[..n];
      RowsAreFinal(env, before, n, i);
      TokensMove(env, After(env, before), evs[|evs| - 1]);
    }
  }

  // ----- conservation of sessions -----

  function Weight(row: TokenRow, u: nat): nat {
    if row.userId == u && row.revokedAt.None? then 1 else 0
  }

  /** Unrevoked rows of a user. */
  function LiveRows(tokens: seq<TokenRow>, u: nat): nat {
    if |tokens| == 0 then 0
    else LiveRows(tokens[..|tokens| - 1], u) + Weight(tokens[|tokens| - 1], u)
  }

  predicate EndsSession(env: Env, evs: seq<Event>, e: Event, u: nat) {
    && e.op.Logout? && e.op.presented.Some? && e.op.presented.value != ""
    && var s := StatusAfter(env, evs, e.op.presented.value);
       s.Usable? && s.userId == u
  }

  /** Successful registers and logins of a user, less the logouts that ended one of the user's sessions;
      refreshes do not count. */
  function Sessions(env: Env, evs: seq<Event>, u: nat): int {
    if |evs| == 0 then 0
    else
      var n := |evs| - 1;
      var e, answer := evs[n], Answer(env, evs, n);
      Sessions(env, evs[..n], u)
      + (if (e.op.Register? || e.op.Login?) && answer.Issued? && answer.userId == u then 1 else 0)
      - (if EndsSession(env, evs[..n], e, u) then 1 else 0)
  }

  lemma {:induction false} LiveRowsUpdated(tokens: seq<TokenRow>, i: nat, row: TokenRow, u: nat)
    requires i < |tokens|
    ensures LiveRows(tokens[i := row], u) == LiveRows(tokens, u) - Weight(tokens[i], u) + Weight(row, u)
  {
    var n := |tokens| - 1;
    if i == n {
      assert tokens[i := row][..n] == tokens[..n];
    } else {
      assert tokens[i := row][..n] == tokens[..n][i := row];
      LiveRowsUpdated(tokens[..n], i, row, u);
    }
  }

  lemma LiveRowsAppended(tokens: seq<TokenRow>, row: TokenRow, u: nat)
    ensures LiveRows(tokens + [row], u) == LiveRows(tokens, u) + Weight(row, u)
  {
    assert (tokens + [row])[..|tokens|] == tokens;
  }

  lemma LiveRowsChanged(tokens: seq<TokenRow>, c: Change, u: nat)
    requires Fits(tokens, c)
    ensures LiveRows(Apply(tokens, c), u) == LiveRows(tokens, u)
            - (if c.Revoke? || c.Rotate? then Weight(tokens[c.i], u) else 0)
            + (if c.Append? || c.Rotate? then Weight(c.row, u) else 0)
  {
    match c {
      case Same =>
      case Append(row) => LiveRowsAppended(tokens, row, u);
      case Revoke(i, at) => LiveRowsUpdated(tokens, i, Apply(tokens, c)[i], u);
      case Rotate(i, at, row) =>
        var mid := tokens[i := tokens[i].(revokedAt := Some(at), replacedBy := Some(row.hash))];
        LiveRowsUpdated(tokens, i, mid[i], u);
        LiveRowsAppended(mid, row, u);
    }
  }

  lemma RowsFollowSessions(env: Env, before: seq<Event>, e: Event, u: nat)
    requires e.op.Logout? && e.op.presented.Some? ==>
               var p := e.op.presented.value;
               RowAgrees(After(env, before).tokens, p, StatusAfter(env, before, p))
    ensures var db := After(env, before);
            var c, answer := ChangeOf(env, db, e), Step(env, db, e).1;
            && Fits(db.tokens, c)
            && (if c.Append? || c.Rotate? then Weight(c.row, u) else 0)
               - (if c.Revoke? || c.Rotate? then Weight(db.tokens[c.i], u) else 0)
            == (if (e.op.Register? || e.op.Login?) && answer.Issued? && answer.userId == u then 1 else 0)
               - (if EndsSession(env, before, e, u) then 1 else 0)
  {
    TokensMove(env, After(env, before), e);
  }

  /** Conservation: in every serial run, for every user, the unrevoked rows number the sessions started less
      the sessions ended. Refreshing keeps the number. */
  lemma {:induction false} SessionsConserved(env: Env, evs: seq<Event>, u: nat)
    requires ValidRun(evs)
    ensures LiveRows(After(env, evs).tokens, u) == Sessions(env, evs, u)
  {
    if |evs| > 0 {
      var n := |evs| - 1;
      var db, e := After(env, evs[..n]), evs[n];
      SessionsConserved(env, evs[..n], u);
      TokensMove(env, db, e);
      LiveRowsChanged(db.tokens, ChangeOf(env, db, e), u);
      if e.op.Logout? && e.op.presented.Some? {
        TableMatchesHistory(env, evs[..n], e.op.presented.value);
      }
      RowsFollowSessions(env, evs[..n], e, u);
    }
  }
}
