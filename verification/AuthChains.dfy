/**
 Rotation chains. Each register or login starts a chain of refresh tokens and each refresh extends one;
 the `replaced_by_hash` links of the table are exactly the steps along these chains.
 */
module AuthChains {
  import opened Options
  import opened Auth
  import opened AuthTokens

  datatype Place = Place(chain: nat, index: nat)

  /** The rows sorted into chains, and for each row its place. */
  datatype Layout = Layout(chains: seq<seq<nat>>, places: seq<Place>)

  function Extend(l: Layout, c: Change): Layout {
    var n := |l.places|;
    match c
    case Append(_) => Layout(l.chains + [[n]], l.places + [Place(|l.chains|, 0)])
    case Rotate(i, _, _) =>
      if i < n && l.places[i].chain < |l.chains| then
        var a := l.places[i].chain;
        Layout(l.chains[a := l.chains[a] + [n]], l.places + [Place(a, |l.chains[a]|)])
      else l
    case _ => l
  }

  function LayoutAfter(env: Env, evs: seq<Event>): Layout {
    if |evs| == 0 then Layout([], [])
    else
      var n := |evs| - 1;
      Extend(LayoutAfter(env, evs[..n]), ChangeOf(env, After(env, evs[..n]), evs[n]))
  }

  /** Row j replaces row i: newer, of the same user, expiring no earlier; and i is revoked. */
  predicate Replaces(tokens: seq<TokenRow>, i: nat, j: nat) {
    && i < j < |tokens|
    && tokens[i].replacedBy == Some(tokens[j].hash)
    && tokens[i].userId == tokens[j].userId
    && tokens[i].expiresAt <= tokens[j].expiresAt
    && tokens[i].revokedAt.Some?
  }

  /** A row sits at its place; it is replaced by the next row of its chain, or it is the last one and
      replaced by nothing. */
  predicate RowOk(l: Layout, tokens: seq<TokenRow>, i: nat)
    requires i < |l.places| && i < |tokens|
  {
    var p := l.places[i];
    && p.chain < |l.chains| && p.index < |l.chains[p.chain]|
    && l.chains[p.chain][p.index] == i
    && if p.index + 1 == |l.chains[p.chain]| then tokens[i].replacedBy.None?
       else Replaces(tokens, i, l.chains[p.chain][p.index + 1])
  }

  predicate CellOk(l: Layout, a: nat, k: nat)
    requires a < |l.chains| && k < |l.chains[a]|
  {
    l.chains[a][k] < |l.places| && l.places[l.chains[a][k]] == Place(a, k)
  }

  predicate LaidOut(l: Layout, tokens: seq<TokenRow>) {
    && |l.places| == |tokens|
    && (forall i {:trigger RowOk(l, tokens, i)} :: 0 <= i < |tokens| ==> RowOk(l, tokens, i))
    && (forall a :: 0 <= a < |l.chains| ==> |l.chains[a]| > 0)
    && (forall a, k {:trigger CellOk(l, a, k)} :: 0 <= a < |l.chains| && 0 <= k < |l.chains[a]| ==> CellOk(l, a, k))
  }

  /** Successful registers and logins. */
  function Starts(env: Env, evs: seq<Event>): nat {
    if |evs| == 0 then 0
    else
      var n := |evs| - 1;
      Starts(env, evs[..n])
      + if (evs[n].op.Register? || evs[n].op.Login?) && Answer(env, evs, n).Issued? then 1 else 0
  }

  /** An unrevoked row ends its chain. */
  lemma LiveIsLast(l: Layout, tokens: seq<TokenRow>, i: nat)
    requires LaidOut(l, tokens) && i < |tokens| && tokens[i].revokedAt.None?
    ensures l.places[i].chain < |l.chains| && l.places[i].index + 1 == |l.chains[l.places[i].chain]|
    ensures tokens[i].replacedBy.None?
  {
    assert RowOk(l, tokens, i);
  }

  lemma AppendKeeps(l: Layout, tokens: seq<TokenRow>, c: Change)
    requires LaidOut(l, tokens) && c.Append? && c.row.replacedBy.None?
    ensures LaidOut(Extend(l, c), Apply(tokens, c))
  {
    var l', tokens' := Extend(l, c), Apply(tokens, c);
    forall i | 0 <= i < |tokens'| ensures RowOk(l', tokens', i) {
      assert i < |tokens| ==> RowOk(l, tokens, i);
    }
    forall a, k | 0 <= a < |l'.chains| && 0 <= k < |l'.chains[a]| ensures CellOk(l', a, k) {
      assert a < |l.chains| ==> CellOk(l, a, k);
    }
  }

  lemma RevokeKeeps(l: Layout, tokens: seq<TokenRow>, c: Change)
    requires LaidOut(l, tokens) && c.Revoke? && Fits(tokens, c)
    ensures LaidOut(Extend(l, c), Apply(tokens, c))
  {
    var tokens' := Apply(tokens, c);
    forall i | 0 <= i < |tokens'| ensures RowOk(l, tokens', i) {
      assert RowOk(l, tokens, i);
    }
  }

  lemma RotateKeeps(l: Layout, tokens: seq<TokenRow>, c: Change)
    requires LaidOut(l, tokens) && c.Rotate? && Fits(tokens, c)
    requires c.row.replacedBy.None? && c.row.userId == tokens[c.i].userId && tokens[c.i].expiresAt <= c.row.expiresAt
    ensures LaidOut(Extend(l, c), Apply(tokens, c))
  {
    var l', tokens', n := Extend(l, c), Apply(tokens, c), |tokens|;
    LiveIsLast(l, tokens, c.i);
    assert RowOk(l, tokens, c.i);
    var a := l.places[c.i].chain;
    forall i | 0 <= i < |tokens'| ensures RowOk(l', tokens', i) {
      if i < n && i != c.i {
        assert RowOk(l, tokens, i);
      } else if i == c.i {
        assert Replaces(tokens', c.i, n);
      }
    }
    forall b, k | 0 <= b < |l'.chains| && 0 <= k < |l'.chains[b]| ensures CellOk(l', b, k) {
      assert k < |l.chains[b]| ==> CellOk(l, b, k);
    }
  }

  /** No stored token outlives one issued now. */
  predicate ExpiresBy(tokens: seq<TokenRow>, bound: int) {
    forall i :: 0 <= i < |tokens| ==> tokens[i].expiresAt <= bound
  }

  function Clock(evs: seq<Event>): int {
    if |evs| == 0 then 0 else evs[|evs| - 1].now
  }

  lemma ChangeKeeps(l: Layout, tokens: seq<TokenRow>, c: Change)
    requires LaidOut(l, tokens) && Fits(tokens, c)
    requires c.Append? || c.Rotate? ==> c.row.replacedBy.None?
    requires c.Rotate? ==> c.row.userId == tokens[c.i].userId && tokens[c.i].expiresAt <= c.row.expiresAt
    ensures LaidOut(Extend(l, c), Apply(tokens, c))
    ensures |Extend(l, c).chains| == |l.chains| + if c.Append? then 1 else 0
  {
    match c {
      case Same =>
      case Append(_) => AppendKeeps(l, tokens, c);
      case Revoke(_, _) => RevokeKeeps(l, tokens, c);
      case Rotate(i, _, _) =>
        LiveIsLast(l, tokens, i);
        RotateKeeps(l, tokens, c);
    }
  }

  /** Under a clock that does not go back, no stored token outlives one issued now. */
  lemma {:induction false} NoneOutlivesNew(env: Env, evs: seq<Event>)
    requires ValidRun(evs)
    ensures |evs| > 0 ==> ExpiresBy(After(env, evs).tokens, Clock(evs) + env.refreshTtl)
  {
    if |evs| > 0 {
      var n := |evs| - 1;
      NoneOutlivesNew(env, evs[..n]);
      TokensMove(env, After(env, evs[..n]), evs[n]);
    }
  }

  /** In every serial run the links of the table form disjoint finite chains, one for each successful
      register or login. */
  lemma {:induction false} LinksFormChains(env: Env, evs: seq<Event>)
    requires ValidRun(evs)
    ensures LaidOut(LayoutAfter(env, evs), After(env, evs).tokens)
    ensures |LayoutAfter(env, evs).chains| == Starts(env, evs)
  {
    if |evs| > 0 {
      var n := |evs| - 1;
      var before, e := evs[..n], evs[n];
      LinksFormChains(env, before);
      var tokens, c := After(env, before).tokens, ChangeOf(env, After(env, before), e);
      TokensMove(env, After(env, before), e);
      NoneOutlivesNew(env, before);
      if c.Rotate? {
        assert evs[n - 1].now <= e.now;
        assert tokens[c.i].expiresAt <= Clock(before) + env.refreshTtl;
      }
      ChangeKeeps(LayoutAfter(env, before), tokens, c);
    }
  }

  // ----- what the chains say about the table -----

  lemma {:induction false} AlongLayout(l: Layout, tokens: seq<TokenRow>, a: nat, k: nat, m: nat)
    requires LaidOut(l, tokens) && a < |l.chains| && k < m < |l.chains[a]|
    ensures var chain := l.chains[a];
            && chain[k] < chain[m] < |tokens|
            && tokens[chain[k]].expiresAt <= tokens[chain[m]].expiresAt
            && tokens[chain[k]].userId == tokens[chain[m]].userId
            && tokens[chain[k]].revokedAt.Some?
    decreases m
  {
    assert CellOk(l, a, m - 1);
    assert RowOk(l, tokens, l.chains[a][m - 1]);
    if k < m - 1 {
      AlongLayout(l, tokens, a, k, m - 1);
    }
  }

  /** Along a chain: row ids strictly grow, expiry never falls, the user never changes, and every row but
      the last is revoked. */
  lemma {:induction false} AlongAChain(env: Env, evs: seq<Event>, a: nat, k: nat, m: nat)
    requires ValidRun(evs)
    requires a < |LayoutAfter(env, evs).chains| && k < m < |LayoutAfter(env, evs).chains[a]|
    ensures var chain, tokens := LayoutAfter(env, evs).chains[a], After(env, evs).tokens;
            && chain[k] < chain[m] < |tokens|
            && tokens[chain[k]].expiresAt <= tokens[chain[m]].expiresAt
            && tokens[chain[k]].userId == tokens[chain[m]].userId
            && tokens[chain[k]].revokedAt.Some?
  {
    LinksFormChains(env, evs);
    AlongLayout(LayoutAfter(env, evs), After(env, evs).tokens, a, k, m);
  }

  lemma NextInLayout(l: Layout, tokens: seq<TokenRow>, i: nat, j: nat)
    requires LaidOut(l, tokens) && DistinctHashes(tokens) && i < |tokens| && j < |tokens|
    ensures tokens[i].replacedBy == Some(tokens[j].hash)
       <==> l.places[j] == Place(l.places[i].chain, l.places[i].index + 1)
  {
    assert RowOk(l, tokens, i);
    assert RowOk(l, tokens, j);
    var p := l.places[i];
    if p.index + 1 < |l.chains[p.chain]| {
      var next := l.chains[p.chain][p.index + 1];
      assert CellOk(l, p.chain, p.index + 1);
      FindUnique(tokens, next);
      FindUnique(tokens, j);
    }
  }

  /** A link and a step along a chain are the same thing: one row names another as its replacement exactly
      when the other comes next in the same chain. Every row is named at most once. */
  lemma {:induction false} LinkIsNextInChain(env: Env, evs: seq<Event>, i: nat, j: nat)
    requires ValidRun(evs) && i < |After(env, evs).tokens| && j < |After(env, evs).tokens|
    ensures var tokens, places := After(env, evs).tokens, LayoutAfter(env, evs).places;
            && |places| == |tokens|
            && (tokens[i].replacedBy == Some(tokens[j].hash)
                <==> places[j] == Place(places[i].chain, places[i].index + 1))
  {
    LinksFormChains(env, evs);
    TableInvariants(env, evs);
    NextInLayout(LayoutAfter(env, evs), After(env, evs).tokens, i, j);
  }

  ghost predicate Ended(l: Layout, tokens: seq<TokenRow>, a: nat) {
    && a < |l.chains| && |l.places| == |tokens|
    && forall i :: 0 <= i < |tokens| && l.places[i].chain == a ==> tokens[i].revokedAt.Some?
  }

  lemma RevokingEnds(l: Layout, tokens: seq<TokenRow>, c: Change)
    requires LaidOut(l, tokens) && c.Revoke? && Fits(tokens, c)
    ensures Ended(Extend(l, c), Apply(tokens, c), l.places[c.i].chain)
  {
    LiveIsLast(l, tokens, c.i);
    assert RowOk(l, tokens, c.i);
    forall j | 0 <= j < |tokens| && l.places[j].chain == l.places[c.i].chain
      ensures Apply(tokens, c)[j].revokedAt.Some?
    {
      assert RowOk(l, tokens, j);
      if tokens[j].revokedAt.None? {
        LiveIsLast(l, tokens, j);
      }
    }
  }

  /** Logging out with a usable token ends its chain. */
  lemma {:induction false} LogoutEndsChain(env: Env, evs: seq<Event>, e: Event, plain: string)
    requires ValidRun(evs) && ValidRun(evs + [e])
    requires e.op == Logout(Some(plain)) && plain != "" && StatusAfter(env, evs, plain).Usable?
    ensures var i := FindToken(After(env, evs).tokens, Sha256(plain));
            && i.Some? && i.value < |LayoutAfter(env, evs).places|
            && Ended(LayoutAfter(env, evs + [e]), After(env, evs + [e]).tokens,
                     LayoutAfter(env, evs).places[i.value].chain)
  {
    assert (evs + [e])[..|evs|] == evs;
    LinksFormChains(env, evs);
    TableMatchesHistory(env, evs, plain);
    TokensMove(env, After(env, evs), e);
    RevokingEnds(LayoutAfter(env, evs), After(env, evs).tokens, ChangeOf(env, After(env, evs), e));
  }

  lemma EndedKept(l: Layout, tokens: seq<TokenRow>, c: Change, a: nat)
    requires LaidOut(l, tokens) && Fits(tokens, c) && Ended(l, tokens, a)
    ensures Ended(Extend(l, c), Apply(tokens, c), a)
    ensures Extend(l, c).chains[a] == l.chains[a]
  {
    if c.Rotate? {
      LiveIsLast(l, tokens, c.i);
    }
  }

  /** An ended chain stays ended: whatever follows, it gets no new row and none of its rows revives, so no
      token of it is ever accepted again. */
  lemma {:induction false} EndedForGood(env: Env, evs: seq<Event>, n: nat, a: nat)
    requires ValidRun(evs) && n <= |evs|
    requires Ended(LayoutAfter(env, evs[..n]), After(env, evs[..n]).tokens, a)
    ensures Ended(LayoutAfter(env, evs), After(env, evs).tokens, a)
    ensures LayoutAfter(env, evs).chains[a] == LayoutAfter(env, evs[..n]).chains[a]
    decreases |evs|
  {
    if n == |evs| {
      assert evs[..n] == evs;
    } else {
      var before := evs[..|evs| - 1];
      assert before[..n] == evs[..n];
      ValidPrefix(evs, |evs| - 1);
      EndedForGood(env, before, n, a);
      LinksFormChains(env, before);
      TokensMove(env, After(env, before), evs[|evs| - 1]);
      var c := ChangeOf(env, After(env, before), evs[|evs| - 1]);
      EndedKept(LayoutAfter(env, before), After(env, before).tokens, c, a);
    }
  }
}
