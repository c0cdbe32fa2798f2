/**
 The middleware around the limiter: which requests it lets pass, which key and limit it checks the others
 under, and so who shares a limit with whom.
 */
module RateLimitKeys {
  import opened Options
  import opened Redis
  import opened RateLimit

  datatype Request = Request(path: string, clientHost: Option<string>, authorization: string, attempt: Attempt)

  datatype Settings = Settings(anonymousLimit: int, authenticatedLimit: int, window: int, excludePaths: seq<string>)

  predicate StartsWith(s: string, prefix: string) {
    |prefix| <= |s| && s[..|prefix|] == prefix
  }

  predicate Excluded(cfg: Settings, path: string) {
    exists p :: p in cfg.excludePaths && StartsWith(path, p)
  }

  /** Python's s[lo:hi]: out-of-range bounds are clipped. */
  function Slice(s: string, lo: nat, hi: nat): string
    requires lo <= hi
  {
    if |s| <= lo then "" else if |s| <= hi then s[lo..] else s[lo..hi]
  }

  const BEARER := "Bearer "
  const TOKEN_KEY := "rl:token:"
  const IP_KEY := "rl:ip:"

  predicate Bearer(r: Request) {
    StartsWith(r.authorization, BEARER)
  }

  function HostOf(r: Request): string {
    if r.clientHost.Some? then r.clientHost.value else "unknown"
  }

  function KeyOf(r: Request): string {
    if Bearer(r) then TOKEN_KEY + Slice(r.authorization, 7, 39) else IP_KEY + HostOf(r)
  }

  function LimitOf(cfg: Settings, r: Request): int {
    if Bearer(r) then cfg.authenticatedLimit else cfg.anonymousLimit
  }

  // ----- which requests share a key -----

  lemma SamePrefix(prefix: string, x: string, y: string)
    ensures prefix + x == prefix + y <==> x == y
  {
    if prefix + x == prefix + y {
      assert x == (prefix + x)[|prefix|..] && y == (prefix + y)[|prefix|..];
    }
  }

  /** Two requests share a key if and only if both carry a bearer token and the tokens agree in their first 32
      characters, or neither does and they come from the same address. Users play no part. */
  lemma {:induction false} KeySharedIff(a: Request, b: Request)
    ensures KeyOf(a) == KeyOf(b)
       <==> if Bearer(a) then Bearer(b) && Slice(a.authorization, 7, 39) == Slice(b.authorization, 7, 39)
            else !Bearer(b) && HostOf(a) == HostOf(b)
  {
    if Bearer(a) && Bearer(b) {
      SamePrefix(TOKEN_KEY, Slice(a.authorization, 7, 39), Slice(b.authorization, 7, 39));
    } else if !Bearer(a) && !Bearer(b) {
      SamePrefix(IP_KEY, HostOf(a), HostOf(b));
    } else {
      assert KeyOf(a)[3] != KeyOf(b)[3];
    }
  }

  /** Hence requests that share a key share a limit. */
  lemma {:induction false} KeyFixesLimit(cfg: Settings, a: Request, b: Request)
    requires KeyOf(a) == KeyOf(b)
    ensures LimitOf(cfg, a) == LimitOf(cfg, b)
  {
    KeySharedIff(a, b);
  }

  type Store = map<string, ZSet>

  function Lookup(store: Store, key: string): ZSet {
    if key in store then store[key] else Absent
  }

  /** None stands for a request that bypasses the limiter. */
  function Dispatch(cfg: Settings, store: Store, r: Request): (Store, Option<Answer>) {
    if Excluded(cfg, r.path) then (store, None)
    else
      var (z, answer) := Check(Lookup(store, KeyOf(r)), LimitOf(cfg, r), cfg.window, r.attempt);
      (store[KeyOf(r) := z], Some(answer))
  }

  function StoreAfter(cfg: Settings, requests: seq<Request>): Store {
    if |requests| == 0 then map[]
    else Dispatch(cfg, StoreAfter(cfg, requests[..|requests| - 1]), requests[|requests| - 1]).0
  }

  /** The attempts of a request history that count against one key. */
  function Project(cfg: Settings, requests: seq<Request>, key: string): seq<Attempt> {
    if |requests| == 0 then []
    else
      var before, r := Project(cfg, requests[..|requests| - 1], key), requests[|requests| - 1];
      if !Excluded(cfg, r.path) && KeyOf(r) == key then before + [r.attempt] else before
  }

  /** Isolation: what is stored under a key depends on the requests of that key alone. */
  lemma {:induction false} KeysAreIsolated(cfg: Settings, requests: seq<Request>, key: string)
    ensures Lookup(StoreAfter(cfg, requests), key) == After(cfg.window, Project(cfg, requests, key))
  {
    if |requests| > 0 {
      var before, r := requests[..|requests| - 1], requests[|requests| - 1];
      KeysAreIsolated(cfg, before, key);
      var run := Project(cfg, before, key);
      assert (run + [r.attempt])[..|run|] == run;
    }
  }

  /** The middleware answers a request as the single-key limiter answers its place in that key's run. */
  lemma {:induction false} DispatchAnswersByKey(cfg: Settings, requests: seq<Request>, r: Request)
    requires !Excluded(cfg, r.path)
    ensures var run := Project(cfg, requests + [r], KeyOf(r));
            && |run| > 0
            && Dispatch(cfg, StoreAfter(cfg, requests), r).1
               == Some(AnswerTo(LimitOf(cfg, r), cfg.window, run, |run| - 1))
  {
    KeysAreIsolated(cfg, requests, KeyOf(r));
    assert (requests + [r])[..|requests|] == requests;
    var before := Project(cfg, requests, KeyOf(r));
    assert Project(cfg, requests + [r], KeyOf(r)) == before + [r.attempt];
    assert (before + [r.attempt])[..|before|] == before;
  }

  predicate Timed(q: Request, d: real) {
    0.0 <= q.attempt.now <= q.attempt.at <= q.attempt.now + d
  }

  predicate InOrder(q: Request, r: Request) {
    q.attempt.at <= r.attempt.at
  }

  /** Requests of the whole service, timed as attempts are. */
  ghost predicate ValidRequests(requests: seq<Request>, d: real) {
    && (forall i {:trigger Timed(requests[i], d)} :: 0 <= i < |requests| ==> Timed(requests[i], d))
    && (forall i, j {:trigger InOrder(requests[i], requests[j])} ::
          0 <= i < j < |requests| ==> InOrder(requests[i], requests[j]))
  }

  lemma {:induction false} ProjectIsValid(cfg: Settings, requests: seq<Request>, d: real, key: string)
    requires ValidRequests(requests, d)
    ensures ValidRun(Project(cfg, requests, key), d)
    ensures forall a :: a in Project(cfg, requests, key) ==>
              |requests| > 0 && a.at <= requests[|requests| - 1].attempt.at
  {
    if |requests| > 0 {
      var n := |requests| - 1;
      var before := requests[..n];
      forall i | 0 <= i < n ensures Timed(before[i], d) {
        assert Timed(requests[i], d);
      }
      forall i, j | 0 <= i < j < n ensures InOrder(before[i], before[j]) {
        assert InOrder(requests[i], requests[j]);
      }
      ProjectIsValid(cfg, before, d, key);
      assert Timed(requests[n], d);
      if n > 0 {
        assert InOrder(requests[n - 1], requests[n]);
      }
      var run := Project(cfg, before, key);
      forall i | 0 <= i < |run| ensures run[i].at <= requests[|requests| - 1].attempt.at {
        assert run[i] in run;
      }
    }
  }

  /** The bound for the whole middleware: for every request history and every key, no interval of length
      window - d holds more distinct admitted timestamps under the key than its limit. Clients that share the
      key share the bound. */
  lemma {:induction false} MiddlewareBound(cfg: Settings, requests: seq<Request>, d: real, r: Request, lo: real,
                                           hi: real)
    requires 0.0 <= d < cfg.window as real && ValidRequests(requests, d)
    requires hi <= lo + (cfg.window as real - d)
    ensures |Admitted(LimitOf(cfg, r), cfg.window, Project(cfg, requests, KeyOf(r)), lo, hi)|
         <= if LimitOf(cfg, r) > 0 then LimitOf(cfg, r) else 0
  {
    ProjectIsValid(cfg, requests, d, KeyOf(r));
    WindowBound(LimitOf(cfg, r), cfg.window, d, Project(cfg, requests, KeyOf(r)), lo, hi);
  }

  // ----- what sharing means for signed-in users -----

  /** The encoded header of a token: base64url of {"alg":"HS256","typ":"JWT"}, the same in every token that the
      service signs. */
  const JWT_HEADER := "eyJhbGciOiJIUzI1NiIsInR5cCI6IkpXVCJ9"

  /** The request carries a token that begins with the given header. */
  predicate Signed(r: Request, header: string) {
    StartsWith(r.authorization, BEARER + header)
  }

  lemma PrefixIsSlice(r: Request, header: string)
    requires |header| == 32
    ensures Signed(r, header) <==> Bearer(r) && Slice(r.authorization, 7, 39) == header
  {
    var s := r.authorization;
    if Signed(r, header) {
      assert s[..7] == s[..39][..7] == BEARER;
      assert s[7..39] == s[..39][7..] == header;
    }
    if Bearer(r) && Slice(s, 7, 39) == header {
      assert s[..39] == s[..7] + s[7..39];
    }
  }

  lemma ShorterHeader(r: Request, header: string)
    requires |header| >= 32 && Signed(r, header)
    ensures Signed(r, header[..32])
  {
    assert r.authorization[..39] == r.authorization[..7 + |header|][..39] == (BEARER + header)[..39];
    assert (BEARER + header)[..39] == BEARER + header[..32];
  }

  /** A header of 32 characters or more fills the key: all requests with tokens under it share one key, and no
      token with another beginning shares it. */
  lemma {:induction false} HeaderFillsKey(header: string, a: Request, b: Request)
    requires |header| >= 32 && Signed(a, header)
    ensures KeyOf(a) == KeyOf(b) <==> Signed(b, header[..32])
    ensures Signed(b, header) ==> KeyOf(a) == KeyOf(b)
  {
    ShorterHeader(a, header);
    PrefixIsSlice(a, header[..32]);
    PrefixIsSlice(b, header[..32]);
    KeySharedIff(a, b);
    if Signed(b, header) {
      ShorterHeader(b, header);
    }
  }

  /** The header is longer than the part of the token that is looked at, so any two signed-in users, whoever
      they are and whatever their tokens say, share one key. */
  lemma {:induction false} SignedInUsersShareAKey(a: Request, b: Request)
    requires Signed(a, JWT_HEADER) && Signed(b, JWT_HEADER)
    ensures KeyOf(a) == KeyOf(b)
  {
    HeaderFillsKey(JWT_HEADER, a, b);
  }

  lemma AttemptedGrows(run: seq<Attempt>, a: Attempt, lo: real, hi: real)
    ensures Attempted(run + [a], lo, hi) == Attempted(run, lo, hi) + if lo < a.now <= hi then {a.now} else {}
  {
    var longer := run + [a];
    forall t | t in Attempted(run, lo, hi) ensures t in Attempted(longer, lo, hi) {
      var i :| 0 <= i < |run| && lo < run[i].now <= hi && run[i].now == t;
      assert longer[i] == run[i];
    }
    assert longer[|run|] == a;
  }

  predicate Counts(cfg: Settings, q: Request, key: string, lo: real, hi: real) {
    !Excluded(cfg, q.path) && KeyOf(q) == key && lo < q.attempt.now <= hi
  }

  /** Distinct times of all requests under a key in lo < t <= hi. */
  function KeyTimes(cfg: Settings, requests: seq<Request>, key: string, lo: real, hi: real): set<real> {
    set i | 0 <= i < |requests| && Counts(cfg, requests[i], key, lo, hi) :: requests[i].attempt.now
  }

  lemma KeyTimesGrow(cfg: Settings, requests: seq<Request>, q: Request, key: string, lo: real, hi: real)
    ensures KeyTimes(cfg, requests + [q], key, lo, hi)
         == KeyTimes(cfg, requests, key, lo, hi) + if Counts(cfg, q, key, lo, hi) then {q.attempt.now} else {}
  {
    var longer := requests + [q];
    forall t | t in KeyTimes(cfg, requests, key, lo, hi) ensures t in KeyTimes(cfg, longer, key, lo, hi) {
      var i :| 0 <= i < |requests| && Counts(cfg, requests[i], key, lo, hi) && requests[i].attempt.now == t;
      assert longer[i] == requests[i];
    }
    assert longer[|requests|] == q;
  }

  lemma {:induction false} ProjectedTimes(cfg: Settings, requests: seq<Request>, key: string, lo: real, hi: real)
    ensures Attempted(Project(cfg, requests, key), lo, hi) == KeyTimes(cfg, requests, key, lo, hi)
  {
    if |requests| > 0 {
      var n := |requests| - 1;
      ProjectedTimes(cfg, requests[..n], key, lo, hi);
      AttemptedGrows(Project(cfg, requests[..n], key), requests[n].attempt, lo, hi);
      KeyTimesGrow(cfg, requests[..n], requests[n], key, lo, hi);
      assert requests[..n] + [requests[n]] == requests;
    }
  }

  /** Distinct times of all requests with tokens under one header in lo < t <= hi, by whichever user. */
  function SignedTimes(cfg: Settings, requests: seq<Request>, header: string, lo: real, hi: real): set<real> {
    set i | 0 <= i < |requests| && !Excluded(cfg, requests[i].path) && Signed(requests[i], header)
            && lo < requests[i].attempt.now <= hi :: requests[i].attempt.now
  }

  lemma {:induction false} SharedTimes(cfg: Settings, requests: seq<Request>, r: Request, header: string,
                                       lo: real, hi: real)
    requires |header| == 32 && Signed(r, header)
    ensures KeyTimes(cfg, requests, KeyOf(r), lo, hi) == SignedTimes(cfg, requests, header, lo, hi)
  {
    forall i | 0 <= i < |requests| ensures KeyOf(requests[i]) == KeyOf(r) <==> Signed(requests[i], header) {
      HeaderFillsKey(header, r, requests[i]);
    }
  }

  lemma LastAdmittedIff(limit: int, window: int, run: seq<Attempt>, i: nat)
    requires window > 0 && ValidRun(run, 0.0) && i + 1 == |run|
    ensures AnswerTo(limit, window, run, i).allowed
       <==> |Attempted(run, run[i].now - window as real, run[i].now)| <= limit
  {
    assert run[..i + 1] == run;
    AdmittedIff(limit, window, run, i);
  }

  lemma TimesDecide(limit: int, window: int, run: seq<Attempt>, i: nat, lo: real, now: real, times: set<real>)
    requires window > 0 && ValidRun(run, 0.0) && i + 1 == |run| && now == run[i].now && lo == now - window as real
    requires times == Attempted(run, lo, now)
    ensures AnswerTo(limit, window, run, i).allowed <==> |times| <= limit
  {
    LastAdmittedIff(limit, window, run, i);
  }

  lemma KeyRunDecides(cfg: Settings, all: seq<Request>, key: string, limit: int, run: seq<Attempt>, lo: real, now: real)
    requires cfg.window > 0 && ValidRun(run, 0.0) && run == Project(cfg, all, key)
    requires |run| > 0 && now == run[|run| - 1].now && lo == now - cfg.window as real
    ensures AnswerTo(limit, cfg.window, run, |run| - 1).allowed <==> |KeyTimes(cfg, all, key, lo, now)| <= limit
  {
    ProjectedTimes(cfg, all, key, lo, now);
    TimesDecide(limit, cfg.window, run, |run| - 1, lo, now, KeyTimes(cfg, all, key, lo, now));
  }

  lemma ProjectRuns(cfg: Settings, requests: seq<Request>, d: real, key: string)
    requires ValidRequests(requests, d)
    ensures ValidRun(Project(cfg, requests, key), d)
  {
    ProjectIsValid(cfg, requests, d, key);
  }

  lemma DispatchDecides(cfg: Settings, requests: seq<Request>, r: Request, run: seq<Attempt>, allowed: bool)
    requires !Excluded(cfg, r.path) && run == Project(cfg, requests + [r], KeyOf(r)) && |run| > 0
    requires AnswerTo(LimitOf(cfg, r), cfg.window, run, |run| - 1).allowed == allowed
    ensures var answer := Dispatch(cfg, StoreAfter(cfg, requests), r).1;
            answer.Some? && answer.value.allowed == allowed
  {
    DispatchAnswersByKey(cfg, requests, r);
  }

  lemma LastOfProject(cfg: Settings, requests: seq<Request>, r: Request)
    requires !Excluded(cfg, r.path)
    ensures var run := Project(cfg, requests + [r], KeyOf(r));
            |run| > 0 && run[|run| - 1] == r.attempt
  {
    assert (requests + [r])[..|requests|] == requests;
  }

  /** The decision on a request of the whole service, exactly, under a monotone clock: it is admitted if and
      only if the requests under its key came at no more than `limit` distinct times of its window. */
  lemma {:induction false} AdmittedOnKeyIff(cfg: Settings, requests: seq<Request>, r: Request, lo: real)
    requires cfg.window > 0 && ValidRequests(requests + [r], 0.0) && !Excluded(cfg, r.path)
    requires lo == r.attempt.now - cfg.window as real
    ensures var answer := Dispatch(cfg, StoreAfter(cfg, requests), r).1;
            && answer.Some?
            && (answer.value.allowed
                <==> |KeyTimes(cfg, requests + [r], KeyOf(r), lo, r.attempt.now)| <= LimitOf(cfg, r))
  {
    var now, run := r.attempt.now, Project(cfg, requests + [r], KeyOf(r));
    LastOfProject(cfg, requests, r);
    ProjectRuns(cfg, requests + [r], 0.0, KeyOf(r));
    KeyRunDecides(cfg, requests + [r], KeyOf(r), LimitOf(cfg, r), run, lo, now);
    DispatchDecides(cfg, requests, r, run, |KeyTimes(cfg, requests + [r], KeyOf(r), lo, now)| <= LimitOf(cfg, r));
  }

  /** For a signed-in user: it is admitted if and only if all signed-in users together have made requests at no
      more than `authenticatedLimit` distinct times in the window that ends with it. */
  lemma {:induction false} OneBucketForAll(cfg: Settings, requests: seq<Request>, r: Request, header: string, lo: real)
    requires cfg.window > 0 && ValidRequests(requests + [r], 0.0) && !Excluded(cfg, r.path)
    requires lo == r.attempt.now - cfg.window as real && |header| == 32 && Signed(r, header)
    ensures var answer := Dispatch(cfg, StoreAfter(cfg, requests), r).1;
            && answer.Some?
            && (answer.value.allowed
                <==> |SignedTimes(cfg, requests + [r], header, lo, r.attempt.now)| <= cfg.authenticatedLimit)
  {
    AdmittedOnKeyIff(cfg, requests, r, lo);
    PrefixIsSlice(r, header);
    SharedTimes(cfg, requests + [r], r, header, lo, r.attempt.now);
  }

  predicate ByOther(cfg: Settings, q: Request, r: Request, header: string, lo: real) {
    && !Excluded(cfg, q.path) && Signed(q, header) && q.authorization != r.authorization
    && lo < q.attempt.now < r.attempt.now
  }

  /** Distinct times, before this request and after `lo`, of requests with other tokens under the header. */
  function OthersTimes(cfg: Settings, requests: seq<Request>, r: Request, header: string, lo: real): set<real> {
    set i | 0 <= i < |requests| && ByOther(cfg, requests[i], r, header, lo) :: requests[i].attempt.now
  }

  lemma OthersCount(cfg: Settings, requests: seq<Request>, r: Request, header: string, lo: real)
    requires |header| >= 32 && Signed(r, header) && !Excluded(cfg, r.path) && lo < r.attempt.now
    ensures var now := r.attempt.now;
            |OthersTimes(cfg, requests, r, header, lo)| + 1 <= |SignedTimes(cfg, requests + [r], header[..32], lo, now)|
  {
    var now, all := r.attempt.now, requests + [r];
    var others, times := OthersTimes(cfg, requests, r, header, lo), SignedTimes(cfg, all, header[..32], lo, now);
    ShorterHeader(r, header);
    assert all[|requests|] == r;
    forall t | t in others ensures t in times {
      var i :| 0 <= i < |requests| && ByOther(cfg, requests[i], r, header, lo) && requests[i].attempt.now == t;
      ShorterHeader(requests[i], header);
      assert all[i] == requests[i];
    }
    CardinalityMonotone(others + {now}, times);
  }

  /** A consequence: a user who may never have made a request is refused when requests of others alone, each
      with a token of its own, fill the window. */
  lemma {:induction false} RefusedForOthers(cfg: Settings, requests: seq<Request>, r: Request, header: string, lo: real)
    requires cfg.window > 0 && ValidRequests(requests + [r], 0.0) && !Excluded(cfg, r.path)
    requires lo == r.attempt.now - cfg.window as real && |header| >= 32 && Signed(r, header)
    requires |OthersTimes(cfg, requests, r, header, lo)| >= cfg.authenticatedLimit
    ensures var answer := Dispatch(cfg, StoreAfter(cfg, requests), r).1;
            answer.Some? && !answer.value.allowed
  {
    ShorterHeader(r, header);
    OneBucketForAll(cfg, requests, r, header[..32], lo);
    OthersCount(cfg, requests, r, header, lo);
  }

  // ----- the middleware, from the outside -----

  /** A request bypasses the limiter if and only if its path begins with one of the configured ones. */
  lemma {:induction false} BypassedIff(cfg: Settings, store: Store, r: Request)
    ensures Dispatch(cfg, store, r).1.None?
       <==> exists i, rest :: 0 <= i < |cfg.excludePaths| && r.path == cfg.excludePaths[i] + rest
  {
    if Excluded(cfg, r.path) {
      var p :| p in cfg.excludePaths && StartsWith(r.path, p);
      var i :| 0 <= i < |cfg.excludePaths| && cfg.excludePaths[i] == p;
      assert r.path == cfg.excludePaths[i] + r.path[|p|..];
    }
    if i, rest :| 0 <= i < |cfg.excludePaths| && r.path == cfg.excludePaths[i] + rest {
      assert r.path[..|cfg.excludePaths[i]|] == cfg.excludePaths[i];
      assert cfg.excludePaths[i] in cfg.excludePaths && StartsWith(r.path, cfg.excludePaths[i]);
    }
  }

  predicate CarriesToken(r: Request) {
    |r.authorization| >= 7 && r.authorization[..7] == "Bearer "
  }

  /** One address; requests without an address are one client, together with a host of the name "unknown". */
  predicate SameAddress(q: Request, r: Request) {
    match (q.clientHost, r.clientHost)
    case (Some(a), Some(b)) => a == b
    case (Some(a), None) => a == "unknown"
    case (None, Some(b)) => b == "unknown"
    case (None, None) => true
  }

  /** The scheme and the first 32 characters of the token, or all there is. */
  function Head(authorization: string): string {
    if |authorization| <= 39 then authorization else authorization[..39]
  }

  predicate SameClient(q: Request, r: Request) {
    if CarriesToken(r) then CarriesToken(q) && Head(q.authorization) == Head(r.authorization)
    else !CarriesToken(q) && SameAddress(q, r)
  }

  lemma TokenHead(q: Request)
    requires CarriesToken(q)
    ensures Head(q.authorization) == "Bearer " + Slice(q.authorization, 7, 39)
  {
    var s := q.authorization;
    if |s| <= 39 {
      assert s == s[..7] + s[7..];
    } else {
      assert s[..39] == s[..7] + s[7..39];
    }
  }

  lemma TokenHeads(q: Request, r: Request)
    requires CarriesToken(q) && CarriesToken(r)
    ensures Slice(q.authorization, 7, 39) == Slice(r.authorization, 7, 39)
       <==> Head(q.authorization) == Head(r.authorization)
  {
    TokenHead(q);
    TokenHead(r);
    SamePrefix("Bearer ", Slice(q.authorization, 7, 39), Slice(r.authorization, 7, 39));
  }

  /** Requests share a key exactly when they come from the same client in this sense. */
  lemma {:induction false} SameClientSharesKey(q: Request, r: Request)
    ensures KeyOf(q) == KeyOf(r) <==> SameClient(q, r)
  {
    KeySharedIff(r, q);
    if CarriesToken(q) && CarriesToken(r) {
      TokenHeads(q, r);
    }
  }

  /** Distinct times in lo < t <= hi of the limited requests of one client. */
  function ClientTimes(cfg: Settings, requests: seq<Request>, r: Request, lo: real, hi: real): set<real> {
    set i | 0 <= i < |requests| && !Excluded(cfg, requests[i].path) && SameClient(requests[i], r)
            && lo < requests[i].attempt.now <= hi :: requests[i].attempt.now
  }

  lemma ClientTimesAreKeyTimes(cfg: Settings, requests: seq<Request>, r: Request, lo: real, hi: real)
    ensures KeyTimes(cfg, requests, KeyOf(r), lo, hi) == ClientTimes(cfg, requests, r, lo, hi)
  {
    forall i | 0 <= i < |requests| ensures KeyOf(requests[i]) == KeyOf(r) <==> SameClient(requests[i], r) {
      SameClientSharesKey(requests[i], r);
    }
  }

  /** Anonymous requests: admitted if and only if the anonymous requests from the same address came at no more
      than `anonymousLimit` distinct times in the window that ends with the request. */
  lemma {:induction false} AnonymousAdmittedIff(cfg: Settings, requests: seq<Request>, r: Request, lo: real)
    requires cfg.window > 0 && ValidRequests(requests + [r], 0.0) && !Excluded(cfg, r.path)
    requires lo == r.attempt.now - cfg.window as real && !CarriesToken(r)
    ensures var answer := Dispatch(cfg, StoreAfter(cfg, requests), r).1;
            && answer.Some?
            && (answer.value.allowed
                <==> |ClientTimes(cfg, requests + [r], r, lo, r.attempt.now)| <= cfg.anonymousLimit)
  {
    AdmittedOnKeyIff(cfg, requests, r, lo);
    ClientTimesAreKeyTimes(cfg, requests + [r], r, lo, r.attempt.now);
  }

  /** Requests with a token: the same with `authenticatedLimit`, over all requests whose tokens begin alike. */
  lemma {:induction false} TokenAdmittedIff(cfg: Settings, requests: seq<Request>, r: Request, lo: real)
    requires cfg.window > 0 && ValidRequests(requests + [r], 0.0) && !Excluded(cfg, r.path)
    requires lo == r.attempt.now - cfg.window as real && CarriesToken(r)
    ensures var answer := Dispatch(cfg, StoreAfter(cfg, requests), r).1;
            && answer.Some?
            && (answer.value.allowed
                <==> |ClientTimes(cfg, requests + [r], r, lo, r.attempt.now)| <= cfg.authenticatedLimit)
  {
    AdmittedOnKeyIff(cfg, requests, r, lo);
    ClientTimesAreKeyTimes(cfg, requests + [r], r, lo, r.attempt.now);
  }

  // ----- the middleware object -----

  class Middleware {
    const cfg: Settings
    var store: Store

    /** The object is made anew on each worker; the keys are those that Redis already holds. */
    constructor (cfg: Settings, found: Store)
      ensures this.cfg == cfg && store == found
    {
      this.cfg := cfg;
      store := found;
    }

    method CheckRateLimit(key: string, limit: int, window: int, a: Attempt) returns (answer: Answer)
      modifies this`store
      ensures store == old(store)[key := Check(Lookup(old(store), key), limit, window, a).0]
      ensures answer == Check(Lookup(old(store), key), limit, window, a).1
    {
      var windowStart := a.now - window as real;
      var members := Members(Lookup(store, key), a.at);
      members := set t | t in members && !(0.0 <= t <= windowStart);
      members := members + {a.now};
      var count := |members|;
      store := store[key := SetEx(members, a.at, window * 2)];
      var remaining := if limit - count > 0 then limit - count else 0;
      return Answer(count <= limit, remaining, a.now + window as real);
    }

    method Handle(r: Request) returns (answer: Option<Answer>)
      modifies this`store
      ensures (store, answer) == Dispatch(cfg, old(store), r)
    {
      var i := 0;
      while i < |cfg.excludePaths|
        invariant 0 <= i <= |cfg.excludePaths|
        invariant forall j :: 0 <= j < i ==> !StartsWith(r.path, cfg.excludePaths[j])
        invariant store == old(store)
      {
        if StartsWith(r.path, cfg.excludePaths[i]) {
          assert Excluded(cfg, r.path);
          return None;
        }
        i := i + 1;
      }
      assert !Excluded(cfg, r.path);
      if Bearer(r) {
        var key := TOKEN_KEY + Slice(r.authorization, 7, 39);
        var a := CheckRateLimit(key, cfg.authenticatedLimit, cfg.window, r.attempt);
        return Some(a);
      } else {
        var a := CheckRateLimit(IP_KEY + HostOf(r), cfg.anonymousLimit, cfg.window, r.attempt);
        return Some(a);
      }
    }
  }
}
