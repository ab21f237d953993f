/** Codes, tokens and cleanup over whole runs of the authorization server. */
module OAuthLaws {
  import opened Options
  import opened OAuth

  datatype Event =
    | Authorize(now: int, request: AuthRequest, client: Client, code: string)
    | Exchange(now: int, r: CodeRequest, access: string, refresh: string)
    | Start(now: int, id: nat, token: string, secretKeyId: Option<string>, resource: string)
    | Finish(now: int, id: nat, retired: bool, access: string, refresh: string)
    | Validate(now: int, token: string)
    | Cleanup(now: int)

  function Step(g: Config, s: State, e: Event): (State, Answer) {
    match e
    case Authorize(now, request, client, code) => AuthorizeStep(s, now, request, client, code)
    case Exchange(now, r, access, refresh) => ExchangeStep(g, s, now, r, access, refresh)
    case Start(now, id, token, secretKeyId, resource) => RefreshStartStep(s, id, now, token, secretKeyId, resource)
    case Finish(now, id, retired, access, refresh) =>
      if id in s.pending then RefreshFinishStep(g, s, id, now, retired, access, refresh) else (s, Looking)
    case Validate(now, token) => ValidateStep(s, now, token)
    case Cleanup(now) => (CleanupStep(s, now), Looking)
  }

  function After(g: Config, run: seq<Event>): State {
    if run == [] then State(map[], map[], map[]) else Step(g, After(g, run[..|run| - 1]), run[|run| - 1]).0
  }

  /** Time does not run backwards. */
  ghost predicate Ordered(run: seq<Event>) {
    forall i, j :: 0 <= i <= j < |run| ==> run[i].now <= run[j].now
  }

  /* ---------- Cleanup ---------- */

  /** What a caller can tell from an answer: its content, or the error it names. */
  datatype Seen = Fine(answer: Answer) | Failed(error: string)

  function Outward(a: Answer): Seen {
    if a.Refused? then Failed(ErrorOf(a.reason)) else Fine(a)
  }

  function Answers(g: Config, run: seq<Event>): seq<Seen> {
    if run == [] then []
    else
      var init, e := run[..|run| - 1], run[|run| - 1];
      Answers(g, init) + if e.Cleanup? then [] else [Outward(Step(g, After(g, init), e).1)]
  }

  function WithoutCleanup(run: seq<Event>): seq<Event> {
    if run == [] then []
    else WithoutCleanup(run[..|run| - 1]) + if run[|run| - 1].Cleanup? then [] else [run[|run| - 1]]
  }

  ghost predicate CodesTrail(a: map<string, Code>, b: map<string, Code>, now: int) {
    && (forall c :: c in a ==> c in b && a[c] == b[c])
    && (forall c :: c in b && c !in a ==> b[c].expiresAt < now)
  }

  ghost predicate TokensTrail(a: map<string, Token>, b: map<string, Token>, now: int) {
    && (forall t :: t in a ==> t in b && a[t] == b[t])
    && (forall t :: t in b && t !in a ==> b[t].expiresAt < now)
  }

  /** `a` lacks nothing that `b` has but what has expired. */
  ghost predicate Trails(a: State, b: State, now: int) {
    a.pending == b.pending && CodesTrail(a.codes, b.codes, now) && TokensTrail(a.tokens, b.tokens, now)
  }

  lemma TokenSet(a: map<string, Token>, b: map<string, Token>, now: int, token: string, d: Token)
    requires TokensTrail(a, b, now)
    ensures TokensTrail(a[token := d], b[token := d], now)
  {
  }

  lemma TokenDropped(a: map<string, Token>, b: map<string, Token>, now: int, token: string)
    requires TokensTrail(a, b, now)
    ensures TokensTrail(a - {token}, b - {token}, now) && (token !in a ==> TokensTrail(a, b - {token}, now))
    ensures token in a ==> token in b && a[token] == b[token]
    ensures token in b && token !in a ==> b[token].expiresAt < now
  {
  }

  lemma CodeDropped(a: map<string, Code>, b: map<string, Code>, now: int, code: string)
    requires CodesTrail(a, b, now)
    ensures CodesTrail(a - {code}, b - {code}, now) && (code !in a ==> CodesTrail(a, b - {code}, now))
    ensures code in a ==> code in b && a[code] == b[code]
    ensures code in b && code !in a ==> b[code].expiresAt < now
  {
  }

  lemma CleanupTrails(a: State, b: State, now: int)
    requires Trails(a, b, now)
    ensures Trails(CleanupStep(a, now), b, now)
  {
  }

  lemma LaterTrails(a: State, b: State, before: int, now: int)
    requires Trails(a, b, before) && before <= now
    ensures Trails(a, b, now)
  {
  }

  lemma StepTrails(g: Config, a: State, b: State, e: Event)
    requires Trails(a, b, e.now) && !e.Cleanup?
    ensures Trails(Step(g, a, e).0, Step(g, b, e).0, e.now)
    ensures Outward(Step(g, a, e).1) == Outward(Step(g, b, e).1)
  {
    hide *;
    match e
    case Authorize(now, request, client, code) => AuthorizeTrails(g, a, b, e);
    case Exchange(now, r, access, refresh) => ExchangeTrails(g, a, b, e);
    case Start(now, id, token, secretKeyId, resource) => StartTrails(g, a, b, e);
    case Finish(now, id, retired, access, refresh) => FinishTrails(g, a, b, e);
    case Validate(now, token) => ValidateTrails(g, a, b, e);
  }

  lemma AuthorizeTrails(g: Config, a: State, b: State, e: Event)
    requires Trails(a, b, e.now) && e.Authorize?
    ensures Trails(Step(g, a, e).0, Step(g, b, e).0, e.now)
    ensures Outward(Step(g, a, e).1) == Outward(Step(g, b, e).1)
  {
    hide CodeOf, AuthorizeProblem, ErrorOf;
  }

  lemma FinishTrails(g: Config, a: State, b: State, e: Event)
    requires Trails(a, b, e.now) && e.Finish?
    ensures Trails(Step(g, a, e).0, Step(g, b, e).0, e.now)
    ensures Outward(Step(g, a, e).1) == Outward(Step(g, b, e).1)
  {
    hide TokenOfRefresh, ErrorOf, CodesTrail, TokensTrail;
    if e.id in a.pending {
      var p := a.pending[e.id];
      var access, refresh := TokenOfRefresh(g, p, Access, e.now), TokenOfRefresh(g, p, Refresh, e.now);
      TokenSet(a.tokens, b.tokens, e.now, e.access, access);
      TokenSet(a.tokens[e.access := access], b.tokens[e.access := access], e.now, e.refresh, refresh);
      TokenDropped(a.tokens[e.access := access][e.refresh := refresh],
                   b.tokens[e.access := access][e.refresh := refresh], e.now, p.token);
    }
  }

  lemma ExchangeTrails(g: Config, a: State, b: State, e: Event)
    requires Trails(a, b, e.now) && e.Exchange?
    ensures Trails(Step(g, a, e).0, Step(g, b, e).0, e.now)
    ensures Outward(Step(g, a, e).1) == Outward(Step(g, b, e).1)
  {
    hide TokenOfCode, CodeProblem, ErrorOf, CodesTrail, TokensTrail;
    SameError();
    ExpiredProblem(g, e);
    CodeDropped(a.codes, b.codes, e.now, e.r.code);
    if e.r.code in a.codes {
      var access, refresh := TokenOfCode(g, a.codes[e.r.code], e.r, Access, e.now),
          TokenOfCode(g, a.codes[e.r.code], e.r, Refresh, e.now);
      TokenSet(a.tokens, b.tokens, e.now, e.access, access);
      TokenSet(a.tokens[e.access := access], b.tokens[e.access := access], e.now, e.refresh, refresh);
    }
  }

  lemma ExpiredProblem(g: Config, e: Event)
    requires e.Exchange?
    ensures forall d: Code :: d.expiresAt < e.now ==> CodeProblem(g, d, e.now, e.r) == Some(CodeExpired)
  {
  }

  lemma SameError()
    ensures ErrorOf(UnknownCode) == ErrorOf(CodeExpired)
    ensures ErrorOf(UnknownRefreshToken) == ErrorOf(RefreshExpired)
    ensures ErrorOf(UnknownToken) == ErrorOf(TokenExpired)
  {
  }

  lemma StartTrails(g: Config, a: State, b: State, e: Event)
    requires Trails(a, b, e.now) && e.Start?
    ensures Trails(Step(g, a, e).0, Step(g, b, e).0, e.now)
    ensures Outward(Step(g, a, e).1) == Outward(Step(g, b, e).1)
  {
    hide ErrorOf, CodesTrail, TokensTrail;
    SameError();
    TokenDropped(a.tokens, b.tokens, e.now, e.token);
  }

  lemma ValidateTrails(g: Config, a: State, b: State, e: Event)
    requires Trails(a, b, e.now) && e.Validate?
    ensures Trails(Step(g, a, e).0, Step(g, b, e).0, e.now)
    ensures Outward(Step(g, a, e).1) == Outward(Step(g, b, e).1)
  {
    hide ErrorOf, CodesTrail, TokensTrail;
    SameError();
    TokenDropped(a.tokens, b.tokens, e.now, e.token);
  }

  /** Cleaning up, whenever and however often, changes no answer. */
  lemma {:induction false} CleanupInvisible(g: Config, run: seq<Event>)
    requires Ordered(run)
    ensures Answers(g, run) == Answers(g, WithoutCleanup(run))
    ensures Trails(After(g, run), After(g, WithoutCleanup(run)), if run == [] then 0 else run[|run| - 1].now)
  {
    hide *;
    if run == [] {
      NothingTrails(g);
    } else {
      var init, e := run[..|run| - 1], run[|run| - 1];
      var a, b := After(g, init), After(g, WithoutCleanup(init));
      OrderedPrefix(run);
      CleanupInvisible(g, init);
      Unfold(g, run);
      if init == [] {
        NothingTrails(g);
        EmptyTrails(e.now);
      } else {
        LaterTrails(a, b, init[|init| - 1].now, e.now);
      }
      if e.Cleanup? {
        CleanupTrails(a, b, e.now);
      } else {
        StepTrails(g, a, b, e);
      }
    }
  }

  lemma OrderedPrefix(run: seq<Event>)
    requires run != [] && Ordered(run)
    ensures var init := run[..|run| - 1];
            Ordered(init) && (init != [] ==> init[|init| - 1].now <= run[|run| - 1].now)
  {
  }

  lemma Unfold(g: Config, run: seq<Event>)
    requires run != []
    ensures var init, e := run[..|run| - 1], run[|run| - 1];
            var rest := WithoutCleanup(init);
            if e.Cleanup? then
              After(g, run) == CleanupStep(After(g, init), e.now) && WithoutCleanup(run) == rest
                  && Answers(g, run) == Answers(g, init)
            else
              && After(g, run) == Step(g, After(g, init), e).0
              && After(g, WithoutCleanup(run)) == Step(g, After(g, rest), e).0
              && Answers(g, run) == Answers(g, init) + [Outward(Step(g, After(g, init), e).1)]
              && Answers(g, WithoutCleanup(run)) == Answers(g, rest) + [Outward(Step(g, After(g, rest), e).1)]
  {
    hide CleanupStep, AuthorizeStep, ExchangeStep, RefreshStartStep, RefreshFinishStep, ValidateStep, Outward;
    var init, e := run[..|run| - 1], run[|run| - 1];
    if !e.Cleanup? {
      var rest := WithoutCleanup(init);
      assert WithoutCleanup(run) == rest + [e];
      assert (rest + [e])[..|rest|] == rest;
    }
  }

  lemma NothingTrails(g: Config)
    ensures After(g, []) == State(map[], map[], map[]) && WithoutCleanup([]) == [] && Answers(g, []) == []
    ensures Trails(After(g, []), After(g, WithoutCleanup([])), 0)
  {
  }

  lemma EmptyTrails(now: int)
    ensures Trails(State(map[], map[], map[]), State(map[], map[], map[]), now)
  {
  }

  /* ---------- Codes ---------- */

  /** An authorization of a known client for a redirect address it may use, with a challenge by S256. */
  predicate Authorizes(r: AuthRequest, c: Client) {
    && r.responseType == "code" && r.redirectUri != "" && r.challenge != "" && r.challengeMethod == "S256"
    && c.known && c.redirectAllowed
  }

  predicate IsIssue(e: Event, code: string) {
    e.Authorize? && e.code == code && Authorizes(e.request, e.client)
  }

  /** The request presents what the code was issued for, in time, as the client the code is bound to, if any. */
  predicate Fits(g: Config, d: Code, now: int, r: CodeRequest) {
    && now <= d.expiresAt && r.redirectUri == d.redirectUri && g.s256(r.verifier) == d.challenge
    && (d.boundByClient ==> r.secretKeyId == d.boundKeyId)
  }

  /** An exchange that gets as far as looking the code up. */
  predicate IsAttempt(e: Event, code: string) {
    e.Exchange? && e.r.code == code && code != "" && e.r.verifier != ""
  }

  /** The code as issued, as long as nobody tried to exchange it. */
  function Unspent(run: seq<Event>, code: string): Option<Code> {
    if run == [] then None
    else
      var e := run[|run| - 1];
      if IsIssue(e, code) then Some(CodeOf(e.request, e.client, e.now))
      else if IsAttempt(e, code) then None
      else Unspent(run[..|run| - 1], code)
  }

  /** The map holds the unspent codes, but for some that have expired. */
  ghost predicate TracksCode(s: State, unspent: Option<Code>, code: string, now: int) {
    && (code in s.codes ==> unspent == Some(s.codes[code]))
    && (unspent.Some? && code !in s.codes ==> unspent.value.expiresAt < now)
  }

  lemma StepTracksCode(g: Config, s: State, e: Event, unspent: Option<Code>, code: string)
    requires TracksCode(s, unspent, code, e.now)
    ensures var next := if IsIssue(e, code) then Some(CodeOf(e.request, e.client, e.now))
                        else if IsAttempt(e, code) then None else unspent;
            TracksCode(Step(g, s, e).0, next, code, e.now)
  {
    hide TokenOfCode, TokenOfRefresh, CodeOf;
  }

  lemma {:induction false} CodesTracked(g: Config, run: seq<Event>, code: string, now: int)
    requires Ordered(run) && (run != [] ==> run[|run| - 1].now <= now)
    ensures TracksCode(After(g, run), Unspent(run, code), code, now)
  {
    hide Step, IsIssue, IsAttempt;
    if run != [] {
      var init, e := run[..|run| - 1], run[|run| - 1];
      CodesTracked(g, init, code, e.now);
      StepTracksCode(g, After(g, init), e, Unspent(init, code), code);
    }
  }

  /**
    * An exchange yields tokens exactly when nobody tried the code before, it has not expired, and the request fits it.
    */
  lemma ExchangeIff(g: Config, run: seq<Event>, e: Event)
    requires e.Exchange? && Ordered(run + [e])
    ensures Step(g, After(g, run), e).1.TokensIssued? <==>
            && IsAttempt(e, e.r.code)
            && Unspent(run, e.r.code).Some?
            && Fits(g, Unspent(run, e.r.code).value, e.now, e.r)
  {
    OrderedInit(run, e);
    CodesTracked(g, run, e.r.code, e.now);
    hide After, Unspent, TokenOfCode;
  }

  lemma OrderedInit(run: seq<Event>, e: Event)
    requires Ordered(run + [e])
    ensures Ordered(run) && (run != [] ==> run[|run| - 1].now <= e.now)
  {
    var all := run + [e];
    assert forall i :: 0 <= i < |run| ==> all[i] == run[i];
    if run != [] {
      assert all[|run| - 1].now <= all[|run|].now;
    }
  }

  /** An unspent code is one that an authorization issued with its client, redirect address, challenge and lifetime. */
  lemma {:induction false} UnspentWasIssued(run: seq<Event>, code: string) returns (i: nat)
    requires Unspent(run, code).Some?
    ensures i < |run| && IsIssue(run[i], code)
            && Unspent(run, code) == Some(CodeOf(run[i].request, run[i].client, run[i].now))
  {
    hide IsIssue, IsAttempt, CodeOf;
    i := |run| - 1;
    if !IsIssue(run[i], code) {
      i := UnspentWasIssued(run[..i], code);
    }
  }

  /**
    * A successful exchange repeats the redirect address and proves the challenge of an authorization within its
    * lifetime.
    */
  lemma ExchangeProves(g: Config, run: seq<Event>, e: Event) returns (i: nat)
    requires e.Exchange? && Ordered(run + [e]) && Step(g, After(g, run), e).1.TokensIssued?
    ensures i < |run| && IsIssue(run[i], e.r.code)
    ensures var issue := run[i];
            && e.r.redirectUri == issue.request.redirectUri
            && g.s256(e.r.verifier) == issue.request.challenge
            && e.now <= issue.now + CODE_TTL_MS
            && (issue.client.boundKeyId.Some? ==> e.r.secretKeyId == issue.client.boundKeyId)
            && issue.client.known && issue.client.redirectAllowed && issue.request.challengeMethod == "S256"
  {
    hide Step, After, Unspent, IsAttempt;
    ExchangeIff(g, run, e);
    i := UnspentWasIssued(run, e.r.code);
  }

  function Issues(run: seq<Event>, code: string): nat {
    if run == [] then 0 else Issues(run[..|run| - 1], code) + if IsIssue(run[|run| - 1], code) then 1 else 0
  }

  /** The exchanges of `code` that yielded tokens. */
  function Yields(g: Config, run: seq<Event>, code: string): nat {
    if run == [] then 0
    else
      var init, e := run[..|run| - 1], run[|run| - 1];
      Yields(g, init, code)
      + if e.Exchange? && e.r.code == code && Step(g, After(g, init), e).1.TokensIssued? then 1 else 0
  }

  /** A code yields at most one pair of tokens for every time it was issued, and none as long as it is unspent. */
  lemma {:induction false} YieldsAtMostOnce(g: Config, run: seq<Event>, code: string)
    requires Ordered(run)
    ensures Yields(g, run, code) + (if Unspent(run, code).Some? then 1 else 0) <= Issues(run, code)
  {
    hide Step, After, CodeProblem, CodeOf, AuthorizeProblem;
    if run != [] {
      var init, e := run[..|run| - 1], run[|run| - 1];
      YieldsAtMostOnce(g, init, code);
      assert run == init + [e];
      if e.Exchange? && e.r.code == code {
        ExchangeIff(g, init, e);
      }
    }
  }

  lemma {:induction false} NeverIssued(run: seq<Event>, code: string)
    requires forall i :: 0 <= i < |run| ==> !IsIssue(run[i], code)
    ensures Issues(run, code) == 0
  {
    hide IsIssue;
    if run != [] {
      NeverIssued(run[..|run| - 1], code);
    }
  }

  /** Codes being drawn afresh, each yields at most one pair of tokens in any run. */
  lemma {:induction false} OnePairPerCode(g: Config, run: seq<Event>, code: string)
    requires Ordered(run) && forall i, j :: 0 <= i < j < |run| && IsIssue(run[i], code) ==> !IsIssue(run[j], code)
    ensures Yields(g, run, code) <= 1 && Issues(run, code) <= 1
  {
    hide IsIssue, Yields, Unspent;
    YieldsAtMostOnce(g, run, code);
    if run != [] {
      var init, e := run[..|run| - 1], run[|run| - 1];
      if IsIssue(e, code) {
        NeverIssued(init, code);
      } else {
        OnePairPerCode(g, init, code);
      }
    }
  }

  /* ---------- Tokens ---------- */

  /** A pair of tokens an event puts into the world. */
  datatype Pair = Pair(access: string, accessData: Token, refresh: string, refreshData: Token)

  function PairOf(g: Config, s: State, e: Event): Option<Pair> {
    if !Step(g, s, e).1.TokensIssued? then None
    else match e
      case Exchange(now, r, access, refresh) =>
        var d := s.codes[r.code];
        Some(Pair(access, TokenOfCode(g, d, r, Access, now), refresh, TokenOfCode(g, d, r, Refresh, now)))
      case Finish(now, id, _, access, refresh) =>
        var p := s.pending[id];
        Some(Pair(access, TokenOfRefresh(g, p, Access, now), refresh, TokenOfRefresh(g, p, Refresh, now)))
  }

  /** The data a token was issued with. */
  function Issued(g: Config, run: seq<Event>, token: string): Option<Token> {
    if run == [] then None
    else
      var init, e := run[..|run| - 1], run[|run| - 1];
      var pair := PairOf(g, After(g, init), e);
      if pair.Some? && token == pair.value.refresh then Some(pair.value.refreshData)
      else if pair.Some? && token == pair.value.access then Some(pair.value.accessData)
      else Issued(g, init, token)
  }

  /** The refresh token a successful refresh replaced. */
  function Replaced(g: Config, s: State, e: Event): set<string> {
    if e.Finish? && e.id in s.pending && Step(g, s, e).1.TokensIssued? then {s.pending[e.id].token} else {}
  }

  function Spent(g: Config, run: seq<Event>): set<string> {
    if run == [] then {}
    else Spent(g, run[..|run| - 1]) + Replaced(g, After(g, run[..|run| - 1]), run[|run| - 1])
  }

  function Introduced(e: Event): set<string> {
    match e
    case Exchange(_, _, access, refresh) => {access, refresh}
    case Finish(_, _, _, access, refresh) => {access, refresh}
    case _ => {}
  }

  function Names(run: seq<Event>): set<string> {
    if run == [] then {} else Names(run[..|run| - 1]) + Introduced(run[|run| - 1])
  }

  /** Every token drawn is one that was never drawn before. */
  ghost predicate FreshRun(run: seq<Event>) {
    run == [] ||
    (var init, e := run[..|run| - 1], run[|run| - 1];
     FreshRun(init) && Introduced(e) !! Names(init) && (e.Exchange? || e.Finish? ==> e.access != e.refresh))
  }

  function Lookup(s: State, token: string): Option<Token> {
    if token in s.tokens then Some(s.tokens[token]) else None
  }

  /** The token map after an event, but for expired tokens that are gone. */
  function NextToken(pair: Option<Pair>, replaced: set<string>, stored: Option<Token>, token: string): Option<Token> {
    if token in replaced then None
    else if pair.Some? && token == pair.value.refresh then Some(pair.value.refreshData)
    else if pair.Some? && token == pair.value.access then Some(pair.value.accessData)
    else stored
  }

  lemma StepTokens(g: Config, s: State, e: Event, token: string)
    ensures var stored, next := Lookup(Step(g, s, e).0, token),
            NextToken(PairOf(g, s, e), Replaced(g, s, e), Lookup(s, token), token);
            stored == next || (stored.None? && next.Some? && next.value.expiresAt < e.now)
  {
    hide TokenOfCode, TokenOfRefresh, CodeOf, AuthorizeProblem, CodeProblem;
  }

  /** The token map holds what was issued and not replaced, but for tokens that have expired. */
  ghost predicate TracksToken(stored: Option<Token>, issued: Option<Token>, spent: bool, now: int) {
    && (spent ==> stored.None? && issued.Some? && issued.value.kind.Refresh?)
    && (stored.Some? ==> issued == stored)
    && (stored.None? && issued.Some? && !spent ==> issued.value.expiresAt < now)
  }

  ghost predicate Tracked(g: Config, run: seq<Event>, token: string, now: int) {
    && (Issued(g, run, token).Some? ==> token in Names(run))
    && TracksToken(Lookup(After(g, run), token), Issued(g, run, token), token in Spent(g, run), now)
  }

  /** A waiting refresh holds the data its token was issued with. */
  ghost predicate PendingTracked(g: Config, run: seq<Event>) {
    forall id :: id in After(g, run).pending ==>
      var p := After(g, run).pending[id];
      Issued(g, run, p.token) == Some(p.data) && p.data.kind.Refresh? && p.token in Names(run)
  }

  lemma {:induction false} TokensTracked(g: Config, run: seq<Event>, token: string, now: int)
    requires Ordered(run) && FreshRun(run) && (run != [] ==> run[|run| - 1].now <= now)
    ensures Tracked(g, run, token, now)
    decreases |run|, 1
  {
    hide Step, PairOf, Replaced, Introduced;
    if run != [] {
      var init, e := run[..|run| - 1], run[|run| - 1];
      var s := After(g, init);
      TokensTracked(g, init, token, e.now);
      PendingAlways(g, init);
      StepTokens(g, s, e, token);
      PairNames(g, s, e);
      ReplacedPending(g, s, e);
    }
  }

  lemma PairNames(g: Config, s: State, e: Event)
    ensures var pair := PairOf(g, s, e); pair.Some? ==> Introduced(e) == {pair.value.access, pair.value.refresh}
  {
  }

  lemma ReplacedPending(g: Config, s: State, e: Event)
    ensures forall t :: t in Replaced(g, s, e) ==> exists id :: id in s.pending && s.pending[id].token == t
  {
  }

  lemma {:induction false} PendingAlways(g: Config, run: seq<Event>)
    requires Ordered(run) && FreshRun(run)
    ensures PendingTracked(g, run)
    decreases |run|, 0
  {
    hide Step, PairOf, Introduced, Tracked;
    if run != [] {
      var init, e := run[..|run| - 1], run[|run| - 1];
      var s, t := After(g, init), After(g, run);
      PendingAlways(g, init);
      PairNames(g, s, e);
      forall id | id in t.pending
        ensures var p := t.pending[id];
                Issued(g, run, p.token) == Some(p.data) && p.data.kind.Refresh? && p.token in Names(run)
      {
        StepPending(g, s, e, id);
        if !(id in s.pending && t.pending[id] == s.pending[id]) {
          TokensTracked(g, init, e.token, e.now);
          StartTracked(g, init, e.token, e.now);
        }
      }
    }
  }

  lemma StartTracked(g: Config, run: seq<Event>, token: string, now: int)
    requires Tracked(g, run, token, now) && token in After(g, run).tokens
    ensures Issued(g, run, token) == Some(After(g, run).tokens[token]) && token in Names(run)
  {
  }

  lemma StepPending(g: Config, s: State, e: Event, id: nat)
    requires id in Step(g, s, e).0.pending
    ensures var p := Step(g, s, e).0.pending[id];
            || (id in s.pending && p == s.pending[id])
            || (e.Start? && PairOf(g, s, e).None? && e.token in s.tokens && p.token == e.token
                && p.data == s.tokens[e.token] && p.data.kind.Refresh?)
  {
    hide TokenOfCode, TokenOfRefresh, CodeOf, AuthorizeProblem, CodeProblem;
  }

  /** An access token is valid exactly when it was issued as one and has not expired. */
  lemma ValidIff(g: Config, run: seq<Event>, e: Event)
    requires e.Validate? && e.token != "" && Ordered(run + [e]) && FreshRun(run)
    ensures var answer, issued := Step(g, After(g, run), e).1, Issued(g, run, e.token);
            && (answer.TokenValid? <==> issued.Some? && issued.value.kind.Access? && e.now <= issued.value.expiresAt)
            && (answer.TokenValid? ==>
                  var d := issued.value;
                  answer == TokenValid(d.clientId, d.scope, d.isApiKey, d.boundKeyId, d.createdAt))
  {
    OrderedInit(run, e);
    TokensTracked(g, run, e.token, e.now);
    hide After, Issued, Spent, Names;
  }

  /** A refresh token that was replaced starts no further refresh. */
  lemma SpentRefused(g: Config, run: seq<Event>, e: Event)
    requires e.Start? && e.token != "" && Ordered(run + [e]) && FreshRun(run) && e.token in Spent(g, run)
    ensures Step(g, After(g, run), e) == (After(g, run), Refused(UnknownRefreshToken))
  {
    OrderedInit(run, e);
    TokensTracked(g, run, e.token, e.now);
    hide After, Issued, Spent, Names;
  }

  /** Client and scope of the code at the start of the chain of refreshes that led to `token`. */
  function Founding(g: Config, run: seq<Event>, token: string): Option<(string, string)> {
    if run == [] then None
    else
      var init, e := run[..|run| - 1], run[|run| - 1];
      var s := After(g, init);
      var pair := PairOf(g, s, e);
      if pair.None? || (token != pair.value.access && token != pair.value.refresh) then Founding(g, init, token)
      else if e.Exchange? then
        var code := Unspent(init, e.r.code);
        if code.Some? then Some((code.value.clientId, code.value.scope)) else None
      else if e.Finish? && e.id in s.pending then Founding(g, init, s.pending[e.id].token)
      else None
  }

  /** Every token carries the client and the scope of the code its chain of refreshes began with. */
  lemma {:induction false} RefreshKeepsGrant(g: Config, run: seq<Event>, token: string)
    requires Ordered(run) && FreshRun(run) && Issued(g, run, token).Some?
    ensures var d := Issued(g, run, token).value; Founding(g, run, token) == Some((d.clientId, d.scope))
  {
    hide Step, After, Unspent, PairOf;
    var init, e := run[..|run| - 1], run[|run| - 1];
    var s := After(g, init);
    var pair := PairOf(g, s, e);
    if pair.None? || (token != pair.value.access && token != pair.value.refresh) {
      RefreshKeepsGrant(g, init, token);
    } else {
      PairGrant(g, s, e);
      if e.Exchange? {
        assert run == init + [e];
        ExchangeGrant(g, init, e);
      } else {
        PendingAlways(g, init);
        RefreshKeepsGrant(g, init, s.pending[e.id].token);
      }
    }
  }

  /** A pair carries the client and scope of the code exchanged or of the token refreshed. */
  lemma PairGrant(g: Config, s: State, e: Event)
    requires PairOf(g, s, e).Some?
    ensures e.Exchange? || (e.Finish? && e.id in s.pending)
    ensures var pair := PairOf(g, s, e).value;
            var grant := if e.Exchange? then (s.codes[e.r.code].clientId, s.codes[e.r.code].scope)
                         else (s.pending[e.id].data.clientId, s.pending[e.id].data.scope);
            (pair.accessData.clientId, pair.accessData.scope) == grant
                == (pair.refreshData.clientId, pair.refreshData.scope)
  {
  }

  lemma ExchangeGrant(g: Config, run: seq<Event>, e: Event)
    requires e.Exchange? && Ordered(run + [e]) && PairOf(g, After(g, run), e).Some?
    ensures Unspent(run, e.r.code) == Some(After(g, run).codes[e.r.code])
  {
    OrderedInit(run, e);
    CodesTracked(g, run, e.r.code, e.now);
    hide After, Unspent, TokenOfCode;
  }

  /**
    * An issued token names its issue: an event that drew it, with the lifetime of its kind and a key whenever it is
    * bound.
    */
  lemma {:induction false} IssuedByEvent(g: Config, run: seq<Event>, token: string) returns (i: nat)
    requires Issued(g, run, token).Some?
    ensures i < |run| && token in Introduced(run[i])
    ensures var d := Issued(g, run, token).value;
            && d.createdAt == run[i].now
            && d.expiresAt == run[i].now + (if d.kind.Access? then g.accessTtlMs else g.refreshTtlMs)
            && (d.boundKeyId.Some? ==> d.isApiKey)
  {
    hide Step, After, PairOf, Introduced;
    i := |run| - 1;
    var s := After(g, run[..i]);
    var pair := PairOf(g, s, run[i]);
    if pair.None? || (token != pair.value.access && token != pair.value.refresh) {
      i := IssuedByEvent(g, run[..i], token);
    } else {
      PairNames(g, s, run[i]);
      PairShape(g, s, run[i]);
    }
  }

  lemma PairShape(g: Config, s: State, e: Event)
    requires PairOf(g, s, e).Some?
    ensures var p := PairOf(g, s, e).value;
            && p.accessData.kind.Access? && p.accessData.createdAt == e.now
               && p.accessData.expiresAt == e.now + g.accessTtlMs
            && p.refreshData.kind.Refresh? && p.refreshData.createdAt == e.now
               && p.refreshData.expiresAt == e.now + g.refreshTtlMs
            && (p.accessData.boundKeyId.Some? ==> p.accessData.isApiKey)
               && (p.refreshData.boundKeyId.Some? ==> p.refreshData.isApiKey)
  {
    hide AuthorizeProblem, CodeOf, CodeProblem;
  }

  /** Where a token's key binding may come from: an authorization's client, or a secret presented for tokens. */
  predicate BindsKey(e: Event, key: string) {
    || (e.Authorize? && e.client.boundKeyId == Some(key))
    || (e.Exchange? && e.r.secretKeyId == Some(key))
    || (e.Start? && e.secretKeyId == Some(key))
  }

  ghost predicate KeySeen(run: seq<Event>, key: string) {
    exists i :: 0 <= i < |run| && BindsKey(run[i], key)
  }

  ghost predicate CodesBound(codes: map<string, Code>, seen: iset<string>) {
    forall c :: c in codes && codes[c].boundKeyId.Some? ==> codes[c].boundKeyId.value in seen
  }

  ghost predicate TokensBound(tokens: map<string, Token>, seen: iset<string>) {
    forall t :: t in tokens && tokens[t].boundKeyId.Some? ==> tokens[t].boundKeyId.value in seen
  }

  lemma TokenBound(tokens: map<string, Token>, token: string, d: Token, seen: iset<string>)
    requires TokensBound(tokens, seen) && (d.boundKeyId.Some? ==> d.boundKeyId.value in seen)
    ensures TokensBound(tokens[token := d], seen)
  {
  }

  /** Codes, tokens and waiting refreshes are bound only to keys that were presented. */
  ghost predicate BoundToSeen(s: State, seen: iset<string>) {
    && CodesBound(s.codes, seen)
    && TokensBound(s.tokens, seen)
    && (forall id :: id in s.pending ==>
          && (s.pending[id].data.boundKeyId.Some? ==> s.pending[id].data.boundKeyId.value in seen)
          && (s.pending[id].secretKeyId.Some? ==> s.pending[id].secretKeyId.value in seen))
  }

  ghost function SeenKeys(run: seq<Event>): iset<string> {
    iset key | KeySeen(run, key)
  }

  lemma StepBound(g: Config, s: State, e: Event, seen: iset<string>)
    requires BoundToSeen(s, seen) && forall key :: BindsKey(e, key) ==> key in seen
    ensures BoundToSeen(Step(g, s, e).0, seen)
  {
    hide *;
    match e
    case Authorize(_, _, _, _) => AuthorizeBound(g, s, e, seen);
    case Exchange(_, _, _, _) => ExchangeBound(g, s, e, seen);
    case Start(_, _, _, _, _) => StartBound(g, s, e, seen);
    case Finish(_, _, _, _, _) => FinishBound(g, s, e, seen);
    case _ => DroppedBound(g, s, e, seen);
  }

  lemma AuthorizeBound(g: Config, s: State, e: Event, seen: iset<string>)
    requires BoundToSeen(s, seen) && e.Authorize? && forall key :: BindsKey(e, key) ==> key in seen
    ensures BoundToSeen(Step(g, s, e).0, seen)
  {
    hide AuthorizeProblem;
    assert e.client.boundKeyId.Some? ==> BindsKey(e, e.client.boundKeyId.value);
  }

  lemma ExchangeBound(g: Config, s: State, e: Event, seen: iset<string>)
    requires BoundToSeen(s, seen) && e.Exchange? && forall key :: BindsKey(e, key) ==> key in seen
    ensures BoundToSeen(Step(g, s, e).0, seen)
  {
    hide CodeProblem;
    assert e.r.secretKeyId.Some? ==> BindsKey(e, e.r.secretKeyId.value);
    if e.r.code in s.codes {
      var d := s.codes[e.r.code];
      var access, refresh := TokenOfCode(g, d, e.r, Access, e.now), TokenOfCode(g, d, e.r, Refresh, e.now);
      assert access.boundKeyId == First(e.r.secretKeyId, d.boundKeyId) == refresh.boundKeyId;
      hide TokenOfCode, TokensBound;
      TokenBound(s.tokens, e.access, access, seen);
      TokenBound(s.tokens[e.access := access], e.refresh, refresh, seen);
    }
  }

  lemma StartBound(g: Config, s: State, e: Event, seen: iset<string>)
    requires BoundToSeen(s, seen) && e.Start? && forall key :: BindsKey(e, key) ==> key in seen
    ensures BoundToSeen(Step(g, s, e).0, seen)
  {
    assert e.secretKeyId.Some? ==> BindsKey(e, e.secretKeyId.value);
  }

  lemma FinishBound(g: Config, s: State, e: Event, seen: iset<string>)
    requires BoundToSeen(s, seen) && e.Finish?
    ensures BoundToSeen(Step(g, s, e).0, seen)
  {
    if e.id in s.pending {
      var p := s.pending[e.id];
      var access, refresh := TokenOfRefresh(g, p, Access, e.now), TokenOfRefresh(g, p, Refresh, e.now);
      assert access.boundKeyId == First(p.secretKeyId, p.data.boundKeyId) == refresh.boundKeyId;
      hide TokenOfRefresh;
      TokenBound(s.tokens, e.access, access, seen);
      TokenBound(s.tokens[e.access := access], e.refresh, refresh, seen);
    }
  }

  lemma DroppedBound(g: Config, s: State, e: Event, seen: iset<string>)
    requires BoundToSeen(s, seen) && (e.Validate? || e.Cleanup?)
    ensures BoundToSeen(Step(g, s, e).0, seen)
  {
  }

  /** No token is ever bound to a key that nobody presented. */
  lemma {:induction false} BoundKeysWerePresented(g: Config, run: seq<Event>)
    ensures BoundToSeen(After(g, run), SeenKeys(run))
  {
    hide Step, BindsKey, BoundToSeen;
    if run == [] {
      NothingBound(SeenKeys(run));
    } else {
      var n := |run| - 1;
      BoundKeysWerePresented(g, run[..n]);
      forall key | key in SeenKeys(run[..n])
        ensures key in SeenKeys(run)
      {
        var i :| 0 <= i < n && BindsKey(run[..n][i], key);
        assert BindsKey(run[i], key);
      }
      MoreSeen(After(g, run[..n]), SeenKeys(run[..n]), SeenKeys(run));
      StepBound(g, After(g, run[..n]), run[n], SeenKeys(run));
    }
  }

  lemma NothingBound(seen: iset<string>)
    ensures BoundToSeen(State(map[], map[], map[]), seen)
  {
  }

  lemma MoreSeen(s: State, seen: iset<string>, more: iset<string>)
    requires BoundToSeen(s, seen) && seen <= more
    ensures BoundToSeen(s, more)
  {
  }
}
