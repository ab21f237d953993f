/** Authorization codes and tokens of `lib/oauth.js`, held in memory. */
module OAuth {
  import opened Options

  /** An authorization code's data. */
  datatype Code = Code(
    clientId: string,
    redirectUri: string,
    challenge: string,
    scope: string,
    isApiKey: bool,
    boundKeyId: Option<string>,
    boundByClient: bool,
    resource: Option<string>,
    createdAt: int,
    expiresAt: int)

  datatype TokenKind = Access | Refresh

  datatype Token = Token(
    kind: TokenKind,
    clientId: string,
    scope: string,
    isApiKey: bool,
    boundKeyId: Option<string>,
    resource: Option<string>,
    createdAt: int,
    expiresAt: int)

  /** A refresh request between its look-up and its answer, while its key's retirement is being asked for. */
  datatype Refreshing = Refreshing(token: string, data: Token, secretKeyId: Option<string>, resource: Option<string>)

  datatype State = State(codes: map<string, Code>, tokens: map<string, Token>, pending: map<nat, Refreshing>)

  datatype Reason =
    | NotCodeFlow | NoRedirect | NoChallenge | NotS256 | UnknownClient | RedirectRefused
    | NoCode | NoVerifier | UnknownCode | CodeExpired | RedirectMismatch | VerifierMismatch | ClientNotAuthenticated
    | NoRefreshToken | UnknownRefreshToken | RefreshExpired | BindingRetired
    | NoToken | UnknownToken | TokenExpired

  /** The `error` field of the answer; for a token check, that it is not valid. */
  function ErrorOf(r: Reason): string {
    match r
    case NotCodeFlow => "unsupported_response_type"
    case NoRedirect => "invalid_request"
    case NoChallenge => "invalid_request"
    case NotS256 => "invalid_request"
    case UnknownClient => "invalid_client"
    case RedirectRefused => "invalid_request"
    case NoCode => "invalid_request"
    case NoVerifier => "invalid_request"
    case UnknownCode => "invalid_grant"
    case CodeExpired => "invalid_grant"
    case RedirectMismatch => "invalid_grant"
    case VerifierMismatch => "invalid_grant"
    case ClientNotAuthenticated => "invalid_client"
    case NoRefreshToken => "invalid_request"
    case UnknownRefreshToken => "invalid_grant"
    case RefreshExpired => "invalid_grant"
    case BindingRetired => "invalid_grant"
    case NoToken => "not valid"
    case UnknownToken => "not valid"
    case TokenExpired => "not valid"
  }

  datatype Answer =
    | CodeIssued(code: string)
    | TokensIssued(access: string, refresh: string, scope: string)
    | Looking
    | TokenValid(clientId: string, scope: string, isApiKey: bool, boundKeyId: Option<string>, issuedAt: int)
    | Refused(reason: Reason)

  /** Lifetimes, and the S256 transformation of a verifier (section 4.6 of RFC 7636). */
  datatype Config = Config(accessTtlMs: int, refreshTtlMs: int, s256: string -> string)

  const CODE_TTL_MS := 600_000

  /** What the authorization request asks; absent parameters are empty. */
  datatype AuthRequest = AuthRequest(
    responseType: string, clientId: string, redirectUri: string, challenge: string, challengeMethod: string,
    scope: string, resource: string)

  /** What the client stores say about the request's client and redirect address. */
  datatype Client = Client(known: bool, isApiKey: bool, boundKeyId: Option<string>, redirectAllowed: bool)

  /** What a code exchange presents; the secret is given by the key it belongs to, if it is valid. */
  datatype CodeRequest = CodeRequest(code: string, redirectUri: string, verifier: string, secretKeyId: Option<string>,
                                     resource: string)

  function NonEmpty(s: string): Option<string> {
    if s == "" then None else Some(s)
  }

  function First<T>(a: Option<T>, b: Option<T>): Option<T> {
    if a.Some? then a else b
  }

  function AuthorizeProblem(r: AuthRequest, c: Client): Option<Reason> {
    if r.responseType != "code" then Some(NotCodeFlow)
    else if r.redirectUri == "" then Some(NoRedirect)
    else if r.challenge == "" then Some(NoChallenge)
    else if r.challengeMethod != "S256" then Some(NotS256)
    else if !c.known then Some(UnknownClient)
    else if !c.redirectAllowed then Some(RedirectRefused)
    else None
  }

  function CodeOf(r: AuthRequest, c: Client, now: int): Code {
    Code(r.clientId, r.redirectUri, r.challenge, if r.scope == "" then "mcp" else r.scope, c.isApiKey, c.boundKeyId,
         c.boundKeyId.Some?, NonEmpty(r.resource), now, now + CODE_TTL_MS)
  }

  function AuthorizeStep(s: State, now: int, r: AuthRequest, c: Client, code: string): (State, Answer) {
    var problem := AuthorizeProblem(r, c);
    if problem.Some? then (s, Refused(problem.value))
    else (s.(codes := s.codes[code := CodeOf(r, c, now)]), CodeIssued(code))
  }

  /** Why a code that was found does not get its tokens. */
  function CodeProblem(g: Config, d: Code, now: int, r: CodeRequest): Option<Reason> {
    if now > d.expiresAt then Some(CodeExpired)
    else if d.redirectUri != r.redirectUri then Some(RedirectMismatch)
    else if g.s256(r.verifier) != d.challenge then Some(VerifierMismatch)
    else if d.boundByClient && r.secretKeyId != d.boundKeyId then Some(ClientNotAuthenticated)
    else None
  }

  function Bound(kind: TokenKind, clientId: string, scope: string, isApiKey: bool, boundKeyId: Option<string>,
                 resource: Option<string>, now: int, ttlMs: int): Token {
    Token(kind, clientId, scope, boundKeyId.Some? || isApiKey, boundKeyId, resource, now, now + ttlMs)
  }

  function TokenOfCode(g: Config, d: Code, r: CodeRequest, kind: TokenKind, now: int): Token {
    Bound(kind, d.clientId, d.scope, d.isApiKey, First(r.secretKeyId, d.boundKeyId),
          First(NonEmpty(r.resource), d.resource), now, if kind.Access? then g.accessTtlMs else g.refreshTtlMs)
  }

  function TokenOfRefresh(g: Config, p: Refreshing, kind: TokenKind, now: int): Token {
    Bound(kind, p.data.clientId, p.data.scope, p.data.isApiKey, First(p.secretKeyId, p.data.boundKeyId),
          First(p.resource, p.data.resource), now, if kind.Access? then g.accessTtlMs else g.refreshTtlMs)
  }

  function ExchangeStep(g: Config, s: State, now: int, r: CodeRequest, access: string, refresh: string)
    : (State, Answer)
  {
    if r.code == "" then (s, Refused(NoCode))
    else if r.verifier == "" then (s, Refused(NoVerifier))
    else if r.code !in s.codes then (s, Refused(UnknownCode))
    else
      var d := s.codes[r.code];
      var consumed := s.(codes := s.codes - {r.code});
      var problem := CodeProblem(g, d, now, r);
      if problem.Some? then (consumed, Refused(problem.value))
      else
        (consumed.(tokens := s.tokens[access := TokenOfCode(g, d, r, Access, now)]
                                     [refresh := TokenOfCode(g, d, r, Refresh, now)]),
         TokensIssued(access, refresh, d.scope))
  }

  function RefreshStartStep(s: State, id: nat, now: int, token: string, secretKeyId: Option<string>, resource: string)
    : (State, Answer)
  {
    if token == "" then (s, Refused(NoRefreshToken))
    else if token !in s.tokens || !s.tokens[token].kind.Refresh? then (s, Refused(UnknownRefreshToken))
    else if now > s.tokens[token].expiresAt then (s.(tokens := s.tokens - {token}), Refused(RefreshExpired))
    else (s.(pending := s.pending[id := Refreshing(token, s.tokens[token], secretKeyId, NonEmpty(resource))]), Looking)
  }

  function RefreshFinishStep(g: Config, s: State, id: nat, now: int, retired: bool, access: string, refresh: string)
    : (State, Answer)
    requires id in s.pending
  {
    var p := s.pending[id];
    var answered := s.(pending := s.pending - {id});
    if p.secretKeyId.None? && p.data.boundKeyId.Some? && retired then (answered, Refused(BindingRetired))
    else
      (answered.(tokens := s.tokens[access := TokenOfRefresh(g, p, Access, now)]
                                   [refresh := TokenOfRefresh(g, p, Refresh, now)] - {p.token}),
       TokensIssued(access, refresh, p.data.scope))
  }

  function ValidateStep(s: State, now: int, token: string): (State, Answer) {
    if token == "" then (s, Refused(NoToken))
    else if token !in s.tokens || !s.tokens[token].kind.Access? then (s, Refused(UnknownToken))
    else
      var d := s.tokens[token];
      if now > d.expiresAt then (s.(tokens := s.tokens - {token}), Refused(TokenExpired))
      else (s, TokenValid(d.clientId, d.scope, d.isApiKey, d.boundKeyId, d.createdAt))
  }

  function CleanupStep(s: State, now: int): State {
    s.(codes := map c | c in s.codes && now <= s.codes[c].expiresAt :: s.codes[c],
       tokens := map t | t in s.tokens && now <= s.tokens[t].expiresAt :: s.tokens[t])
  }

  class OAuthServer {
    const config: Config
    var codes: map<string, Code>
    var tokens: map<string, Token>
    var pending: map<nat, Refreshing>

    constructor (config: Config)
      ensures this.config == config && Contents() == State(map[], map[], map[])
    {
      this.config := config;
      codes, tokens, pending := map[], map[], map[];
    }

    function Contents(): State
      reads this
    {
      State(codes, tokens, pending)
    }

    /** `handleAuthorize`, with the code it draws. */
    method Authorize(now: int, r: AuthRequest, c: Client, code: string) returns (answer: Answer)
      modifies this
      ensures (Contents(), answer) == AuthorizeStep(old(Contents()), now, r, c, code)
    {
      var problem := AuthorizeProblem(r, c);
      if problem.Some? {
        return Refused(problem.value);
      }
      codes := codes[code := CodeOf(r, c, now)];
      return CodeIssued(code);
    }

    /** `handleToken` for an authorization code, with the tokens it draws. */
    method Exchange(now: int, r: CodeRequest, access: string, refresh: string) returns (answer: Answer)
      modifies this
      ensures (Contents(), answer) == ExchangeStep(config, old(Contents()), now, r, access, refresh)
    {
      if r.code == "" {
        return Refused(NoCode);
      }
      if r.verifier == "" {
        return Refused(NoVerifier);
      }
      if r.code !in codes {
        return Refused(UnknownCode);
      }
      var d := codes[r.code];
      codes := codes - {r.code};
      if now > d.expiresAt {
        return Refused(CodeExpired);
      }
      if d.redirectUri != r.redirectUri {
        return Refused(RedirectMismatch);
      }
      if config.s256(r.verifier) != d.challenge {
        return Refused(VerifierMismatch);
      }
      if d.boundByClient && r.secretKeyId != d.boundKeyId {
        return Refused(ClientNotAuthenticated);
      }
      tokens := tokens[access := TokenOfCode(config, d, r, Access, now)];
      tokens := tokens[refresh := TokenOfCode(config, d, r, Refresh, now)];
      return TokensIssued(access, refresh, d.scope);
    }

    /** `handleToken` for a refresh token, up to asking whether its key was rotated. */
    method RefreshStart(id: nat, now: int, token: string, secretKeyId: Option<string>, resource: string)
        returns (answer: Answer)
      modifies this
      ensures (Contents(), answer) == RefreshStartStep(old(Contents()), id, now, token, secretKeyId, resource)
    {
      if token == "" {
        return Refused(NoRefreshToken);
      }
      if token !in tokens || !tokens[token].kind.Refresh? {
        return Refused(UnknownRefreshToken);
      }
      if now > tokens[token].expiresAt {
        tokens := tokens - {token};
        return Refused(RefreshExpired);
      }
      pending := pending[id := Refreshing(token, tokens[token], secretKeyId, NonEmpty(resource))];
      return Looking;
    }

    /** The rest of it: new tokens in place of the old refresh token. */
    method RefreshFinish(id: nat, now: int, retired: bool, access: string, refresh: string) returns (answer: Answer)
      requires id in pending
      modifies this
      ensures (Contents(), answer) == RefreshFinishStep(config, old(Contents()), id, now, retired, access, refresh)
    {
      var p := pending[id];
      pending := pending - {id};
      if p.secretKeyId.None? && p.data.boundKeyId.Some? && retired {
        return Refused(BindingRetired);
      }
      tokens := tokens[access := TokenOfRefresh(config, p, Access, now)];
      tokens := tokens[refresh := TokenOfRefresh(config, p, Refresh, now)];
      tokens := tokens - {p.token};
      return TokensIssued(access, refresh, p.data.scope);
    }

    /** `validateAccessToken`. */
    method Validate(now: int, token: string) returns (answer: Answer)
      modifies this
      ensures (Contents(), answer) == ValidateStep(old(Contents()), now, token)
    {
      if token == "" {
        return Refused(NoToken);
      }
      if token !in tokens || !tokens[token].kind.Access? {
        return Refused(UnknownToken);
      }
      var d := tokens[token];
      if now > d.expiresAt {
        tokens := tokens - {token};
        return Refused(TokenExpired);
      }
      return TokenValid(d.clientId, d.scope, d.isApiKey, d.boundKeyId, d.createdAt);
    }

    /** `cleanupExpiredOAuthData`: one loop over the codes, one over the tokens. */
    method Cleanup(now: int)
      modifies this
      ensures Contents() == CleanupStep(old(Contents()), now)
    {
      CleanupCodes(now);
      CleanupTokens(now);
    }

    method CleanupCodes(now: int)
      modifies this
      ensures codes == CleanupStep(old(Contents()), now).codes && tokens == old(tokens) && pending == old(pending)
    {
      var names := codes.Keys;
      while names != {}
        invariant names <= old(codes).Keys && tokens == old(tokens) && pending == old(pending)
        invariant codes == map c | c in old(codes) && (c in names || now <= old(codes)[c].expiresAt) :: old(codes)[c]
      {
        var code :| code in names;
        if now > codes[code].expiresAt {
          codes := codes - {code};
        }
        names := names - {code};
      }
    }

    method CleanupTokens(now: int)
      modifies this
      ensures tokens == CleanupStep(old(Contents()), now).tokens && codes == old(codes) && pending == old(pending)
    {
      var names := tokens.Keys;
      while names != {}
        invariant names <= old(tokens).Keys && codes == old(codes) && pending == old(pending)
        invariant tokens
               == map t | t in old(tokens) && (t in names || now <= old(tokens)[t].expiresAt) :: old(tokens)[t]
      {
        var token :| token in names;
        if now > tokens[token].expiresAt {
          tokens := tokens - {token};
        }
        names := names - {token};
      }
    }
  }
}
