/** Every answer of the authorization server, told from the request and what is stored, and what each leaves stored. */
module OAuthAnswers {
  import opened Options
  import opened OAuth
  import opened OAuthLaws

  function Given(s: string): Option<string> {
    if |s| > 0 then Some(s) else None
  }

  /**
    * A code is issued exactly for an authorization the client may ask for; anything else is refused and stores nothing.
    */
  lemma AuthorizeTable(g: Config, s: State, e: Event)
    requires e.Authorize?
    ensures var Authorize(now, r, c, code) := e;
            var (s', answer) := Step(g, s, e);
            if Authorizes(r, c) then
              && answer == CodeIssued(code)
              && s' == s.(codes := s.codes[code :=
                     Code(r.clientId, r.redirectUri, r.challenge, if r.scope == "" then "mcp" else r.scope, c.isApiKey,
                          c.boundKeyId, c.boundKeyId != None, Given(r.resource), now, now + 600_000)])
            else
              && s' == s
              && Outward(answer) == Failed(if r.responseType != "code" then "unsupported_response_type"
                                           else if r.redirectUri == "" || r.challenge == ""
                                               || r.challengeMethod != "S256"
                                           then "invalid_request"
                                           else if !c.known then "invalid_client" else "invalid_request")
  {
  }

  /** The key a token is bound to: that of the secret presented, or else the one there was. */
  function KeyFor(presented: Option<string>, stored: Option<string>): Option<string> {
    match presented
    case Some(k) => Some(k)
    case None => stored
  }

  /** A token of the grant of `clientId` and `scope`. */
  predicate IsToken(d: Token, kind: TokenKind, clientId: string, scope: string, isApiKey: bool, key: Option<string>,
                    resource: Option<string>, now: int, ttlMs: int) {
    && d.kind == kind && d.clientId == clientId && d.scope == scope && d.boundKeyId == key && d.resource == resource
    && (d.isApiKey <==> key != None || isApiKey) && d.createdAt == now && d.expiresAt == now + ttlMs
  }

  /** The request fits the code but for the client it may be bound to. */
  predicate FitsUnbound(g: Config, d: Code, now: int, r: CodeRequest) {
    Fits(g, d.(boundByClient := false), now, r)
  }

  /**
    * A code is spent by the first exchange that names it with a verifier. It yields a pair of tokens of its client and
    * scope exactly if the request fits it.
    */
  lemma ExchangeTable(g: Config, s: State, e: Event)
    requires e.Exchange? && e.access != e.refresh
    ensures var Exchange(now, r, access, refresh) := e;
            var (s', answer) := Step(g, s, e);
            && s'.pending == s.pending
            && s'.codes == (if IsAttempt(e, r.code) then s.codes - {r.code} else s.codes)
            && if IsAttempt(e, r.code) && r.code in s.codes && Fits(g, s.codes[r.code], now, r) then
                 var d := s.codes[r.code];
                 var key, resource := KeyFor(r.secretKeyId, d.boundKeyId), KeyFor(Given(r.resource), d.resource);
                 && answer == TokensIssued(access, refresh, d.scope)
                 && access in s'.tokens && refresh in s'.tokens
                 && IsToken(s'.tokens[access], Access, d.clientId, d.scope, d.isApiKey, key, resource, now,
                            g.accessTtlMs)
                 && IsToken(s'.tokens[refresh], Refresh, d.clientId, d.scope, d.isApiKey, key, resource, now,
                            g.refreshTtlMs)
                 && s'.tokens - {access, refresh} == s.tokens - {access, refresh}
               else
                 s'.tokens == s.tokens
                 && Outward(answer) == Failed(if !IsAttempt(e, r.code) then "invalid_request"
                                              else if r.code in s.codes && FitsUnbound(g, s.codes[r.code], now, r)
                                              then "invalid_client" else "invalid_grant")
  {
    var Exchange(now, r, access, refresh) := e;
    if IsAttempt(e, r.code) {
      ExchangeLooksUp(g, s, e);
    } else {
      hide TokenOfCode, CodeProblem;
    }
  }

  lemma ExchangeLooksUp(g: Config, s: State, e: Event)
    requires e.Exchange? && e.access != e.refresh && IsAttempt(e, e.r.code)
    ensures var Exchange(now, r, access, refresh) := e;
            var (s', answer) := Step(g, s, e);
            && s'.pending == s.pending && s'.codes == s.codes - {r.code}
            && if r.code in s.codes && Fits(g, s.codes[r.code], now, r) then
                 var d := s.codes[r.code];
                 var key, resource := KeyFor(r.secretKeyId, d.boundKeyId), KeyFor(Given(r.resource), d.resource);
                 && answer == TokensIssued(access, refresh, d.scope)
                 && access in s'.tokens && refresh in s'.tokens
                 && IsToken(s'.tokens[access], Access, d.clientId, d.scope, d.isApiKey, key, resource, now,
                            g.accessTtlMs)
                 && IsToken(s'.tokens[refresh], Refresh, d.clientId, d.scope, d.isApiKey, key, resource, now,
                            g.refreshTtlMs)
                 && s'.tokens - {access, refresh} == s.tokens - {access, refresh}
               else
                 s'.tokens == s.tokens
                 && Outward(answer) == Failed(if r.code in s.codes && FitsUnbound(g, s.codes[r.code], now, r)
                                              then "invalid_client" else "invalid_grant")
  {
  }

  /** A refresh is looked up by a refresh token that has not expired; an expired one is dropped. */
  lemma RefreshStartTable(g: Config, s: State, e: Event)
    requires e.Start?
    ensures var Start(now, id, token, secretKeyId, resource) := e;
            var (s', answer) := Step(g, s, e);
            var found := token != "" && token in s.tokens && s.tokens[token].kind == Refresh;
            && s'.codes == s.codes
            && if found && now <= s.tokens[token].expiresAt then
                 && answer == Looking && s'.tokens == s.tokens
                 && s'.pending == s.pending[id := Refreshing(token, s.tokens[token], secretKeyId, Given(resource))]
               else
                 && s'.pending == s.pending && s'.tokens == (if found then s.tokens - {token} else s.tokens)
                 && Outward(answer) == Failed(if token == "" then "invalid_request" else "invalid_grant")
  {
  }

  /**
    * It is refused exactly if no secret was presented, the token is bound to a key, and the key's secret was retired
    * since. Otherwise a pair of the same client and scope takes the place of the token.
    */
  lemma RefreshFinishTable(g: Config, s: State, e: Event)
    requires e.Finish? && e.id in s.pending && e.access != e.refresh
    requires s.pending[e.id].token != e.access && s.pending[e.id].token != e.refresh
    ensures var Finish(now, id, retired, access, refresh) := e;
            var p := s.pending[id];
            var (s', answer) := Step(g, s, e);
            && s'.codes == s.codes && s'.pending == s.pending - {id}
            && if p.secretKeyId == None && p.data.boundKeyId != None && retired then
                 s'.tokens == s.tokens && answer == Refused(BindingRetired)
                     && Outward(answer) == Failed("invalid_grant")
               else
                 var d, key, resource := p.data, KeyFor(p.secretKeyId, p.data.boundKeyId),
                                         KeyFor(p.resource, p.data.resource);
                 && answer == TokensIssued(access, refresh, d.scope)
                 && access in s'.tokens && refresh in s'.tokens && p.token !in s'.tokens
                 && IsToken(s'.tokens[access], Access, d.clientId, d.scope, d.isApiKey, key, resource, now,
                            g.accessTtlMs)
                 && IsToken(s'.tokens[refresh], Refresh, d.clientId, d.scope, d.isApiKey, key, resource, now,
                            g.refreshTtlMs)
                 && s'.tokens - {access, refresh} == s.tokens - {access, refresh, p.token}
  {
  }

  /** A token is valid exactly if it is a stored access token that has not expired; an expired one is dropped. */
  lemma ValidateTable(g: Config, s: State, e: Event)
    requires e.Validate?
    ensures var Validate(now, token) := e;
            var (s', answer) := Step(g, s, e);
            var found := token != "" && token in s.tokens && s.tokens[token].kind == Access;
            && s'.codes == s.codes && s'.pending == s.pending
            && if found && now <= s.tokens[token].expiresAt then
                 var d := s.tokens[token];
                 answer == TokenValid(d.clientId, d.scope, d.isApiKey, d.boundKeyId, d.createdAt) && s' == s
               else
                 answer.Refused? && s'.tokens == (if found then s.tokens - {token} else s.tokens)
  {
  }

  /**
    * Clean-up drops exactly the codes and tokens that have expired, and stores nothing.
    */
  lemma CleanupTable(g: Config, s: State, e: Event, name: string)
    requires e.Cleanup?
    ensures var s' := Step(g, s, e).0;
            && s'.pending == s.pending
            && (name in s'.codes <==> name in s.codes && e.now <= s.codes[name].expiresAt)
            && (name in s'.tokens <==> name in s.tokens && e.now <= s.tokens[name].expiresAt)
            && (name in s'.codes ==> s'.codes[name] == s.codes[name])
            && (name in s'.tokens ==> s'.tokens[name] == s.tokens[name])
  {
  }
}
