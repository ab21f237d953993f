/** What the requests of `lib/handlers/mcp-handler.js` do to sessions once they are validated, or are found missing. */
module McpSessions {
  import opened Options
  import opened RedisQueue
  import opened Sessions

  /** The state of an API key as it is asked for: revoked, or the current values it has. */
  datatype KeyState =
    | Revoked
    | Known(permissions: Option<seq<string>>, workspace: Option<Option<string>>, groups: Option<seq<string>>)

  /**
    * What a request under way gets when it goes on: the clock, how its next Redis command fares, whom authentication
    * finds, the mode granted, the key's state and its groups; each is used where the request asks for it.
    */
  datatype Outside = Outside(
    now: int, wire: Wire, auth: Option<Identity>, mode: Option<Option<string>>, key: KeyState,
        groups: Option<seq<string>>)

  /** `reanchorReusedSession`. */
  function Reanchored(s: Session, to: Anchor): Session {
    s.(authenticated := true, keyId := to.who.keyId, groupKeyIds := to.who.groupKeyIds,
       permissions := to.who.permissions, workspace := to.who.workspace, mode := to.mode,
       isMaster := Some(to.who.isMaster))
  }

  /** The next thing a request asks for: the session's mastership, its key's groups, a login, or nothing. */
  function AskMaster(s: Session, h: Handler): Option<Task> {
    if s.isMaster.None? then Some(MasterAsked(h)) else AskGroups(s, h)
  }

  function AskGroups(s: Session, h: Handler): Option<Task> {
    if OrElse(h.groups, []) == [] && h.keyId.Some? then Some(GroupsAsked(h)) else AskLogin(s, h)
  }

  function AskLogin(s: Session, h: Handler): Option<Task> {
    if s.authenticated then None else Some(LoginAsked(h))
  }

  /** The request has its validated record. */
  function AfterValidation(c: Config, w: World, id: string, ref: nat, caller: Caller, wire: Wire): Change
    requires ref in w.heap
  {
    var s := w.heap[ref];
    match caller
    case Plain => Nothing
    case Reuse(to) => Nothing.(put := Some(Put(ref, Reanchored(s, to), false, Saves(c, wire), Alters)))
    case Post =>
      var h := Handler(id, ref, s.keyId, s.groupKeyIds);
      Nothing.(spawn := if s.keyId.Some? then Some(KeyAsked(h)) else AskMaster(s, h))
  }

  /** The key's state is known: the session closes, or takes over what has changed. */
  function KeyKnown(c: Config, w: World, h: Handler, key: KeyState, wire: Wire): Change
    requires h.ref in w.heap
  {
    match key
    case Revoked => CloseFinish(c, h.id, false, None, wire)
    case Known(permissions, workspace, groups) =>
      var s := w.heap[h.ref];
      var t := s.(permissions := if permissions.Some? then permissions else s.permissions,
                  workspace := OrElse(workspace, s.workspace),
                  groupKeyIds := if groups.Some? then groups else s.groupKeyIds);
      Nothing.(put := Some(Put(h.ref, t, false, false, if workspace.Some? then Alters else Keeps)),
               spawn := AskMaster(t, h.(groups := t.groupKeyIds)))
  }

  /**
    * A session stored before mastership was is given that of the request's own credential, if it is for the same key.
    */
  function MasterKnown(c: Config, w: World, h: Handler, auth: Option<Identity>, wire: Wire): Change
    requires h.ref in w.heap
  {
    var s := w.heap[h.ref];
    if auth.Some? && auth.value.keyId == h.keyId then
      var t := s.(isMaster := Some(auth.value.isMaster));
      Nothing.(put := Some(Put(h.ref, t, false, Saves(c, wire), Alters)), spawn := AskGroups(t, h))
    else Nothing.(spawn := AskGroups(s, h))
  }

  function GroupsKnown(c: Config, w: World, h: Handler, groups: Option<seq<string>>, wire: Wire): Change
    requires h.ref in w.heap
  {
    var s := w.heap[h.ref];
    if groups.Some? then
      var t := s.(groupKeyIds := groups);
      Nothing.(put := Some(Put(h.ref, t, false, Saves(c, wire), Keeps)), spawn := AskLogin(t, h))
    else Nothing.(spawn := AskLogin(s, h))
  }

  function LoggedIn(w: World, h: Handler, auth: Option<Identity>): Change
    requires h.ref in w.heap
  {
    if auth.None? then Nothing
    else Nothing.(put := Some(Put(h.ref, w.heap[h.ref].(authenticated := true), false, false, Alters)))
  }

  /* ---------- Recovery under the identifier a request presents ---------- */

  /** `hasSessionIdentityMismatch`. */
  predicate Mismatch(stored: Option<Session>, who: Identity) {
    stored.Some? && (stored.value.keyId != who.keyId || (stored.value.isMaster == Some(true)) != who.isMaster)
  }

  function Allow(id: string, version: Option<string>, who: Identity, mode: Option<Option<string>>): Change {
    Nothing.(spawn := if mode.Some? then Some(RecoverAllowed(id, version, Anchor(who, mode.value))) else None)
  }

  /**
    * The request may recover its session, and is authenticated, or is not: look for a copy whose identity must match.
    */
  function RecoverStart(c: Config, w: World, id: string, version: Option<string>, out: Outside): Change {
    if !c.admits(id) || out.auth.None? then Nothing
    else if !c.redisEnabled then Allow(id, version, out.auth.value, out.mode)
    else
      var stored := if out.wire.Answered? && id in w.redis then Some(w.redis[id]) else None;
      Nothing.(spawn := Some(RecoverFetched(id, version, out.auth.value, stored)))
  }

  function RecoverCheck(id: string, version: Option<string>, who: Identity, stored: Option<Session>,
                        mode: Option<Option<string>>): Change {
    if Mismatch(stored, who) then Nothing else Allow(id, version, who, mode)
  }

  function RecoverCreate(c: Config, w: World, id: string, version: Option<string>, to: Anchor, now: int,
                         wire: Wire): Change {
    CreateStart(c, w, NewSession(c, id, true, to, version, now), wire).0
  }

  /** The end of an `initialize`, or a request at another protocol version: the session takes the version over. */
  function Negotiate(c: Config, w: World, id: string, agreed: string, store: Option<Wire>): Change
    requires Fits(w)
  {
    if id !in w.memory then Nothing
    else
      var ref := w.memory[id];
      var s := w.heap[ref].(version := Some(agreed));
      Nothing.(put := Some(Put(ref, s, false, store.Some? && Saves(c, store.value), Keeps)))
  }
}
