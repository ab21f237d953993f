/** The requests of `lib/handlers/mcp-handler.js`, working on the records and maps of the session store in place. */
module McpHandler {
  import opened Options
  import opened RedisQueue
  import opened Sessions
  import opened McpSessions
  import S = SessionStore

  class McpHandler {
    const store: S.SessionStore

    constructor (store: S.SessionStore)
      ensures this.store == store
    {
      this.store := store;
    }

    /** The request writes to the record it holds. */
    method Assign(ref: nat, s: Session)
      modifies store`heap
      ensures store.heap == old(store.heap)[ref := s]
    {
      store.heap := store.heap[ref := s];
    }

    /** The request gives the record it holds a new context. */
    method Reanchor(ref: nat, s: Session)
      modifies store`heap, store`anchors
      ensures store.heap == old(store.heap)[ref := s.(origin := |old(store.anchors)|)]
      ensures store.anchors == old(store.anchors) + [Anchoring(RootOf(old(store.anchors), s), ContextOf(s))]
    {
      store.heap := store.heap[ref := s.(origin := |store.anchors|)];
      store.anchors := store.anchors + [Anchoring(RootOf(store.anchors, s), ContextOf(s))];
    }

    method AwaitIf(t: Option<Task>)
      modifies store`tasks, store`nextTask
      ensures t.None? ==> store.tasks == old(store.tasks) && store.nextTask == old(store.nextTask)
      ensures t.Some? ==> store.tasks == old(store.tasks)[old(store.nextTask) := t.value]
                          && store.nextTask == old(store.nextTask) + 1
    {
      if t.Some? {
        store.Await(t.value);
      }
    }

    /** `_resolveExistingSession` and `_createInitializeSession` with the record they validated. */
    method Proceed(id: string, ref: nat, caller: Caller, wire: Wire)
      requires store.Has(ref)
      modifies store
      ensures store.State() == Apply(old(store.State()),
                                     AfterValidation(store.config, old(store.State()), id, ref, caller, wire))
    {
      var session := store.heap[ref];
      match caller
      case Plain =>
      case Reuse(to) =>
        Reanchor(ref, Reanchored(session, to));
        store.SaveToRedis(store.heap[ref], wire);
      case Post =>
        var h := Handler(id, ref, session.keyId, session.groupKeyIds);
        if session.keyId.Some? {
          store.Await(KeyAsked(h));
        } else {
          AwaitIf(AskMaster(session, h));
        }
    }

    /** The key's state has been asked for. */
    method KeyAnswered(h: Handler, key: KeyState, wire: Wire)
      requires store.Has(h.ref)
      modifies store
      ensures store.State() == Apply(old(store.State()), KeyKnown(store.config, old(store.State()), h, key, wire))
    {
      match key
      case Revoked => store.CloseFinished(h.id, false, None, wire);
      case Known(permissions, workspace, groups) =>
        var session := store.heap[h.ref];
        session := session.(permissions := if permissions.Some? then permissions else session.permissions,
                            workspace := OrElse(workspace, session.workspace),
                            groupKeyIds := if groups.Some? then groups else session.groupKeyIds);
        TakeOver(h, session, workspace.Some?);
    }

    /** The record takes over the key's current values, its workspace among them or not. */
    method TakeOver(h: Handler, session: Session, anchored: bool)
      requires store.Has(h.ref)
      modifies store`heap, store`anchors, store`tasks, store`nextTask
      ensures var change := Nothing.(put := Some(Put(h.ref, session, false, false, if anchored then Alters else Keeps)),
                                     spawn := AskMaster(session, h.(groups := session.groupKeyIds)));
              store.State() == Apply(old(store.State()), change)
    {
      hide AskMaster, ContextOf;
      if anchored {
        Reanchor(h.ref, session);
      } else {
        Assign(h.ref, session);
      }
      AwaitIf(AskMaster(session, h.(groups := session.groupKeyIds)));
    }

    method MasterAnswered(h: Handler, auth: Option<Identity>, wire: Wire)
      requires store.Has(h.ref)
      modifies store
      ensures store.State() == Apply(old(store.State()), MasterKnown(store.config, old(store.State()), h, auth, wire))
    {
      hide ContextOf;
      if auth.Some? && auth.value.keyId == h.keyId {
        Reanchor(h.ref, store.heap[h.ref].(isMaster := Some(auth.value.isMaster)));
        store.SaveToRedis(store.heap[h.ref], wire);
      }
      AwaitIf(AskGroups(store.heap[h.ref], h));
    }

    method GroupsAnswered(h: Handler, groups: Option<seq<string>>, wire: Wire)
      requires store.Has(h.ref)
      modifies store
      ensures store.State() == Apply(old(store.State()), GroupsKnown(store.config, old(store.State()), h, groups, wire))
    {
      if groups.Some? {
        Assign(h.ref, store.heap[h.ref].(groupKeyIds := groups));
        store.SaveToRedis(store.heap[h.ref], wire);
      }
      AwaitIf(AskLogin(store.heap[h.ref], h));
    }

    method LoginAnswered(h: Handler, auth: Option<Identity>)
      requires store.Has(h.ref)
      modifies store
      ensures store.State() == Apply(old(store.State()), LoggedIn(old(store.State()), h, auth))
    {
      if auth.Some? {
        Reanchor(h.ref, store.heap[h.ref].(authenticated := true));
      }
    }

    /** `_recoverSessionWithSameId`, once the request is authenticated, up to the copy it compares identities with. */
    method Recover(id: string, version: Option<string>, out: Outside)
      modifies store
      ensures store.State() == Apply(old(store.State()),
                                     RecoverStart(store.config, old(store.State()), id, version, out))
    {
      if !store.config.admits(id) || out.auth.None? {
        return;
      }
      if store.config.redisEnabled {
        var stored := if out.wire.Answered? && id in store.redis then Some(store.redis[id]) else None;
        store.Await(RecoverFetched(id, version, out.auth.value, stored));
      } else if out.mode.Some? {
        store.Await(RecoverAllowed(id, version, Anchor(out.auth.value, out.mode.value)));
      }
    }

    method RecoverCompared(id: string, version: Option<string>, who: Identity, stored: Option<Session>,
                           mode: Option<Option<string>>)
      modifies store
      ensures store.State() == Apply(old(store.State()), RecoverCheck(id, version, who, stored, mode))
    {
      if stored.Some? {
        var mismatch := stored.value.keyId != who.keyId || (stored.value.isMaster == Some(true)) != who.isMaster;
        if mismatch {
          return;
        }
      }
      if mode.Some? {
        store.Await(RecoverAllowed(id, version, Anchor(who, mode.value)));
      }
    }

    /** Its creation of the session under the identifier presented. */
    method Recreate(id: string, version: Option<string>, to: Anchor, now: int, wire: Wire) returns (reply: Reply<bool>)
      modifies store
      ensures store.State() == Apply(old(store.State()),
                                     RecoverCreate(store.config, old(store.State()), id, version, to, now, wire))
    {
      reply := store.Create(NewSession(store.config, id, true, to, version, now), wire);
    }

    /** The protocol version of the session in memory, saved at once where it ends an `initialize`. */
    method Agree(id: string, agreed: string, save: Option<Wire>)
      requires Fits(store.State())
      modifies store
      ensures store.State() == Apply(old(store.State()), Negotiate(store.config, old(store.State()), id, agreed, save))
    {
      if id in store.memory {
        var ref := store.memory[id];
        Assign(ref, store.heap[ref].(version := Some(agreed)));
        if save.Some? {
          store.SaveToRedis(store.heap[ref], save.value);
        }
      }
    }
  }
}
