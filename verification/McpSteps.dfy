/** What each step of a request does to its session, told from the record, the answers it gets and the two maps. */
module McpSteps {
  import opened Options
  import opened RedisQueue
  import opened Sessions
  import opened McpSessions
  import opened SessionRuns
  import opened SessionSteps

  /**
    * From `b` to `v` the record `ref` is written as `s`, with an origin of its own if it is anchored, its copy saved if
    * `saved`, and the request goes on with `next`; nothing else changes.
    */
  ghost predicate Writes(b: World, v: World, ref: nat, s: Session, anchored: bool, saved: bool, next: Option<Task>) {
    var s' := if anchored then s.(origin := |b.anchors|) else s;
    && v.heap == b.heap[ref := s'] && v.memory == b.memory && v.reflected == b.reflected
    && v.redis == (if saved then b.redis[s.id := s'] else b.redis)
    && |v.anchors| == |b.anchors| + (if anchored then 1 else 0) && v.anchors[..|b.anchors|] == b.anchors
    && Waits(b, v, next)
  }

  /** The request goes on with `next`, or is over. */
  ghost predicate Waits(b: World, v: World, next: Option<Task>) {
    match next
    case None => v.tasks == b.tasks
    case Some(t) => v.tasks == b.tasks[b.nextTask := t]
  }

  ghost predicate OnlyWaits(b: World, v: World, next: Option<Task>) {
    && v.heap == b.heap && v.memory == b.memory && v.redis == b.redis && v.reflected == b.reflected
    && v.anchors == b.anchors && Waits(b, v, next)
  }

  /**
    * What a request asks for next, having asked for the first `asked` of the key, the mastership, the groups and the
    * login: each only where the record, or what it remembers, calls for it.
    */
  function Question(s: Session, h: Handler, asked: nat): Option<Task> {
    if asked < 1 && h.keyId != None then Some(KeyAsked(h))
    else if asked < 2 && s.isMaster == None then Some(MasterAsked(h))
    else if asked < 3 && h.keyId != None && (h.groups == None || h.groups == Some([])) then Some(GroupsAsked(h))
    else if !s.authenticated then Some(LoginAsked(h))
    else None
  }

  predicate Sends(c: Config, wire: Wire) {
    c.redisEnabled && wire != RequestLost
  }

  /* ---------- Changes ---------- */

  lemma PutWrites(b: World, ref: nat, s: Session, saved: bool, how: How, next: Option<Task>)
    requires Fits(b) && ref in b.heap && !how.Founds?
    ensures Writes(b, Apply(b, Nothing.(put := Some(Put(ref, s, false, saved, how)), spawn := next)), ref, s,
                   how.Alters?, saved, next)
  {
    RecordFits(b, ref);
    hide Fits, Stands, RootOf, ContextOf;
  }

  lemma NothingWrites(b: World, next: Option<Task>)
    ensures OnlyWaits(b, Apply(b, Nothing.(spawn := next)), next)
  {
  }

  /** A request under way that goes on. */
  lemma GoesOn(c: Config, w: World, t: nat, out: Outside)
    requires Fits(w) && t in w.tasks
    ensures var b := Resumed(w, t);
            && Fits(b) && TaskFits(b.heap, w.tasks[t]) && b.heap == w.heap
            && Step(c, w, Resume(t, out)) == Apply(b, ResumeChange(c, b, w.tasks[t], out))
  {
    TaskHolds(w, t);
    BaseFits(w, Resume(t, out));
    hide Fits, ResumeChange, Apply, TaskFits;
  }

  lemma Began(c: Config, w: World, e: Event)
    requires Fits(w) && !e.Resume?
    ensures Step(c, w, e) == Apply(w, BeginChange(c, w, e))
  {
    hide Fits, BeginChange, Apply;
  }

  lemma QuestionMeaning(s: Session, h: Handler)
    ensures AskMaster(s, h) == Question(s, h, 1) && AskGroups(s, h) == Question(s, h, 2)
    ensures AskLogin(s, h) == Question(s, h, 3) && (h.keyId == None ==> Question(s, h, 0) == Question(s, h, 1))
  {
  }

  /* ---------- Requests with a validated session ---------- */

  /** A validated request asks its first question; a login that takes the session up again re-anchors it in place. */
  lemma ValidatedStep(c: Config, w: World, t: nat, out: Outside)
    requires Fits(w) && t in w.tasks && w.tasks[t].Validated?
    ensures var Validated(id, ref, caller) := w.tasks[t];
            var b, v := Resumed(w, t), Step(c, w, Resume(t, out));
            && ref in w.heap
            && var s := w.heap[ref];
               match caller
               case Plain => OnlyWaits(b, v, None)
               case Post => OnlyWaits(b, v, Question(s, Handler(id, ref, s.keyId, s.groupKeyIds), 0))
               case Reuse(Anchor(who, mode)) =>
                 var s' := s.(authenticated := true, keyId := who.keyId, groupKeyIds := who.groupKeyIds,
                              permissions := who.permissions, workspace := who.workspace, mode := mode,
                              isMaster := Some(who.isMaster));
                 Writes(b, v, ref, s', true, Sends(c, out.wire), None)
  {
    GoesOn(c, w, t, out);
    hide Fits, Writes, OnlyWaits, Apply, AskMaster, Step;
    var Validated(id, ref, caller) := w.tasks[t];
    var b, s := Resumed(w, t), w.heap[ref];
    var h := Handler(id, ref, s.keyId, s.groupKeyIds);
    match caller
    case Plain => NothingWrites(b, None);
    case Post =>
      QuestionMeaning(s, h);
      NothingWrites(b, Question(s, h, 0));
    case Reuse(to) => PutWrites(b, ref, Reanchored(s, to), Saves(c, out.wire), Alters, None);
  }

  /** The values a key has now in place of those the record has, as far as they are known. */
  function KeyValues(s: Session, key: KeyState): Session
    requires key.Known?
  {
    var Known(permissions, workspace, groups) := key;
    var s1 := if permissions == None then s else s.(permissions := permissions);
    var s2 := if workspace == None then s1 else s1.(workspace := workspace.value);
    if groups == None then s2 else s2.(groupKeyIds := groups)
  }

  /** A revoked key closes the session; a current one hands its values to the record, unsaved. */
  lemma KeyStep(c: Config, w: World, t: nat, out: Outside)
    requires Fits(w) && t in w.tasks && w.tasks[t].KeyAsked?
    ensures var h := w.tasks[t].h;
            var b, v := Resumed(w, t), Step(c, w, Resume(t, out));
            && h.ref in w.heap
            && match out.key
               case Revoked =>
                 && v.heap == b.heap && v.memory == b.memory - {h.id} && v.tasks == b.tasks
                 && v.redis == if Sends(c, out.wire) then b.redis - {h.id} else b.redis
               case Known(permissions, workspace, groups) =>
                 var s := KeyValues(w.heap[h.ref], out.key);
                 Writes(b, v, h.ref, s, workspace != None, false, Question(s, h.(groups := s.groupKeyIds), 1))
  {
    GoesOn(c, w, t, out);
    var h, b := w.tasks[t].h, Resumed(w, t);
    hide Fits, Writes, AskMaster, Step;
    if out.key.Known? {
      hide Apply, Question, KeyKnown, KeyValues;
      var s := KeyValues(w.heap[h.ref], out.key);
      KeyKnownIs(c, b, h, out.key, out.wire);
      PutWrites(b, h.ref, s, false, if out.key.workspace.Some? then Alters else Keeps,
                Question(s, h.(groups := s.groupKeyIds), 1));
    } else {
      KeyRevoked(c, b, h, out.wire);
      hide Apply;
    }
  }

  lemma KeyKnownIs(c: Config, b: World, h: Handler, key: KeyState, wire: Wire)
    requires h.ref in b.heap && key.Known?
    ensures var s := KeyValues(b.heap[h.ref], key);
            KeyKnown(c, b, h, key, wire)
            == Nothing.(put := Some(Put(h.ref, s, false, false, if key.workspace.Some? then Alters else Keeps)),
                        spawn := Question(s, h.(groups := s.groupKeyIds), 1))
  {
    var s := KeyValues(b.heap[h.ref], key);
    QuestionMeaning(s, h.(groups := s.groupKeyIds));
    hide AskMaster, Question;
  }

  lemma KeyRevoked(c: Config, b: World, h: Handler, wire: Wire)
    requires h.ref in b.heap
    ensures var v := Apply(b, KeyKnown(c, b, h, Revoked, wire));
            && v.heap == b.heap && v.memory == b.memory - {h.id} && v.tasks == b.tasks
            && v.redis == if Sends(c, wire) then b.redis - {h.id} else b.redis
  {
  }

  /** A record without a mastership takes that of a credential for the same key. */
  lemma MasterStep(c: Config, w: World, t: nat, out: Outside)
    requires Fits(w) && t in w.tasks && w.tasks[t].MasterAsked?
    ensures var h := w.tasks[t].h;
            var b, v := Resumed(w, t), Step(c, w, Resume(t, out));
            && h.ref in w.heap
            && var s := w.heap[h.ref];
               if out.auth != None && out.auth.value.keyId == h.keyId then
                 var s' := s.(isMaster := Some(out.auth.value.isMaster));
                 Writes(b, v, h.ref, s', true, Sends(c, out.wire), Question(s', h, 2))
               else OnlyWaits(b, v, Question(s, h, 2))
  {
    GoesOn(c, w, t, out);
    var h, b := w.tasks[t].h, Resumed(w, t);
    hide Fits, Writes, OnlyWaits, Apply, AskGroups, Question, Step;
    var s := w.heap[h.ref];
    QuestionMeaning(s, h);
    if out.auth.Some? && out.auth.value.keyId == h.keyId {
      var s' := s.(isMaster := Some(out.auth.value.isMaster));
      QuestionMeaning(s', h);
      PutWrites(b, h.ref, s', Saves(c, out.wire), Alters, Question(s', h, 2));
    } else {
      NothingWrites(b, Question(s, h, 2));
    }
  }

  /** Groups that are fetched again are kept and saved. */
  lemma GroupsStep(c: Config, w: World, t: nat, out: Outside)
    requires Fits(w) && t in w.tasks && w.tasks[t].GroupsAsked?
    ensures var h := w.tasks[t].h;
            var b, v := Resumed(w, t), Step(c, w, Resume(t, out));
            && h.ref in w.heap
            && var s := w.heap[h.ref];
               if out.groups != None then
                 Writes(b, v, h.ref, s.(groupKeyIds := out.groups), false, Sends(c, out.wire), Question(s, h, 3))
               else OnlyWaits(b, v, Question(s, h, 3))
  {
    GoesOn(c, w, t, out);
    var h, b := w.tasks[t].h, Resumed(w, t);
    hide Fits, Writes, OnlyWaits, Apply, Step;
    var s := w.heap[h.ref];
    QuestionMeaning(s, h);
    if out.groups.Some? {
      PutWrites(b, h.ref, s.(groupKeyIds := out.groups), Saves(c, out.wire), Keeps, Question(s, h, 3));
    } else {
      NothingWrites(b, Question(s, h, 3));
    }
  }

  /** A login makes the record an authenticated one, unsaved. */
  lemma LoginStep(c: Config, w: World, t: nat, out: Outside)
    requires Fits(w) && t in w.tasks && w.tasks[t].LoginAsked?
    ensures var h := w.tasks[t].h;
            var b, v := Resumed(w, t), Step(c, w, Resume(t, out));
            && h.ref in w.heap
            && if out.auth == None then OnlyWaits(b, v, None)
               else Writes(b, v, h.ref, w.heap[h.ref].(authenticated := true), true, false, None)
  {
    GoesOn(c, w, t, out);
    var h, b := w.tasks[t].h, Resumed(w, t);
    hide Fits, Writes, OnlyWaits, Apply, Step;
    NothingWrites(b, None);
    PutWrites(b, h.ref, w.heap[h.ref].(authenticated := true), false, Alters, None);
  }

  /** The session in memory takes over the version agreed. */
  lemma NegotiateStep(c: Config, w: World, id: string, agreed: string, store: Option<Wire>)
    requires Fits(w)
    ensures var v := Step(c, w, Event.Negotiate(id, agreed, store));
            if id in w.memory then
              w.memory[id] in w.heap
              && Writes(w, v, w.memory[id], w.heap[w.memory[id]].(version := Some(agreed)), false,
                        store != None && Sends(c, store.value), None)
            else OnlyWaits(w, v, None)
  {
    var e := Event.Negotiate(id, agreed, store);
    Began(c, w, e);
    hide Fits, Writes, OnlyWaits, Apply, Step;
    if id in w.memory {
      InMemory(w, id);
      PutWrites(w, w.memory[id], w.heap[w.memory[id]].(version := Some(agreed)),
                store.Some? && Saves(c, store.value), Keeps, None);
    } else {
      NothingWrites(w, None);
    }
  }

  /* ---------- Recovery ---------- */

  /** The session a context is anchored in anew. */
  function Begun(c: Config, id: string, authenticated: bool, who: Identity, mode: Option<string>,
                 version: Option<string>, now: int, origin: nat): Session {
    Session(id, authenticated, Some(who.isMaster), who.keyId, who.groupKeyIds, who.permissions, who.workspace, mode,
            Some(now), now + c.ttlMs, now, None, version, Some(1), Some(now), Some(now), origin)
  }

  /** From `b` to `v` a session begins: in memory, and in Redis if its save gets there, which the request waits for. */
  ghost predicate Begins(c: Config, b: World, v: World, s: Session, wire: Wire) {
    && v.heap == b.heap[b.nextRef := s] && v.memory == b.memory[s.id := b.nextRef] && v.reflected == b.reflected
    && v.redis == (if Sends(c, wire) then b.redis[s.id := s] else b.redis)
    && Waits(b, v, if c.redisEnabled then Some(CreateSaved(s.id, wire == Answered)) else None)
  }

  lemma CreateStep(c: Config, w: World, id: string, authenticated: bool, who: Identity, mode: Option<string>, now: int,
                   wire: Wire)
    requires Fits(w)
    ensures Begins(c, w, Step(c, w, Create(id, authenticated, Anchor(who, mode), now, wire)),
                   Begun(c, id, authenticated, who, mode, None, now, |w.anchors|), wire)
    ensures CreateStart(c, w, NewSession(c, id, authenticated, Anchor(who, mode), None, now), wire).1
         == if c.redisEnabled then Awaiting else Answer(true)
  {
    hide Fits, ContextOf;
  }

  /** A failed save takes the session out of memory again where the server fails closed. */
  lemma CreateSavedStep(c: Config, w: World, t: nat, out: Outside)
    requires Fits(w) && t in w.tasks && w.tasks[t].CreateSaved?
    ensures var CreateSaved(id, answered) := w.tasks[t];
            var b, v := Resumed(w, t), Step(c, w, Resume(t, out));
            && v.heap == b.heap && v.redis == b.redis && v.tasks == b.tasks && v.reflected == b.reflected
            && v.memory == (if !answered && c.failClosed then b.memory - {id} else b.memory)
            && CreateFinish(c, id, answered).1 == Answer(answered || !c.failClosed)
  {
    GoesOn(c, w, t, out);
    hide Fits;
  }

  /**
    * A request whose session is missing recovers it if the policy admits its identifier and it authenticates; where
    * Redis is in use it first looks for a copy, whose identity must be its own.
    */
  lemma RecoveringStep(c: Config, w: World, t: nat, out: Outside)
    requires Fits(w) && t in w.tasks && w.tasks[t].Recovering?
    ensures var Recovering(id, version) := w.tasks[t];
            var next :=
              if !c.admits(id) || out.auth == None then None
              else if c.redisEnabled then
                var copy := if out.wire == Answered && id in w.redis then Some(w.redis[id]) else None;
                Some(RecoverFetched(id, version, out.auth.value, copy))
              else if out.mode == None then None
              else Some(RecoverAllowed(id, version, Anchor(out.auth.value, out.mode.value)));
            OnlyWaits(Resumed(w, t), Step(c, w, Resume(t, out)), next)
  {
    GoesOn(c, w, t, out);
    hide Fits;
  }

  lemma RecoverFetchedStep(c: Config, w: World, t: nat, out: Outside)
    requires Fits(w) && t in w.tasks && w.tasks[t].RecoverFetched?
    ensures var RecoverFetched(id, version, who, stored) := w.tasks[t];
            var same := stored == None || (stored.value.keyId == who.keyId
                                           && (stored.value.isMaster == Some(true) <==> who.isMaster));
            OnlyWaits(Resumed(w, t), Step(c, w, Resume(t, out)),
                      if same && out.mode != None then Some(RecoverAllowed(id, version, Anchor(who, out.mode.value)))
                      else None)
  {
    GoesOn(c, w, t, out);
    hide Fits;
  }

  /** The recovered session begins anew under the identifier presented, in the context of the request. */
  lemma RecoverAllowedStep(c: Config, w: World, t: nat, out: Outside)
    requires Fits(w) && t in w.tasks && w.tasks[t].RecoverAllowed?
    ensures var RecoverAllowed(id, version, Anchor(who, mode)) := w.tasks[t];
            Begins(c, Resumed(w, t), Step(c, w, Resume(t, out)),
                   Begun(c, id, true, who, mode, version, out.now, |w.anchors|), out.wire)
  {
    GoesOn(c, w, t, out);
    hide Fits, ContextOf;
  }

  /* ---------- Closing and reflecting ---------- */

  /** A close waits for the reflection of its open segment, and does nothing where there is no session. */
  lemma CloseStep(c: Config, w: World, id: string, preserveRedis: bool)
    requires Fits(w)
    ensures var v := Step(c, w, Event.Close(id, preserveRedis));
            && v.heap == w.heap && v.memory == w.memory && v.redis == w.redis && v.anchors == w.anchors
            && if id in w.memory then
                 && w.memory[id] in w.heap
                 && v.reflected == w.reflected + [TargetOf(c, w.heap[w.memory[id]])]
                 && Waits(w, v, Some(Closing(id, preserveRedis, None)))
               else v.reflected == w.reflected && Waits(w, v, None)
  {
    Began(c, w, Event.Close(id, preserveRedis));
    if id in w.memory {
      InMemory(w, id);
    }
    hide Fits, Step;
  }

  /** A record's own close takes it out of both maps. */
  lemma ExpelStep(c: Config, w: World, id: string, wire: Wire)
    requires Fits(w)
    ensures var v := Step(c, w, Expel(id, wire));
            && v.heap == w.heap && v.memory == w.memory - {id} && v.reflected == w.reflected && v.tasks == w.tasks
            && v.redis == if Sends(c, wire) then w.redis - {id} else w.redis
  {
    hide Fits;
  }

  /** What a reflection by hand is of: the segment the session is in, as far as a store tells. */
  ghost predicate IsPeeked(c: Config, w: World, id: string, get: Wire, target: Target) {
    if !c.segments then target == Whole(id)
    else if id in w.memory then w.memory[id] in w.heap && target == TargetOf(c, w.heap[w.memory[id]])
    else if c.redisEnabled && get == Answered && id in w.redis then target == TargetOf(c, w.redis[id])
    else target == Segment(id, 1)
  }

  /** A reflection by hand is run later, of the target found now. */
  lemma PeekStep(c: Config, w: World, id: string, get: Wire) returns (target: Target)
    requires Fits(w)
    ensures IsPeeked(c, w, id, get, target)
    ensures OnlyWaits(w, Step(c, w, Event.Peek(id, get)), Some(Reflecting(target)))
  {
    target := PeekFinds(c, w, id, get);
    Began(c, w, Event.Peek(id, get));
    hide *;
    assert BeginChange(c, w, Event.Peek(id, get)) == Sessions.Peek(c, w, id, get) by {
      PeekBegins(c, w, id, get);
    }
    NothingWrites(w, Some(Reflecting(target)));
  }

  lemma PeekBegins(c: Config, w: World, id: string, get: Wire)
    requires Fits(w)
    ensures BeginChange(c, w, Event.Peek(id, get)) == Sessions.Peek(c, w, id, get)
  {
    hide Fits, Sessions.Peek;
  }

  lemma PeekFinds(c: Config, w: World, id: string, get: Wire) returns (target: Target)
    requires Fits(w)
    ensures IsPeeked(c, w, id, get, target)
    ensures Sessions.Peek(c, w, id, get) == Nothing.(spawn := Some(Reflecting(target)))
  {
    if id in w.memory {
      InMemory(w, id);
    }
    hide Fits;
    target := Sessions.Peek(c, w, id, get).spawn.value.target;
  }

  lemma RelistStep(c: Config, w: World, target: Target)
    requires Fits(w)
    ensures OnlyWaits(w, Step(c, w, Event.Relist(target)),
                      if target.session in w.memory then None else Some(Reflecting(target)))
  {
    hide Fits;
  }

  /** A session is long idle if it was used, or created where its use is not recorded, and not reflected since. */
  lemma IdleMeaning(c: Config, s: Session, now: int)
    ensures NeedsReflection(c, s, now) <==>
            && (if s.lastAccessedAt != 0 then now - s.lastAccessedAt > c.reflectAfterMs
                else s.createdAt != None && now - s.createdAt.value > c.reflectAfterMs)
            && (s.lastReflectedAt == None || s.lastReflectedAt == Some(0)
                || now - s.lastReflectedAt.value > c.reflectAfterMs)
  {
  }

  lemma ReflectedStep(c: Config, w: World, t: nat, out: Outside)
    requires Fits(w) && t in w.tasks && (w.tasks[t].IdleReflected? || w.tasks[t].Reflecting?)
    ensures var b, v := Resumed(w, t), Step(c, w, Resume(t, out));
            match w.tasks[t]
            case IdleReflected(id, ref, at) =>
              ref in w.heap && Writes(b, v, ref, w.heap[ref].(lastReflectedAt := Some(at)), false, false, None)
            case Reflecting(target) =>
              v.heap == b.heap && v.memory == b.memory && v.redis == b.redis && Waits(b, v, None)
              && v.reflected == b.reflected + [target]
            case _ => true
  {
    GoesOn(c, w, t, out);
    if w.tasks[t].IdleReflected? {
      RecordFits(w, w.tasks[t].ref);
    }
    hide Fits, Stands;
  }
}
