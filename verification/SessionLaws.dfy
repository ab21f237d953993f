/** What a rotation does during which no other request runs. */
module SessionLaws {
  import opened Options
  import opened RedisQueue
  import opened Sessions
  import opened McpSessions
  import opened SessionRuns

  /** The record a rotation finds: the one in memory, or else a copy of the one in Redis where Redis is in use. */
  function Found(c: Config, w: World, id: string, get: Wire): Option<Session>
    requires Fits(w)
  {
    if id in w.memory then
      InMemory(w, id);
      Some(w.heap[w.memory[id]])
    else if c.redisEnabled && get.Answered? && id in w.redis then Some(w.redis[id])
    else None
  }

  /** The steps of `rotateSession` after the new session `n` is saved, one after the other. */
  function RotateRest(c: Config, v: World, r: Rotation, n: Session, answered: bool): (World, Result<Rotated, int>)
    requires Fits(v)
  {
    var (swap, reply) := RotateSwap(c, v, r, n, answered);
    var swapped := Apply(v, swap);
    if reply.Answer? then (swapped, reply.value)
    else
      SwapFits(c, v, r, n, answered);
      var (finish, reply2) := RotateFinish(c, Resumed(swapped, v.nextTask), r, n, r.oldId in v.memory,
                                           r.deleteOld.Answered?);
      (Apply(Resumed(swapped, v.nextTask), finish), reply2.value)
  }

  /** The steps of `rotateSession` from the record found on. */
  function RotateFrom(c: Config, w: World, r: Rotation, ref: nat): (World, Result<Rotated, int>)
    requires Fits(w) && ref in w.heap
  {
    var (check, reply) := RotateCheck(c, w, r, ref);
    var checked := Apply(w, check);
    if reply == Awaiting then
      CheckFits(c, w, r, ref);
      RotateRest(c, Resumed(checked, w.nextTask), r, check.spawn.value.s, check.spawn.value.answered)
    else if reply == Answer(Err(401)) && r.oldId in w.memory then
      (Apply(Resumed(checked, w.nextTask), CloseFinish(c, r.oldId, false, None, r.deleteOld)), Err(401))
    else (checked, reply.value)
  }

  function RotateAlone(c: Config, w: World, r: Rotation): (World, Result<Rotated, int>)
    requires Fits(w)
  {
    if r.oldId in w.memory then
      InMemory(w, r.oldId);
      RotateFrom(c, w, r, w.memory[r.oldId])
    else if !c.redisEnabled then (w, Err(404))
    else
      var (put, found) := Fetch(w, r.oldId, r.get);
      FetchedFits(w, r.oldId, r.get);
      if found.None? then (w, Err(404)) else RotateFrom(c, Apply(w, Nothing.(put := put)), r, found.value)
  }

  lemma SwapFits(c: Config, v: World, r: Rotation, n: Session, answered: bool)
    requires Fits(v)
    ensures Fits(Resumed(Apply(v, RotateSwap(c, v, r, n, answered).0), v.nextTask))
  {
    ResumeFits(c, v, RotateSaved(r, n, answered), Outside(0, Answered, None, None, Revoked, None));
    var ch := RotateSwap(c, v, r, n, answered).0;
    hide RotateSwap;
    ApplyFits(v, ch, false);
    DropFits(Apply(v, ch), v.nextTask);
  }

  lemma CheckFits(c: Config, w: World, r: Rotation, ref: nat)
    requires Fits(w) && ref in w.heap
    ensures Fits(Resumed(Apply(w, RotateCheck(c, w, r, ref).0), w.nextTask))
  {
    RotateCheckFits(c, w, r, ref);
    hide RotateCheck;
    ApplyFits(w, RotateCheck(c, w, r, ref).0, false);
    DropFits(Apply(w, RotateCheck(c, w, r, ref).0), w.nextTask);
  }

  lemma DropFits(w: World, t: nat)
    requires Fits(w)
    ensures Fits(Resumed(w, t))
  {
  }

  lemma FetchedFits(w: World, id: string, get: Wire)
    requires Fits(w)
    ensures var v := Apply(w, Nothing.(put := Fetch(w, id, get).0)); var found := Fetch(w, id, get).1;
            && Fits(v) && v.memory == w.memory && v.redis == w.redis
            && (found.Some? ==> found.value in v.heap && v.heap[found.value] == w.redis[id])
            && (found.Some? <==> get.Answered? && id in w.redis)
            && forall ref :: ref in w.heap ==> ref in v.heap && v.heap[ref] == w.heap[ref]
  {
    NextIsNew(w);
    if id in w.redis {
      CopyFits(w, id);
    }
    ApplyFits(w, Nothing.(put := Fetch(w, id, get).0), false);
    hide Fits;
  }

  ghost predicate NewIdUnused(w: World, r: Rotation) {
    r.newId != r.oldId && r.newId !in w.memory && r.newId !in w.redis
  }

  /** The rotation may go ahead and every Redis command it depends on is answered. */
  predicate Permitted(c: Config, w: World, r: Rotation)
    requires Fits(w)
  {
    var found := Found(c, w, r.oldId, r.get);
    && found.Some?
    && (r.trustedLocal || Entitled(r.requester, found.value))
    && r.now <= found.value.expiresAt
    && (c.redisEnabled ==> r.deleteOld.Answered? && (r.save.Answered? || !c.failClosed))
  }

  /** The new session has the credential's current groups and permissions, a full lifetime and a segment of its own. */
  predicate StartsAnew(c: Config, r: Rotation, found: Session, s: Session) {
    && (if r.trustedLocal then s.groupKeyIds == found.groupKeyIds && s.permissions == found.permissions
        else r.requester.Some? && s.groupKeyIds == r.requester.value.groupKeyIds
             && s.permissions == r.requester.value.permissions)
    && s.expiresAt == r.createdAt + c.ttlMs && s.version.None?
    && s.segmentSeq == Some(1) && s.segmentStartedAt == Some(r.createdAt) && s.lastToolActivityAt == Some(r.createdAt)
  }

  lemma SuccessorMeaning(c: Config, r: Rotation, s: Session)
    requires r.trustedLocal || SameIdentity(r.requester, s)
    ensures var n := Successor(c, r, s);
            ContextOf(n) == ContextOf(s) && n.origin == s.origin && StartsAnew(c, r, s, n) && n.id == r.newId
  {
  }

  /** How the steps after the saving of the new session `n` end. */
  lemma RestMeaning(c: Config, v: World, r: Rotation, n: Session, answered: bool)
    requires Fits(v) && r.newId != r.oldId
    ensures var (after, result) := RotateRest(c, v, r, n, answered);
            && after.heap == v.heap && after.redis == RestRedis(c, v.redis, r, answered)
            && if c.redisEnabled && ((!answered && c.failClosed) || !r.deleteOld.Answered?)
               then result == Err(503) && after.memory == v.memory - {r.newId}
               else
                 && result.Ok? && after.memory == v.memory - {r.oldId}
                 && result.value == Rotated(r.oldId, r.newId, OkExpiry(c, v, r), n.keyId, n.workspace, n.mode)
  {
    if !c.redisEnabled || (!answered && c.failClosed) {
      RestEarly(c, v, r, n, answered);
    } else {
      RestLate(c, v, r, n, answered);
    }
    hide *;
  }

  lemma RestEarly(c: Config, v: World, r: Rotation, n: Session, answered: bool)
    requires Fits(v) && r.newId != r.oldId && (!c.redisEnabled || (!answered && c.failClosed))
    ensures var (after, result) := RotateRest(c, v, r, n, answered);
            && after.heap == v.heap && after.redis == v.redis
            && if c.redisEnabled then result == Err(503) && after.memory == v.memory - {r.newId}
               else
                 && result.Ok? && after.memory == v.memory - {r.oldId}
                 && result.value == Rotated(r.oldId, r.newId, OkExpiry(c, v, r), n.keyId, n.workspace, n.mode)
  {
    if r.newId in v.memory {
      InMemory(v, r.newId);
    }
    hide Fits;
  }

  lemma RestLate(c: Config, v: World, r: Rotation, n: Session, answered: bool)
    requires Fits(v) && r.newId != r.oldId && c.redisEnabled && (answered || !c.failClosed)
    ensures var (after, result) := RotateRest(c, v, r, n, answered);
            && after.heap == v.heap && after.redis == RestRedis(c, v.redis, r, answered)
            && if !r.deleteOld.Answered? then result == Err(503) && after.memory == v.memory - {r.newId}
               else
                 && result.Ok? && after.memory == v.memory - {r.oldId}
                 && result.value == Rotated(r.oldId, r.newId, OkExpiry(c, v, r), n.keyId, n.workspace, n.mode)
  {
    SwapFits(c, v, r, n, answered);
    var u := Resumed(Apply(v, RotateSwap(c, v, r, n, answered).0), v.nextTask);
    LateParts(c, v, r, n, answered);
    LateFinish(c, v, u, r, n);
    hide *;
  }

  /** The world when the deletion of the old session is answered. */
  lemma LateParts(c: Config, v: World, r: Rotation, n: Session, answered: bool)
    requires Fits(v) && r.newId != r.oldId && c.redisEnabled && (answered || !c.failClosed)
    ensures var u := Resumed(Apply(v, RotateSwap(c, v, r, n, answered).0), v.nextTask);
            && Fits(u) && u.heap == v.heap && u.memory == v.memory
            && u.redis == (if r.deleteOld == RequestLost then v.redis else v.redis - {r.oldId})
            && (var (finish, reply) := RotateFinish(c, u, r, n, r.oldId in v.memory, r.deleteOld.Answered?);
                RotateRest(c, v, r, n, answered) == (Apply(u, finish), reply.value))
            && RestRedis(c, v.redis, r, answered) == FinalRedis(u, r)
  {
    SwapFits(c, v, r, n, answered);
    hide Fits, ResultOf, RotateFinish;
  }

  function FinalRedis(u: World, r: Rotation): map<string, Session> {
    if r.deleteOld == Answered || r.deleteNew == RequestLost then u.redis else u.redis - {r.newId}
  }

  lemma LateFinish(c: Config, v: World, u: World, r: Rotation, n: Session)
    requires Fits(v) && Fits(u) && u.heap == v.heap && u.memory == v.memory
    ensures var (finish, reply) := RotateFinish(c, u, r, n, r.oldId in v.memory, r.deleteOld.Answered?);
            var after := Apply(u, finish);
            && after.heap == v.heap && after.redis == FinalRedis(u, r) && reply.Answer?
            && if !r.deleteOld.Answered? then reply.value == Err(503) && after.memory == v.memory - {r.newId}
               else
                 && after.memory == v.memory - {r.oldId}
                 && reply.value == Ok(Rotated(r.oldId, r.newId, OkExpiry(c, v, r), n.keyId, n.workspace, n.mode))
  {
    if r.deleteOld.Answered? {
      SameResult(c, v, u, r, n);
      hide Fits, ResultOf, OkExpiry;
      assert r.oldId !in v.memory ==> v.memory - {r.oldId} == v.memory;
    } else {
      hide Fits, ResultOf, OkExpiry;
    }
  }

  lemma SameResult(c: Config, v: World, u: World, r: Rotation, n: Session)
    requires Fits(v) && Fits(u) && u.heap == v.heap && u.memory == v.memory
    ensures ResultOf(c, u, r, n) == Rotated(r.oldId, r.newId, OkExpiry(c, v, r), n.keyId, n.workspace, n.mode)
  {
    if r.newId in v.memory {
      InMemory(v, r.newId);
    }
    hide Fits;
  }

  function OkExpiry(c: Config, v: World, r: Rotation): int {
    if r.newId in v.memory && v.memory[r.newId] in v.heap then v.heap[v.memory[r.newId]].expiresAt else r.now + c.ttlMs
  }

  /** What the deletions of a rotation leave of a Redis map. */
  function RestRedis(c: Config, redis: map<string, Session>, r: Rotation, answered: bool): map<string, Session> {
    if !c.redisEnabled || (!answered && c.failClosed) then redis
    else
      var deleted := if r.deleteOld == RequestLost then redis else redis - {r.oldId};
      if r.deleteOld == Answered || r.deleteNew == RequestLost then deleted else deleted - {r.newId}
  }

  /** How a rotation that found the record `s` ends, and what it leaves in the maps. */
  ghost predicate Ends(c: Config, w: World, r: Rotation, s: Session, after: World, result: Result<Rotated, int>) {
    if !r.trustedLocal && !SameIdentity(r.requester, s) then
      result == Err(403) && after.memory == w.memory && after.redis == w.redis
    else if r.now > s.expiresAt then
      && result == Err(401) && after.memory == w.memory - {r.oldId}
      && after.redis == if r.oldId in w.memory && c.redisEnabled && !r.deleteOld.RequestLost? then w.redis - {r.oldId}
                        else w.redis
    else
      var n := Successor(c, r, s);
      && after.redis == RestRedis(c, SavedRedis(c, w.redis, r, n), r, !c.redisEnabled || r.save.Answered?)
      && if c.redisEnabled && ((!r.save.Answered? && c.failClosed) || !r.deleteOld.Answered?)
         then result == Err(503) && after.memory == w.memory
         else
           && after.memory == w.memory[r.newId := w.nextRef] - {r.oldId}
           && after.heap == w.heap[w.nextRef := n]
           && (c.redisEnabled ==> r.oldId !in after.redis)
           && result == Ok(Rotated(r.oldId, r.newId, n.expiresAt, n.keyId, n.workspace, n.mode))
  }

  function SavedRedis(c: Config, redis: map<string, Session>, r: Rotation, n: Session): map<string, Session> {
    if c.redisEnabled && r.save != RequestLost then redis[r.newId := n] else redis
  }

  lemma RefusedEnds(c: Config, w: World, r: Rotation, ref: nat)
    requires Fits(w) && IsRecordOf(w.heap, ref, r.oldId) && RotateCheck(c, w, r, ref).1.Answer?
    ensures var (after, result) := RotateFrom(c, w, r, ref); Ends(c, w, r, w.heap[ref], after, result)
  {
    hide Fits, SameIdentity, Successor;
    assert r.oldId !in w.memory ==> w.memory - {r.oldId} == w.memory;
  }

  /** What the checks leave for the steps after them when they let the rotation go ahead. */
  lemma CheckedMeaning(c: Config, w: World, r: Rotation, ref: nat)
    requires Fits(w) && ref in w.heap && RotateCheck(c, w, r, ref).1.Awaiting?
    ensures var s := w.heap[ref]; r.trustedLocal || SameIdentity(r.requester, s)
    ensures var s, check := w.heap[ref], RotateCheck(c, w, r, ref).0;
            var n, v := Successor(c, r, s), Resumed(Apply(w, check), w.nextTask);
            && r.now <= s.expiresAt
            && v.memory == w.memory[r.newId := w.nextRef] && v.heap == w.heap[w.nextRef := n]
            && v.redis == SavedRedis(c, w.redis, r, n)
            && check.spawn == Some(RotateSaved(r, n, !c.redisEnabled || r.save.Answered?))
  {
    var n := Successor(c, r, w.heap[ref]);
    assert n.id == r.newId;
    hide Fits, Successor, ContextOf;
  }

  lemma CheckedEnds(c: Config, w: World, r: Rotation, ref: nat)
    requires Fits(w) && NewIdUnused(w, r) && IsRecordOf(w.heap, ref, r.oldId) && RotateCheck(c, w, r, ref).1.Awaiting?
    ensures var (after, result) := RotateFrom(c, w, r, ref); Ends(c, w, r, w.heap[ref], after, result)
  {
    assert ref in w.heap;
    hide *;
    CheckedMeaning(c, w, r, ref);
    CheckFits(c, w, r, ref);
    var s := w.heap[ref];
    var n, answered := Successor(c, r, s), !c.redisEnabled || r.save.Answered?;
    var v := Resumed(Apply(w, RotateCheck(c, w, r, ref).0), w.nextTask);
    FromChecked(c, w, r, ref, n, answered);
    RestEnds(c, w, v, r, s, answered);
  }

  lemma FromChecked(c: Config, w: World, r: Rotation, ref: nat, n: Session, answered: bool)
    requires Fits(w) && ref in w.heap && RotateCheck(c, w, r, ref).1.Awaiting?
    requires RotateCheck(c, w, r, ref).0.spawn == Some(RotateSaved(r, n, answered))
    requires Fits(Resumed(Apply(w, RotateCheck(c, w, r, ref).0), w.nextTask))
    ensures RotateFrom(c, w, r, ref)
         == RotateRest(c, Resumed(Apply(w, RotateCheck(c, w, r, ref).0), w.nextTask), r, n, answered)
  {
    hide RotateCheck, RotateRest, Apply, Fits;
  }

  lemma RestEnds(c: Config, w: World, v: World, r: Rotation, s: Session, answered: bool)
    requires NewIdUnused(w, r) && (r.trustedLocal || SameIdentity(r.requester, s)) && r.now <= s.expiresAt && Fits(v)
    requires r.trustedLocal || r.requester.Some?
    requires v.memory == w.memory[r.newId := w.nextRef] && v.heap == w.heap[w.nextRef := Successor(c, r, s)]
    requires v.redis == SavedRedis(c, w.redis, r, Successor(c, r, s))
    requires answered == (!c.redisEnabled || r.save.Answered?)
    ensures var (after, result) := RotateRest(c, v, r, Successor(c, r, s), answered); Ends(c, w, r, s, after, result)
  {
    assert r.newId != r.oldId && r.newId !in w.memory;
    hide *;
    RestMeaning(c, v, r, Successor(c, r, s), answered);
    WithoutNew(w.memory, r.newId, w.nextRef);
    var (after, result) := RotateRest(c, v, r, Successor(c, r, s), answered);
    NewExpiry(c, w, v, r, Successor(c, r, s));
    EndsWell(c, w, r, s, after, result);
  }

  lemma NewExpiry(c: Config, w: World, v: World, r: Rotation, n: Session)
    requires v.memory == w.memory[r.newId := w.nextRef] && v.heap == w.heap[w.nextRef := n]
    ensures OkExpiry(c, v, r) == n.expiresAt
  {
  }

  lemma WithoutNew(memory: map<string, nat>, id: string, ref: nat)
    requires id !in memory
    ensures memory[id := ref] - {id} == memory
  {
  }

  lemma EndsWell(c: Config, w: World, r: Rotation, s: Session, after: World, result: Result<Rotated, int>)
    requires (r.trustedLocal || SameIdentity(r.requester, s)) && (r.trustedLocal || r.requester.Some?)
    requires r.now <= s.expiresAt
    requires var n := Successor(c, r, s);
             && after.redis == RestRedis(c, SavedRedis(c, w.redis, r, n), r, !c.redisEnabled || r.save.Answered?)
             && if c.redisEnabled && ((!r.save.Answered? && c.failClosed) || !r.deleteOld.Answered?)
                then result == Err(503) && after.memory == w.memory
                else
                  && after.memory == w.memory[r.newId := w.nextRef] - {r.oldId}
                  && after.heap == w.heap[w.nextRef := n]
                  && result == Ok(Rotated(r.oldId, r.newId, n.expiresAt, n.keyId, n.workspace, n.mode))
    ensures Ends(c, w, r, s, after, result)
  {
    hide SameIdentity, Successor;
  }

  /** `v` has the records of `w` and perhaps more. */
  ghost predicate Grown(w: World, v: World) {
    v.memory == w.memory && v.redis == w.redis && Fits(v) && forall ref :: ref in w.heap ==>
        ref in v.heap && v.heap[ref] == w.heap[ref]
  }

  lemma AloneEnds(c: Config, w: World, r: Rotation) returns (v: World)
    requires Fits(w) && NewIdUnused(w, r)
    ensures var found := Found(c, w, r.oldId, r.get); var (after, result) := RotateAlone(c, w, r);
            && Grown(w, v)
            && if found.None? then result == Err(404) && after.memory == w.memory && after.redis == w.redis
               else Ends(c, v, r, found.value, after, result)
  {
    FetchedFits(w, r.oldId, r.get);
    v := w;
    if r.oldId in w.memory {
      InMemory(w, r.oldId);
      FromEnds(c, w, r, w.memory[r.oldId]);
    } else if c.redisEnabled && Fetch(w, r.oldId, r.get).1.Some? {
      v := Apply(w, Nothing.(put := Fetch(w, r.oldId, r.get).0));
      CopyFits(w, r.oldId);
      FromEnds(c, v, r, Fetch(w, r.oldId, r.get).1.value);
    }
    hide RotateFrom, Fetch, Ends, Apply, Fits;
  }

  lemma FromEnds(c: Config, w: World, r: Rotation, ref: nat)
    requires Fits(w) && NewIdUnused(w, r) && IsRecordOf(w.heap, ref, r.oldId)
    ensures var (after, result) := RotateFrom(c, w, r, ref); Ends(c, w, r, w.heap[ref], after, result)
  {
    hide RotateFrom, Ends, Fits;
    if RotateCheck(c, w, r, ref).1.Answer? {
      RefusedEnds(c, w, r, ref);
    } else {
      CheckedEnds(c, w, r, ref);
    }
  }

  /**
    * A rotation during which no other request runs succeeds exactly when it is permitted. It then leaves the new
    * session in memory with the context and the origin of the old one, other sessions as they were, and the old one in
    * neither store; if it fails there is no new session, and the old one is as it was unless it had expired.
    */
  lemma RotationReplaces(c: Config, w: World, r: Rotation)
    requires Fits(w) && NewIdUnused(w, r)
    ensures var (after, result) := RotateAlone(c, w, r); var found := Found(c, w, r.oldId, r.get);
            && (result.Ok? <==> Permitted(c, w, r))
            && (result.Ok? ==>
                  && after.memory.Keys == w.memory.Keys - {r.oldId} + {r.newId}
                  && after.memory[r.newId] in after.heap
                  && (var s := after.heap[after.memory[r.newId]];
                      ContextOf(s) == ContextOf(found.value) && s.origin == found.value.origin
                      && StartsAnew(c, r, found.value, s))
                  && (forall id :: id in w.memory && id != r.oldId ==>
                        after.memory[id] == w.memory[id] && w.memory[id] in w.heap && w.memory[id] in after.heap
                        && after.heap[after.memory[id]] == w.heap[w.memory[id]])
                  && r.oldId !in after.memory && (c.redisEnabled ==> r.oldId !in after.redis))
            && (result.Err? ==>
                  && r.newId !in after.memory
                  && after.memory == (if result.error == 401 then w.memory - {r.oldId} else w.memory)
                  && (result.error == 401 <==>
                        && found.Some? && (r.trustedLocal || Entitled(r.requester, found.value))
                        && r.now > found.value.expiresAt))
  {
    hide *;
    PermittedIff(c, w, r);
    if RotateAlone(c, w, r).1.Ok? {
      SucceededKeeps(c, w, r);
    }
  }

  lemma PermittedIff(c: Config, w: World, r: Rotation)
    requires Fits(w) && NewIdUnused(w, r)
    ensures var (after, result) := RotateAlone(c, w, r); var found := Found(c, w, r.oldId, r.get);
            && (result.Ok? <==> Permitted(c, w, r))
            && (result.Err? ==>
                  && r.newId !in after.memory
                  && after.memory == (if result.error == 401 then w.memory - {r.oldId} else w.memory)
                  && (result.error == 401 <==>
                        && found.Some? && (r.trustedLocal || Entitled(r.requester, found.value))
                        && r.now > found.value.expiresAt))
  {
    RotationAnswered(c, w, r);
    hide RotateAlone, Found, Entitled, NewOf, Fits;
  }

  lemma SucceededKeeps(c: Config, w: World, r: Rotation)
    requires Fits(w) && NewIdUnused(w, r) && RotateAlone(c, w, r).1.Ok?
    ensures var (after, result) := RotateAlone(c, w, r); var found := Found(c, w, r.oldId, r.get);
            && found.Some? && after.memory.Keys == w.memory.Keys - {r.oldId} + {r.newId}
            && after.memory[r.newId] in after.heap
            && (var s := after.heap[after.memory[r.newId]];
                ContextOf(s) == ContextOf(found.value) && s.origin == found.value.origin
                && StartsAnew(c, r, found.value, s))
            && (forall id :: id in w.memory && id != r.oldId ==>
                  after.memory[id] == w.memory[id] && w.memory[id] in w.heap && w.memory[id] in after.heap
                  && after.heap[after.memory[id]] == w.heap[w.memory[id]])
            && r.oldId !in after.memory && (c.redisEnabled ==> r.oldId !in after.redis)
  {
    var v := AloneEnds(c, w, r);
    var found := Found(c, w, r.oldId, r.get);
    var (after, result) := RotateAlone(c, w, r);
    assert r.trustedLocal || SameIdentity(r.requester, found.value) by {
      hide Successor, SameIdentity, Fits, Found, RotateAlone, RestRedis, SavedRedis;
    }
    SuccessorMeaning(c, r, found.value);
    ReplacedMaps(w, v, r, Successor(c, r, found.value), after) by {
      hide Successor, SameIdentity, Fits, Found, RotateAlone, RestRedis, SavedRedis;
    }
    hide RestRedis, SavedRedis, RotateAlone, Found, SameIdentity, Fits, Successor, StartsAnew, ContextOf, Grown;
  }

  lemma ReplacedMaps(w: World, v: World, r: Rotation, n: Session, after: World)
    requires Fits(w) && NewIdUnused(w, r) && Grown(w, v)
    requires after.memory == v.memory[r.newId := v.nextRef] - {r.oldId} && after.heap == v.heap[v.nextRef := n]
    ensures after.memory.Keys == w.memory.Keys - {r.oldId} + {r.newId} && r.oldId !in after.memory
    ensures r.newId in after.memory && after.memory[r.newId] in after.heap && after.heap[after.memory[r.newId]] == n
    ensures forall id :: id in w.memory && id != r.oldId ==>
              after.memory[id] == w.memory[id] && w.memory[id] in w.heap && w.memory[id] in after.heap
              && after.heap[after.memory[id]] == w.heap[w.memory[id]]
  {
    forall id | id in w.memory
      ensures w.memory[id] in w.heap && w.memory[id] < v.nextRef && w.memory[id] in v.heap
    {
      InMemory(w, id);
      RecordFits(v, w.memory[id]);
    }
    hide Fits;
  }

  /** The requester has the key the record has, or is the master that the record says. */
  predicate Entitled(requester: Option<Identity>, s: Session) {
    match requester
    case None => false
    case Some(who) =>
      if who.isMaster then s.isMaster == Some(true) && who.keyId == s.keyId
      else s.isMaster != Some(true) && s.keyId != None && who.keyId == s.keyId
  }

  /** The new session: the requester's groups and permissions, and all else as the old one has it, begun anew. */
  function NewOf(c: Config, r: Rotation, s: Session): Session {
    Session(r.newId, s.authenticated, Some(s.isMaster == Some(true)), s.keyId,
            if r.trustedLocal || r.requester == None then s.groupKeyIds else r.requester.value.groupKeyIds,
            if r.trustedLocal || r.requester == None then s.permissions else r.requester.value.permissions,
            s.workspace, s.mode, Some(r.createdAt), r.createdAt + c.ttlMs, r.createdAt, None, None, Some(1),
            Some(r.createdAt), Some(r.createdAt), s.origin)
  }

  lemma EntitledMeaning(requester: Option<Identity>, s: Session)
    ensures SameIdentity(requester, s) <==> Entitled(requester, s)
  {
  }

  lemma NewMeaning(c: Config, r: Rotation, s: Session)
    requires r.trustedLocal || SameIdentity(r.requester, s)
    ensures r.trustedLocal || r.requester.Some?
    ensures Successor(c, r, s) == NewOf(c, r, s)
  {
  }

  /**
    * How a rotation during which no other request runs is answered, and what it leaves in both maps: not found, refused
    * for its requester, expired and closed, or not saved or not deleted and taken back; or else the new session in
    * place of the old one.
    */
  lemma RotationAnswered(c: Config, w: World, r: Rotation)
    requires Fits(w) && NewIdUnused(w, r)
    ensures var (after, result) := RotateAlone(c, w, r);
            var found := Found(c, w, r.oldId, r.get);
            if found == None then result == Err(404) && after.memory == w.memory && after.redis == w.redis
            else
              var s, n := found.value, NewOf(c, r, found.value);
              var saved := if c.redisEnabled && r.save != RequestLost then w.redis[r.newId := n] else w.redis;
              if !r.trustedLocal && !Entitled(r.requester, s) then
                result == Err(403) && after.memory == w.memory && after.redis == w.redis
              else if r.now > s.expiresAt then
                && result == Err(401) && after.memory == w.memory - {r.oldId}
                && after.redis == if r.oldId in w.memory && c.redisEnabled && r.deleteOld != RequestLost
                                  then w.redis - {r.oldId} else w.redis
              else if c.redisEnabled && r.save != Answered && c.failClosed then
                result == Err(503) && after.memory == w.memory && after.redis == saved
              else if c.redisEnabled && r.deleteOld != Answered then
                && result == Err(503) && after.memory == w.memory
                && after.redis == saved - (if r.deleteOld == RequestLost then {} else {r.oldId})
                                        - (if r.deleteNew == RequestLost then {} else {r.newId})
              else
                && result == Ok(Rotated(r.oldId, r.newId, r.createdAt + c.ttlMs, s.keyId, s.workspace, s.mode))
                && after.memory.Keys == w.memory.Keys - {r.oldId} + {r.newId}
                && after.memory[r.newId] in after.heap && after.heap[after.memory[r.newId]] == n
                && after.redis == if c.redisEnabled then saved - {r.oldId} else w.redis
  {
    hide *;
    var v := AloneEnds(c, w, r);
    var found := Found(c, w, r.oldId, r.get);
    var (after, result) := RotateAlone(c, w, r);
    if found.Some? {
      EntitledMeaning(r.requester, found.value);
      if r.trustedLocal || SameIdentity(r.requester, found.value) {
        NewMeaning(c, r, found.value);
      }
      EndsSpelt(c, w, v, r, found.value, after, result);
    }
  }

  lemma EndsSpelt(c: Config, w: World, v: World, r: Rotation, s: Session, after: World, result: Result<Rotated, int>)
    requires Fits(w) && NewIdUnused(w, r) && Grown(w, v) && Ends(c, v, r, s, after, result)
    requires SameIdentity(r.requester, s) <==> Entitled(r.requester, s)
    requires r.trustedLocal || Entitled(r.requester, s) ==>
               (r.trustedLocal || r.requester.Some?) && Successor(c, r, s) == NewOf(c, r, s)
    ensures var n := NewOf(c, r, s);
            var saved := if c.redisEnabled && r.save != RequestLost then w.redis[r.newId := n] else w.redis;
            if !r.trustedLocal && !Entitled(r.requester, s) then
              result == Err(403) && after.memory == w.memory && after.redis == w.redis
            else if r.now > s.expiresAt then
              && result == Err(401) && after.memory == w.memory - {r.oldId}
              && after.redis == if r.oldId in w.memory && c.redisEnabled && r.deleteOld != RequestLost
                                then w.redis - {r.oldId} else w.redis
            else if c.redisEnabled && r.save != Answered && c.failClosed then
              result == Err(503) && after.memory == w.memory && after.redis == saved
            else if c.redisEnabled && r.deleteOld != Answered then
              && result == Err(503) && after.memory == w.memory
              && after.redis == saved - (if r.deleteOld == RequestLost then {} else {r.oldId})
                                      - (if r.deleteNew == RequestLost then {} else {r.newId})
            else
              && result == Ok(Rotated(r.oldId, r.newId, r.createdAt + c.ttlMs, s.keyId, s.workspace, s.mode))
              && after.memory.Keys == w.memory.Keys - {r.oldId} + {r.newId}
              && after.memory[r.newId] in after.heap && after.heap[after.memory[r.newId]] == n
              && after.redis == if c.redisEnabled then saved - {r.oldId} else w.redis
  {
    hide Fits, SameIdentity, Entitled, Successor, ContextOf;
    assert forall m: map<string, Session> :: m - {} == m;
  }
}
