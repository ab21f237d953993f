/** What each step of a rotation does to the stores and answers, whatever other requests do between the steps. */
module RotationSteps {
  import opened Options
  import opened RedisQueue
  import opened Sessions
  import opened McpSessions
  import opened SessionRuns
  import opened SessionLaws
  import opened SessionSteps
  import opened McpSteps

  /** The checks of the record found: refused, expired and closing, or succeeded by a new session whose save is sent. */
  ghost predicate Checks(c: Config, b: World, v: World, r: Rotation, ref: nat, reply: Reply<Result<Rotated, int>>)
    requires Fits(b) && ref in b.heap
  {
    var s := b.heap[ref];
    if !r.trustedLocal && !Entitled(r.requester, s) then reply == Answer(Err(403)) && v == b
    else if r.now > s.expiresAt then reply == Answer(Err(401)) && BeginsClosing(c, b, v, r.oldId, None)
    else
      var n := NewOf(c, r, s);
      && reply == Awaiting && v.reflected == b.reflected && v.anchors == b.anchors
      && v.heap == b.heap[b.nextRef := n] && v.memory == b.memory[r.newId := b.nextRef]
      && v.redis == (if Sends(c, r.save) then b.redis[r.newId := n] else b.redis)
      && Waits(b, v, Some(RotateSaved(r, n, !c.redisEnabled || r.save == Answered)))
  }

  lemma CheckMeans(c: Config, b: World, r: Rotation, ref: nat)
    requires Fits(b) && ref in b.heap
    ensures var (ch, reply) := RotateCheck(c, b, r, ref); Checks(c, b, Apply(b, ch), r, ref, reply)
  {
    var s := b.heap[ref];
    EntitledMeaning(r.requester, s);
    SessionSteps.ClosingBegins(c, b, r.oldId, None);
    hide Fits, SameIdentity, Entitled, BeginsClosing, CloseStart;
    if r.trustedLocal || SameIdentity(r.requester, s) {
      NewMeaning(c, r, s);
      hide Successor;
      if r.now <= s.expiresAt {
        PassedMeans(c, b, r, ref);
      }
    }
    hide Apply;
    NothingApplied(b);
  }

  lemma NothingApplied(b: World)
    ensures Apply(b, Nothing) == b
  {
  }

  lemma PassedMeans(c: Config, b: World, r: Rotation, ref: nat)
    requires Fits(b) && ref in b.heap && (r.trustedLocal || r.requester.Some?)
    requires r.trustedLocal || SameIdentity(r.requester, b.heap[ref])
    requires r.now <= b.heap[ref].expiresAt && Successor(c, r, b.heap[ref]) == NewOf(c, r, b.heap[ref])
    ensures var (ch, reply) := RotateCheck(c, b, r, ref);
            var n, v := NewOf(c, r, b.heap[ref]), Apply(b, ch);
            && reply == Awaiting && v.reflected == b.reflected && v.anchors == b.anchors
            && v.heap == b.heap[b.nextRef := n] && v.memory == b.memory[r.newId := b.nextRef]
            && v.redis == (if Sends(c, r.save) then b.redis[r.newId := n] else b.redis)
            && Waits(b, v, Some(RotateSaved(r, n, !c.redisEnabled || r.save == Answered)))
  {
    assert NewOf(c, r, b.heap[ref]).id == r.newId;
    hide Fits, SameIdentity, Successor, NewOf;
  }

  /** The old session is looked up in memory, or its copy is fetched from Redis, or there is none. */
  lemma RotateStep(c: Config, w: World, r: Rotation)
    requires Fits(w)
    ensures var v, reply := Step(c, w, Event.Rotate(r)), RotateStart(c, w, r).1;
            if r.oldId in w.memory then
              w.memory[r.oldId] in w.heap && Checks(c, w, v, r, w.memory[r.oldId], reply)
            else if !c.redisEnabled then reply == Answer(Err(404)) && OnlyWaits(w, v, None)
            else
              && reply == Awaiting && v.memory == w.memory && v.redis == w.redis && v.reflected == w.reflected
              && if r.get == Answered && r.oldId in w.redis then
                   v.heap == w.heap[w.nextRef := w.redis[r.oldId]]
                       && Waits(w, v, Some(RotateFetched(r, Some(w.nextRef))))
                 else v.heap == w.heap && Waits(w, v, Some(RotateFetched(r, None)))
  {
    Began(c, w, Event.Rotate(r));
    if r.oldId in w.memory {
      InMemory(w, r.oldId);
      CheckMeans(c, w, r, w.memory[r.oldId]);
      hide Fits, Checks, RotateCheck, Apply, Step;
    } else {
      hide Fits, RotateCheck, Checks, Step;
    }
  }

  /** The fetched copy is checked as a record in memory is; without one the rotation ends. */
  lemma RotateFetchedStep(c: Config, w: World, t: nat, out: Outside)
    requires Fits(w) && t in w.tasks && w.tasks[t].RotateFetched?
    ensures var RotateFetched(r, found) := w.tasks[t];
            var b, v := Resumed(w, t), Step(c, w, Resume(t, out));
            && Fits(b)
            && match found
               case None => v == b
               case Some(ref) => ref in w.heap && Checks(c, b, v, r, ref, RotateCheck(c, b, r, ref).1)
  {
    GoesOn(c, w, t, out);
    var RotateFetched(r, found) := w.tasks[t];
    if found.Some? {
      CheckMeans(c, Resumed(w, t), r, found.value);
    }
    NothingApplied(Resumed(w, t));
    hide Fits, Checks, RotateCheck, Apply, Step;
  }

  /** The result names both sessions, the lifetime the new one has by now, and its key, workspace and mode. */
  predicate Names(c: Config, b: World, r: Rotation, s: Session, result: Rotated) {
    && result.oldId == r.oldId && result.newId == r.newId
    && result.keyId == s.keyId && result.workspace == s.workspace && result.mode == s.mode
    && if r.newId in b.memory && b.memory[r.newId] in b.heap
       then result.expiresAt == b.heap[b.memory[r.newId]].expiresAt else result.expiresAt == r.now + c.ttlMs
  }

  /**
    * A save that failed gives the rotation up where the server fails closed; else the old session's deletion is sent.
    */
  lemma RotateSavedStep(c: Config, w: World, t: nat, out: Outside)
    requires Fits(w) && t in w.tasks && w.tasks[t].RotateSaved?
    ensures var RotateSaved(r, s, answered) := w.tasks[t];
            var b, v := Resumed(w, t), Step(c, w, Resume(t, out));
            && Fits(b) && v.heap == b.heap && v.reflected == b.reflected
            && var reply := RotateSwap(c, b, r, s, answered).1;
               if c.redisEnabled && !answered && c.failClosed then
                 && reply == Answer(Err(503)) && v.memory == b.memory - {r.newId} && v.redis == b.redis
                 && Waits(b, v, None)
               else if c.redisEnabled then
                 && reply == Awaiting && v.memory == b.memory
                 && v.redis == (if r.deleteOld == RequestLost then b.redis else b.redis - {r.oldId})
                 && Waits(b, v, Some(RotateDeleted(r, s, r.oldId in b.memory, r.deleteOld == Answered)))
               else
                 && reply.Answer? && reply.value.Ok? && Names(c, b, r, s, reply.value.value)
                 && v.memory == b.memory - {r.oldId} && v.redis == b.redis && Waits(b, v, None)
  {
    GoesOn(c, w, t, out);
    var RotateSaved(r, s, answered) := w.tasks[t];
    ResultNames(c, Resumed(w, t), r, s);
    hide Fits, ResultOf, Names, Step;
  }

  lemma ResultNames(c: Config, b: World, r: Rotation, s: Session)
    requires Fits(b)
    ensures Names(c, b, r, s, ResultOf(c, b, r, s))
  {
    if r.newId in b.memory {
      InMemory(b, r.newId);
    }
    hide Fits;
  }

  /**
    * A deletion that failed takes the new session back; else the old one leaves memory if memory held it when its
    * deletion was sent.
    */
  lemma RotateDeletedStep(c: Config, w: World, t: nat, out: Outside)
    requires Fits(w) && t in w.tasks && w.tasks[t].RotateDeleted?
    ensures var RotateDeleted(r, s, held, answered) := w.tasks[t];
            var b, v := Resumed(w, t), Step(c, w, Resume(t, out));
            && Fits(b) && v.heap == b.heap && v.reflected == b.reflected && Waits(b, v, None)
            && var reply := RotateFinish(c, b, r, s, held, answered).1;
               if !answered then
                 && reply == Answer(Err(503)) && v.memory == b.memory - {r.newId}
                 && v.redis == if r.deleteNew == RequestLost then b.redis else b.redis - {r.newId}
               else
                 && reply.Answer? && reply.value.Ok? && Names(c, b, r, s, reply.value.value) && v.redis == b.redis
                 && v.memory == if held then b.memory - {r.oldId} else b.memory
  {
    GoesOn(c, w, t, out);
    var RotateDeleted(r, s, held, answered) := w.tasks[t];
    ResultNames(c, Resumed(w, t), r, s);
    hide Fits, ResultOf, Names, Step;
  }
}
