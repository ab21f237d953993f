/** The methods of `lib/sessions.js`, updating their maps and records in place. */
module SessionStore {
  import opened Options
  import opened RedisQueue
  import opened Sessions

  class SessionStore {
    const config: Config
    var heap: map<nat, Session>
    var memory: map<string, nat>
    var redis: map<string, Session>
    var reflected: seq<Target>
    var anchors: seq<Anchoring>
    var tasks: map<nat, Task>
    var nextRef: nat
    var nextTask: nat

    constructor (config: Config)
      ensures this.config == config && State() == World(map[], map[], map[], [], [], map[], 0, 0) && Fits(State())
    {
      this.config := config;
      heap, memory, redis, reflected, anchors, tasks, nextRef, nextTask := map[], map[], map[], [], [], map[], 0, 0;
    }

    function State(): World
      reads this
    {
      World(heap, memory, redis, reflected, anchors, tasks, nextRef, nextTask)
    }

    /** The number of a record there is, as every request under way holds one. */
    predicate Has(ref: nat)
      reads this
    {
      ref in heap && ref < nextRef
    }

    method SaveToRedis(s: Session, wire: Wire)
      modifies this`redis
      ensures redis == if Saves(config, wire) then old(redis)[s.id := s] else old(redis)
    {
      if config.redisEnabled && !wire.RequestLost? {
        redis := redis[s.id := s];
      }
    }

    method DeleteFromRedis(id: string, wire: Wire)
      modifies this`redis
      ensures redis == if wire.RequestLost? then old(redis) else old(redis) - {id}
    {
      if !wire.RequestLost? {
        redis := redis - {id};
      }
    }

    method Await(t: Task)
      modifies this`tasks, this`nextTask
      ensures tasks == old(tasks)[old(nextTask) := t] && nextTask == old(nextTask) + 1
    {
      tasks := tasks[nextTask := t];
      nextTask := nextTask + 1;
    }

    method Reflect(target: Target)
      modifies this`reflected
      ensures reflected == old(reflected) + [target]
    {
      reflected := reflected + [target];
    }

    /** A copy of what Redis holds, if the answer arrives. */
    method GetFromRedis(id: string, get: Wire) returns (found: Option<nat>)
      modifies this`heap, this`nextRef
      ensures State() == Apply(old(State()), Nothing.(put := Fetch(old(State()), id, get).0))
      ensures found == Fetch(old(State()), id, get).1
    {
      if get.Answered? && id in redis {
        heap := heap[nextRef := redis[id]];
        found := Some(nextRef);
        nextRef := nextRef + 1;
      } else {
        found := None;
      }
    }

    /** `createStreamableSessionWithId` up to saving the session. */
    method Create(s: Session, wire: Wire) returns (reply: Reply<bool>)
      modifies this
      ensures State() == Apply(old(State()), CreateStart(config, old(State()), s, wire).0)
      ensures reply == CreateStart(config, old(State()), s, wire).1
    {
      var session := s.(origin := |anchors|);
      anchors := anchors + [Anchoring(|anchors|, ContextOf(s))];
      Enter(session, wire);
      if !config.redisEnabled {
        return Answer(true);
      }
      Await(CreateSaved(s.id, wire.Answered?));
      return Awaiting;
    }

    /** A new record enters the memory map and is saved. */
    method Enter(session: Session, wire: Wire)
      modifies this`heap, this`memory, this`redis, this`nextRef
      ensures heap == old(heap)[old(nextRef) := session] && memory == old(memory)[session.id := old(nextRef)]
      ensures redis == (if Saves(config, wire) then old(redis)[session.id := session] else old(redis))
      ensures nextRef == old(nextRef) + 1
    {
      heap := heap[nextRef := session];
      memory := memory[session.id := nextRef];
      nextRef := nextRef + 1;
      if config.redisEnabled {
        SaveToRedis(session, wire);
      }
    }

    /** The rest of it; false where the source throws with status 503. */
    method CreateFinished(id: string, answered: bool) returns (reply: Reply<bool>)
      modifies this
      ensures State() == Apply(old(State()), CreateFinish(config, id, answered).0)
      ensures reply == CreateFinish(config, id, answered).1
    {
      if !answered && config.failClosed {
        memory := memory - {id};
        return Answer(false);
      }
      return Answer(true);
    }

    /**
      * `closeStreamableSession` up to the reflection it awaits; `recover` is what the request goes on with, if
      * anything.
      */
    method Close(id: string, preserveRedis: bool, recover: Option<Option<string>>)
      requires Fits(State())
      modifies this
      ensures State() == Apply(old(State()), CloseStart(config, old(State()), id, preserveRedis, recover))
    {
      if id !in memory {
        GoOn(id, recover);
        return;
      }
      Reflect(ReflectTarget(config, heap[memory[id]]));
      Await(Closing(id, preserveRedis, recover));
    }

    method GoOn(id: string, recover: Option<Option<string>>)
      modifies this
      ensures State() == Apply(old(State()), Missing(id, recover))
    {
      if recover.Some? {
        Await(Recovering(id, recover.value));
      }
    }

    /** The record's own `close`. */
    method CloseFinished(id: string, preserveRedis: bool, recover: Option<Option<string>>, wire: Wire)
      modifies this
      ensures State() == Apply(old(State()), CloseFinish(config, id, preserveRedis, recover, wire))
    {
      memory := memory - {id};
      if config.redisEnabled && !preserveRedis {
        DeleteFromRedis(id, wire);
      }
      GoOn(id, recover);
    }

    /** `rotateSession` up to its first Redis command. */
    method Rotate(r: Rotation) returns (reply: Reply<Result<Rotated, int>>)
      requires Fits(State())
      modifies this
      ensures State() == Apply(old(State()), RotateStart(config, old(State()), r).0)
      ensures reply == RotateStart(config, old(State()), r).1
    {
      if r.oldId in memory {
        reply := RotateFound(r, memory[r.oldId]);
      } else if config.redisEnabled {
        var found := GetFromRedis(r.oldId, r.get);
        Await(RotateFetched(r, found));
        reply := Awaiting;
      } else {
        reply := Answer(Err(404));
      }
    }

    /** Its checks of the record found, and the creation of the new session. */
    method RotateFound(r: Rotation, ref: nat) returns (reply: Reply<Result<Rotated, int>>)
      requires Fits(State()) && ref in heap
      modifies this
      ensures State() == Apply(old(State()), RotateCheck(config, old(State()), r, ref).0)
      ensures reply == RotateCheck(config, old(State()), r, ref).1
    {
      var existing := heap[ref];
      if !r.trustedLocal {
        if !SameIdentity(r.requester, existing) {
          return Answer(Err(403));
        }
      }
      if r.now > existing.expiresAt {
        Close(r.oldId, false, None);
        return Answer(Err(401));
      }
      var s := Successor(config, r, existing);
      Enter(s, r.save);
      Await(RotateSaved(r, s, !config.redisEnabled || r.save.Answered?));
      return Awaiting;
    }

    /** Its part between the saving of the new session and the deletion of the old one. */
    method RotateSwapped(r: Rotation, s: Session, answered: bool) returns (reply: Reply<Result<Rotated, int>>)
      requires Fits(State())
      modifies this
      ensures State() == Apply(old(State()), RotateSwap(config, old(State()), r, s, answered).0)
      ensures reply == RotateSwap(config, old(State()), r, s, answered).1
    {
      if config.redisEnabled && !answered && config.failClosed {
        memory := memory - {r.newId};
        return Answer(Err(503));
      }
      var held := r.oldId in memory;
      if config.redisEnabled {
        DeleteFromRedis(r.oldId, r.deleteOld);
        Await(RotateDeleted(r, s, held, r.deleteOld.Answered?));
        return Awaiting;
      }
      var result := ResultOf(config, State(), r, s);
      memory := memory - {r.oldId};
      return Answer(Ok(result));
    }

    /** Its end: the old session is closed here, or the new one is taken back. */
    method RotateFinished(r: Rotation, s: Session, held: bool, answered: bool)
        returns (reply: Reply<Result<Rotated, int>>)
      requires Fits(State())
      modifies this
      ensures State() == Apply(old(State()), RotateFinish(config, old(State()), r, s, held, answered).0)
      ensures reply == RotateFinish(config, old(State()), r, s, held, answered).1
    {
      if !answered {
        memory := memory - {r.newId};
        DeleteFromRedis(r.newId, r.deleteNew);
        return Answer(Err(503));
      }
      var result := ResultOf(config, State(), r, s);
      if held {
        memory := memory - {r.oldId};
      }
      return Answer(Ok(result));
    }

    /**
      * `validateStreamableSession` up to its first Redis command; `version` is a supported version asked for, if any,
      * and `caller` says what the request goes on with.
      */
    method Validate(id: string, now: int, version: Option<string>, get: Wire, save: Wire, caller: Caller)
        returns (reply: Reply<bool>)
      requires Fits(State())
      modifies this
      ensures State() == Apply(old(State()), ValidateStart(config, old(State()), id, now, version, get, save, caller).0)
      ensures reply == ValidateStart(config, old(State()), id, now, version, get, save, caller).1
      ensures id in old(memory) ==> reply == Answer(now <= old(heap[memory[id]].expiresAt))
    {
      if id in memory {
        reply := Touched(memory[id], now, version, save, caller);
      } else if config.redisEnabled {
        var found := GetFromRedis(id, get);
        Await(ValidateFetched(id, version, found, caller));
        reply := Awaiting;
      } else {
        GoOn(id, Recovery(caller, version));
        reply := Answer(false);
      }
    }

    /** Its restoration of a fetched record. */
    method Restored(ref: nat, now: int, version: Option<string>, wire: Wire, caller: Caller)
      requires Has(ref)
      modifies this
      ensures State() == Apply(old(State()), Restore(config, old(State()), ref, now, version, wire, caller))
    {
      var s := heap[ref].(lastAccessedAt := now, expiresAt := now + config.ttlMs);
      if version.Some? {
        s := s.(version := version);
      }
      heap := heap[ref := s];
      memory := memory[s.id := ref];
      SaveToRedis(s, wire);
      Await(ValidateRestored(s.id, ref, version, caller));
    }

    /** Its end: an expired record is closed, another one gets a new lifetime. */
    method Touched(ref: nat, now: int, version: Option<string>, save: Wire, caller: Caller) returns (reply: Reply<bool>)
      requires Fits(State()) && ref in heap
      modifies this
      ensures State() == Apply(old(State()), Touch(config, old(State()), ref, now, version, save, caller).0)
      ensures reply == Touch(config, old(State()), ref, now, version, save, caller).1
      ensures reply == Answer(now <= old(heap[ref].expiresAt))
      ensures heap == if now > old(heap[ref].expiresAt) then old(heap)
                      else old(heap)[ref := old(heap[ref]).(lastAccessedAt := now, expiresAt := now + config.ttlMs)]
    {
      if now > heap[ref].expiresAt {
        Close(heap[ref].id, false, Recovery(caller, version));
        return Answer(false);
      }
      heap := heap[ref := heap[ref].(lastAccessedAt := now, expiresAt := now + config.ttlMs)];
      SaveToRedis(heap[ref], save);
      if !caller.Plain? {
        Await(Validated(heap[ref].id, ref, caller));
      }
      return Answer(true);
    }

    /** `currentSegmentId` up to the record it works on. */
    method Call(id: string, get: Wire) returns (reply: Reply<Target>)
      modifies this
      ensures State() == Apply(old(State()), CallStart(config, old(State()), id, get).0)
      ensures reply == CallStart(config, old(State()), id, get).1
    {
      if id == "" || !config.segments {
        return Answer(Whole(id));
      }
      if id in memory {
        Await(CallHolding(id, memory[id]));
        return Awaiting;
      }
      if !config.redisEnabled {
        return Answer(Whole(id));
      }
      var found := GetFromRedis(id, get);
      if found.None? {
        return Answer(Whole(id));
      }
      Await(CallHolding(id, found.value));
      return Awaiting;
    }

    /** The rest of it, on the record it holds. */
    method CallFinished(ref: nat, now: int, save: Wire) returns (reply: Reply<Target>)
      requires Has(ref)
      modifies this
      ensures State() == Apply(old(State()), CallFinish(config, old(State()), ref, now, save).0)
      ensures reply == CallFinish(config, old(State()), ref, now, save).1
      ensures ref in heap && reply == Answer(Segment(heap[ref].id, OrElse(heap[ref].segmentSeq, 0)))
    {
      var (s, ended) := Advance(config, heap[ref], now);
      heap := heap[ref := s];
      if ended.Some? {
        Reflect(Segment(s.id, ended.value));
      }
      SaveToRedis(s, save);
      return Answer(Segment(s.id, s.segmentSeq.value));
    }

    /** One round of `cleanupExpiredSessions`. */
    method SweepOne(id: string, now: int)
      requires Fits(State()) && id in memory
      modifies this
      ensures State() == Apply(old(State()), Sweep(config, old(State()), id, now))
    {
      hide ReflectTarget, CloseStart;
      var ref := memory[id];
      var session := heap[ref];
      if now > session.expiresAt {
        Close(id, false, None);
      } else {
        var lastAccess := if session.lastAccessedAt != 0 then Some(session.lastAccessedAt) else session.createdAt;
        var isIdleEnough := lastAccess.Some? && now - lastAccess.value > config.reflectAfterMs;
        var never := session.lastReflectedAt.None? || session.lastReflectedAt.value == 0;
        if isIdleEnough && (never || now - session.lastReflectedAt.value > config.reflectAfterMs) {
          Reflect(ReflectTarget(config, session));
          Await(IdleReflected(id, ref, now));
        }
      }
    }

    /** Its end, when the reflection is over. */
    method SweptOne(ref: nat, at: int)
      requires Has(ref)
      modifies this
      ensures State() == Apply(old(State()), IdleFinish(old(State()), ref, at))
    {
      heap := heap[ref := heap[ref].(lastReflectedAt := Some(at))];
    }
  }
}
