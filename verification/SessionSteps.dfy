/**
  * What validations, calls and clean-ups do to the stores, told from records and clocks alone, and which requests go
  * on with a session over a whole run.
  */
module SessionSteps {
  import opened Options
  import opened RedisQueue
  import opened Sessions
  import opened McpSessions
  import opened SessionRuns

  /* ---------- Single steps ---------- */

  /** The target a session's reflection is run for. */
  function TargetOf(c: Config, s: Session): Target {
    if !c.segments then Whole(s.id) else Segment(s.id, if s.segmentSeq.Some? then s.segmentSeq.value else 1)
  }

  /** The session `id` closes, if it is in memory: `v` is the world after its open segment is handed over. */
  ghost predicate BeginsClosing(c: Config, w: World, v: World, id: string, then_: Option<Option<string>>)
    requires Fits(w)
  {
    if id in w.memory then
      v == w.(reflected := w.reflected + [TargetOf(c, w.heap[w.memory[id]])],
              tasks := w.tasks[w.nextTask := Closing(id, false, then_)], nextTask := w.nextTask + 1)
    else if then_.Some? then
      v == w.(tasks := w.tasks[w.nextTask := Recovering(id, then_.value)], nextTask := w.nextTask + 1)
    else v == w
  }

  /**
    * A validation of the record `ref` of `id`: it holds exactly until the record's expiry. Past it the record is left
    * as it is and the session closes; before, the record gets a new lifetime, and a request that waits for it goes on.
    */
  ghost predicate Validates(c: Config, w: World, v: World, id: string, ref: nat, now: int, version: Option<string>,
                            save: Wire, caller: Caller, reply: Reply<bool>)
    requires Fits(w) && ref in w.heap
  {
    var s := w.heap[ref];
    && reply == Answer(now <= s.expiresAt)
    && if now > s.expiresAt then BeginsClosing(c, w, v, id, if caller.Post? then Some(version) else None)
       else
         var s' := s.(lastAccessedAt := now, expiresAt := now + c.ttlMs);
         && v.heap == w.heap[ref := s'] && v.memory == w.memory
         && v.redis == (if c.redisEnabled && !save.RequestLost? then w.redis[id := s'] else w.redis)
         && v.reflected == w.reflected && v.anchors == w.anchors && v.nextRef == w.nextRef
         && v.tasks == (if caller.Plain? then w.tasks else w.tasks[w.nextTask := Validated(id, ref, caller)])
         && v.nextTask == w.nextTask + if caller.Plain? then 0 else 1
  }

  lemma ClosingBegins(c: Config, w: World, id: string, then_: Option<Option<string>>)
    requires Fits(w)
    ensures BeginsClosing(c, w, Apply(w, CloseStart(c, w, id, false, then_)), id, then_)
  {
    if id in w.memory {
      InMemory(w, id);
    }
    hide Fits;
  }

  lemma TouchKeeps(c: Config, w: World, ref: nat, now: int, version: Option<string>, save: Wire, caller: Caller)
    requires Fits(w) && ref in w.heap && ref < w.nextRef && now <= w.heap[ref].expiresAt
    ensures var (ch, reply) := Touch(c, w, ref, now, version, save, caller);
            Validates(c, w, Apply(w, ch), w.heap[ref].id, ref, now, version, save, caller, reply)
  {
    hide Fits, BeginsClosing, CloseStart, Stands;
  }

  lemma TouchValidates(c: Config, w: World, ref: nat, now: int, version: Option<string>, save: Wire, caller: Caller)
    requires Fits(w) && ref in w.heap
    ensures var (ch, reply) := Touch(c, w, ref, now, version, save, caller);
            Validates(c, w, Apply(w, ch), w.heap[ref].id, ref, now, version, save, caller, reply)
  {
    if now > w.heap[ref].expiresAt {
      ClosingBegins(c, w, w.heap[ref].id, if caller.Post? then Some(version) else None);
      hide Fits, BeginsClosing, CloseStart, Apply;
    } else {
      RecordFits(w, ref);
      hide Fits, BeginsClosing, CloseStart, Stands;
      TouchKeeps(c, w, ref, now, version, save, caller);
    }
  }

  /** Validating an identifier in memory. */
  lemma ValidateInMemory(c: Config, w: World, id: string, now: int, version: Option<string>, get: Wire, save: Wire,
                         caller: Caller)
    requires Fits(w) && id in w.memory
    ensures w.memory[id] in w.heap
    ensures Validates(c, w, Step(c, w, Validate(id, now, version, get, save, caller)), id, w.memory[id], now, version,
                      save, caller, ValidateStart(c, w, id, now, version, get, save, caller).1)
  {
    hide Fits, Touch, Validates, Apply;
    InMemory(w, id);
    TouchValidates(c, w, w.memory[id], now, version, save, caller);
  }

  /** Validating any other identifier: a copy is fetched from Redis, or there is nothing to validate. */
  lemma ValidateElsewhere(c: Config, w: World, id: string, now: int, version: Option<string>, get: Wire, save: Wire,
                          caller: Caller)
    requires Fits(w) && id !in w.memory
    ensures var v := Step(c, w, Validate(id, now, version, get, save, caller));
            var reply := ValidateStart(c, w, id, now, version, get, save, caller).1;
            && v.memory == w.memory && v.redis == w.redis && v.reflected == w.reflected && v.anchors == w.anchors
            && if !c.redisEnabled then
                 && reply == Answer(false) && v.heap == w.heap
                 && v.tasks == (if caller.Post? then w.tasks[w.nextTask := Recovering(id, version)] else w.tasks)
               else if get.Answered? && id in w.redis then
                 && reply == Awaiting && v.heap == w.heap[w.nextRef := w.redis[id]]
                 && v.tasks == w.tasks[w.nextTask := ValidateFetched(id, version, Some(w.nextRef), caller)]
               else
                 && reply == Awaiting && v.heap == w.heap
                 && v.tasks == w.tasks[w.nextTask := ValidateFetched(id, version, None, caller)]
  {
    hide Fits, Touch;
  }

  /** A fetched copy enters memory with a new lifetime, whether or not it had expired, at the version asked for. */
  lemma CopyRestored(c: Config, w: World, t: nat, out: Outside)
    requires Fits(w) && t in w.tasks && w.tasks[t].ValidateFetched?
    ensures var v := Step(c, w, Resume(t, out));
            var ValidateFetched(id, version, found, caller) := w.tasks[t];
            var tasks := w.tasks - {t};
            && v.reflected == w.reflected && v.anchors == w.anchors
            && if found.Some? then
                 found.value in w.heap &&
                 var s := w.heap[found.value];
                 var s' := s.(lastAccessedAt := out.now, expiresAt := out.now + c.ttlMs,
                              version := if version.Some? then version else s.version);
                 && v.heap == w.heap[found.value := s'] && v.memory == w.memory[id := found.value]
                 && v.redis == (if c.redisEnabled && !out.wire.RequestLost? then w.redis[id := s'] else w.redis)
                 && v.tasks == tasks[w.nextTask := ValidateRestored(id, found.value, version, caller)]
               else
                 && v.heap == w.heap && v.memory == w.memory && v.redis == w.redis
                 && v.tasks == if caller.Post? then tasks[w.nextTask := Recovering(id, version)] else tasks
  {
    TaskHolds(w, t);
    BaseFits(w, Resume(t, out));
    hide Fits;
  }

  lemma TaskHolds(w: World, t: nat)
    requires Fits(w) && t in w.tasks
    ensures TaskFits(w.heap, w.tasks[t])
  {
  }

  /** The end of such a validation. */
  lemma ValidateRestoredCopy(c: Config, w: World, t: nat, out: Outside)
    requires Fits(w) && t in w.tasks && w.tasks[t].ValidateRestored?
    ensures var ValidateRestored(id, ref, version, caller) := w.tasks[t];
            && Fits(Resumed(w, t)) && ref in w.heap
            && Validates(c, Resumed(w, t), Step(c, w, Resume(t, out)), id, ref, out.now, version, out.wire, caller,
                         Touch(c, Resumed(w, t), ref, out.now, version, out.wire, caller).1)
  {
    TaskHolds(w, t);
    BaseFits(w, Resume(t, out));
    hide Fits, Touch, Validates, Apply;
    var ValidateRestored(_, ref, version, caller) := w.tasks[t];
    TouchValidates(c, Resumed(w, t), ref, out.now, version, out.wire, caller);
  }

  /**
    * What a copy in Redis says of its expiry is never looked at: validated while no other request runs, it holds
    * exactly if no more than a whole lifetime passes between its restoration and the end of its validation.
    */
  lemma CopyExpiryIgnored(c: Config, w: World, id: string, now: int, version: Option<string>, save: Wire,
                          caller: Caller, out: Outside, out2: Outside)
    requires Fits(w) && id !in w.memory && id in w.redis && c.redisEnabled
    ensures var v := Before(c, w, [Validate(id, now, version, Answered, save, caller), Resume(w.nextTask, out)], 2);
            && w.nextTask + 1 in v.tasks && v.tasks[w.nextTask + 1] == ValidateRestored(id, w.nextRef, version, caller)
            && w.nextRef in v.heap && v.heap[w.nextRef].expiresAt == out.now + c.ttlMs
            && Touch(c, Resumed(v, w.nextTask + 1), w.nextRef, out2.now, version, out2.wire, caller).1
               == Answer(out2.now <= out.now + c.ttlMs)
  {
    var e, e2 := Validate(id, now, version, Answered, save, caller), Event.Resume(w.nextTask, out);
    var run := [e, e2];
    assert run[..2] == run && run[..1] == [e] && run[..0] == [];
    NextIsNew(w);
    ValidateElsewhere(c, w, id, now, version, Answered, save, caller);
    StepFits(c, w, e);
    var u := Step(c, w, e);
    assert After(c, w, [e]) == u by {
      assert [e][..0] == [];
    }
    FetchNumbers(c, w, id, now, version, save, caller);
    hide Fits, Step, Fetch;
    CopyRestored(c, u, w.nextTask, out);
    assert After(c, w, run) == Step(c, u, e2);
    RestoredHolds(c, u, w.nextTask, out, out2);
  }

  lemma FetchNumbers(c: Config, w: World, id: string, now: int, version: Option<string>, save: Wire, caller: Caller)
    requires Fits(w) && id !in w.memory && c.redisEnabled
    ensures Step(c, w, Validate(id, now, version, Answered, save, caller)).nextTask == w.nextTask + 1
  {
    hide Fits, Fetch;
  }

  lemma RestoredHolds(c: Config, u: World, t: nat, out: Outside, out2: Outside)
    requires Fits(u) && t in u.tasks && u.tasks[t].ValidateFetched? && u.tasks[t].found.Some?
    ensures var ValidateFetched(id, version, found, caller) := u.tasks[t];
            var v := Step(c, u, Resume(t, out));
            && Fits(Resumed(v, u.nextTask)) && found.value in v.heap
            && Touch(c, Resumed(v, u.nextTask), found.value, out2.now, version, out2.wire, caller).1
               == Answer(out2.now <= out.now + c.ttlMs)
  {
    var ValidateFetched(id, version, found, caller) := u.tasks[t];
    CopyRestored(c, u, t, out);
    StepFits(c, u, Resume(t, out));
    var v := Step(c, u, Resume(t, out));
    BaseFits(v, Resume(u.nextTask, out2));
    hide Step, Fits, Touch;
    TouchValidates(c, Resumed(v, u.nextTask), found.value, out2.now, version, out2.wire, caller);
  }

  /** A call is answered with the identifier itself exactly where there is no record to number segments on. */
  lemma CallAnswered(c: Config, w: World, id: string, get: Wire)
    ensures var reply := CallStart(c, w, id, get).1;
            var held := id in w.memory || (c.redisEnabled && get.Answered? && id in w.redis);
            if id != "" && c.segments && held then reply == Awaiting else reply == Answer(Whole(id))
  {
  }

  /** A call that holds a record is answered with the segment the record is in after the call, as it is saved. */
  lemma CallNamesSegment(c: Config, w: World, t: nat, out: Outside)
    requires Fits(w) && t in w.tasks && w.tasks[t].CallHolding?
    ensures var CallHolding(id, ref) := w.tasks[t];
            var v := Step(c, w, Resume(t, out));
            && ref in w.heap && ref in v.heap && v.heap[ref].segmentSeq.Some?
            && CallFinish(c, Resumed(w, t), ref, out.now, out.wire).1
               == Answer(Segment(id, v.heap[ref].segmentSeq.value))
            && v.redis == (if c.redisEnabled && !out.wire.RequestLost? then w.redis[id := v.heap[ref]] else w.redis)
            && v.memory == w.memory && v.tasks == w.tasks - {t}
  {
    TaskHolds(w, t);
    BaseFits(w, Resume(t, out));
    hide Fits;
  }

  /** A clean-up closes an expired session. */
  lemma SweepCloses(c: Config, w: World, id: string, now: int)
    requires Fits(w) && id in w.memory && now > w.heap[w.memory[id]].expiresAt
    ensures BeginsClosing(c, w, Step(c, w, Event.Sweep(id, now)), id, None)
  {
    hide Fits, CloseStart, BeginsClosing, Apply;
    ClosingBegins(c, w, id, None);
  }

  /** A clean-up leaves any other session as it is, but for handing over one that was idle for long. */
  lemma SweepSpares(c: Config, w: World, id: string, now: int)
    requires Fits(w) && (id in w.memory ==> now <= w.heap[w.memory[id]].expiresAt)
    ensures var v := Step(c, w, Event.Sweep(id, now));
            && v.heap == w.heap && v.memory == w.memory && v.redis == w.redis
            && if id in w.memory && NeedsReflection(c, w.heap[w.memory[id]], now) then
                 && v.reflected == w.reflected + [TargetOf(c, w.heap[w.memory[id]])]
                 && v.tasks == w.tasks[w.nextTask := IdleReflected(id, w.memory[id], now)]
               else v.reflected == w.reflected && v.tasks == w.tasks
  {
    hide Fits, NeedsReflection;
  }

  /** The end of a close: the session leaves memory and, unless it is to stay there, Redis. */
  lemma CloseEnds(c: Config, w: World, t: nat, out: Outside)
    requires Fits(w) && t in w.tasks && w.tasks[t].Closing?
    ensures var Closing(id, preserveRedis, then_) := w.tasks[t];
            var v := Step(c, w, Resume(t, out));
            var tasks := w.tasks - {t};
            && v.heap == w.heap && v.memory == w.memory - {id} && v.reflected == w.reflected
            && v.redis == (if !preserveRedis && c.redisEnabled && !out.wire.RequestLost? then w.redis - {id}
                           else w.redis)
            && v.tasks == if then_.Some? then tasks[w.nextTask := Recovering(id, then_.value)] else tasks
  {
    TaskHolds(w, t);
    BaseFits(w, Resume(t, out));
    hide Fits;
  }

  /* ---------- Runs ---------- */

  /** The request has a validated session and goes on with its record. */
  predicate Serves(t: Task) {
    t.Validated? || t.KeyAsked? || t.MasterAsked? || t.GroupsAsked? || t.LoginAsked?
  }

  predicate ServesRecord(t: Task, id: string, ref: nat) {
    Serves(t) && HeldBy(t) == Some((id, ref))
  }

  /** The step validates the record `ref` of `id`, which has not expired by its clock. */
  predicate LetsOn(w: World, e: Event, id: string, ref: nat) {
    && ref in w.heap
    && match e
       case Validate(id', now, _, _, _, _) =>
         id' == id && id in w.memory && w.memory[id] == ref && now <= w.heap[ref].expiresAt
       case Resume(t, out) =>
         && t in w.tasks && w.tasks[t].ValidateRestored? && w.tasks[t].id == id && w.tasks[t].ref == ref
         && out.now <= w.heap[ref].expiresAt
       case _ => false
  }

  ghost predicate Served(w: World, id: string, ref: nat) {
    exists t :: t in w.tasks && ServesRecord(w.tasks[t], id, ref)
  }

  lemma BeginServes(c: Config, w: World, e: Event, id: string, ref: nat)
    requires Fits(w) && BeginChange(c, w, e).spawn.Some? && ServesRecord(BeginChange(c, w, e).spawn.value, id, ref)
    ensures LetsOn(w, e, id, ref)
  {
    hide Fits, CloseStart, RotateStart, Fetch, Touch, Sessions.Sweep, CallStart, CloseFinish;
    match e
    case Validate(id', now, version, get, save, caller) =>
      if id' in w.memory {
        InMemory(w, id');
        TouchServes(c, w, w.memory[id'], now, version, save, caller);
      }
    case Rotate(r) => RotateServesNone(c, w, r);
    case Close(id', preserveRedis) => CloseServesNone(c, w, id', preserveRedis, None);
    case Expel(id', wire) => ExpelSpawnsNone(c, id', wire);
    case Sweep(id', now) => SweepServesNone(c, w, id', now);
    case Call(id', get) => CallServesNone(c, w, id', get);
    case _ =>
  }

  lemma ExpelSpawnsNone(c: Config, id: string, wire: Wire)
    ensures CloseFinish(c, id, false, None, wire).spawn.None?
  {
  }

  lemma CallServesNone(c: Config, w: World, id: string, get: Wire)
    ensures var ch := CallStart(c, w, id, get).0; ch.spawn.Some? ==> !Serves(ch.spawn.value)
  {
  }

  lemma CloseServesNone(c: Config, w: World, id: string, preserveRedis: bool, recover: Option<Option<string>>)
    requires Fits(w)
    ensures var ch := CloseStart(c, w, id, preserveRedis, recover); ch.spawn.Some? ==> !Serves(ch.spawn.value)
  {
    hide Fits;
  }

  lemma SweepServesNone(c: Config, w: World, id: string, now: int)
    requires Fits(w)
    ensures var ch := Sessions.Sweep(c, w, id, now); ch.spawn.Some? ==> !Serves(ch.spawn.value)
  {
    CloseServesNone(c, w, id, false, None);
    hide Fits, CloseStart;
  }

  lemma RotateServesNone(c: Config, w: World, r: Rotation)
    requires Fits(w)
    ensures var ch := RotateStart(c, w, r).0; ch.spawn.Some? ==> !Serves(ch.spawn.value)
  {
    CloseServesNone(c, w, r.oldId, false, None);
    hide Fits, CloseStart, Fetch;
  }

  lemma TouchServes(c: Config, w: World, ref: nat, now: int, version: Option<string>, save: Wire, caller: Caller)
    requires Fits(w) && ref in w.heap
    ensures var ch := Touch(c, w, ref, now, version, save, caller).0;
            ch.spawn.Some? && Serves(ch.spawn.value) ==>
              ch.spawn.value == Validated(w.heap[ref].id, ref, caller) && now <= w.heap[ref].expiresAt
  {
    hide Fits;
  }

  lemma ResumeServes(c: Config, w: World, task: Task, out: Outside, id: string, ref: nat)
    requires Fits(w) && TaskFits(w.heap, task)
    requires ResumeChange(c, w, task, out).spawn.Some?
             && ServesRecord(ResumeChange(c, w, task, out).spawn.value, id, ref)
    ensures ServesRecord(task, id, ref)
            || (task.ValidateRestored? && task.id == id && task.ref == ref && ref in w.heap
                && out.now <= w.heap[ref].expiresAt)
  {
    hide Fits;
    if task.ValidateRestored? {
      TouchServes(c, w, task.ref, out.now, task.version, out.wire, task.caller);
      hide Touch;
    } else if Serves(task) {
      HandlerServes(c, w, task, out);
      hide ResumeChange;
    }
  }

  /** A request that goes on keeps its record. */
  lemma HandlerServes(c: Config, w: World, task: Task, out: Outside)
    requires Fits(w) && TaskFits(w.heap, task) && Serves(task)
    ensures var ch := ResumeChange(c, w, task, out);
            ch.spawn.Some? ==> HeldBy(ch.spawn.value) == HeldBy(task)
  {
    hide Fits;
  }

  lemma StepServes(c: Config, w: World, e: Event, id: string, ref: nat)
    requires Fits(w) && Served(Step(c, w, e), id, ref)
    ensures Served(w, id, ref) || LetsOn(w, e, id, ref)
  {
    hide Fits, ResumeChange, BeginChange, ServesRecord;
    BaseFits(w, e);
    var v, ch := Step(c, w, e), ChangeOf(c, w, e);
    var t :| t in v.tasks && ServesRecord(v.tasks[t], id, ref);
    if ch.spawn.Some? && ServesRecord(ch.spawn.value, id, ref) {
      if e.Resume? && e.t in w.tasks {
        ResumeServes(c, Base(w, e), w.tasks[e.t], e.out, id, ref);
      } else {
        BeginServes(c, w, e, id, ref);
      }
    } else {
      assert t in w.tasks && w.tasks[t] == v.tasks[t];
    }
  }

  /**
    * A request only goes on with a record that had not expired when it was validated: over every run, for a record
    * that a request has, some earlier step found it before its expiry.
    */
  lemma {:induction false} ServedWasAlive(c: Config, w: World, run: seq<Event>, id: string, ref: nat)
    requires Fits(w) && !Served(w, id, ref) && Served(After(c, w, run), id, ref)
    ensures exists k :: 0 <= k < |run| && LetsOn(Before(c, w, run, k), run[k], id, ref)
  {
    hide Fits, Served, LetsOn, Step;
    if run != [] {
      var n := |run| - 1;
      var rest := run[..n];
      if Served(After(c, w, rest), id, ref) {
        ServedWasAlive(c, w, rest, id, ref);
        var k :| 0 <= k < n && LetsOn(Before(c, w, rest, k), rest[k], id, ref);
        assert rest[..k] == run[..k];
        assert LetsOn(Before(c, w, run, k), run[k], id, ref);
      } else {
        StepServes(c, Before(c, w, run, n), run[n], id, ref);
      }
    }
  }
}
