/**
  * Whether a session that was rotated away, or went in another way, stays away. Other requests run between any two
  * Redis commands, and one that still holds the record may save it again; and a request that presents the identifier
  * of a session nobody has may, once authenticated, begin another session under it.
  */
module SessionRevival {
  import opened Options
  import opened RedisQueue
  import opened Sessions
  import opened McpSessions
  import opened SessionRuns

  /** One of the stores holds `id`. */
  predicate Held(w: World, id: string) {
    id in w.memory || id in w.redis
  }

  /** The checks of an ordinary request may save the record. */
  predicate MaySave(s: Session) {
    s.keyId.Some? || s.isMaster.None?
  }

  /** A request under way that holds a record of `id` and can still write it into one of the stores. */
  predicate Carries(c: Config, heap: map<nat, Session>, t: Task, id: string) {
    && HeldBy(t).Some? && HeldBy(t).value.0 == id
    && match t
       case ValidateFetched(_, _, _, _) => true
       case ValidateRestored(_, _, _, _) => c.redisEnabled
       case CallHolding(_, _) => c.redisEnabled
       case KeyAsked(_) => c.redisEnabled
       case MasterAsked(_) => c.redisEnabled
       case GroupsAsked(_) => c.redisEnabled
       case Validated(_, ref, caller) =>
         c.redisEnabled && ref in heap && (caller.Reuse? || (caller.Post? && MaySave(heap[ref])))
       case _ => false
  }

  /** Redis does not hold `id`, and no request under way carries it. */
  ghost predicate Quiet(c: Config, w: World, id: string) {
    id !in w.redis && forall t :: t in w.tasks ==> !Carries(c, w.heap, w.tasks[t], id)
  }

  /** No trace of `id` is left that could be written again. */
  ghost predicate Gone(c: Config, w: World, id: string) {
    Quiet(c, w, id) && id !in w.memory
  }

  /** A request with a new identifier of its own, which is `id`. */
  predicate Draws(w: World, e: Event, id: string) {
    || (e.Create? && e.id == id)
    || (e.Rotate? && e.r.newId == id)
    || (e.Resume? && e.t in w.tasks && w.tasks[e.t].RotateFetched? && w.tasks[e.t].r.newId == id)
  }

  /** An authenticated request that presented `id`, of which there was no session, begins one. */
  predicate Recovers(w: World, e: Event, id: string) {
    e.Resume? && e.t in w.tasks && w.tasks[e.t].RecoverAllowed? && w.tasks[e.t].id == id
  }

  /** A request that takes the record of `id` out of memory to work on it. */
  predicate Takes(w: World, e: Event, id: string) {
    id in w.memory && (e.Validate? || e.Call? || e.Negotiate?) && e.id == id
  }

  /* ---------- What is old ---------- */

  /** Of what is in Redis, and of what requests under way carry, nothing with this identifier has a root before `n`. */
  ghost predicate Sealed(c: Config, w: World, id: string, n: nat) {
    && (id in w.redis ==> RootOf(w.anchors, w.redis[id]) >= n)
    && forall t :: t in w.tasks && Carries(c, w.heap, w.tasks[t], id) ==> OldEnough(w.heap, w.anchors, w.tasks[t], n)
  }

  /** The record the task holds has a root of at least `n`. */
  predicate OldEnough(heap: map<nat, Session>, anchors: seq<Anchoring>, t: Task, n: nat) {
    HeldBy(t).Some? && HeldBy(t).value.1 in heap && RootOf(anchors, heap[HeldBy(t).value.1]) >= n
  }

  predicate InMemorySince(w: World, id: string, n: nat) {
    id in w.memory ==> w.memory[id] in w.heap && RootOf(w.anchors, w.heap[w.memory[id]]) >= n
  }

  predicate Stores(ch: Change, id: string) {
    ch.put.Some? && ch.put.value.s.id == id && (ch.put.value.enters || ch.put.value.saved)
  }

  /**
    * The change leaves what is sealed so: what it stores or hands on has a late root, and it makes nothing old a
    * carrier.
    */
  predicate Spares(c: Config, w: World, ch: Change, id: string, n: nat) {
    && (Stores(ch, id) ==> (if ch.put.value.how.Founds? then |w.anchors| else RootOf(w.anchors, ch.put.value.s)) >= n)
    && (ch.spawn.Some? && Carries(c, NewHeap(w, ch), ch.spawn.value, id) ==>
          OldEnough(NewHeap(w, ch), NewAnchors(w, ch), ch.spawn.value, n))
    && (c.redisEnabled && ch.put.Some? && ch.put.value.ref in w.heap && ch.put.value.s.id == id
        && RootOf(w.anchors, w.heap[ch.put.value.ref]) < n ==>
          (MaySave(ch.put.value.s) ==> MaySave(w.heap[ch.put.value.ref])))
  }

  /** Roots stay. */
  lemma RootsStay(w: World, ch: Change, called: bool)
    requires Fits(w) && ChangeFits(w, ch, called)
    ensures forall s :: Stands(w.anchors, s) ==> RootOf(NewAnchors(w, ch), s) == RootOf(w.anchors, s)
    ensures forall ref :: ref in w.heap ==>
              ref in NewHeap(w, ch) && RootOf(NewAnchors(w, ch), NewHeap(w, ch)[ref]) == RootOf(w.anchors, w.heap[ref])
    ensures ch.put.Some? ==>
              var p := ch.put.value;
              RootOf(NewAnchors(w, ch), Stamped(w, p)) == if p.how.Founds? then |w.anchors| else RootOf(w.anchors, p.s)
  {
    hide TaskFits, SameSegment, ContextOf, TasksFit, MemoryFits, RedisFits;
  }

  /** A task that carries `id` after the change did so before, unless the record now asks for more. */
  lemma CarriesAsBefore(c: Config, w: World, ch: Change, called: bool, t: Task, id: string)
    requires ChangeFits(w, ch, called) && TaskFits(w.heap, t) && Carries(c, NewHeap(w, ch), t, id)
    ensures Carries(c, w.heap, t, id)
         || (c.redisEnabled && ch.put.Some? && ch.put.value.ref in w.heap && ch.put.value.s.id == id && HeldBy(t).Some?
             && HeldBy(t).value.1 == ch.put.value.ref && MaySave(ch.put.value.s) && !MaySave(w.heap[ch.put.value.ref]))
  {
    hide SameSegment, Stands, ContextOf;
  }

  lemma ApplySpares(c: Config, w: World, ch: Change, called: bool, id: string, n: nat)
    requires Fits(w) && ChangeFits(w, ch, called) && Sealed(c, w, id, n) && Spares(c, w, ch, id, n)
    ensures Sealed(c, Apply(w, ch), id, n)
    ensures id in Apply(w, ch).memory ==> id in w.memory || InMemorySince(Apply(w, ch), id, n)
    ensures InMemorySince(w, id, n) ==> InMemorySince(Apply(w, ch), id, n)
  {
    RootsStay(w, ch, called);
    var v := Apply(w, ch);
    forall t | t in v.tasks && Carries(c, v.heap, v.tasks[t], id)
      ensures OldEnough(v.heap, v.anchors, v.tasks[t], n)
    {
      if !(ch.spawn.Some? && t == w.nextTask) {
        TaskOf(w, t);
        CarriesAsBefore(c, w, ch, called, w.tasks[t], id);
        hide ChangeFits, Fits, NewHeap, NewAnchors, RootOf, Carries, MaySave;
      }
    }
    hide Carries, Fits, NewAnchors, TaskFits, SameSegment, Stands;
  }

  lemma TaskOf(w: World, t: nat)
    requires Fits(w) && t in w.tasks
    ensures TaskFits(w.heap, w.tasks[t])
  {
    hide TaskFits;
  }

  /* ---------- Single steps ---------- */

  lemma CloseSpares(c: Config, w: World, other: string, preserveRedis: bool, recover: Option<Option<string>>,
                    id: string, n: nat)
    requires Fits(w)
    ensures Spares(c, w, CloseStart(c, w, other, preserveRedis, recover), id, n)
  {
    hide Fits;
  }

  lemma FetchSpares(c: Config, w: World, other: string, get: Wire, t: Task, id: string, n: nat)
    requires Fits(w) && (id in w.redis ==> RootOf(w.anchors, w.redis[id]) >= n)
    requires HeldBy(t) == if Fetch(w, other, get).1.Some? then Some((other, Fetch(w, other, get).1.value)) else None
    ensures Spares(c, w, Nothing.(put := Fetch(w, other, get).0, spawn := Some(t)), id, n)
  {
    NextIsNew(w);
    if other in w.redis {
      CopyFits(w, other);
    }
    hide Fits, HeldBy, MaySave, Stands, RootOf;
  }

  lemma RotateCheckSpares(c: Config, w: World, r: Rotation, ref: nat, id: string, n: nat)
    requires Fits(w) && ref in w.heap && r.newId != id
    ensures Spares(c, w, RotateCheck(c, w, r, ref).0, id, n)
  {
    NextIsNew(w);
    CloseSpares(c, w, r.oldId, false, None, id, n);
    hide Fits, CloseStart, RootOf;
  }

  lemma TouchSpares(c: Config, w: World, ref: nat, now: int, version: Option<string>, save: Wire, caller: Caller,
                    id: string, n: nat)
    requires Fits(w) && ref in w.heap
    requires c.redisEnabled && w.heap[ref].id == id ==> RootOf(w.anchors, w.heap[ref]) >= n
    ensures Spares(c, w, Touch(c, w, ref, now, version, save, caller).0, id, n)
  {
    CloseSpares(c, w, w.heap[ref].id, false, Recovery(caller, version), id, n);
    hide Fits, CloseStart;
  }

  lemma RestoreSpares(c: Config, w: World, ref: nat, now: int, version: Option<string>, wire: Wire, caller: Caller,
                      id: string, n: nat)
    requires ref in w.heap && (w.heap[ref].id == id ==> RootOf(w.anchors, w.heap[ref]) >= n)
    ensures Spares(c, w, Restore(c, w, ref, now, version, wire, caller), id, n)
  {
  }

  lemma CallSpares(c: Config, w: World, ref: nat, now: int, save: Wire, id: string, n: nat)
    requires ref in w.heap && (c.redisEnabled && w.heap[ref].id == id ==> RootOf(w.anchors, w.heap[ref]) >= n)
    ensures Spares(c, w, CallFinish(c, w, ref, now, save).0, id, n)
  {
  }

  lemma ValidatedSpares(c: Config, w: World, task: Task, out: Outside, id: string, n: nat)
    requires Fits(w) && TaskFits(w.heap, task) && task.Validated?
    requires Carries(c, w.heap, task, id) ==> OldEnough(w.heap, w.anchors, task, n)
    ensures Spares(c, w, ResumeChange(c, w, task, out), id, n)
  {
    RecordFits(w, task.ref);
    hide Fits, ContextOf;
  }

  lemma KeySpares(c: Config, w: World, task: Task, out: Outside, id: string, n: nat)
    requires Fits(w) && TaskFits(w.heap, task) && task.KeyAsked?
    requires Carries(c, w.heap, task, id) ==> OldEnough(w.heap, w.anchors, task, n)
    ensures Spares(c, w, ResumeChange(c, w, task, out), id, n)
  {
    RecordFits(w, task.h.ref);
    hide Fits, ContextOf;
  }

  lemma MasterSpares(c: Config, w: World, task: Task, out: Outside, id: string, n: nat)
    requires Fits(w) && TaskFits(w.heap, task) && task.MasterAsked?
    requires Carries(c, w.heap, task, id) ==> OldEnough(w.heap, w.anchors, task, n)
    ensures Spares(c, w, ResumeChange(c, w, task, out), id, n)
  {
    RecordFits(w, task.h.ref);
    hide Fits, ContextOf;
  }

  lemma GroupsSpares(c: Config, w: World, task: Task, out: Outside, id: string, n: nat)
    requires Fits(w) && TaskFits(w.heap, task) && task.GroupsAsked?
    requires Carries(c, w.heap, task, id) ==> OldEnough(w.heap, w.anchors, task, n)
    ensures Spares(c, w, ResumeChange(c, w, task, out), id, n)
  {
    RecordFits(w, task.h.ref);
    hide Fits, ContextOf;
  }

  lemma LoginSpares(c: Config, w: World, task: Task, out: Outside, id: string, n: nat)
    requires Fits(w) && TaskFits(w.heap, task) && task.LoginAsked?
    requires Carries(c, w.heap, task, id) ==> OldEnough(w.heap, w.anchors, task, n)
    ensures Spares(c, w, ResumeChange(c, w, task, out), id, n)
  {
    RecordFits(w, task.h.ref);
    hide Fits, ContextOf;
  }

  lemma BeginSpares(c: Config, w: World, e: Event, id: string, n: nat)
    requires Fits(w) && !Draws(w, e, id) && (Takes(w, e, id) ==> InMemorySince(w, id, n))
    requires id in w.redis ==> RootOf(w.anchors, w.redis[id]) >= n
    ensures Spares(c, w, BeginChange(c, w, e), id, n)
  {
    hide Fits, RotateCheck, Touch, CloseStart, Fetch, Stands, RootOf, MaySave;
    match e
    case Create(other, authenticated, to, now, wire) => hide Spares; CreateSpares(c, w, e, id, n);
    case Rotate(r) =>
      FetchSpares(c, w, r.oldId, r.get, RotateFetched(r, Fetch(w, r.oldId, r.get).1), id, n);
      if r.oldId in w.memory {
        InMemory(w, r.oldId);
        RotateCheckSpares(c, w, r, w.memory[r.oldId], id, n);
      }
    case Validate(other, now, version, get, save, caller) =>
      FetchSpares(c, w, other, get, ValidateFetched(other, version, Fetch(w, other, get).1, caller), id, n);
      if other in w.memory {
        InMemory(w, other);
        TouchSpares(c, w, w.memory[other], now, version, save, caller, id, n);
      }
    case Call(other, get) =>
      if other in w.memory {
        InMemory(w, other);
      } else if Fetch(w, other, get).1.Some? {
        FetchSpares(c, w, other, get, CallHolding(other, Fetch(w, other, get).1.value), id, n);
      }
    case Close(other, preserveRedis) => CloseSpares(c, w, other, preserveRedis, None, id, n);
    case Sweep(other, now) => CloseSpares(c, w, other, false, None, id, n);
    case Negotiate(other, agreed, store) => hide Spares; NegotiateSpares(c, w, e, id, n);
    case _ =>
  }

  lemma CreateSpares(c: Config, w: World, e: Event, id: string, n: nat)
    requires Fits(w) && e.Create? && e.id != id
    ensures Spares(c, w, BeginChange(c, w, e), id, n)
  {
    hide Fits;
  }

  lemma NegotiateSpares(c: Config, w: World, e: Event, id: string, n: nat)
    requires Fits(w) && e.Negotiate? && (Takes(w, e, id) ==> InMemorySince(w, id, n))
    ensures Spares(c, w, BeginChange(c, w, e), id, n)
  {
    if e.id in w.memory {
      InMemory(w, e.id);
    }
    hide Fits;
  }

  lemma ResumeSpares(c: Config, w: World, task: Task, out: Outside, id: string, n: nat)
    requires Fits(w) && TaskFits(w.heap, task)
    requires Carries(c, w.heap, task, id) ==> OldEnough(w.heap, w.anchors, task, n)
    requires task.RotateFetched? ==> task.r.newId != id
    requires task.RecoverAllowed? && task.id == id ==> n <= |w.anchors|
    ensures Spares(c, w, ResumeChange(c, w, task, out), id, n)
  {
    hide Fits, RotateCheck, Touch, Restore, CallFinish, AfterValidation, KeyKnown, MasterKnown, GroupsKnown, LoggedIn,
        MaySave, ResultOf, Stands;
    match task
    case RotateFetched(r, found) =>
      if found.Some? {
        RotateCheckSpares(c, w, r, found.value, id, n);
      }
    case ValidateFetched(_, version, found, caller) =>
      if found.Some? {
        RestoreSpares(c, w, found.value, out.now, version, out.wire, caller, id, n);
      }
    case ValidateRestored(_, ref, version, caller) => TouchSpares(c, w, ref, out.now, version, out.wire, caller, id, n);
    case CallHolding(_, ref) => CallSpares(c, w, ref, out.now, out.wire, id, n);
    case IdleReflected(_, ref, at) => IdleSpares(c, w, ref, at, id, n);
    case Validated(_, _, _) => ValidatedSpares(c, w, task, out, id, n);
    case KeyAsked(_) => KeySpares(c, w, task, out, id, n);
    case MasterAsked(_) => MasterSpares(c, w, task, out, id, n);
    case GroupsAsked(_) => GroupsSpares(c, w, task, out, id, n);
    case LoginAsked(_) => LoginSpares(c, w, task, out, id, n);
    case _ => OtherSpares(c, w, task, out, id, n);
  }

  lemma OtherSpares(c: Config, w: World, task: Task, out: Outside, id: string, n: nat)
    requires Fits(w) && HeldBy(task).None? && (task.RecoverAllowed? && task.id == id ==> n <= |w.anchors|)
    ensures TaskFits(w.heap, task) && Spares(c, w, ResumeChange(c, w, task, out), id, n)
  {
    NextIsNew(w);
    hide Fits, ResultOf;
  }

  lemma IdleSpares(c: Config, w: World, ref: nat, at: int, id: string, n: nat)
    requires ref in w.heap
    ensures Spares(c, w, IdleFinish(w, ref, at), id, n)
  {
  }

  /** One step of a world in which what there is of `id` is sealed. */
  lemma StepSealed(c: Config, w: World, e: Event, id: string, n: nat)
    requires Fits(w) && Sealed(c, w, id, n) && !Draws(w, e, id)
    requires (Takes(w, e, id) ==> InMemorySince(w, id, n)) && (Recovers(w, e, id) ==> n <= |w.anchors|)
    ensures var v := Step(c, w, e);
            && Sealed(c, v, id, n)
            && (id in v.memory ==> id in w.memory || InMemorySince(v, id, n))
            && (InMemorySince(w, id, n) ==> InMemorySince(v, id, n))
  {
    hide Fits, BeginChange, ResumeChange, Spares, Carries, OldEnough, Apply, ChangeFits, RootOf;
    StepFits(c, w, e);
    BaseFits(w, e);
    BaseSealed(c, w, e, id, n);
    if e.Resume? && e.t in w.tasks {
      ResumeSpares(c, Base(w, e), w.tasks[e.t], e.out, id, n);
    } else {
      IdleBase(w, e);
      BeginSpares(c, w, e, id, n);
    }
    ApplySpares(c, Base(w, e), ChangeOf(c, w, e), IsCall(w, e), id, n);
  }

  lemma BaseSealed(c: Config, w: World, e: Event, id: string, n: nat)
    requires Sealed(c, w, id, n)
    ensures Sealed(c, Base(w, e), id, n) && (InMemorySince(w, id, n) <==> InMemorySince(Base(w, e), id, n))
    ensures e.Resume? && e.t in w.tasks && Carries(c, w.heap, w.tasks[e.t], id) ==>
              OldEnough(w.heap, w.anchors, w.tasks[e.t], n)
    ensures Base(w, e).heap == w.heap && Base(w, e).anchors == w.anchors && Base(w, e).memory == w.memory
  {
    hide Carries, OldEnough;
  }
}
