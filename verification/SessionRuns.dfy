/** Runs of requests on the two stores, cut at everything they await, and where the records in them come from. */
module SessionRuns {
  import opened Options
  import opened RedisQueue
  import opened Sessions
  import opened McpSessions

  datatype Event =
    | Create(id: string, authenticated: bool, to: Anchor, now: int, wire: Wire)
    | Rotate(r: Rotation)
    | Validate(id: string, now: int, version: Option<string>, get: Wire, save: Wire, caller: Caller)
    | Call(id: string, get: Wire)
    | Close(id: string, preserveRedis: bool)
    | Expel(id: string, wire: Wire)
    | Sweep(id: string, now: int)
    | Peek(id: string, get: Wire)
    | Relist(target: Target)
    | Negotiate(id: string, agreed: string, store: Option<Wire>)
    | Resume(t: nat, out: Outside)

  /** A request begins; `Expel` is a record's own close, as when the sessions of an API key are closed. */
  function BeginChange(c: Config, w: World, e: Event): Change
    requires Fits(w)
  {
    match e
    case Create(id, authenticated, to, now, wire) =>
      CreateStart(c, w, NewSession(c, id, authenticated, to, None, now), wire).0
    case Rotate(r) => RotateStart(c, w, r).0
    case Validate(id, now, version, get, save, caller) => ValidateStart(c, w, id, now, version, get, save, caller).0
    case Call(id, get) => CallStart(c, w, id, get).0
    case Close(id, preserveRedis) => CloseStart(c, w, id, preserveRedis, None)
    case Expel(id, wire) => CloseFinish(c, id, false, None, wire)
    case Sweep(id, now) => Sessions.Sweep(c, w, id, now)
    case Peek(id, get) => Sessions.Peek(c, w, id, get)
    case Relist(target) => Sessions.Relist(w, target)
    case Negotiate(id, agreed, store) => McpSessions.Negotiate(c, w, id, agreed, store)
    case Resume(_, _) => Nothing
  }

  /** A request under way goes on. */
  function ResumeChange(c: Config, w: World, task: Task, out: Outside): Change
    requires Fits(w) && TaskFits(w.heap, task)
  {
    var now, wire := out.now, out.wire;
    match task
    case CreateSaved(id, answered) => CreateFinish(c, id, answered).0
    case RotateFetched(r, found) => if found.Some? then RotateCheck(c, w, r, found.value).0 else Nothing
    case RotateSaved(r, s, answered) => RotateSwap(c, w, r, s, answered).0
    case RotateDeleted(r, s, held, answered) => RotateFinish(c, w, r, s, held, answered).0
    case ValidateFetched(id, version, found, caller) =>
      if found.Some? then Restore(c, w, found.value, now, version, wire, caller)
          else Missing(id, Recovery(caller, version))
    case ValidateRestored(_, ref, version, caller) => Touch(c, w, ref, now, version, wire, caller).0
    case Validated(id, ref, caller) => AfterValidation(c, w, id, ref, caller, wire)
    case CallHolding(_, ref) => CallFinish(c, w, ref, now, wire).0
    case Closing(id, preserveRedis, recover) => CloseFinish(c, id, preserveRedis, recover, wire)
    case Recovering(id, version) => RecoverStart(c, w, id, version, out)
    case RecoverFetched(id, version, who, stored) => RecoverCheck(id, version, who, stored, out.mode)
    case RecoverAllowed(id, version, to) => RecoverCreate(c, w, id, version, to, now, wire)
    case KeyAsked(h) => KeyKnown(c, w, h, out.key, wire)
    case MasterAsked(h) => MasterKnown(c, w, h, out.auth, wire)
    case GroupsAsked(h) => GroupsKnown(c, w, h, out.groups, wire)
    case LoginAsked(h) => LoggedIn(w, h, out.auth)
    case Reflecting(target) => Nothing.(hand := Some(target))
    case IdleReflected(_, ref, at) => IdleFinish(w, ref, at)
  }

  predicate Goes(w: World, e: Event) {
    e.Resume? ==> e.t in w.tasks
  }

  /** The world a step works on: the request that goes on is no longer waiting. */
  function Base(w: World, e: Event): World {
    if e.Resume? then Resumed(w, e.t) else w
  }

  lemma BaseFits(w: World, e: Event)
    requires Fits(w)
    ensures Fits(Base(w, e))
    ensures e.Resume? && e.t in w.tasks ==> TaskFits(Base(w, e).heap, w.tasks[e.t])
  {
  }

  function ChangeOf(c: Config, w: World, e: Event): Change
    requires Fits(w)
  {
    BaseFits(w, e);
    if e.Resume? && e.t in w.tasks then ResumeChange(c, Base(w, e), w.tasks[e.t], e.out) else BeginChange(c, w, e)
  }

  function Step(c: Config, w: World, e: Event): World
    requires Fits(w)
  {
    Apply(Base(w, e), ChangeOf(c, w, e))
  }

  function After(c: Config, w: World, run: seq<Event>): (v: World)
    requires Fits(w)
    ensures Fits(v)
  {
    if run == [] then w
    else
      var before := After(c, w, run[..|run| - 1]);
      StepFits(c, before, run[|run| - 1]);
      Step(c, before, run[|run| - 1])
  }

  /** The state before event `k`. */
  function Before(c: Config, w: World, run: seq<Event>, k: nat): (v: World)
    requires Fits(w) && k <= |run|
    ensures Fits(v)
  {
    After(c, w, run[..k])
  }

  /* ---------- Single changes ---------- */

  /** The segment fields of a record, and what else numbers its segments. */
  predicate SameSegment(s: Session, t: Session) {
    && s.id == t.id && s.segmentSeq == t.segmentSeq && s.segmentStartedAt == t.segmentStartedAt
    && s.lastToolActivityAt == t.lastToolActivityAt && s.createdAt == t.createdAt
  }

  predicate PutFits(w: World, p: Put) {
    if p.ref in w.heap then
      p.s.id == w.heap[p.ref].id && p.s.origin == w.heap[p.ref].origin && !p.how.Founds?
      && (p.how.Keeps? ==> ContextOf(p.s) == ContextOf(w.heap[p.ref]))
    else p.ref == w.nextRef && !p.how.Alters? && (p.how.Keeps? ==> Stands(w.anchors, p.s))
  }

  /**
    * The change is one that a step may make: one that writes removes nothing; `called` says that it is a tool call,
    * which alone moves segments on.
    */
  predicate ChangeFits(w: World, ch: Change, called: bool) {
    && (ch.put.Some? ==> PutFits(w, ch.put.value) && ch.leave.None? && ch.delete.None?)
    && (ch.put.Some? && ch.put.value.ref in w.heap && !called ==> SameSegment(w.heap[ch.put.value.ref], ch.put.value.s))
    && (ch.spawn.Some? ==> TaskFits(NewHeap(w, ch), ch.spawn.value))
  }

  lemma RecordFits(w: World, ref: nat)
    requires Fits(w) && ref in w.heap
    ensures ref < w.nextRef && Stands(w.anchors, w.heap[ref])
  {
  }

  lemma InMemory(w: World, id: string)
    requires Fits(w) && id in w.memory
    ensures IsRecordOf(w.heap, w.memory[id], id)
  {
  }

  lemma CopyFits(w: World, id: string)
    requires Fits(w) && id in w.redis
    ensures w.redis[id].id == id && Stands(w.anchors, w.redis[id])
  {
  }

  lemma NextIsNew(w: World)
    requires Fits(w)
    ensures w.nextRef !in w.heap && w.nextTask !in w.tasks
  {
  }

  lemma CloseFits(c: Config, w: World, id: string, preserveRedis: bool, recover: Option<Option<string>>)
    requires Fits(w)
    ensures ChangeFits(w, CloseStart(c, w, id, preserveRedis, recover), false)
  {
    hide Fits;
  }

  lemma CreateFits(c: Config, w: World, s: Session, wire: Wire)
    requires Fits(w)
    ensures ChangeFits(w, CreateStart(c, w, s, wire).0, false)
  {
    NextIsNew(w);
    hide Fits;
  }

  /** A copy is fetched for a request that goes on with it. */
  lemma FetchFits(w: World, id: string, get: Wire, t: Task)
    requires Fits(w) && !t.KeyAsked?
    requires HeldBy(t) == if Fetch(w, id, get).1.Some? then Some((id, Fetch(w, id, get).1.value)) else None
    ensures ChangeFits(w, Nothing.(put := Fetch(w, id, get).0, spawn := Some(t)), false)
  {
    NextIsNew(w);
    if id in w.redis {
      CopyFits(w, id);
    }
    hide Fits, HeldBy, Stands;
  }

  lemma RotateCheckFits(c: Config, w: World, r: Rotation, ref: nat)
    requires Fits(w) && ref in w.heap
    ensures ChangeFits(w, RotateCheck(c, w, r, ref).0, false)
  {
    NextIsNew(w);
    RecordFits(w, ref);
    CloseFits(c, w, r.oldId, false, None);
    hide Fits, CloseStart;
  }

  lemma TouchFits(c: Config, w: World, ref: nat, now: int, version: Option<string>, save: Wire, caller: Caller)
    requires Fits(w) && ref in w.heap
    ensures ChangeFits(w, Touch(c, w, ref, now, version, save, caller).0, false)
  {
    CloseFits(c, w, w.heap[ref].id, false, Recovery(caller, version));
    hide Fits, CloseStart;
  }

  lemma RestoreFits(c: Config, w: World, ref: nat, now: int, version: Option<string>, wire: Wire, caller: Caller)
    requires Fits(w) && ref in w.heap
    ensures ChangeFits(w, Restore(c, w, ref, now, version, wire, caller), false)
  {
    hide Fits;
  }

  lemma CallFits(c: Config, w: World, ref: nat, now: int, save: Wire)
    requires Fits(w) && ref in w.heap
    ensures ChangeFits(w, CallFinish(c, w, ref, now, save).0, true)
  {
    hide Fits;
  }

  lemma HandlerFits(c: Config, w: World, task: Task, out: Outside)
    requires Fits(w) && TaskFits(w.heap, task)
    requires task.Validated? || task.KeyAsked? || task.MasterAsked? || task.GroupsAsked? || task.LoginAsked?
    ensures ChangeFits(w, ResumeChange(c, w, task, out), false)
  {
    hide Fits, Stands;
    match task
    case Validated(id, ref, caller) =>
    case KeyAsked(h) =>
    case MasterAsked(h) =>
    case GroupsAsked(h) =>
    case LoginAsked(h) =>
  }

  lemma BeginFits(c: Config, w: World, e: Event)
    requires Fits(w)
    ensures ChangeFits(w, BeginChange(c, w, e), false)
  {
    hide Fits, RotateCheck, Touch, CloseStart, Fetch, Stands;
    match e
    case Create(id, authenticated, to, now, wire) =>
      CreateFits(c, w, NewSession(c, id, authenticated, to, None, now), wire);
      hide ChangeFits;
    case Rotate(r) =>
      FetchFits(w, r.oldId, r.get, RotateFetched(r, Fetch(w, r.oldId, r.get).1));
      if r.oldId in w.memory {
        InMemory(w, r.oldId);
        RotateCheckFits(c, w, r, w.memory[r.oldId]);
      }
    case Validate(id, now, version, get, save, caller) =>
      FetchFits(w, id, get, ValidateFetched(id, version, Fetch(w, id, get).1, caller));
      if id in w.memory {
        InMemory(w, id);
        TouchFits(c, w, w.memory[id], now, version, save, caller);
      }
    case Call(id, get) =>
      if id in w.memory {
        InMemory(w, id);
      } else if Fetch(w, id, get).1.Some? {
        FetchFits(w, id, get, CallHolding(id, Fetch(w, id, get).1.value));
      }
    case Close(id, preserveRedis) => CloseFits(c, w, id, preserveRedis, None);
    case Sweep(id, now) =>
      CloseFits(c, w, id, false, None);
      if id in w.memory {
        InMemory(w, id);
      }
    case Negotiate(id, agreed, store) =>
      if id in w.memory {
        InMemory(w, id);
      }
    case _ =>
  }

  lemma ResumeFits(c: Config, w: World, task: Task, out: Outside)
    requires Fits(w) && TaskFits(w.heap, task)
    ensures ChangeFits(w, ResumeChange(c, w, task, out), task.CallHolding?)
  {
    hide Fits, RotateCheck, Touch, Restore, CallFinish, CreateStart, AfterValidation, KeyKnown, MasterKnown,
        GroupsKnown;
    match task
    case RotateFetched(r, found) =>
      if found.Some? {
        RotateCheckFits(c, w, r, found.value);
      }
    case ValidateFetched(id, version, found, caller) =>
      if found.Some? {
        RestoreFits(c, w, found.value, out.now, version, out.wire, caller);
      }
    case ValidateRestored(_, ref, version, caller) => TouchFits(c, w, ref, out.now, version, out.wire, caller);
    case CallHolding(_, ref) => CallFits(c, w, ref, out.now, out.wire);
    case RecoverAllowed(id, version, to) => CreateFits(c, w, NewSession(c, id, true, to, version, out.now), out.wire);
    case IdleReflected(_, ref, at) =>
    case _ =>
      if task.Validated? || task.KeyAsked? || task.MasterAsked? || task.GroupsAsked? || task.LoginAsked? {
        HandlerFits(c, w, task, out);
      }
  }

  /* ---------- Changes applied ---------- */

  /** Records keep their identifiers, and a context that was anchored stays so. */
  lemma HeapStays(w: World, ch: Change, called: bool)
    requires Fits(w) && ChangeFits(w, ch, called)
    ensures forall ref, id :: IsRecordOf(w.heap, ref, id) ==> IsRecordOf(NewHeap(w, ch), ref, id)
    ensures forall t :: TaskFits(w.heap, t) ==> TaskFits(NewHeap(w, ch), t)
    ensures ch.put.Some? ==>
              ch.put.value.ref in NewHeap(w, ch) && NewHeap(w, ch)[ch.put.value.ref].id == ch.put.value.s.id
  {
    hide HeldBy, Stands, Fits, SameSegment, ContextOf;
  }

  lemma AnchorsStay(w: World, ch: Change, called: bool)
    requires Fits(w) && ChangeFits(w, ch, called)
    ensures forall s :: Stands(w.anchors, s) ==> Stands(NewAnchors(w, ch), s)
    ensures ch.put.Some? ==> Stands(NewAnchors(w, ch), Stamped(w, ch.put.value))
    ensures forall i :: 0 <= i < |NewAnchors(w, ch)| ==> NewAnchors(w, ch)[i].root <= i
  {
    if ch.put.Some? && ch.put.value.ref in w.heap {
      RecordFits(w, ch.put.value.ref);
    }
    hide TaskFits, SameSegment, IsRecordOf;
  }

  lemma ApplyFits(w: World, ch: Change, called: bool)
    requires Fits(w) && ChangeFits(w, ch, called)
    ensures Fits(Apply(w, ch))
  {
    HeapStays(w, ch, called);
    AnchorsStay(w, ch, called);
    RefsBelow(w, ch, called);
    HeapPart(w, ch);
    TasksPart(w, ch);
    MemoryPart(w, ch);
    RedisPart(w, ch);
    hide Stands, HeapFits, TasksFit, MemoryFits, RedisFits, ChangeFits, NewHeap, NewMemory, NewRedis, NewAnchors;
  }

  lemma HeapPart(w: World, ch: Change)
    requires HeapFits(w.heap, w.anchors, w.nextRef) && forall s :: Stands(w.anchors, s) ==> Stands(NewAnchors(w, ch), s)
    requires ch.put.Some? ==> ch.put.value.ref <= w.nextRef && Stands(NewAnchors(w, ch), Stamped(w, ch.put.value))
    ensures var v := Apply(w, ch); HeapFits(v.heap, v.anchors, v.nextRef)
  {
    hide Stands, Stamped, NewMemory, NewRedis, NewAnchors;
  }

  lemma TasksPart(w: World, ch: Change)
    requires TasksFit(w.tasks, w.heap, w.nextTask) && forall t :: TaskFits(w.heap, t) ==> TaskFits(NewHeap(w, ch), t)
    requires ch.spawn.Some? ==> TaskFits(NewHeap(w, ch), ch.spawn.value)
    ensures var v := Apply(w, ch); TasksFit(v.tasks, v.heap, v.nextTask)
  {
    hide TaskFits, NewHeap, NewMemory, NewRedis, NewAnchors;
  }

  lemma MemoryPart(w: World, ch: Change)
    requires MemoryFits(w.memory, w.heap)
    requires forall ref, id :: IsRecordOf(w.heap, ref, id) ==> IsRecordOf(NewHeap(w, ch), ref, id)
    requires ch.put.Some? ==> IsRecordOf(NewHeap(w, ch), ch.put.value.ref, ch.put.value.s.id)
    ensures var v := Apply(w, ch); MemoryFits(v.memory, v.heap)
  {
    hide IsRecordOf, NewHeap, NewRedis, NewAnchors;
  }

  lemma RedisPart(w: World, ch: Change)
    requires RedisFits(w.redis, w.anchors) && forall s :: Stands(w.anchors, s) ==> Stands(NewAnchors(w, ch), s)
    requires ch.put.Some? ==>
               Stamped(w, ch.put.value).id == ch.put.value.s.id && Stands(NewAnchors(w, ch), Stamped(w, ch.put.value))
    ensures var v := Apply(w, ch); RedisFits(v.redis, v.anchors)
  {
    hide Stands, Stamped, NewHeap, NewMemory, NewAnchors;
  }

  lemma RefsBelow(w: World, ch: Change, called: bool)
    requires Fits(w) && ChangeFits(w, ch, called)
    ensures ch.put.Some? ==> ch.put.value.ref <= w.nextRef
    ensures ch.put.Some? && ch.put.value.ref != w.nextRef ==> ch.put.value.ref in w.heap
    ensures ch.spawn.Some? ==> TaskFits(NewHeap(w, ch), ch.spawn.value)
    ensures ch.put.Some? ==> IsRecordOf(NewHeap(w, ch), ch.put.value.ref, ch.put.value.s.id)
    ensures ch.put.Some? ==> Stamped(w, ch.put.value).id == ch.put.value.s.id
  {
    hide TaskFits, Stands, SameSegment;
  }

  predicate IsCall(w: World, e: Event) {
    e.Resume? && e.t in w.tasks && w.tasks[e.t].CallHolding?
  }

  lemma StepFits(c: Config, w: World, e: Event)
    requires Fits(w)
    ensures Fits(Base(w, e)) && ChangeFits(Base(w, e), ChangeOf(c, w, e), IsCall(w, e)) && Fits(Step(c, w, e))
  {
    hide Fits, ResumeChange, BeginChange, ChangeFits, Apply;
    BaseFits(w, e);
    if e.Resume? && e.t in w.tasks {
      ResumeFits(c, Base(w, e), w.tasks[e.t], e.out);
    } else {
      BeginFits(c, w, e);
      IdleBase(w, e);
    }
    ApplyFits(Base(w, e), ChangeOf(c, w, e), IsCall(w, e));
  }

  /** A resumption of nothing changes nothing. */
  lemma IdleBase(w: World, e: Event)
    requires !(e.Resume? && e.t in w.tasks)
    ensures Base(w, e) == w
  {
    if e.Resume? {
      assert w.tasks - {e.t} == w.tasks;
    }
  }
}
