/**
  * Streamable sessions of `lib/sessions.js`: a memory map in front of a Redis map. Each method is cut where the source
  * awaits something, so that other requests run in between. Records are shared by reference: the memory map and the
  * requests under way hold numbers of records in `heap`, and Redis holds copies. What a step does is a `Change`.
  */
module Sessions {
  import opened Options
  import opened RedisQueue

  /**
    * A session record; fields that stored records may lack are optional. `origin` is not a field of the source: it
    * numbers the anchoring the record's context stems from, and no step depends on it.
    */
  datatype Session = Session(
    id: string,
    authenticated: bool,
    isMaster: Option<bool>,
    keyId: Option<string>,
    groupKeyIds: Option<seq<string>>,
    permissions: Option<seq<string>>,
    workspace: Option<string>,
    mode: Option<string>,
    createdAt: Option<int>,
    expiresAt: int,
    lastAccessedAt: int,
    lastReflectedAt: Option<int>,
    version: Option<string>,
    segmentSeq: Option<int>,
    segmentStartedAt: Option<int>,
    lastToolActivityAt: Option<int>,
    origin: nat)

  /** What a session stands for. */
  datatype Context = Context(
    keyId: Option<string>, isMaster: bool, workspace: Option<string>, mode: Option<string>, authenticated: bool)

  function ContextOf(s: Session): Context {
    Context(s.keyId, s.isMaster == Some(true), s.workspace, s.mode, s.authenticated)
  }

  /** A context as it was anchored, and the anchoring with which the chain of sessions began. */
  datatype Anchoring = Anchoring(root: nat, context: Context)

  /** `admits` tells the identifiers under which a session may be recovered, by their form and the policy. */
  datatype Config = Config(
    redisEnabled: bool, failClosed: bool, ttlMs: int, segments: bool, idleMs: int, maxAgeMs: int, reflectAfterMs: int,
    admits: string -> bool)

  /** What a reflection is run for. */
  datatype Target = Whole(session: string) | Segment(session: string, seqNo: int)

  /** Whom an authentication finds. */
  datatype Identity = Identity(
    keyId: Option<string>, isMaster: bool, groupKeyIds: Option<seq<string>>, permissions: Option<seq<string>>,
    workspace: Option<string>)

  datatype Anchor = Anchor(who: Identity, mode: Option<string>)

  datatype Rotated = Rotated(
    oldId: string, newId: string, expiresAt: int, keyId: Option<string>, workspace: Option<string>,
    mode: Option<string>)

  /** One rotation: its identifiers, the clock at its check and its creation, the requester, and its Redis commands. */
  datatype Rotation = Rotation(
    oldId: string, newId: string, now: int, createdAt: int, requester: Option<Identity>, trustedLocal: bool,
    get: Wire, save: Wire, deleteOld: Wire, deleteNew: Wire)

  /**
    * What a validation is for: nothing else; a request with a session of its own, which is recovered where there is
    * none; or a login that takes a session up again under the context given.
    */
  datatype Caller = Plain | Post | Reuse(to: Anchor)

  /** A request that goes on with a validated record; key and groups are the values it remembers. */
  datatype Handler = Handler(id: string, ref: nat, keyId: Option<string>, groups: Option<seq<string>>)

  /** Where a request under way goes on, with what it holds and how its command fared. */
  datatype Task =
    | CreateSaved(id: string, answered: bool)
    | RotateFetched(r: Rotation, found: Option<nat>)
    | RotateSaved(r: Rotation, s: Session, answered: bool)
    | RotateDeleted(r: Rotation, s: Session, held: bool, answered: bool)
    | ValidateFetched(id: string, version: Option<string>, found: Option<nat>, caller: Caller)
    | ValidateRestored(id: string, ref: nat, version: Option<string>, caller: Caller)
    | Validated(id: string, ref: nat, caller: Caller)
    | CallHolding(id: string, ref: nat)
    | Closing(id: string, preserveRedis: bool, recover: Option<Option<string>>)
    | Recovering(id: string, version: Option<string>)
    | RecoverFetched(id: string, version: Option<string>, who: Identity, stored: Option<Session>)
    | RecoverAllowed(id: string, version: Option<string>, to: Anchor)
    | KeyAsked(h: Handler)
    | MasterAsked(h: Handler)
    | GroupsAsked(h: Handler)
    | LoginAsked(h: Handler)
    | Reflecting(target: Target)
    | IdleReflected(id: string, ref: nat, at: int)

  datatype World = World(
    heap: map<nat, Session>,
    memory: map<string, nat>,
    redis: map<string, Session>,
    reflected: seq<Target>,
    anchors: seq<Anchoring>,
    tasks: map<nat, Task>,
    nextRef: nat,
    nextTask: nat)

  /** A method's answer, or that it awaits something. */
  datatype Reply<T> = Awaiting | Answer(value: T)

  /* ---------- Changes ---------- */

  /** A record keeps its context's origin, or begins a chain of sessions, or changes its context within its chain. */
  datatype How = Keeps | Founds | Alters

  /** A record is written; it may enter the memory map, and its copy may be saved. */
  datatype Put = Put(ref: nat, s: Session, enters: bool, saved: bool, how: How)

  /**
    * All a step does: a record written, an entry of either map removed, a request that waits on, a target handed over.
    */
  datatype Change = Change(
    put: Option<Put>, leave: Option<string>, delete: Option<string>, spawn: Option<Task>, hand: Option<Target>)

  const Nothing: Change := Change(None, None, None, None, None)

  function Stamped(w: World, p: Put): Session {
    if p.how.Keeps? then p.s else p.s.(origin := |w.anchors|)
  }

  function RootOf(anchors: seq<Anchoring>, s: Session): nat {
    if s.origin < |anchors| then anchors[s.origin].root else s.origin
  }

  function NewHeap(w: World, ch: Change): map<nat, Session> {
    if ch.put.Some? then w.heap[ch.put.value.ref := Stamped(w, ch.put.value)] else w.heap
  }

  function NewMemory(w: World, ch: Change): map<string, nat> {
    var entered := if ch.put.Some? && ch.put.value.enters then w.memory[ch.put.value.s.id := ch.put.value.ref]
        else w.memory;
    if ch.leave.Some? then entered - {ch.leave.value} else entered
  }

  function NewRedis(w: World, ch: Change): map<string, Session> {
    var saved := if ch.put.Some? && ch.put.value.saved then w.redis[ch.put.value.s.id := Stamped(w, ch.put.value)]
        else w.redis;
    if ch.delete.Some? then saved - {ch.delete.value} else saved
  }

  function NewAnchors(w: World, ch: Change): seq<Anchoring> {
    if ch.put.None? || ch.put.value.how.Keeps? then w.anchors
    else
      var p := ch.put.value;
      w.anchors + [Anchoring(if p.how.Founds? then |w.anchors| else RootOf(w.anchors, p.s), ContextOf(p.s))]
  }

  function Apply(w: World, ch: Change): World {
    World(
      NewHeap(w, ch),
      NewMemory(w, ch),
      NewRedis(w, ch),
      if ch.hand.Some? then w.reflected + [ch.hand.value] else w.reflected,
      NewAnchors(w, ch),
      if ch.spawn.Some? then w.tasks[w.nextTask := ch.spawn.value] else w.tasks,
      if ch.put.Some? && ch.put.value.ref == w.nextRef then w.nextRef + 1 else w.nextRef,
      if ch.spawn.Some? then w.nextTask + 1 else w.nextTask)
  }

  /** Task `t` goes on: it is no longer waiting. */
  function Resumed(w: World, t: nat): World {
    w.(tasks := w.tasks - {t})
  }

  /* ---------- What holds between any two steps ---------- */

  predicate IsRecordOf(heap: map<nat, Session>, ref: nat, id: string) {
    ref in heap && heap[ref].id == id
  }

  /** The record a task holds, and its identifier. */
  function HeldBy(t: Task): Option<(string, nat)> {
    match t
    case RotateFetched(r, found) => if found.Some? then Some((r.oldId, found.value)) else None
    case ValidateFetched(id, _, found, _) => if found.Some? then Some((id, found.value)) else None
    case ValidateRestored(id, ref, _, _) => Some((id, ref))
    case Validated(id, ref, _) => Some((id, ref))
    case CallHolding(id, ref) => Some((id, ref))
    case KeyAsked(h) => Some((h.id, h.ref))
    case MasterAsked(h) => Some((h.id, h.ref))
    case GroupsAsked(h) => Some((h.id, h.ref))
    case LoginAsked(h) => Some((h.id, h.ref))
    case IdleReflected(id, ref, _) => Some((id, ref))
    case _ => None
  }

  predicate TaskFits(heap: map<nat, Session>, t: Task) {
    && (HeldBy(t).Some? ==> IsRecordOf(heap, HeldBy(t).value.1, HeldBy(t).value.0))
    && (t.KeyAsked? ==> t.h.keyId.Some?)
  }

  /** The record's context is the one its origin was anchored with. */
  predicate Stands(anchors: seq<Anchoring>, s: Session) {
    s.origin < |anchors| && anchors[s.origin].context == ContextOf(s)
  }

  predicate HeapFits(heap: map<nat, Session>, anchors: seq<Anchoring>, nextRef: nat) {
    forall ref :: ref in heap ==> ref < nextRef && Stands(anchors, heap[ref])
  }

  predicate TasksFit(tasks: map<nat, Task>, heap: map<nat, Session>, nextTask: nat) {
    forall t :: t in tasks ==> t < nextTask && TaskFits(heap, tasks[t])
  }

  predicate MemoryFits(memory: map<string, nat>, heap: map<nat, Session>) {
    forall id :: id in memory ==> IsRecordOf(heap, memory[id], id)
  }

  predicate RedisFits(redis: map<string, Session>, anchors: seq<Anchoring>) {
    forall id :: id in redis ==> redis[id].id == id && Stands(anchors, redis[id])
  }

  predicate AnchorsFit(anchors: seq<Anchoring>) {
    forall i :: 0 <= i < |anchors| ==> anchors[i].root <= i
  }

  predicate Fits(w: World) {
    && HeapFits(w.heap, w.anchors, w.nextRef) && TasksFit(w.tasks, w.heap, w.nextTask)
    && MemoryFits(w.memory, w.heap) && RedisFits(w.redis, w.anchors) && AnchorsFit(w.anchors)
  }

  /* ---------- Parts of a step ---------- */

  function OrElse<T>(v: Option<T>, d: T): T {
    if v.Some? then v.value else d
  }

  function NewSession(c: Config, id: string, authenticated: bool, to: Anchor, version: Option<string>,
                      now: int): Session {
    Session(id, authenticated, Some(to.who.isMaster), to.who.keyId, to.who.groupKeyIds, to.who.permissions,
            to.who.workspace, to.mode, Some(now), now + c.ttlMs, now, None, version, Some(1), Some(now), Some(now), 0)
  }

  /** `advanceSegment`: the record after the call, and the segment the call ended. */
  function Advance(c: Config, s: Session, now: int): (Session, Option<int>) {
    var seqNo := OrElse(s.segmentSeq, 1);
    var startedAt := OrElse(s.segmentStartedAt, OrElse(s.createdAt, now));
    var lastAt := OrElse(s.lastToolActivityAt, startedAt);
    if now - lastAt > c.idleMs || now - startedAt > c.maxAgeMs
    then (s.(segmentSeq := Some(seqNo + 1), segmentStartedAt := Some(now), lastToolActivityAt := Some(now)),
          Some(seqNo))
    else (s.(segmentSeq := Some(seqNo), segmentStartedAt := Some(startedAt), lastToolActivityAt := Some(now)), None)
  }

  /** `reflectTargetId`. */
  function ReflectTarget(c: Config, s: Session): Target {
    if c.segments then Segment(s.id, OrElse(s.segmentSeq, 1)) else Whole(s.id)
  }

  /** A save whose request gets through. */
  predicate Saves(c: Config, wire: Wire) {
    c.redisEnabled && !wire.RequestLost?
  }

  /** The command that reads `id` from Redis: a copy of its own, if it is there and the answer arrives. */
  function Fetch(w: World, id: string, get: Wire): (Option<Put>, Option<nat>) {
    if get.Answered? && id in w.redis then (Some(Put(w.nextRef, w.redis[id], false, false, Keeps)), Some(w.nextRef))
    else (None, None)
  }

  predicate SameIdentity(requester: Option<Identity>, s: Session) {
    && requester.Some?
    && requester.value.keyId == s.keyId && requester.value.isMaster == (s.isMaster == Some(true))
    && (requester.value.isMaster || requester.value.keyId.Some?)
  }

  function IdentityOf(s: Session): Identity {
    Identity(s.keyId, s.isMaster == Some(true), s.groupKeyIds, s.permissions, s.workspace)
  }

  /** The new session of a rotation: the requester's credential, the old session's workspace, mode and origin. */
  function Successor(c: Config, r: Rotation, s: Session): Session
    requires r.trustedLocal || r.requester.Some?
  {
    var who := if r.trustedLocal then IdentityOf(s) else r.requester.value;
    NewSession(c, r.newId, s.authenticated, Anchor(who.(workspace := s.workspace), s.mode), None, r.createdAt)
      .(origin := s.origin)
  }

  /* ---------- Steps ---------- */

  /** `createStreamableSessionWithId` up to saving the session. */
  function CreateStart(c: Config, w: World, s: Session, wire: Wire): (Change, Reply<bool>) {
    var put := Put(w.nextRef, s, true, Saves(c, wire), Founds);
    (Change(Some(put), None, None, if c.redisEnabled then Some(CreateSaved(s.id, wire.Answered?)) else None, None),
     if c.redisEnabled then Awaiting else Answer(true))
  }

  function CreateFinish(c: Config, id: string, answered: bool): (Change, Reply<bool>) {
    if answered || !c.failClosed then (Nothing, Answer(true)) else (Nothing.(leave := Some(id)), Answer(false))
  }

  /** A request whose session is not there goes on to recover it, if it is one that does. */
  function Missing(id: string, recover: Option<Option<string>>): Change {
    Nothing.(spawn := if recover.Some? then Some(Recovering(id, recover.value)) else None)
  }

  function CloseStart(c: Config, w: World, id: string, preserveRedis: bool, recover: Option<Option<string>>): Change
    requires Fits(w)
  {
    if id !in w.memory then Missing(id, recover)
    else Change(None, None, None, Some(Closing(id, preserveRedis, recover)),
                Some(ReflectTarget(c, w.heap[w.memory[id]])))
  }

  /** A record's own `close`. */
  function CloseFinish(c: Config, id: string, preserveRedis: bool, recover: Option<Option<string>>,
                       wire: Wire): Change {
    Missing(id, recover).(leave := Some(id), delete := if !preserveRedis && Saves(c, wire) then Some(id) else None)
  }

  function RotateStart(c: Config, w: World, r: Rotation): (Change, Reply<Result<Rotated, int>>)
    requires Fits(w)
  {
    if r.oldId in w.memory then RotateCheck(c, w, r, w.memory[r.oldId])
    else if !c.redisEnabled then (Nothing, Answer(Err(404)))
    else
      var (put, found) := Fetch(w, r.oldId, r.get);
      (Nothing.(put := put, spawn := Some(RotateFetched(r, found))), Awaiting)
  }

  /** The old record is found: refuse, or create the new session. */
  function RotateCheck(c: Config, w: World, r: Rotation, ref: nat): (Change, Reply<Result<Rotated, int>>)
    requires Fits(w) && ref in w.heap
  {
    var s := w.heap[ref];
    if !r.trustedLocal && !SameIdentity(r.requester, s) then (Nothing, Answer(Err(403)))
    else if r.now > s.expiresAt then (CloseStart(c, w, r.oldId, false, None), Answer(Err(401)))
    else
      var n := Successor(c, r, s);
      (Nothing.(put := Some(Put(w.nextRef, n, true, Saves(c, r.save), Keeps)),
                spawn := Some(RotateSaved(r, n, !c.redisEnabled || r.save.Answered?))), Awaiting)
  }

  function ResultOf(c: Config, w: World, r: Rotation, s: Session): Rotated
    requires Fits(w)
  {
    var expiresAt := if r.newId in w.memory then w.heap[w.memory[r.newId]].expiresAt else r.now + c.ttlMs;
    Rotated(r.oldId, r.newId, expiresAt, s.keyId, s.workspace, s.mode)
  }

  /** The new session is saved, or is not: delete the old one from Redis. */
  function RotateSwap(c: Config, w: World, r: Rotation, s: Session, answered: bool)
    : (Change, Reply<Result<Rotated, int>>)
    requires Fits(w)
  {
    if c.redisEnabled && !answered && c.failClosed then (Nothing.(leave := Some(r.newId)), Answer(Err(503)))
    else if c.redisEnabled then
      (Nothing.(delete := if r.deleteOld.RequestLost? then None else Some(r.oldId),
                spawn := Some(RotateDeleted(r, s, r.oldId in w.memory, r.deleteOld.Answered?))), Awaiting)
    else (Nothing.(leave := Some(r.oldId)), Answer(Ok(ResultOf(c, w, r, s))))
  }

  /** The old session is deleted from Redis, or is not: close it here, or undo. */
  function RotateFinish(c: Config, w: World, r: Rotation, s: Session, held: bool, answered: bool)
    : (Change, Reply<Result<Rotated, int>>)
    requires Fits(w)
  {
    if !answered then
      (Nothing.(leave := Some(r.newId), delete := if r.deleteNew.RequestLost? then None else Some(r.newId)),
       Answer(Err(503)))
    else (Nothing.(leave := if held then Some(r.oldId) else None), Answer(Ok(ResultOf(c, w, r, s))))
  }

  /** What a request goes on with when its validation fails. */
  function Recovery(caller: Caller, version: Option<string>): Option<Option<string>> {
    if caller.Post? then Some(version) else None
  }

  function ValidateStart(c: Config, w: World, id: string, now: int, version: Option<string>, get: Wire, save: Wire,
                         caller: Caller): (Change, Reply<bool>)
    requires Fits(w)
  {
    if id in w.memory then Touch(c, w, w.memory[id], now, version, save, caller)
    else if !c.redisEnabled then (Missing(id, Recovery(caller, version)), Answer(false))
    else
      var (put, found) := Fetch(w, id, get);
      (Nothing.(put := put, spawn := Some(ValidateFetched(id, version, found, caller))), Awaiting)
  }

  /** A fetched session enters the memory map again, at the version asked for and with a new lifetime. */
  function Restore(c: Config, w: World, ref: nat, now: int, version: Option<string>, wire: Wire, caller: Caller): Change
    requires ref in w.heap
  {
    var s := w.heap[ref];
    var restored := s.(lastAccessedAt := now, expiresAt := now + c.ttlMs,
                       version := if version.Some? then version else s.version);
    Nothing.(put := Some(Put(ref, restored, true, Saves(c, wire), Keeps)),
             spawn := Some(ValidateRestored(s.id, ref, version, caller)))
  }

  /** A record is closed when it has expired and given a new lifetime otherwise. */
  function Touch(c: Config, w: World, ref: nat, now: int, version: Option<string>, save: Wire, caller: Caller)
    : (Change, Reply<bool>)
    requires Fits(w) && ref in w.heap
  {
    var s := w.heap[ref];
    if now > s.expiresAt then (CloseStart(c, w, s.id, false, Recovery(caller, version)), Answer(false))
    else
      var touched := s.(lastAccessedAt := now, expiresAt := now + c.ttlMs);
      (Nothing.(put := Some(Put(ref, touched, false, Saves(c, save), Keeps)),
                spawn := if caller.Plain? then None else Some(Validated(s.id, ref, caller))), Answer(true))
  }

  function CallStart(c: Config, w: World, id: string, get: Wire): (Change, Reply<Target>) {
    if id == "" || !c.segments then (Nothing, Answer(Whole(id)))
    else if id in w.memory then (Nothing.(spawn := Some(CallHolding(id, w.memory[id]))), Awaiting)
    else if !c.redisEnabled then (Nothing, Answer(Whole(id)))
    else
      var (put, found) := Fetch(w, id, get);
      if found.Some? then (Nothing.(put := put, spawn := Some(CallHolding(id, found.value))), Awaiting)
      else (Nothing, Answer(Whole(id)))
  }

  /** The record held is advanced, wherever it is by now, and its copy saved. */
  function CallFinish(c: Config, w: World, ref: nat, now: int, save: Wire): (Change, Reply<Target>)
    requires ref in w.heap
  {
    var (s, ended) := Advance(c, w.heap[ref], now);
    (Nothing.(put := Some(Put(ref, s, false, Saves(c, save), Keeps)),
              hand := if ended.Some? then Some(Segment(s.id, ended.value)) else None),
     Answer(Segment(s.id, s.segmentSeq.value)))
  }

  /* ---------- Reflection of sessions that stay open ---------- */

  /** When a session was last used, as far as its record says. */
  function LastAccess(s: Session): Option<int> {
    if s.lastAccessedAt != 0 then Some(s.lastAccessedAt) else s.createdAt
  }

  /** The session has been idle for long and was not reflected since. */
  predicate NeedsReflection(c: Config, s: Session, now: int) {
    && LastAccess(s).Some? && now - LastAccess(s).value > c.reflectAfterMs
    && (OrElse(s.lastReflectedAt, 0) == 0 || now - s.lastReflectedAt.value > c.reflectAfterMs)
  }

  /** `cleanupExpiredSessions` on one session. */
  function Sweep(c: Config, w: World, id: string, now: int): Change
    requires Fits(w)
  {
    if id !in w.memory then Nothing
    else
      var ref := w.memory[id];
      if now > w.heap[ref].expiresAt then CloseStart(c, w, id, false, None)
      else if NeedsReflection(c, w.heap[ref], now) then
        Nothing.(hand := Some(ReflectTarget(c, w.heap[ref])), spawn := Some(IdleReflected(id, ref, now)))
      else Nothing
  }

  function IdleFinish(w: World, ref: nat, at: int): Change
    requires ref in w.heap
  {
    Nothing.(put := Some(Put(ref, w.heap[ref].(lastReflectedAt := Some(at)), false, false, Keeps)))
  }

  /** A reflection asked for by hand: its target is `peekCurrentSegmentId`, and it is run later. */
  function Peek(c: Config, w: World, id: string, get: Wire): Change
    requires Fits(w)
  {
    var target :=
      if !c.segments then Whole(id)
      else if id in w.memory then ReflectTarget(c, w.heap[w.memory[id]])
      else if c.redisEnabled && get.Answered? && id in w.redis then ReflectTarget(c, w.redis[id])
      else Segment(id, 1);
    Nothing.(spawn := Some(Reflecting(target)))
  }

  /** A target listed as not yet reflected whose session is not in memory is to be reflected. */
  function Relist(w: World, target: Target): Change {
    Nothing.(spawn := if target.session in w.memory then None else Some(Reflecting(target)))
  }
}
