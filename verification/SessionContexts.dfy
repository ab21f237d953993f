/**
  * Where the context of a session comes from. Creation, recovery, a login that takes a session up again and the checks
  * of an ordinary request anchor a context; rotations, restorations and all else hand the last one on.
  */
module SessionContexts {
  import opened Options
  import opened RedisQueue
  import opened Sessions
  import opened McpSessions
  import opened SessionRuns

  function ContextTo(to: Anchor, authenticated: bool): Context {
    Context(to.who.keyId, to.who.isMaster, to.who.workspace, to.mode, authenticated)
  }

  /** The context a request under way gives a session when it goes on, in terms of what it is given. */
  function GivenBy(w: World, task: Task, out: Outside): Option<Context>
    requires TaskFits(w.heap, task)
  {
    match task
    case RecoverAllowed(_, _, to) => Some(ContextTo(to, true))
    case Validated(_, _, caller) => if caller.Reuse? then Some(ContextTo(caller.to, true)) else None
    case KeyAsked(h) =>
      if out.key.Known? && out.key.workspace.Some?
      then Some(ContextOf(w.heap[h.ref]).(workspace := out.key.workspace.value)) else None
    case MasterAsked(h) =>
      if out.auth.Some? && out.auth.value.keyId == h.keyId
      then Some(ContextOf(w.heap[h.ref]).(isMaster := out.auth.value.isMaster)) else None
    case LoginAsked(h) =>
      if out.auth.Some? then Some(ContextOf(w.heap[h.ref]).(authenticated := true)) else None
    case _ => None
  }

  /** The context an event anchors. */
  function Given(w: World, e: Event): Option<Context>
    requires Fits(w)
  {
    if e.Create? then Some(ContextTo(e.to, e.authenticated))
    else if e.Resume? && e.t in w.tasks then
      BaseFits(w, e);
      GivenBy(w, w.tasks[e.t], e.out)
    else None
  }

  /** The record whose context an event changes in place. */
  function ChangedRecord(w: World, e: Event): Option<nat>
    requires Fits(w)
  {
    if Given(w, e).None? || e.Create? || w.tasks[e.t].RecoverAllowed? then None
    else
      BaseFits(w, e);
      Some(HeldBy(w.tasks[e.t]).value.1)
  }

  /** The record from which a rotation creates its session at this event. */
  function RotatedFrom(w: World, e: Event): Option<nat> {
    if e.Rotate? && e.r.oldId in w.memory then Some(w.memory[e.r.oldId])
    else if e.Resume? && e.t in w.tasks && w.tasks[e.t].RotateFetched? then w.tasks[e.t].found
    else None
  }

  /** How a change deals with origins, in terms of what is given and where the record comes from. */
  ghost predicate Traces(w: World, ch: Change, given: Option<Context>, changed: Option<nat>, from: Option<nat>) {
    match ch.put
    case None => given.None?
    case Some(p) =>
      && (p.how.Keeps? <==> given.None?)
      && (given.Some? ==> ContextOf(p.s) == given.value)
      && (p.how.Alters? <==> changed.Some?)
      && (changed.Some? ==> p.ref == changed.value)
      && (p.how.Keeps? && p.ref !in w.heap ==>
            || (from.Some? && from.value in w.heap && p.enters && p.s.origin == w.heap[from.value].origin
                && ContextOf(p.s) == ContextOf(w.heap[from.value]))
            || (!p.enters && !p.saved && p.s.id in w.redis && p.s == w.redis[p.s.id]))
  }

  lemma FetchTraces(w: World, id: string, get: Wire, t: Task, from: Option<nat>)
    requires Fits(w)
    ensures Traces(w, Nothing.(put := Fetch(w, id, get).0, spawn := Some(t)), None, None, from)
  {
    if id in w.redis {
      CopyFits(w, id);
    }
    hide Fits, ContextOf;
  }

  lemma RotateCheckTraces(c: Config, w: World, r: Rotation, ref: nat)
    requires Fits(w) && ref in w.heap
    ensures Traces(w, RotateCheck(c, w, r, ref).0, None, None, Some(ref))
  {
    hide Fits;
  }

  lemma TouchTraces(c: Config, w: World, ref: nat, now: int, version: Option<string>, save: Wire, caller: Caller)
    requires Fits(w) && ref in w.heap
    ensures Traces(w, Touch(c, w, ref, now, version, save, caller).0, None, None, None)
  {
    hide Fits;
  }

  lemma BeginTraces(c: Config, w: World, e: Event)
    requires Fits(w) && !e.Resume?
    ensures Traces(w, BeginChange(c, w, e), Given(w, e), None, RotatedFrom(w, e))
  {
    hide Fits, RotateCheck, Touch, CloseStart, Fetch, ContextOf;
    match e
    case Create(_, _, _, _, _) =>
      CreateTraces(c, w, e);
      hide Traces;
    case Rotate(r) =>
      FetchTraces(w, r.oldId, r.get, RotateFetched(r, Fetch(w, r.oldId, r.get).1), None);
      if r.oldId in w.memory {
        InMemory(w, r.oldId);
        RotateCheckTraces(c, w, r, w.memory[r.oldId]);
      }
    case Validate(id, now, version, get, save, caller) =>
      FetchTraces(w, id, get, ValidateFetched(id, version, Fetch(w, id, get).1, caller), None);
      if id in w.memory {
        InMemory(w, id);
        TouchTraces(c, w, w.memory[id], now, version, save, caller);
      }
    case Call(id, get) =>
      if Fetch(w, id, get).1.Some? {
        FetchTraces(w, id, get, CallHolding(id, Fetch(w, id, get).1.value), None);
      }
    case Negotiate(id, agreed, store) =>
      if id in w.memory {
        InMemory(w, id);
      }
    case Close(id, preserveRedis) => ClosingPutsNothing(c, w, id, preserveRedis);
    case Sweep(id, _) => ClosingPutsNothing(c, w, id, false);
    case _ =>
  }

  lemma ClosingPutsNothing(c: Config, w: World, id: string, preserveRedis: bool)
    requires Fits(w)
    ensures CloseStart(c, w, id, preserveRedis, None).put.None?
  {
  }

  lemma CreateTraces(c: Config, w: World, e: Event)
    requires Fits(w) && e.Create?
    ensures Traces(w, BeginChange(c, w, e), Given(w, e), None, RotatedFrom(w, e))
  {
    hide Fits;
  }

  lemma ResumeTraces(c: Config, w: World, task: Task, out: Outside)
    requires Fits(w) && TaskFits(w.heap, task)
    ensures var given := GivenBy(w, task, out);
            Traces(w, ResumeChange(c, w, task, out), given,
                   if given.Some? && !task.RecoverAllowed? then Some(HeldBy(task).value.1) else None,
                   if task.RotateFetched? then task.found else None)
  {
    hide Fits, RotateCheck, Touch, RotateSwap, ResultOf;
    match task
    case RotateFetched(r, found) =>
      if found.Some? {
        RotateCheckTraces(c, w, r, found.value);
      }
    case RotateSaved(r, s, answered) => SwapTraces(c, w, r, s, answered);
    case ValidateRestored(_, ref, version, caller) => TouchTraces(c, w, ref, out.now, version, out.wire, caller);
    case _ =>
  }

  lemma SwapTraces(c: Config, w: World, r: Rotation, s: Session, answered: bool)
    requires Fits(w)
    ensures Traces(w, RotateSwap(c, w, r, s, answered).0, None, None, None)
  {
    hide Fits, ResultOf;
  }

  lemma StepTraces(c: Config, w: World, e: Event)
    requires Fits(w)
    ensures Traces(Base(w, e), ChangeOf(c, w, e), Given(w, e), ChangedRecord(w, e), RotatedFrom(w, e))
  {
    hide Fits, Traces, ResumeChange, BeginChange, GivenBy;
    BaseFits(w, e);
    if e.Resume? && e.t in w.tasks {
      ResumeTraces(c, Base(w, e), w.tasks[e.t], e.out);
      SameGiven(w, Base(w, e), w.tasks[e.t], e.out);
    } else if e.Resume? {
      NothingTraces(w, c, e);
    } else {
      BeginTraces(c, w, e);
    }
  }

  lemma SameGiven(w: World, v: World, task: Task, out: Outside)
    requires v.heap == w.heap && TaskFits(w.heap, task)
    ensures GivenBy(v, task, out) == GivenBy(w, task, out)
    ensures GivenBy(w, task, out).Some? && !task.RecoverAllowed? ==> HeldBy(task).Some?
  {
  }

  lemma NothingTraces(w: World, c: Config, e: Event)
    requires Fits(w) && e.Resume? && e.t !in w.tasks
    ensures Traces(Base(w, e), ChangeOf(c, w, e), Given(w, e), ChangedRecord(w, e), RotatedFrom(w, e))
  {
    hide Fits;
  }

  /** What a step does to the anchored contexts and to the records there are. */
  lemma StepContext(c: Config, w: World, e: Event)
    requires Fits(w)
    ensures var v, given, changed := Step(c, w, e), Given(w, e), ChangedRecord(w, e);
            && (changed.Some? ==> given.Some? && changed.value in w.heap)
            && v.anchors == (if given.None? then w.anchors
                             else
                               var root := if changed.Some? then RootOf(w.anchors, w.heap[changed.value])
                                   else |w.anchors|;
                               w.anchors + [Anchoring(root, given.value)])
            && forall ref :: ref in w.heap ==>
                 && ref in v.heap
                 && v.heap[ref].origin == (if changed == Some(ref) then |w.anchors| else w.heap[ref].origin)
                 && ContextOf(v.heap[ref]) == (if changed == Some(ref) then given.value else ContextOf(w.heap[ref]))
  {
    hide *;
    StepTraces(c, w, e);
    StepFits(c, w, e);
    ChangedGiven(w, e);
    BaseSame(w, e);
    AppliedAnchors(Base(w, e), ChangeOf(c, w, e), Given(w, e), ChangedRecord(w, e), RotatedFrom(w, e), IsCall(w, e));
    AppliedRecords(Base(w, e), ChangeOf(c, w, e), Given(w, e), ChangedRecord(w, e), RotatedFrom(w, e), IsCall(w, e));
    StepIs(c, w, e);
  }

  lemma StepIs(c: Config, w: World, e: Event)
    requires Fits(w)
    ensures Step(c, w, e) == Apply(Base(w, e), ChangeOf(c, w, e))
  {
    hide Fits, Apply, Base, ChangeOf;
  }

  lemma AppliedAnchors(w: World, ch: Change, given: Option<Context>, changed: Option<nat>, from: Option<nat>,
                       called: bool)
    requires Traces(w, ch, given, changed, from) && ChangeFits(w, ch, called)
             && (changed.Some? ==> changed.value in w.heap)
    requires changed.Some? ==> given.Some?
    ensures Apply(w, ch).anchors
         == if given.None? then w.anchors
            else
              var root := if changed.Some? then RootOf(w.anchors, w.heap[changed.value]) else |w.anchors|;
              w.anchors + [Anchoring(root, given.value)]
  {
    hide TaskFits, NewHeap, NewMemory, NewRedis, SameSegment, Stands, ContextOf;
  }

  lemma AppliedRecords(w: World, ch: Change, given: Option<Context>, changed: Option<nat>, from: Option<nat>,
                       called: bool)
    requires Traces(w, ch, given, changed, from) && ChangeFits(w, ch, called) && (changed.Some? ==> given.Some?)
    ensures forall ref :: ref in w.heap ==>
              var v := Apply(w, ch);
              && ref in v.heap
              && v.heap[ref].origin == (if changed == Some(ref) then |w.anchors| else w.heap[ref].origin)
              && ContextOf(v.heap[ref]) == (if changed == Some(ref) then given.value else ContextOf(w.heap[ref]))
  {
    hide TaskFits, NewMemory, NewRedis, NewAnchors, SameSegment, Stands;
    StampedContext(w, ch);
    hide ContextOf;
  }

  lemma StampedContext(w: World, ch: Change)
    ensures ch.put.Some? ==> ContextOf(Stamped(w, ch.put.value)) == ContextOf(ch.put.value.s)
  {
  }

  lemma ChangedGiven(w: World, e: Event)
    requires Fits(w)
    ensures ChangedRecord(w, e).Some? ==> Given(w, e).Some? && ChangedRecord(w, e).value in w.heap
  {
    BaseFits(w, e);
    hide Fits;
  }

  lemma BaseSame(w: World, e: Event)
    ensures var b := Base(w, e);
            b.heap == w.heap && b.memory == w.memory && b.redis == w.redis && b.anchors == w.anchors
            && b.reflected == w.reflected && b.nextRef == w.nextRef && b.nextTask == w.nextTask
  {
  }

  /** A new record is founded, or takes the context of the session it replaces, or is a copy of a stored one. */
  lemma StepNewRecord(c: Config, w: World, e: Event, ref: nat)
    requires Fits(w) && ref in Step(c, w, e).heap && ref !in w.heap
    ensures var s, from := Step(c, w, e).heap[ref], RotatedFrom(w, e);
            || (Given(w, e) == Some(ContextOf(s)) && s.origin == |w.anchors|)
            || (from.Some? && from.value in w.heap && s.origin == w.heap[from.value].origin
                && ContextOf(s) == ContextOf(w.heap[from.value]))
            || (s.id in w.redis && s == w.redis[s.id])
  {
    StepTraces(c, w, e);
    hide Fits, Base, ChangeOf, Given, ChangedRecord, RotatedFrom, NewMemory, NewRedis, NewAnchors;
    BaseSame(w, e);
  }

  /** A stored copy is an old one, or that of a record as it is now. */
  lemma StepCopy(c: Config, w: World, e: Event, id: string)
    requires Fits(w) && id in Step(c, w, e).redis
    ensures var v := Step(c, w, e);
            (id in w.redis && v.redis[id] == w.redis[id]) || exists ref :: ref in v.heap && v.redis[id] == v.heap[ref]
  {
    hide Fits, Base, ChangeOf, NewMemory, NewAnchors, Stamped;
    BaseSame(w, e);
    var b, ch := Base(w, e), ChangeOf(c, w, e);
    if ch.put.Some? {
      assert ch.put.value.ref in NewHeap(b, ch);
    }
  }

  /* ---------- Over whole runs ---------- */

  /** The last context that `run` gave the record `ref` in place. */
  function LastGiven(c: Config, w: World, run: seq<Event>, ref: nat): Option<Context>
    requires Fits(w)
  {
    if run == [] then None
    else
      var init, e := run[..|run| - 1], run[|run| - 1];
      if ChangedRecord(After(c, w, init), e) == Some(ref) then Given(After(c, w, init), e)
          else LastGiven(c, w, init, ref)
  }

  /** However requests interleave, a record's context is the last one given to it in place, or else the one it had. */
  lemma {:induction false} RecordFollowsGiven(c: Config, w: World, run: seq<Event>, ref: nat)
    requires Fits(w) && ref in w.heap
    ensures var v := After(c, w, run);
            ref in v.heap && ContextOf(v.heap[ref]) == OrElse(LastGiven(c, w, run, ref), ContextOf(w.heap[ref]))
  {
    hide Step, Given, ChangedRecord, ContextOf, Fits, RootOf;
    if run != [] {
      var init, e := run[..|run| - 1], run[|run| - 1];
      RecordFollowsGiven(c, w, init, ref);
      StepContext(c, After(c, w, init), e);
    }
  }

  /** Event `j` of the run anchors number `k`. */
  ghost predicate AnchorsAt(c: Config, w: World, run: seq<Event>, j: nat, k: nat, context: Context)
    requires Fits(w) && j < |run|
  {
    var before := Before(c, w, run, j);
    |before.anchors| == k && Given(before, run[j]) == Some(context)
  }

  /** Anchored contexts stay, and each that is added is one that an event of the run gave. */
  lemma {:induction false} AnchorsAreGiven(c: Config, w: World, run: seq<Event>, k: nat)
    requires Fits(w) && k < |After(c, w, run).anchors|
    ensures w.anchors <= After(c, w, run).anchors
    ensures k >= |w.anchors| ==>
            exists j: nat :: j < |run| && AnchorsAt(c, w, run, j, k, After(c, w, run).anchors[k].context)
  {
    hide Step, Given, ChangedRecord, ContextOf, Fits, RootOf;
    if run != [] {
      var n := |run| - 1;
      var before, after := After(c, w, run[..n]), After(c, w, run);
      StepContext(c, before, run[n]);
      if k < |before.anchors| {
        AnchorsAreGiven(c, w, run[..n], k);
        if k >= |w.anchors| {
          var j: nat :| j < n && AnchorsAt(c, w, run[..n], j, k, before.anchors[k].context);
          assert run[..n][..j] == run[..j];
          assert AnchorsAt(c, w, run, j, k, after.anchors[k].context);
        }
      } else {
        if n > 0 && |before.anchors| > 0 {
          AnchorsAreGiven(c, w, run[..n], 0);
        } else {
          AnchorsGrow(c, w, run[..n]);
        }
        assert AnchorsAt(c, w, run, n, k, after.anchors[k].context);
      }
    }
  }

  lemma {:induction false} AnchorsGrow(c: Config, w: World, run: seq<Event>)
    requires Fits(w)
    ensures w.anchors <= After(c, w, run).anchors
  {
    hide Step, Given, ChangedRecord, ContextOf, Fits, RootOf;
    if run != [] {
      AnchorsGrow(c, w, run[..|run| - 1]);
      StepContext(c, After(c, w, run[..|run| - 1]), run[|run| - 1]);
    }
  }

  /**
    * However requests interleave: the context of every record and of every stored copy is the one its origin names,
    * which an event of the run gave, or which was there before it. Origins go from record to record and copy to copy
    * along rotations, saves and restorations, and change in no other step than those that give a context.
    */
  lemma ChainKeepsContext(c: Config, w: World, run: seq<Event>, s: Session)
    requires Fits(w)
    requires var v := After(c, w, run);
             (exists ref :: ref in v.heap && v.heap[ref] == s) || (s.id in v.redis && v.redis[s.id] == s)
    ensures if s.origin < |w.anchors| then w.anchors[s.origin].context == ContextOf(s)
            else exists j: nat :: j < |run| && AnchorsAt(c, w, run, j, s.origin, ContextOf(s))
  {
    var v := After(c, w, run);
    assert Stands(v.anchors, s);
    hide Fits, After, ContextOf;
    AnchorsAreGiven(c, w, run, s.origin);
  }
}
