/**
  * How tool calls divide a session into segments, and how often each segment is handed over to reflection, over whole
  * runs of requests of every kind.
  */
module SegmentLaws {
  import opened Options
  import opened RedisQueue
  import opened Sessions
  import opened McpSessions
  import opened SessionRuns

  /** The segment fields, defaulted as `advanceSegment` does at time `now`. */
  function SeqOf(s: Session): int {
    OrElse(s.segmentSeq, 1)
  }

  function StartOf(s: Session, now: int): int {
    OrElse(s.segmentStartedAt, OrElse(s.createdAt, now))
  }

  function LastOf(s: Session, now: int): int {
    OrElse(s.lastToolActivityAt, StartOf(s, now))
  }

  /** The record after calls at these times. */
  function AfterCalls(c: Config, s: Session, calls: seq<int>): Session {
    if calls == [] then s else Advance(c, AfterCalls(c, s, calls[..|calls| - 1]), calls[|calls| - 1]).0
  }

  /** The segment call number `i` is given. */
  function SegmentAt(c: Config, s: Session, calls: seq<int>, i: nat): int
    requires i < |calls|
  {
    SeqOf(AfterCalls(c, s, calls[..i + 1]))
  }

  /* ---------- The bounds ---------- */

  /** Call `i` opens a segment. */
  predicate Opens(c: Config, s: Session, calls: seq<int>, i: nat)
    requires i < |calls|
  {
    SegmentAt(c, s, calls, i) != if i == 0 then SeqOf(s) else SegmentAt(c, s, calls, i - 1)
  }

  /** When the segment of call `i` began. */
  function Beginning(c: Config, s: Session, calls: seq<int>, i: nat): int
    requires i < |calls|
  {
    if Opens(c, s, calls, i) then calls[i]
    else if i == 0 then StartOf(s, calls[0])
    else Beginning(c, s, calls, i - 1)
  }

  /** The time of the tool call before call `i`. */
  function CallBefore(s: Session, calls: seq<int>, i: nat): int
    requires i < |calls|
  {
    if i == 0 then LastOf(s, calls[0]) else calls[i - 1]
  }

  /** When the segment that call `i` finds open began. */
  function Running(c: Config, s: Session, calls: seq<int>, i: nat): int
    requires i < |calls|
  {
    if i == 0 then StartOf(s, calls[0]) else Beginning(c, s, calls, i - 1)
  }

  lemma Unfold(c: Config, s: Session, calls: seq<int>, i: nat)
    requires i < |calls|
    ensures AfterCalls(c, s, calls[..i + 1]) == Advance(c, AfterCalls(c, s, calls[..i]), calls[i]).0
  {
    assert calls[..i + 1][..i] == calls[..i];
  }

  /** The record keeps the time of the last call and the beginning of the open segment. */
  lemma {:induction false} RecordTracks(c: Config, s: Session, calls: seq<int>, i: nat)
    requires i < |calls|
    ensures var r := AfterCalls(c, s, calls[..i + 1]);
            && r.segmentSeq == Some(SegmentAt(c, s, calls, i))
            && r.segmentStartedAt == Some(Beginning(c, s, calls, i))
            && r.lastToolActivityAt == Some(calls[i])
  {
    hide AfterCalls;
    Unfold(c, s, calls, i);
    if i > 0 {
      RecordTracks(c, s, calls, i - 1);
    } else {
      NoCalls(c, s, calls);
    }
  }

  lemma NoCalls(c: Config, s: Session, calls: seq<int>)
    ensures AfterCalls(c, s, calls[..0]) == s
  {
  }

  /** A call opens a new segment, numbered one higher, exactly when a bound is exceeded. */
  lemma OpensIff(c: Config, s: Session, calls: seq<int>, i: nat)
    requires i < |calls|
    ensures var previous := if i == 0 then SeqOf(s) else SegmentAt(c, s, calls, i - 1);
            SegmentAt(c, s, calls, i) == if Opens(c, s, calls, i) then previous + 1 else previous
    ensures Opens(c, s, calls, i) <==>
            calls[i] - CallBefore(s, calls, i) > c.idleMs || calls[i] - Running(c, s, calls, i) > c.maxAgeMs
  {
    hide AfterCalls, Beginning;
    Unfold(c, s, calls, i);
    if i > 0 {
      RecordTracks(c, s, calls, i - 1);
    } else {
      NoCalls(c, s, calls);
    }
  }

  /** Segment numbers never fall, and rise by at most one per call. */
  lemma {:induction false} SegmentsRise(c: Config, s: Session, calls: seq<int>, i: nat, j: nat)
    requires i <= j < |calls|
    ensures SegmentAt(c, s, calls, i) <= SegmentAt(c, s, calls, j) <= SegmentAt(c, s, calls, i) + (j - i)
  {
    hide SegmentAt, Beginning;
    if i < j {
      SegmentsRise(c, s, calls, i, j - 1);
      OpensIff(c, s, calls, j);
    }
  }

  /** Consecutive calls of a segment are at most `idleMs` apart and all of it at most `maxAgeMs` after its beginning. */
  lemma {:induction false} SegmentBounds(c: Config, s: Session, calls: seq<int>, i: nat, j: nat)
    requires i < j < |calls| && SegmentAt(c, s, calls, i) == SegmentAt(c, s, calls, j)
    ensures calls[j] - calls[j - 1] <= c.idleMs
    ensures Beginning(c, s, calls, j) == Beginning(c, s, calls, i) && calls[j] - Beginning(c, s, calls, i) <= c.maxAgeMs
  {
    SegmentsRise(c, s, calls, i, j - 1);
    SegmentsRise(c, s, calls, j - 1, j);
    OpensIff(c, s, calls, j);
    hide SegmentAt;
    if i < j - 1 {
      SegmentBounds(c, s, calls, i, j - 1);
    }
  }

  /* ---------- Runs of requests ---------- */

  /** The event finishes a tool call on the record `ref`. */
  predicate IsCallOn(w: World, e: Event, ref: nat) {
    IsCall(w, e) && w.tasks[e.t].ref == ref
  }

  /** The times of the calls that the run finishes on `ref`. */
  function CallsOn(c: Config, w: World, run: seq<Event>, ref: nat): seq<int>
    requires Fits(w)
  {
    if run == [] then []
    else
      var init, e := run[..|run| - 1], run[|run| - 1];
      CallsOn(c, w, init, ref) + if IsCallOn(After(c, w, init), e, ref) then [e.out.now] else []
  }

  /** Among all steps only a tool call on it changes the segment fields of a record, wherever the record is by then. */
  lemma StepOnRecord(c: Config, w: World, e: Event, ref: nat)
    requires Fits(w) && ref in w.heap
    ensures var v := Step(c, w, e);
            && ref in v.heap
            && if IsCallOn(w, e, ref) then SameSegment(Advance(c, w.heap[ref], e.out.now).0, v.heap[ref])
               else SameSegment(w.heap[ref], v.heap[ref])
  {
    StepFits(c, w, e);
    BaseHeap(w, e);
    if IsCall(w, e) {
      BaseFits(w, e);
      CallPuts(c, Base(w, e), w.tasks[e.t], e.out);
    }
    hide Fits, ChangeOf, Base, Advance, TaskFits, NewMemory, NewRedis, NewAnchors, NewHeap, SameSegment, ChangeFits;
    RecordApplied(Base(w, e), ChangeOf(c, w, e), IsCall(w, e), ref);
  }

  lemma RecordApplied(w: World, ch: Change, called: bool, ref: nat)
    requires ChangeFits(w, ch, called) && ref in w.heap
    ensures var v := Apply(w, ch);
            && ref in v.heap
            && (ch.put.Some? && ch.put.value.ref == ref && called ==> SameSegment(ch.put.value.s, v.heap[ref]))
            && (!(ch.put.Some? && ch.put.value.ref == ref && called) ==> SameSegment(w.heap[ref], v.heap[ref]))
  {
    hide PutFits, TaskFits, NewMemory, NewRedis, NewAnchors;
  }

  lemma BaseHeap(w: World, e: Event)
    ensures Base(w, e).heap == w.heap && Base(w, e).reflected == w.reflected && Base(w, e).nextTask == w.nextTask
    ensures Base(w, e).memory == w.memory
  {
  }

  lemma CallPuts(c: Config, w: World, task: Task, out: Outside)
    requires Fits(w) && TaskFits(w.heap, task) && task.CallHolding?
    ensures var ch := ResumeChange(c, w, task, out); var (s, ended) := Advance(c, w.heap[task.ref], out.now);
            && ch.put.Some? && ch.put.value.ref == task.ref && ch.put.value.s == s && ch.put.value.how.Keeps?
            && ch.hand == (if ended.Some? then Some(Segment(w.heap[task.ref].id, ended.value)) else None)
  {
  }

  lemma SameAsItself(s: Session)
    ensures SameSegment(s, s)
  {
  }

  lemma SameTransitive(a: Session, b: Session, d: Session)
    requires SameSegment(a, b) && SameSegment(b, d)
    ensures SameSegment(a, d)
  {
  }

  lemma AdvanceSame(c: Config, s: Session, t: Session, now: int)
    requires SameSegment(s, t)
    ensures SameSegment(Advance(c, s, now).0, Advance(c, t, now).0) && Advance(c, s, now).1 == Advance(c, t, now).1
  {
  }

  lemma AfterOneMore(c: Config, s: Session, calls: seq<int>, now: int)
    ensures AfterCalls(c, s, calls + [now]) == Advance(c, AfterCalls(c, s, calls), now).0
  {
    hide Advance;
    assert (calls + [now])[..|calls|] == calls;
  }

  /** In any run, what the segment fields of a record become is what the calls on it make of them. */
  lemma {:induction false} RecordFollowsCalls(c: Config, w: World, run: seq<Event>, ref: nat)
    requires Fits(w) && ref in w.heap
    ensures var v := After(c, w, run);
            ref in v.heap && SameSegment(AfterCalls(c, w.heap[ref], CallsOn(c, w, run, ref)), v.heap[ref])
  {
    hide Step, SameSegment, Advance, Fits;
    if run == [] {
      SameAsItself(w.heap[ref]);
    } else {
      var init, e := run[..|run| - 1], run[|run| - 1];
      var v, calls := After(c, w, init), CallsOn(c, w, init, ref);
      RecordFollowsCalls(c, w, init, ref);
      StepOnRecord(c, v, e, ref);
      var r := AfterCalls(c, w.heap[ref], calls);
      if IsCallOn(v, e, ref) {
        AdvanceSame(c, r, v.heap[ref], e.out.now);
        AfterOneMore(c, w.heap[ref], calls, e.out.now);
        SameTransitive(Advance(c, r, e.out.now).0, Advance(c, v.heap[ref], e.out.now).0, After(c, w, run).heap[ref]);
      } else {
        assert calls + [] == calls;
        SameTransitive(r, v.heap[ref], After(c, w, run).heap[ref]);
      }
    }
  }

  /* ---------- Hand-overs ---------- */

  /** A session that is closed hands its open segment over. */
  ghost predicate ByClosing(c: Config, w: World, ch: Change, target: Target)
    requires Fits(w)
  {
    exists id, preserveRedis, recover ::
      id in w.memory && w.memory[id] in w.heap && target == ReflectTarget(c, w.heap[w.memory[id]])
      && ch.spawn == Some(Closing(id, preserveRedis, recover))
  }

  /** So does a session that is swept, has not expired, and was neither used nor reflected for long. */
  predicate BySweep(c: Config, w: World, e: Event, target: Target) {
    && e.Sweep? && e.id in w.memory && w.memory[e.id] in w.heap && target == ReflectTarget(c, w.heap[w.memory[e.id]])
    && e.now <= w.heap[w.memory[e.id]].expiresAt && NeedsReflection(c, w.heap[w.memory[e.id]], e.now)
  }

  /** A reflection that was asked for is run. */
  predicate ByRequest(w: World, e: Event, target: Target) {
    e.Resume? && e.t in w.tasks && w.tasks[e.t] == Reflecting(target)
  }

  lemma CloseHands(c: Config, w: World, id: string, preserveRedis: bool, recover: Option<Option<string>>)
    requires Fits(w)
    ensures var ch := CloseStart(c, w, id, preserveRedis, recover); ch.hand.Some? ==> ByClosing(c, w, ch, ch.hand.value)
  {
    if id in w.memory {
      InMemory(w, id);
    }
    hide Fits, ReflectTarget;
  }

  lemma RotateCheckHands(c: Config, w: World, r: Rotation, ref: nat)
    requires Fits(w) && ref in w.heap
    ensures var ch := RotateCheck(c, w, r, ref).0; ch.hand.Some? ==> ByClosing(c, w, ch, ch.hand.value)
  {
    CloseHands(c, w, r.oldId, false, None);
    hide Fits, CloseStart, Successor, SameIdentity, ByClosing;
  }

  lemma TouchHands(c: Config, w: World, ref: nat, now: int, version: Option<string>, save: Wire, caller: Caller)
    requires Fits(w) && ref in w.heap
    ensures var ch := Touch(c, w, ref, now, version, save, caller).0; ch.hand.Some? ==>
            ByClosing(c, w, ch, ch.hand.value)
  {
    CloseHands(c, w, w.heap[ref].id, false, Recovery(caller, version));
    hide Fits, CloseStart, ByClosing;
  }

  lemma BeginHands(c: Config, w: World, e: Event)
    requires Fits(w)
    ensures var ch := BeginChange(c, w, e);
            ch.hand.Some? ==> ByClosing(c, w, ch, ch.hand.value) || BySweep(c, w, e, ch.hand.value)
  {
    hide Fits, RotateCheck, Touch, CloseStart, Fetch, ReflectTarget, NeedsReflection, ByClosing;
    match e
    case Rotate(r) =>
      if r.oldId in w.memory {
        InMemory(w, r.oldId);
        RotateCheckHands(c, w, r, w.memory[r.oldId]);
      }
    case Validate(id, now, version, get, save, caller) =>
      if id in w.memory {
        InMemory(w, id);
        TouchHands(c, w, w.memory[id], now, version, save, caller);
      }
    case Close(id, preserveRedis) => CloseHands(c, w, id, preserveRedis, None);
    case Sweep(id, now) =>
      CloseHands(c, w, id, false, None);
      if id in w.memory {
        InMemory(w, id);
      }
    case _ =>
  }

  lemma ResumeHands(c: Config, w: World, task: Task, out: Outside)
    requires Fits(w) && TaskFits(w.heap, task) && !task.CallHolding?
    ensures var ch := ResumeChange(c, w, task, out);
            ch.hand.Some? ==> ByClosing(c, w, ch, ch.hand.value) || task == Reflecting(ch.hand.value)
  {
    hide Fits, RotateCheck, Touch, ByClosing, ResultOf;
    match task
    case RotateFetched(r, found) =>
      if found.Some? {
        RotateCheckHands(c, w, r, found.value);
      }
    case ValidateRestored(_, ref, version, caller) => TouchHands(c, w, ref, out.now, version, out.wire, caller);
    case _ =>
  }

  /**
    * What a step hands over: a call the segment it ended; and besides calls, a close or an expiry the open segment of
    * the session, a sweep that of a session idle for long, and a request the target it asked for.
    */
  lemma OnlyTheseHandOver(c: Config, w: World, e: Event)
    requires Fits(w)
    ensures var v, ch := Step(c, w, e), ChangeOf(c, w, e);
            && v.reflected == w.reflected + (if ch.hand.Some? then [ch.hand.value] else [])
            && (ch.hand.Some? ==>
                  if IsCall(w, e) then
                    var ref := w.tasks[e.t].ref;
                    ref in w.heap && var ended := Advance(c, w.heap[ref], e.out.now).1;
                    ended.Some? && ch.hand.value == Segment(w.heap[ref].id, ended.value)
                  else
                    ByClosing(c, w, ch, ch.hand.value) || BySweep(c, w, e, ch.hand.value)
                        || ByRequest(w, e, ch.hand.value))
  {
    BaseFits(w, e);
    BaseHeap(w, e);
    hide Fits, BeginChange, ResumeChange, Advance, ReflectTarget, NewHeap, NewMemory, NewRedis, NewAnchors;
    if IsCall(w, e) {
      CallPuts(c, Base(w, e), w.tasks[e.t], e.out);
    } else if e.Resume? && e.t in w.tasks {
      ResumeHands(c, Base(w, e), w.tasks[e.t], e.out);
    } else {
      BeginHands(c, w, e);
    }
    assert w.reflected + [] == w.reflected;
  }

  /** The segments of the record `ref` that calls ended, and handed over, in order. */
  function EndedBy(c: Config, w: World, run: seq<Event>, ref: nat): seq<Target>
    requires Fits(w)
  {
    if run == [] then []
    else
      var init, e := run[..|run| - 1], run[|run| - 1];
      var v := After(c, w, init);
      EndedBy(c, w, init, ref) + if EndedRecord(c, v, e) == Some(ref) then [ChangeOf(c, v, e).hand.value] else []
  }

  /** However requests interleave, the calls on a record end its segments one by one and hand over each of them once. */
  lemma {:induction false} EachSegmentHandedOnce(c: Config, w: World, run: seq<Event>, ref: nat)
    requires Fits(w) && ref in w.heap
    ensures var first, ended, v := SeqOf(w.heap[ref]), EndedBy(c, w, run, ref), After(c, w, run);
            && ref in v.heap && v.heap[ref].id == w.heap[ref].id && SeqOf(v.heap[ref]) == first + |ended|
            && forall k :: 0 <= k < |ended| ==> ended[k] == Segment(w.heap[ref].id, first + k)
  {
    hide Step, Fits, SeqOf, EndedRecord, ChangeOf;
    if run != [] {
      var init, e := run[..|run| - 1], run[|run| - 1];
      EachSegmentHandedOnce(c, w, init, ref);
      SeqMoves(c, After(c, w, init), e, ref);
      EndedHand(c, After(c, w, init), e);
    }
  }

  /* ---------- How often a segment is handed over ---------- */

  /** The segment number with which the record `ref` came to be: at the beginning of the run, or when it was made. */
  function Born(c: Config, w: World, run: seq<Event>, ref: nat): int
    requires Fits(w)
  {
    if run == [] then if ref in w.heap then SeqOf(w.heap[ref]) else 0
    else
      var init, v := run[..|run| - 1], After(c, w, run);
      if ref in After(c, w, init).heap then Born(c, w, init, ref) else if ref in v.heap then SeqOf(v.heap[ref]) else 0
  }

  /** The records of session `id` on which a call ended segment `n`. */
  function EndedOn(c: Config, w: World, run: seq<Event>, id: string, n: int): set<nat>
    requires Fits(w)
  {
    EndedIn(After(c, w, run).heap, (ref: nat) => Born(c, w, run, ref), id, n)
  }

  function EndedIn(heap: map<nat, Session>, born: nat -> int, id: string, n: int): set<nat> {
    set ref | ref in heap && heap[ref].id == id && born(ref) <= n < SeqOf(heap[ref])
  }

  /** A step moves the record `ended`, if any, on by one; new records are born as they are. */
  lemma EndedSets(v: map<nat, Session>, u: map<nat, Session>, b: nat -> int, d: nat -> int, ended: Option<nat>,
                  id: string, n: int)
    requires forall ref :: ref in v ==>
             ref in u && u[ref].id == v[ref].id && d(ref) == b(ref) && b(ref) <= SeqOf(v[ref])
    requires forall ref :: ref in v ==> SeqOf(u[ref]) == SeqOf(v[ref]) + (if ended == Some(ref) then 1 else 0)
    requires forall ref :: ref in u && ref !in v ==> d(ref) == SeqOf(u[ref])
    requires ended.Some? ==> ended.value in v
    ensures if ended.Some? && v[ended.value].id == id && SeqOf(v[ended.value]) == n
            then ended.value !in EndedIn(v, b, id, n) && EndedIn(u, d, id, n) == EndedIn(v, b, id, n) + {ended.value}
            else EndedIn(u, d, id, n) == EndedIn(v, b, id, n)
  {
    hide SeqOf;
    if ended.Some? && v[ended.value].id == id && SeqOf(v[ended.value]) == n {
      assert EndedIn(u, d, id, n) == EndedIn(v, b, id, n) + {ended.value};
    } else {
      assert EndedIn(u, d, id, n) == EndedIn(v, b, id, n);
    }
  }

  /** How often `target` was handed over otherwise than by a call that ended it. */
  function OtherHandOvers(c: Config, w: World, run: seq<Event>, target: Target): nat
    requires Fits(w)
  {
    if run == [] then 0
    else
      var init, e := run[..|run| - 1], run[|run| - 1];
      var v := After(c, w, init);
      OtherHandOvers(c, w, init, target) + if !IsCall(v, e) && ChangeOf(c, v, e).hand == Some(target) then 1 else 0
  }

  lemma {:induction false} BornBelow(c: Config, w: World, run: seq<Event>, ref: nat)
    requires Fits(w) && ref in After(c, w, run).heap
    ensures Born(c, w, run, ref) <= SeqOf(After(c, w, run).heap[ref])
  {
    hide Step, Fits, SeqOf, EndedRecord;
    if run != [] {
      var init, e := run[..|run| - 1], run[|run| - 1];
      var v := After(c, w, init);
      if ref in v.heap {
        BornBelow(c, w, init, ref);
        SeqMoves(c, v, e, ref);
      }
    }
  }

  /** A call moves the segment on by one if it ended one. */
  lemma SeqAfter(c: Config, s: Session, t: Session, now: int)
    ensures var (a, ended) := Advance(c, s, now);
            SameSegment(a, t) ==> SeqOf(t) == SeqOf(s) + (if ended.Some? then 1 else 0)
                                  && (ended.Some? ==> ended.value == SeqOf(s))
    ensures SameSegment(s, t) ==> SeqOf(t) == SeqOf(s)
    ensures SameSegment(s, t) || SameSegment(Advance(c, s, now).0, t) ==> s.id == t.id
  {
  }

  /** The record on which the event ends a segment. */
  function EndedRecord(c: Config, w: World, e: Event): Option<nat>
    requires Fits(w)
  {
    if IsCall(w, e) && ChangeOf(c, w, e).hand.Some? then Some(w.tasks[e.t].ref) else None
  }

  lemma EndedHand(c: Config, w: World, e: Event)
    requires Fits(w)
    ensures var ended := EndedRecord(c, w, e);
            && (ended.Some? ==>
                  ended.value in w.heap && IsCallOn(w, e, ended.value)
                  && ChangeOf(c, w, e).hand == Some(Segment(w.heap[ended.value].id, SeqOf(w.heap[ended.value]))))
            && (ended.None? && IsCall(w, e) ==> ChangeOf(c, w, e).hand.None?)
  {
    if IsCall(w, e) {
      CallHand(c, w, e);
    }
    hide Fits, ChangeOf;
  }

  /** What the last step of a run does to the segment number of a record there was. */
  ghost predicate MovesOn(c: Config, w: World, run: seq<Event>, ref: nat)
    requires Fits(w) && run != []
  {
    var init, e := run[..|run| - 1], run[|run| - 1];
    var v, u := After(c, w, init), After(c, w, run);
    && ref in v.heap && ref in u.heap && u.heap[ref].id == v.heap[ref].id
    && Born(c, w, run, ref) == Born(c, w, init, ref) <= SeqOf(v.heap[ref])
    && SeqOf(u.heap[ref]) == SeqOf(v.heap[ref]) + (if EndedRecord(c, v, e) == Some(ref) then 1 else 0)
  }

  lemma RecordMovesOn(c: Config, w: World, run: seq<Event>, ref: nat)
    requires Fits(w) && run != [] && ref in After(c, w, run[..|run| - 1]).heap
    ensures MovesOn(c, w, run, ref)
  {
    var init, e := run[..|run| - 1], run[|run| - 1];
    hide Step, Fits, SeqOf, SameSegment, EndedRecord;
    BornBelow(c, w, init, ref);
    SeqMoves(c, After(c, w, init), e, ref);
  }

  lemma SeqMoves(c: Config, w: World, e: Event, ref: nat)
    requires Fits(w) && ref in w.heap
    ensures var v := Step(c, w, e);
            && ref in v.heap && v.heap[ref].id == w.heap[ref].id
            && SeqOf(v.heap[ref]) == SeqOf(w.heap[ref]) + (if EndedRecord(c, w, e) == Some(ref) then 1 else 0)
  {
    hide Step, Fits, SeqOf, SameSegment, Advance, ChangeOf;
    StepOnRecord(c, w, e, ref);
    SeqAfter(c, w.heap[ref], Step(c, w, e).heap[ref], if IsCallOn(w, e, ref) then e.out.now else 0);
    if IsCall(w, e) {
      CallHand(c, w, e);
    }
  }

  /** One step more: a call that ends segment `n` of session `id` adds its record, and nothing else adds one. */
  lemma EndedStep(c: Config, w: World, run: seq<Event>, id: string, n: int)
    requires Fits(w) && run != []
    ensures var init, e := run[..|run| - 1], run[|run| - 1]; var v := After(c, w, init);
            var was, now := EndedOn(c, w, init, id, n), EndedOn(c, w, run, id, n);
            if IsCall(v, e) && ChangeOf(c, v, e).hand == Some(Segment(id, n))
            then v.tasks[e.t].ref !in was && now == was + {v.tasks[e.t].ref} else now == was
  {
    hide *;
    var init, e := run[..|run| - 1], run[|run| - 1];
    var v, u := After(c, w, init), After(c, w, run);
    var b, d := (ref: nat) => Born(c, w, init, ref), (ref: nat) => Born(c, w, run, ref);
    EndedHand(c, v, e);
    EndedMeans(c, v, e);
    BornNew(c, w, run);
    forall ref | ref in v.heap
      ensures ref in u.heap && u.heap[ref].id == v.heap[ref].id && d(ref) == b(ref) && b(ref) <= SeqOf(v.heap[ref])
      ensures SeqOf(u.heap[ref]) == SeqOf(v.heap[ref]) + (if EndedRecord(c, v, e) == Some(ref) then 1 else 0)
    {
      RecordMovesOn(c, w, run, ref);
      MovesOnMeans(c, w, run, ref);
    }
    EndedSets(v.heap, u.heap, b, d, EndedRecord(c, v, e), id, n);
    EndedOnIs(c, w, init, id, n);
    EndedOnIs(c, w, run, id, n);
  }

  lemma EndedMeans(c: Config, w: World, e: Event)
    requires Fits(w)
    ensures EndedRecord(c, w, e).Some? ==> IsCall(w, e) && EndedRecord(c, w, e).value == w.tasks[e.t].ref
    ensures IsCall(w, e) ==> e.Resume? && e.t in w.tasks && w.tasks[e.t].CallHolding?
  {
    hide Fits, ChangeOf;
  }

  lemma MovesOnMeans(c: Config, w: World, run: seq<Event>, ref: nat)
    requires Fits(w) && run != [] && MovesOn(c, w, run, ref)
    ensures var init, e := run[..|run| - 1], run[|run| - 1];
            var v, u := After(c, w, init), After(c, w, run);
            && ref in v.heap && ref in u.heap && u.heap[ref].id == v.heap[ref].id
            && Born(c, w, run, ref) == Born(c, w, init, ref) <= SeqOf(v.heap[ref])
            && SeqOf(u.heap[ref]) == SeqOf(v.heap[ref]) + (if EndedRecord(c, v, e) == Some(ref) then 1 else 0)
  {
    hide Fits, After, Born, EndedRecord, SeqOf;
  }

  lemma EndedOnIs(c: Config, w: World, run: seq<Event>, id: string, n: int)
    requires Fits(w)
    ensures EndedOn(c, w, run, id, n) == EndedIn(After(c, w, run).heap, (ref: nat) => Born(c, w, run, ref), id, n)
  {
    hide Fits, After, Born, EndedIn;
  }

  lemma BornNew(c: Config, w: World, run: seq<Event>)
    requires Fits(w) && run != []
    ensures var v, u := After(c, w, run[..|run| - 1]), After(c, w, run);
            forall ref :: ref in u.heap && ref !in v.heap ==> Born(c, w, run, ref) == SeqOf(u.heap[ref])
  {
    hide After, Fits, SeqOf;
  }

  lemma CallHand(c: Config, w: World, e: Event)
    requires Fits(w) && IsCall(w, e)
    ensures var ref := w.tasks[e.t].ref;
            && ref in w.heap
            && ChangeOf(c, w, e).hand == (var ended := Advance(c, w.heap[ref], e.out.now).1;
                                          if ended.Some? then Some(Segment(w.heap[ref].id, ended.value)) else None)
  {
    BaseFits(w, e);
    CallPuts(c, Base(w, e), w.tasks[e.t], e.out);
    hide Fits, ResumeChange, Advance;
  }

  /**
    * Over any run, segment `n` of session `id` is handed over once for each record of the session on which a call ended
    * it, and once for each other hand-over of it there was.
    */
  lemma {:induction false} HandedExactly(c: Config, w: World, run: seq<Event>, id: string, n: int)
    requires Fits(w)
    ensures var target := Segment(id, n);
            multiset(After(c, w, run).reflected)[target]
            == multiset(w.reflected)[target] + OtherHandOvers(c, w, run, target) + |EndedOn(c, w, run, id, n)|
  {
    hide Step, Fits, ChangeOf, EndedOn, Advance, ReflectTarget, ByClosing, BySweep, ByRequest, IsCall;
    if run == [] {
      NothingEnded(c, w, id, n);
    } else {
      var init, e := run[..|run| - 1], run[|run| - 1];
      HandedExactly(c, w, init, id, n);
      EndedStep(c, w, run, id, n);
      OnlyTheseHandOver(c, After(c, w, init), e);
    }
  }

  lemma NothingEnded(c: Config, w: World, id: string, n: int)
    requires Fits(w)
    ensures EndedOn(c, w, [], id, n) == {}
  {
  }

  /**
    * So a run hands a segment over more than once exactly if it does so twice otherwise than by ending it, or once so
    * and once by ending it, or by ending it on two records of the session, such as two copies of it from Redis.
    */
  lemma HandedAgainIff(c: Config, w: World, run: seq<Event>, id: string, n: int)
    requires Fits(w) && Segment(id, n) !in w.reflected
    ensures multiset(After(c, w, run).reflected)[Segment(id, n)] > 1
       <==> || OtherHandOvers(c, w, run, Segment(id, n)) >= 2
            || (OtherHandOvers(c, w, run, Segment(id, n)) == 1 && exists ref :: ref in EndedOn(c, w, run, id, n))
            || (exists r1, r2 :: r1 != r2 && r1 in EndedOn(c, w, run, id, n) && r2 in EndedOn(c, w, run, id, n))
  {
    hide Fits, After, EndedOn, OtherHandOvers;
    HandedExactly(c, w, run, id, n);
    var ended := EndedOn(c, w, run, id, n);
    if |ended| > 0 {
      var r1 :| r1 in ended;
      if |ended| > 1 {
        assert |ended - {r1}| > 0;
        var r2 :| r2 in ended - {r1};
      } else {
        assert ended == {r1} by {
          assert |ended - {r1}| == 0;
        }
      }
    }
  }

  /* ---------- Segments handed over twice ---------- */

  function At(now: int): Outside {
    Outside(now, Answered, None, None, Revoked, None)
  }

  /** A sweep finds the session idle, and then a call finds its segment ended. */
  function IdleThenCall(w: World, id: string, sweep: int, call: int): seq<Event> {
    [Event.Sweep(id, sweep), Call(id, Answered), Resume(w.nextTask + 1, At(call))]
  }

  /** A segment that was reflected while its session was idle, and is then ended by a call, is handed over twice. */
  lemma IdleThenEnded(c: Config, w: World, id: string, sweep: int, call: int)
    requires Fits(w) && c.segments && id != "" && id in w.memory && w.memory[id] in w.heap
    requires var s := w.heap[w.memory[id]];
             sweep <= s.expiresAt && NeedsReflection(c, s, sweep) && call - LastOf(s, call) > c.idleMs
    ensures var n := SeqOf(w.heap[w.memory[id]]);
            After(c, w, IdleThenCall(w, id, sweep, call)).reflected == w.reflected + [Segment(id, n), Segment(id, n)]
  {
    hide Step, Fits, NeedsReflection, LastOf;
    var e1, e2, e3 := Event.Sweep(id, sweep), Call(id, Answered), Resume(w.nextTask + 1, At(call));
    var ref := w.memory[id];
    InMemory(w, id);
    StepFits(c, w, e1);
    var w1 := Step(c, w, e1);
    SweptIdle(c, w, id, sweep);
    StepFits(c, w1, e2);
    var w2 := Step(c, w1, e2);
    CallTakes(c, w1, id);
    StepFits(c, w2, e3);
    CallEnds(c, w2, w.nextTask + 1, id, ref, call);
    AfterThree(c, w, e1, e2, e3);
  }

  lemma SweptIdle(c: Config, w: World, id: string, now: int)
    requires Fits(w) && c.segments && id in w.memory && w.memory[id] in w.heap && w.heap[w.memory[id]].id == id
    requires now <= w.heap[w.memory[id]].expiresAt && NeedsReflection(c, w.heap[w.memory[id]], now)
    ensures var v := Step(c, w, Event.Sweep(id, now));
            && v.reflected == w.reflected + [Segment(id, SeqOf(w.heap[w.memory[id]]))]
            && v.heap == w.heap && v.memory == w.memory && v.nextTask == w.nextTask + 1
  {
    hide Fits, NeedsReflection;
  }

  lemma CallTakes(c: Config, w: World, id: string)
    requires Fits(w) && c.segments && id != "" && id in w.memory
    ensures var v := Step(c, w, Call(id, Answered));
            && v.reflected == w.reflected && v.heap == w.heap
            && w.nextTask in v.tasks && v.tasks[w.nextTask] == CallHolding(id, w.memory[id])
  {
    hide Fits;
  }

  lemma CallEnds(c: Config, w: World, t: nat, id: string, ref: nat, now: int)
    requires Fits(w) && t in w.tasks && w.tasks[t] == CallHolding(id, ref) && ref in w.heap && w.heap[ref].id == id
    requires now - LastOf(w.heap[ref], now) > c.idleMs
    ensures Step(c, w, Resume(t, At(now))).reflected == w.reflected + [Segment(id, SeqOf(w.heap[ref]))]
  {
    BaseFits(w, Resume(t, At(now)));
    hide Fits;
  }

  lemma AfterThree(c: Config, w: World, e1: Event, e2: Event, e3: Event)
    requires Fits(w) && Fits(Step(c, w, e1)) && Fits(Step(c, Step(c, w, e1), e2))
    ensures After(c, w, [e1, e2, e3]) == Step(c, Step(c, Step(c, w, e1), e2), e3)
  {
    hide Step, Fits;
    var run := [e1, e2, e3];
    assert run[..2] == [e1, e2] && run[..2][..1] == [e1] && run[..1][..0] == [];
    assert After(c, w, [e1]) == Step(c, w, e1);
    assert After(c, w, [e1, e2]) == Step(c, Step(c, w, e1), e2);
  }

  /** Two calls of a session that only Redis holds, each with a copy of its own. */
  function CallsOnCopies(w: World, id: string, now: int): seq<Event> {
    [Call(id, Answered), Call(id, Answered), Resume(w.nextTask, At(now)), Resume(w.nextTask + 1, At(now))]
  }

  /** Calls that overlap on a session only Redis holds end the same segment on two records, and hand it over twice. */
  lemma EndedOnTwo(c: Config, w: World, id: string, now: int)
    requires Fits(w) && c.redisEnabled && c.segments && id != "" && id !in w.memory && id in w.redis
    requires now - LastOf(w.redis[id], now) > c.idleMs
    ensures var n := SeqOf(w.redis[id]);
            After(c, w, CallsOnCopies(w, id, now)).reflected == w.reflected + [Segment(id, n), Segment(id, n)]
  {
    hide Step, Fits, LastOf, SeqOf;
    var e1, e3, e4 := Call(id, Answered), Resume(w.nextTask, At(now)), Resume(w.nextTask + 1, At(now));
    CopyFits(w, id);
    BothFetch(c, w, id);
    var w1 := Step(c, w, e1);
    var w2 := Step(c, w1, e1);
    StepFits(c, w2, e3);
    CallEnds(c, w2, w.nextTask, id, w.nextRef, now);
    CallElsewhere(c, w2, w.nextTask, w.nextTask + 1, id, w.nextRef, w.nextRef + 1, now);
    var w3 := Step(c, w2, e3);
    StepFits(c, w3, e4);
    CallEnds(c, w3, w.nextTask + 1, id, w.nextRef + 1, now);
    AfterFour(c, w, e1, e1, e3, e4);
  }

  lemma BothFetch(c: Config, w: World, id: string)
    requires Fits(w) && c.redisEnabled && c.segments && id != "" && id !in w.memory && id in w.redis
    ensures Fits(Step(c, w, Call(id, Answered))) && Fits(Step(c, Step(c, w, Call(id, Answered)), Call(id, Answered)))
    ensures var v := Step(c, Step(c, w, Call(id, Answered)), Call(id, Answered));
            && v.reflected == w.reflected && w.nextTask in v.tasks && w.nextTask + 1 in v.tasks
            && w.nextRef in v.heap && w.nextRef + 1 in v.heap
            && v.heap[w.nextRef] == v.heap[w.nextRef + 1] == w.redis[id]
            && v.tasks[w.nextTask] == CallHolding(id, w.nextRef)
            && v.tasks[w.nextTask + 1] == CallHolding(id, w.nextRef + 1)
  {
    hide Step, Fits;
    StepFits(c, w, Call(id, Answered));
    CallFetches(c, w, id);
    var w1 := Step(c, w, Call(id, Answered));
    StepFits(c, w1, Call(id, Answered));
    CallFetches(c, w1, id);
  }

  lemma CallFetches(c: Config, w: World, id: string)
    requires Fits(w) && c.redisEnabled && c.segments && id != "" && id !in w.memory && id in w.redis
    ensures var v := Step(c, w, Call(id, Answered));
            && v.reflected == w.reflected && v.redis == w.redis && v.memory == w.memory
            && v.nextTask == w.nextTask + 1 && v.nextRef == w.nextRef + 1
            && v.heap == w.heap[w.nextRef := w.redis[id]]
            && v.tasks == w.tasks[w.nextTask := CallHolding(id, w.nextRef)]
  {
    hide Fits;
  }

  lemma CallElsewhere(c: Config, w: World, t: nat, u: nat, id: string, ref: nat, other: nat, now: int)
    requires Fits(w) && t in w.tasks && w.tasks[t] == CallHolding(id, ref) && ref in w.heap && t != u && u in w.tasks
    requires other in w.heap && other != ref
    ensures var v := Step(c, w, Resume(t, At(now)));
            u in v.tasks && v.tasks[u] == w.tasks[u] && other in v.heap && v.heap[other] == w.heap[other]
  {
    BaseFits(w, Resume(t, At(now)));
    hide Fits, Advance;
  }

  lemma AfterFour(c: Config, w: World, e1: Event, e2: Event, e3: Event, e4: Event)
    requires Fits(w) && Fits(Step(c, w, e1)) && Fits(Step(c, Step(c, w, e1), e2))
    requires Fits(Step(c, Step(c, Step(c, w, e1), e2), e3))
    ensures After(c, w, [e1, e2, e3, e4]) == Step(c, Step(c, Step(c, Step(c, w, e1), e2), e3), e4)
  {
    hide Step, Fits;
    AfterThree(c, w, e1, e2, e3);
    var four := [e1, e2, e3, e4];
    assert four[..3] == [e1, e2, e3];
  }

  /** Close for a restart, restore, and close again. */
  function CloseTwice(w: World, id: string, now: int): seq<Event> {
    [Close(id, true), Resume(w.nextTask, At(now)), Validate(id, now, None, Answered, Answered, Plain),
     Resume(w.nextTask + 1, At(now)), Close(id, true)]
  }

  /**
    * A session closed without deleting its copy, restored from it and closed again hands the same segment over twice.
    */
  lemma HandedTwice(c: Config, w: World, id: string, now: int)
    requires Fits(w) && c.redisEnabled && id in w.memory && w.memory[id] in w.heap && id in w.redis
    requires SameSegment(w.heap[w.memory[id]], w.redis[id])
    ensures var target := ReflectTarget(c, w.heap[w.memory[id]]);
            After(c, w, CloseTwice(w, id, now)).reflected == w.reflected + [target, target]
  {
    hide Step, Fits, ReflectTarget, SameSegment;
    var target := ReflectTarget(c, w.heap[w.memory[id]]);
    var e1, e2 := Close(id, true), Resume(w.nextTask, At(now));
    var e3, e4 := Validate(id, now, None, Answered, Answered, Plain), Resume(w.nextTask + 1, At(now));
    InMemory(w, id);
    CopyFits(w, id);
    StepFits(c, w, e1);
    var w1 := Step(c, w, e1);
    ClosingBegins(c, w, id);
    StepFits(c, w1, e2);
    var w2 := Step(c, w1, e2);
    ClosingEnds(c, w1, w.nextTask, id, now);
    StepFits(c, w2, e3);
    var w3 := Step(c, w2, e3);
    FetchBegins(c, w2, id, now);
    StepFits(c, w3, e4);
    var w4 := Step(c, w3, e4);
    FetchEnds(c, w3, w2.nextTask, id, now);
    InMemory(w4, id);
    ClosingBegins(c, w4, id);
    SameTransitive(w.heap[w.memory[id]], w.redis[id], w4.heap[w4.memory[id]]);
    SameTarget(c, w.heap[w.memory[id]], w4.heap[w4.memory[id]]);
    AfterFive(c, w, e1, e2, e3, e4, e1);
  }

  lemma SameTarget(c: Config, s: Session, t: Session)
    requires SameSegment(s, t)
    ensures ReflectTarget(c, s) == ReflectTarget(c, t)
  {
  }

  lemma ClosingBegins(c: Config, w: World, id: string)
    requires Fits(w) && id in w.memory && w.memory[id] in w.heap
    ensures var v := Step(c, w, Close(id, true));
            && v.reflected == w.reflected + [ReflectTarget(c, w.heap[w.memory[id]])] && v.redis == w.redis
            && v.nextTask == w.nextTask + 1 && w.nextTask in v.tasks && v.tasks[w.nextTask] == Closing(id, true, None)
  {
    hide Fits, ReflectTarget;
  }

  lemma ClosingEnds(c: Config, w: World, t: nat, id: string, now: int)
    requires Fits(w) && t in w.tasks && w.tasks[t] == Closing(id, true, None)
    ensures var v := Step(c, w, Resume(t, At(now)));
            id !in v.memory && v.redis == w.redis && v.reflected == w.reflected && v.nextTask == w.nextTask
  {
    BaseFits(w, Resume(t, At(now)));
    hide Fits;
  }

  lemma FetchBegins(c: Config, w: World, id: string, now: int)
    requires Fits(w) && c.redisEnabled && id !in w.memory && id in w.redis
    ensures var v := Step(c, w, Validate(id, now, None, Answered, Answered, Plain));
            && v.reflected == w.reflected && w.nextTask in v.tasks && w.nextRef in v.heap
            && v.heap[w.nextRef] == w.redis[id]
            && v.tasks[w.nextTask] == ValidateFetched(id, None, Some(w.nextRef), Plain)
  {
    hide Fits;
  }

  lemma FetchEnds(c: Config, w: World, t: nat, id: string, now: int)
    requires Fits(w) && t in w.tasks && w.tasks[t].ValidateFetched? && w.tasks[t].id == id && w.tasks[t].found.Some?
    requires w.tasks[t].found.value in w.heap && w.heap[w.tasks[t].found.value].id == id
    ensures var ref, v := w.tasks[t].found.value, Step(c, w, Resume(t, At(now)));
            && v.reflected == w.reflected && id in v.memory && v.memory[id] == ref && ref in v.heap
            && SameSegment(w.heap[ref], v.heap[ref])
  {
    BaseFits(w, Resume(t, At(now)));
    hide Fits;
  }

  lemma AfterFive(c: Config, w: World, e1: Event, e2: Event, e3: Event, e4: Event, e5: Event)
    requires Fits(w) && Fits(Step(c, w, e1)) && Fits(Step(c, Step(c, w, e1), e2))
    requires Fits(Step(c, Step(c, Step(c, w, e1), e2), e3))
    requires Fits(Step(c, Step(c, Step(c, Step(c, w, e1), e2), e3), e4))
    ensures After(c, w, [e1, e2, e3, e4, e5])
         == Step(c, Step(c, Step(c, Step(c, Step(c, w, e1), e2), e3), e4), e5)
  {
    hide Step, Fits;
    AfterFour(c, w, e1, e2, e3, e4);
    var five := [e1, e2, e3, e4, e5];
    assert five[..4] == [e1, e2, e3, e4];
  }
}
