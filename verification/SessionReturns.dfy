/** When an identifier, and when the session it stood for, can be found again: over all ways a run may go on. */
module SessionReturns {
  import opened Options
  import opened RedisQueue
  import opened Sessions
  import opened McpSessions
  import opened SessionRuns
  import opened SessionContexts
  import opened SessionRevival

  /* ---------- One step ---------- */

  /** The step is by a request that carries `id`. */
  predicate ByCarrier(c: Config, w: World, e: Event, id: string) {
    e.Resume? && e.t in w.tasks && Carries(c, w.heap, w.tasks[e.t], id)
  }

  /** A step that writes `id` into a store, by a request that carries it or by one that recovers it. */
  predicate Returns(c: Config, w: World, e: Event, id: string)
    requires Fits(w)
  {
    Stores(ChangeOf(c, w, e), id) && (ByCarrier(c, w, e, id) || Recovers(w, e, id))
  }

  /** Nothing else writes an identifier that neither store holds. */
  lemma WhoStores(c: Config, w: World, e: Event, id: string)
    requires Fits(w) && !Held(w, id) && !Draws(w, e, id) && Stores(ChangeOf(c, w, e), id)
    ensures Returns(c, w, e, id)
  {
    if !ByCarrier(c, w, e, id) && !Recovers(w, e, id) {
      var ch := ChangeOf(c, w, e);
      var n := (if ch.put.value.how.Founds? then |w.anchors| else RootOf(w.anchors, ch.put.value.s)) + 1;
      BaseFits(w, e);
      hide BeginChange, ResumeChange, Carries, Fits, RootOf, NewHeap, NewAnchors, OldEnough;
      BaseSame(w, e);
      if e.Resume? && e.t in w.tasks {
        ResumeSpares(c, Base(w, e), w.tasks[e.t], e.out, id, n);
      } else {
        IdleBase(w, e);
        BeginSpares(c, w, e, id, n);
      }
      assert false;
    }
  }

  /** A step leaves an identifier held that neither store held exactly by writing it. */
  lemma HeldByStoring(c: Config, w: World, e: Event, id: string)
    requires Fits(w) && !Held(w, id)
    ensures Held(Step(c, w, e), id) <==> Stores(ChangeOf(c, w, e), id)
  {
    StepFits(c, w, e);
    hide Fits, ChangeOf, NewHeap, NewAnchors, PutFits;
    BaseSame(w, e);
  }

  /** A world that keeps nothing of `id` but perhaps its record in memory keeps nothing more. */
  lemma StaysQuiet(c: Config, w: World, e: Event, id: string)
    requires Fits(w) && Quiet(c, w, id) && !Draws(w, e, id) && !Recovers(w, e, id) && !Takes(w, e, id)
    ensures Quiet(c, Step(c, w, e), id) && (id in Step(c, w, e).memory ==> id in w.memory)
  {
    var v := Step(c, w, e);
    hide Step, Fits, Carries, OldEnough, RootOf;
    if !Quiet(c, v, id) || (id in v.memory && id !in w.memory) {
      var n := NotSealed(c, v, id);
      StepSealed(c, w, e, id, n);
      assert false;
    }
  }

  /** What there is of `id` has a root before some number. */
  lemma NotSealed(c: Config, w: World, id: string) returns (n: nat)
    requires !Quiet(c, w, id) || id in w.memory
    ensures !Quiet(c, w, id) ==> !Sealed(c, w, id, n)
    ensures id in w.memory ==> !InMemorySince(w, id, n)
  {
    n := 0;
    if id in w.redis {
      n := RootOf(w.anchors, w.redis[id]) + 1;
    } else if t :| t in w.tasks && Carries(c, w.heap, w.tasks[t], id) {
      var ref := HeldBy(w.tasks[t]).value.1;
      n := if ref in w.heap then RootOf(w.anchors, w.heap[ref]) + 1 else 0;
    }
    if id in w.memory && w.memory[id] in w.heap {
      n := n + RootOf(w.anchors, w.heap[w.memory[id]]) + 1;
    }
  }

  /* ---------- Ways on ---------- */

  /** No request of the run draws `id` as an identifier of its own. */
  ghost predicate NeverDraws(c: Config, w: World, more: seq<Event>, id: string)
    requires Fits(w)
  {
    forall k :: 0 <= k < |more| ==> !Draws(Before(c, w, more, k), more[k], id)
  }

  /** No request of the run recovers `id`. */
  ghost predicate NeverRecovers(c: Config, w: World, more: seq<Event>, id: string)
    requires Fits(w)
  {
    forall k :: 0 <= k < |more| ==> !Recovers(Before(c, w, more, k), more[k], id)
  }

  /** One of the stores holds a record of `id` with a root before `n`. */
  predicate HoldsOld(w: World, id: string, n: nat)
    requires Fits(w)
  {
    || (id in w.memory && (InMemory(w, id); RootOf(w.anchors, w.heap[w.memory[id]]) < n))
    || (id in w.redis && RootOf(w.anchors, w.redis[id]) < n)
  }

  lemma NextStep(c: Config, w: World, more: seq<Event>, k: nat)
    requires Fits(w) && k < |more|
    ensures Before(c, w, more, k + 1) == Step(c, Before(c, w, more, k), more[k])
  {
    hide Step, Fits;
    assert more[..k + 1][..k] == more[..k] && more[..k + 1][k] == more[k];
  }

  lemma Whole(c: Config, w: World, more: seq<Event>)
    requires Fits(w)
    ensures Before(c, w, more, |more|) == After(c, w, more) && Before(c, w, more, 0) == w
  {
    assert more[..|more|] == more && more[..0] == [];
    hide Fits, Step;
  }

  /**
    * In any run from a state in which neither store holds `id`, one comes to hold it exactly when a request that
    * carries it writes it, or an authenticated request that presented it is given a new session under it.
    */
  lemma ReturnsIff(c: Config, w: World, more: seq<Event>, id: string)
    requires Fits(w) && !Held(w, id) && NeverDraws(c, w, more, id)
    ensures (exists k :: 0 <= k <= |more| && Held(Before(c, w, more, k), id))
       <==> (exists k :: 0 <= k < |more| && Returns(c, Before(c, w, more, k), more[k], id))
  {
    hide Fits, Step, Held, Returns, Before, ChangeOf;
    Whole(c, w, more);
    if k :| 0 <= k <= |more| && Held(Before(c, w, more, k), id) {
      FirstHeld(c, w, more, id, k);
    }
    if k :| 0 <= k < |more| && Returns(c, Before(c, w, more, k), more[k], id) {
      ReturnsHolds(c, w, more, id, k);
    }
  }

  lemma {:induction false} FirstHeld(c: Config, w: World, more: seq<Event>, id: string, k: nat)
    requires Fits(w) && !Held(w, id) && NeverDraws(c, w, more, id) && k <= |more| && Held(Before(c, w, more, k), id)
    ensures exists i :: 0 <= i < k && Returns(c, Before(c, w, more, i), more[i], id)
  {
    hide Fits, Step, Held, Returns, Before, ChangeOf, Draws;
    Whole(c, w, more);
    if Held(Before(c, w, more, k - 1), id) {
      FirstHeld(c, w, more, id, k - 1);
    } else {
      NextStep(c, w, more, k - 1);
      HeldByStoring(c, Before(c, w, more, k - 1), more[k - 1], id);
      WhoStores(c, Before(c, w, more, k - 1), more[k - 1], id);
    }
  }

  lemma ReturnsHolds(c: Config, w: World, more: seq<Event>, id: string, k: nat)
    requires Fits(w) && k < |more| && Returns(c, Before(c, w, more, k), more[k], id)
    ensures exists i :: 0 <= i <= |more| && Held(Before(c, w, more, i), id)
  {
    hide Fits, Step, Held, Before, ChangeOf, Stores;
    if !Held(Before(c, w, more, k), id) {
      NextStep(c, w, more, k);
      HeldByStoring(c, Before(c, w, more, k), more[k], id);
      assert Held(Before(c, w, more, k + 1), id);
    }
  }

  /* ---------- The identifier, without recovery ---------- */

  /** A session that is gone stays away as long as nobody recovers its identifier. */
  lemma {:induction false} GoneUnlessRecovered(c: Config, w: World, more: seq<Event>, id: string, k: nat)
    requires Fits(w) && Gone(c, w, id) && NeverDraws(c, w, more, id) && NeverRecovers(c, w, more, id) && k <= |more|
    ensures Gone(c, Before(c, w, more, k), id)
  {
    hide Fits, Step, Before, ChangeOf, Draws, Recovers, Quiet;
    if k == 0 {
      Whole(c, w, more);
    } else {
      GoneUnlessRecovered(c, w, more, id, k - 1);
      NextStep(c, w, more, k - 1);
      StaysQuiet(c, Before(c, w, more, k - 1), more[k - 1], id);
    }
  }

  /** Whatever else happens, but for recoveries, an identifier can be found again exactly when it is not gone. */
  lemma NeverFoundIffGone(c: Config, w: World, id: string)
    requires Fits(w)
    ensures Gone(c, w, id)
       <==> forall more: seq<Event> :: NeverDraws(c, w, more, id) && NeverRecovers(c, w, more, id) ==>
              !Held(After(c, w, more), id)
  {
    hide Fits, After, Quiet, Draws, Recovers;
    if Gone(c, w, id) {
      forall more: seq<Event> | NeverDraws(c, w, more, id) && NeverRecovers(c, w, more, id)
        ensures !Held(After(c, w, more), id)
      {
        GoneUnlessRecovered(c, w, more, id, |more|);
        Whole(c, w, more);
        GoneNotHeld(c, After(c, w, more), id);
      }
    } else {
      var more := OldReturns(c, w, id);
    }
  }

  lemma GoneNotHeld(c: Config, w: World, id: string)
    requires Gone(c, w, id)
    ensures !Held(w, id)
  {
  }

  /* ---------- The old session ---------- */

  /** How many steps a carrier is away from writing its record, at most. */
  function Rank(t: Task): nat {
    if t.Validated? then 3 else if t.KeyAsked? then 2 else 1
  }

  /** What a carrier gets when it goes on, so that it gets to write its record. */
  function Chance(w: World, t: Task): Outside {
    var now := if t.ValidateRestored? && t.ref in w.heap then w.heap[t.ref].expiresAt else 0;
    var key := if t.MasterAsked? then t.h.keyId else None;
    Outside(now, Answered, Some(Identity(key, false, None, None, None)), None, Known(None, None, Some([])), Some([]))
  }

  predicate CarriesOld(c: Config, w: World, t: nat, id: string, n: nat) {
    && t in w.tasks && Carries(c, w.heap, w.tasks[t], id)
    && HeldBy(w.tasks[t]).value.1 in w.heap && RootOf(w.anchors, w.heap[HeldBy(w.tasks[t]).value.1]) < n
  }

  /** A change that stores the record, or one that hands it to a request which is nearer to doing so. */
  predicate Forwards(c: Config, w: World, ch: Change, task: Task, id: string)
    requires HeldBy(task).Some?
  {
    var ref := HeldBy(task).value.1;
    || (Stores(ch, id) && ch.put.value.ref == ref)
    || (ch.spawn.Some? && Carries(c, NewHeap(w, ch), ch.spawn.value, id) && HeldBy(ch.spawn.value).value.1 == ref
        && Rank(ch.spawn.value) < Rank(task))
  }

  lemma CarrierForwards(c: Config, w: World, task: Task, id: string)
    requires Fits(w) && TaskFits(w.heap, task) && Carries(c, w.heap, task, id)
    ensures HeldBy(task).Some? && Forwards(c, w, ResumeChange(c, w, task, Chance(w, task)), task, id)
  {
    hide Fits, ContextOf;
    match task
    case ValidateFetched(_, _, _, _) =>
    case ValidateRestored(_, _, _, _) =>
    case Validated(_, _, _) =>
    case CallHolding(_, _) =>
    case KeyAsked(_) =>
    case MasterAsked(_) =>
    case GroupsAsked(_) =>
    case _ =>
  }

  /** The record is stored, or carried on by a request nearer to storing it. */
  predicate GotOn(c: Config, w: World, v: World, task: Task, id: string, n: nat)
    requires Fits(v)
  {
    HoldsOld(v, id, n) || (CarriesOld(c, v, w.nextTask, id, n) && Rank(v.tasks[w.nextTask]) < Rank(task))
  }

  lemma CarrierGoesOn(c: Config, w: World, t: nat, id: string, n: nat)
    requires Fits(w) && CarriesOld(c, w, t, id, n)
    ensures var e := Resume(t, Chance(w, w.tasks[t]));
            && !Draws(w, e, id) && !Recovers(w, e, id)
            && Fits(Step(c, w, e)) && GotOn(c, w, Step(c, w, e), w.tasks[t], id, n)
  {
    var task := w.tasks[t];
    var e := Resume(t, Chance(w, task));
    var b, ch := Base(w, e), ChangeOf(c, w, e);
    BaseFits(w, e);
    StepFits(c, w, e);
    BaseSame(w, e);
    assert Chance(b, task) == Chance(w, task);
    assert ch == ResumeChange(c, b, task, Chance(w, task));
    hide Fits, ResumeChange, ChangeFits, ChangeOf, Base, Chance, GotOn, Step, RootOf;
    assert !Draws(w, e, id) && !Recovers(w, e, id);
    CarrierForwards(c, b, task, id);
    hide Carries, Forwards;
    StepIs(c, w, e);
    ForwardedOld(c, b, ch, IsCall(w, e), task, id, n);
    SameGotOn(c, b, w, Step(c, w, e), task, id, n);
  }

  lemma SameGotOn(c: Config, b: World, w: World, v: World, task: Task, id: string, n: nat)
    requires Fits(v) && GotOn(c, b, v, task, id, n) && b.nextTask == w.nextTask
    ensures GotOn(c, w, v, task, id, n)
  {
  }

  lemma ForwardedOld(c: Config, w: World, ch: Change, called: bool, task: Task, id: string, n: nat)
    requires Fits(w) && ChangeFits(w, ch, called) && Fits(Apply(w, ch)) && HeldBy(task).Some?
             && Forwards(c, w, ch, task, id)
    requires HeldBy(task).value.1 in w.heap && RootOf(w.anchors, w.heap[HeldBy(task).value.1]) < n
    ensures GotOn(c, w, Apply(w, ch), task, id, n)
  {
    var ref := HeldBy(task).value.1;
    assert ref in NewHeap(w, ch) && RootOf(NewAnchors(w, ch), NewHeap(w, ch)[ref]) < n by {
      RootsStay(w, ch, called);
      hide Carries, TaskFits, ChangeFits, Fits;
    }
    hide Fits, ChangeFits, NewHeap, NewAnchors, RootOf, Apply;
    if Stores(ch, id) && ch.put.value.ref == ref {
      StoredOld(c, w, ch, called, id, n);
    } else {
      SpawnedOld(c, w, ch, id, n);
    }
    hide HoldsOld, CarriesOld, Carries;
  }

  lemma SpawnedOld(c: Config, w: World, ch: Change, id: string, n: nat)
    requires ch.spawn.Some? && Carries(c, NewHeap(w, ch), ch.spawn.value, id)
    requires var ref := HeldBy(ch.spawn.value).value.1;
             ref in NewHeap(w, ch) && RootOf(NewAnchors(w, ch), NewHeap(w, ch)[ref]) < n
    ensures CarriesOld(c, Apply(w, ch), w.nextTask, id, n) && Apply(w, ch).tasks[w.nextTask] == ch.spawn.value
  {
    hide Carries, NewHeap, NewAnchors, NewMemory, NewRedis, RootOf;
  }

  lemma StoredOld(c: Config, w: World, ch: Change, called: bool, id: string, n: nat)
    requires ChangeFits(w, ch, called) && Fits(Apply(w, ch)) && Stores(ch, id)
    requires ch.put.value.ref in NewHeap(w, ch) && RootOf(NewAnchors(w, ch), NewHeap(w, ch)[ch.put.value.ref]) < n
    ensures HoldsOld(Apply(w, ch), id, n)
  {
    hide Fits, NewAnchors, RootOf, TaskFits, SameSegment, PutFits;
    var v := Apply(w, ch);
    assert NewHeap(w, ch)[ch.put.value.ref] == Stamped(w, ch.put.value);
    if ch.put.value.enters {
      assert v.memory[id] == ch.put.value.ref;
    } else {
      assert v.redis[id] == Stamped(w, ch.put.value);
    }
  }

  /** A carrier left to itself comes to write its record. */
  lemma {:induction false} CarrierReturns(c: Config, w: World, t: nat, id: string, n: nat) returns (more: seq<Event>)
    requires Fits(w) && CarriesOld(c, w, t, id, n)
    ensures NeverDraws(c, w, more, id) && NeverRecovers(c, w, more, id) && HoldsOld(After(c, w, more), id, n)
    decreases if t in w.tasks then Rank(w.tasks[t]) else 0
  {
    assert t in w.tasks;
    var e := Resume(t, Chance(w, w.tasks[t]));
    hide Fits, Step, CarriesOld, HoldsOld, Draws, Recovers, Rank;
    CarrierGoesOn(c, w, t, id, n);
    var v := Step(c, w, e);
    var rest := [];
    if !HoldsOld(v, id, n) {
      rest := CarrierReturns(c, v, w.nextTask, id, n);
    } else {
      NothingAfter(c, v);
    }
    more := [e] + rest;
    FirstThen(c, w, e, rest, id);
  }

  lemma {:induction false} AfterFirst(c: Config, w: World, e: Event, rest: seq<Event>)
    requires Fits(w)
    ensures Fits(Step(c, w, e)) && After(c, w, [e] + rest) == After(c, Step(c, w, e), rest)
  {
    hide Fits, Step;
    StepFits(c, w, e);
    var all := [e] + rest;
    if rest == [] {
      assert all[..0] == [] && all == [e];
    } else {
      AfterFirst(c, w, e, rest[..|rest| - 1]);
      assert all[..|all| - 1] == [e] + rest[..|rest| - 1];
    }
  }

  lemma FirstThen(c: Config, w: World, e: Event, rest: seq<Event>, id: string)
    requires Fits(w) && Fits(Step(c, w, e)) && !Draws(w, e, id) && NeverDraws(c, Step(c, w, e), rest, id)
    ensures var more := [e] + rest;
            && After(c, w, more) == After(c, Step(c, w, e), rest) && NeverDraws(c, w, more, id)
            && (!Recovers(w, e, id) && NeverRecovers(c, Step(c, w, e), rest, id) ==> NeverRecovers(c, w, more, id))
  {
    hide Fits, Step, Draws, Recovers, After;
    var more := [e] + rest;
    AfterFirst(c, w, e, rest);
    Whole(c, w, more);
    forall k | 0 < k < |more|
      ensures Before(c, w, more, k) == Before(c, Step(c, w, e), rest, k - 1) && more[k] == rest[k - 1]
    {
      assert more[..k] == [e] + rest[..k - 1];
      AfterFirst(c, w, e, rest[..k - 1]);
    }
    hide Before;
  }

  /** A session that is not gone can be found again as it was: at once, or when the request that carries it goes on. */
  lemma OldReturns(c: Config, w: World, id: string) returns (more: seq<Event>)
    requires Fits(w) && !Gone(c, w, id)
    ensures NeverDraws(c, w, more, id) && NeverRecovers(c, w, more, id)
    ensures HoldsOld(After(c, w, more), id, |w.anchors|) && Held(After(c, w, more), id)
  {
    hide Carries, After, Fits, Draws, Recovers;
    if Held(w, id) {
      more := [];
      HeldIsOld(w, id);
      NothingAfter(c, w);
    } else {
      var t :| t in w.tasks && Carries(c, w.heap, w.tasks[t], id);
      CarriedIsOld(c, w, t, id);
      more := CarrierReturns(c, w, t, id, |w.anchors|);
    }
  }

  lemma NothingAfter(c: Config, w: World)
    requires Fits(w)
    ensures After(c, w, []) == w
  {
  }

  lemma HeldIsOld(w: World, id: string)
    requires Fits(w) && Held(w, id)
    ensures HoldsOld(w, id, |w.anchors|)
  {
  }

  lemma CarriedIsOld(c: Config, w: World, t: nat, id: string)
    requires Fits(w) && t in w.tasks && Carries(c, w.heap, w.tasks[t], id)
    ensures CarriesOld(c, w, t, id, |w.anchors|)
  {
    TaskOf(w, t);
    RecordFits(w, HeldBy(w.tasks[t]).value.1);
    assert AnchorsFit(w.anchors);
    hide Fits, Carries, ContextOf;
  }

  /** From a state in which `id` is gone, only later beginnings of it can be found. */
  lemma {:induction false} OnlyNewReturns(c: Config, w: World, more: seq<Event>, id: string, k: nat)
    requires Fits(w) && Gone(c, w, id) && NeverDraws(c, w, more, id) && k <= |more|
    ensures var v := Before(c, w, more, k);
            Sealed(c, v, id, |w.anchors|) && InMemorySince(v, id, |w.anchors|) && |w.anchors| <= |v.anchors|
  {
    hide Fits, Step, Before, Draws, Recovers, Carries, RootOf;
    if k == 0 {
      Whole(c, w, more);
    } else {
      OnlyNewReturns(c, w, more, id, k - 1);
      NextStep(c, w, more, k - 1);
      var v := Before(c, w, more, k - 1);
      hide Quiet, Sealed, InMemorySince;
      StepSealed(c, v, more[k - 1], id, |w.anchors|);
      StepContext(c, v, more[k - 1]);
    }
  }

  /**
    * The session that `id` stands for now, and its context, can be found again in some way on exactly when it is not
    * gone: what is found under `id` otherwise began after now, by a recovery.
    */
  lemma OldReturnsIff(c: Config, w: World, id: string)
    requires Fits(w)
    ensures (exists more: seq<Event> :: NeverDraws(c, w, more, id) && HoldsOld(After(c, w, more), id, |w.anchors|))
       <==> !Gone(c, w, id)
  {
    hide Fits, After, Quiet, Draws, Recovers;
    if !Gone(c, w, id) {
      var more := OldReturns(c, w, id);
    } else {
      forall more: seq<Event> | NeverDraws(c, w, more, id)
        ensures !HoldsOld(After(c, w, more), id, |w.anchors|)
      {
        OnlyNewReturns(c, w, more, id, |more|);
        Whole(c, w, more);
      }
    }
  }

  /* ---------- Recovery ---------- */

  /** What a request that may recover its session is given: it is authenticated as `to.who`, and gets its mode. */
  function Welcome(to: Anchor): Outside {
    Outside(0, Answered, Some(to.who), Some(to.mode), Revoked, None)
  }

  /** `id` is in memory, with the context of `to`, as a session that began when there were `n` anchorings. */
  predicate BegunAnew(w: World, id: string, to: Anchor, n: nat)
    requires Fits(w)
  {
    && id in w.memory
    && (InMemory(w, id);
        ContextOf(w.heap[w.memory[id]]) == ContextTo(to, true) && w.heap[w.memory[id]].origin == n
        && RootOf(w.anchors, w.heap[w.memory[id]]) == n)
  }

  /** A step that only lets a request wait on. */
  lemma WaitsOn(c: Config, w: World, e: Event, task: Task)
    requires Fits(w) && ChangeOf(c, w, e) == Nothing.(spawn := Some(task))
    ensures var v := Step(c, w, e);
            && Fits(v) && v.memory == w.memory && v.redis == w.redis && v.anchors == w.anchors
            && w.nextTask in v.tasks && v.tasks[w.nextTask] == task
  {
    StepFits(c, w, e);
    BaseSame(w, e);
    hide Fits, ChangeOf, Base;
  }

  lemma AllowedRecovers(c: Config, w: World, t: nat, id: string, version: Option<string>, to: Anchor)
      returns (more: seq<Event>)
    requires Fits(w) && t in w.tasks && w.tasks[t] == RecoverAllowed(id, version, to)
    ensures NeverDraws(c, w, more, id) && BegunAnew(After(c, w, more), id, to, |w.anchors|)
  {
    hide Step, After, BegunAnew;
    var e := Resume(t, Welcome(to));
    more := [e];
    StepFits(c, w, e);
    RecreatedAnew(c, w, t, id, version, to);
    hide Fits, Step, BegunAnew;
    NothingAfter(c, Step(c, w, e));
    assert [e] + [] == [e];
    FirstThen(c, w, e, [], id);
  }

  lemma RecreatedAnew(c: Config, w: World, t: nat, id: string, version: Option<string>, to: Anchor)
    requires Fits(w) && t in w.tasks && w.tasks[t] == RecoverAllowed(id, version, to)
    ensures var v := Step(c, w, Resume(t, Welcome(to))); Fits(v) && BegunAnew(v, id, to, |w.anchors|)
  {
    var e := Resume(t, Welcome(to));
    StepFits(c, w, e);
    BaseFits(w, e);
    BaseSame(w, e);
    hide Fits, Base;
  }

  lemma FetchedRecovers(c: Config, w: World, t: nat, id: string, version: Option<string>, to: Anchor)
      returns (more: seq<Event>)
    requires Fits(w) && t in w.tasks && w.tasks[t] == RecoverFetched(id, version, to.who, None)
    ensures NeverDraws(c, w, more, id) && BegunAnew(After(c, w, more), id, to, |w.anchors|)
  {
    hide Step, After, BegunAnew;
    var e := Resume(t, Welcome(to));
    BaseFits(w, e);
    assert ChangeOf(c, w, e) == Nothing.(spawn := Some(RecoverAllowed(id, version, to)));
    WaitsOn(c, w, e, RecoverAllowed(id, version, to));
    hide Fits, Step, BegunAnew, ChangeOf;
    var rest := AllowedRecovers(c, Step(c, w, e), w.nextTask, id, version, to);
    more := [e] + rest;
    FirstThen(c, w, e, rest, id);
  }

  lemma MissingRecovers(c: Config, w: World, t: nat, id: string, version: Option<string>, to: Anchor)
      returns (more: seq<Event>)
    requires Fits(w) && c.admits(id) && !Held(w, id) && t in w.tasks && w.tasks[t] == Recovering(id, version)
    ensures NeverDraws(c, w, more, id) && BegunAnew(After(c, w, more), id, to, |w.anchors|)
  {
    hide Step, After, BegunAnew;
    var e := Resume(t, Welcome(to));
    BaseFits(w, e);
    var task := if c.redisEnabled then RecoverFetched(id, version, to.who, None) else RecoverAllowed(id, version, to);
    assert ChangeOf(c, w, e) == Nothing.(spawn := Some(task));
    WaitsOn(c, w, e, task);
    hide Fits, Step, BegunAnew, ChangeOf;
    var rest;
    if c.redisEnabled {
      rest := FetchedRecovers(c, Step(c, w, e), w.nextTask, id, version, to);
    } else {
      rest := AllowedRecovers(c, Step(c, w, e), w.nextTask, id, version, to);
    }
    more := [e] + rest;
    FirstThen(c, w, e, rest, id);
  }

  lemma UnfetchedRecovers(c: Config, w: World, t: nat, id: string, version: Option<string>, to: Anchor)
      returns (more: seq<Event>)
    requires Fits(w) && c.admits(id) && !Held(w, id) && t in w.tasks
             && w.tasks[t] == ValidateFetched(id, version, None, Post)
    ensures NeverDraws(c, w, more, id) && BegunAnew(After(c, w, more), id, to, |w.anchors|)
  {
    hide Step, After, BegunAnew;
    var e := Resume(t, Welcome(to));
    BaseFits(w, e);
    assert ChangeOf(c, w, e) == Nothing.(spawn := Some(Recovering(id, version)));
    WaitsOn(c, w, e, Recovering(id, version));
    hide Fits, Step, BegunAnew, ChangeOf;
    var rest := MissingRecovers(c, Step(c, w, e), w.nextTask, id, version, to);
    more := [e] + rest;
    FirstThen(c, w, e, rest, id);
  }

  /**
    * Whatever was done to it: of an identifier that neither store holds, and recovery admits, an authenticated request
    * that presents it begins a session, in the context of that request's own credential.
    */
  lemma AlwaysRecoverable(c: Config, w: World, id: string, version: Option<string>, to: Anchor)
      returns (more: seq<Event>)
    requires Fits(w) && c.admits(id) && !Held(w, id)
    ensures NeverDraws(c, w, more, id) && BegunAnew(After(c, w, more), id, to, |w.anchors|)
  {
    hide Step, After, BegunAnew;
    var e := Validate(id, 0, version, Answered, Answered, Post);
    var task := if c.redisEnabled then ValidateFetched(id, version, None, Post) else Recovering(id, version);
    assert ChangeOf(c, w, e) == Nothing.(spawn := Some(task));
    WaitsOn(c, w, e, task);
    hide Fits, Step, BegunAnew, ChangeOf;
    var rest;
    if c.redisEnabled {
      rest := UnfetchedRecovers(c, Step(c, w, e), w.nextTask, id, version, to);
    } else {
      rest := MissingRecovers(c, Step(c, w, e), w.nextTask, id, version, to);
    }
    more := [e] + rest;
    FirstThen(c, w, e, rest, id);
  }

  /* ---------- The end of a rotation ---------- */

  /** When a rotation returns, its old session is gone exactly when no copy was saved again and nothing carries it. */
  lemma GoneOnReturnIff(c: Config, w: World, t: nat, out: Outside)
    requires Fits(w) && t in w.tasks && w.tasks[t].RotateDeleted? && w.tasks[t].answered
    ensures var task := w.tasks[t]; var id := task.r.oldId; var v := Step(c, w, Resume(t, out));
            && v.redis == w.redis && v.memory == (if task.held then w.memory - {id} else w.memory)
            && (Gone(c, v, id) <==> (task.held || id !in w.memory) && Quiet(c, w, id))
  {
    var e := Resume(t, out);
    BaseFits(w, e);
    hide Fits, ResultOf;
    var v := Step(c, w, e);
    assert v.tasks == w.tasks - {t} && v.heap == w.heap && v.redis == w.redis;
    hide Step;
    forall i | i in w.tasks && Carries(c, w.heap, w.tasks[i], w.tasks[t].r.oldId)
      ensures i in v.tasks
    {
    }
    hide Carries;
  }

  /** No event of `more` takes `id` up or begins it, and none is the return of task `t`. */
  ghost predicate LeftAlone(c: Config, w: World, more: seq<Event>, t: nat, id: string)
    requires Fits(w)
  {
    forall k :: 0 <= k < |more| ==>
      var v := Before(c, w, more, k);
      !Draws(v, more[k], id) && !Recovers(v, more[k], id) && !Takes(v, more[k], id)
          && !(more[k].Resume? && more[k].t == t)
  }

  lemma TaskStays(c: Config, w: World, e: Event, t: nat)
    requires Fits(w) && t in w.tasks && !(e.Resume? && e.t == t)
    ensures var v := Step(c, w, e); t in v.tasks && v.tasks[t] == w.tasks[t]
  {
    NextIsNew(w);
    hide Fits, ChangeOf, NewHeap, NewMemory, NewRedis, NewAnchors;
  }

  lemma {:induction false} QuietWhileLeftAlone(c: Config, w: World, more: seq<Event>, t: nat, id: string, k: nat)
    requires Fits(w) && Quiet(c, w, id) && t in w.tasks && LeftAlone(c, w, more, t, id) && k <= |more|
    ensures var v := Before(c, w, more, k);
            Quiet(c, v, id) && t in v.tasks && v.tasks[t] == w.tasks[t] && (id in v.memory ==> id in w.memory)
  {
    hide Fits, Step, Before, Draws, Recovers, Takes, Quiet;
    if k == 0 {
      Whole(c, w, more);
    } else {
      QuietWhileLeftAlone(c, w, more, t, id, k - 1);
      NextStep(c, w, more, k - 1);
      StaysQuiet(c, Before(c, w, more, k - 1), more[k - 1], id);
      TaskStays(c, Before(c, w, more, k - 1), more[k - 1], t);
    }
  }

  /**
    * A rotation whose old session no request carries when it is deleted from Redis, and none takes up or recovers until
    * it is closed here, returns with the old session gone.
    */
  lemma UndisturbedIsGone(c: Config, w: World, t: nat, out: Outside, more: seq<Event>, out2: Outside)
    requires Fits(w) && c.redisEnabled && t in w.tasks && w.tasks[t].RotateSaved? && w.tasks[t].r.deleteOld.Answered?
    requires w.tasks[t].answered || !c.failClosed
    requires forall i :: i in w.tasks ==> !Carries(c, w.heap, w.tasks[i], w.tasks[t].r.oldId)
    requires Fits(Step(c, w, Resume(t, out)))
    requires LeftAlone(c, Step(c, w, Resume(t, out)), more, w.nextTask, w.tasks[t].r.oldId)
    ensures var v := After(c, Step(c, w, Resume(t, out)), more);
            Gone(c, Step(c, v, Resume(w.nextTask, out2)), w.tasks[t].r.oldId)
  {
    var id, v := w.tasks[t].r.oldId, Step(c, w, Resume(t, out));
    DeletionQuiets(c, w, t, out);
    hide Fits, Step, Quiet, LeftAlone;
    QuietWhileLeftAlone(c, v, more, w.nextTask, id, |more|);
    Whole(c, v, more);
    hide After, Before;
    GoneOnReturnIff(c, After(c, v, more), w.nextTask, out2);
  }

  lemma DeletionQuiets(c: Config, w: World, t: nat, out: Outside)
    requires Fits(w) && c.redisEnabled && t in w.tasks && w.tasks[t].RotateSaved? && w.tasks[t].r.deleteOld.Answered?
    requires w.tasks[t].answered || !c.failClosed
    requires forall i :: i in w.tasks ==> !Carries(c, w.heap, w.tasks[i], w.tasks[t].r.oldId)
    ensures var r, v := w.tasks[t].r, Step(c, w, Resume(t, out));
            && Quiet(c, v, r.oldId) && v.memory == w.memory && w.nextTask in v.tasks
            && v.tasks[w.nextTask] == RotateDeleted(r, w.tasks[t].s, r.oldId in w.memory, true)
  {
    var e := Resume(t, out);
    BaseFits(w, e);
    hide Fits, ResultOf;
    var v := Step(c, w, e);
    var task := RotateDeleted(w.tasks[t].r, w.tasks[t].s, w.tasks[t].r.oldId in w.memory, true);
    assert v.tasks == (w.tasks - {t})[w.nextTask := task] && v.heap == w.heap;
    assert !Carries(c, w.heap, task, w.tasks[t].r.oldId);
    hide Step, Carries;
  }

  /** A validation of `id` while a rotation away from it waits for its deletion. */
  function Race(w: World, r: Rotation, now: int): seq<Event> {
    var out := Outside(now, Answered, None, None, Revoked, None);
    [Rotate(r), Resume(w.nextTask, out), Validate(r.oldId, now, None, Answered, Answered, Plain),
     Resume(w.nextTask + 1, out)]
  }

  /**
    * The old session survives a rotation that succeeds, when a request validates it between its deletion from Redis and
    * its closing here: Redis holds it again, as it was.
    */
  lemma OldSessionSurvives(c: Config, w: World, r: Rotation, now: int)
    requires Fits(w) && c.redisEnabled && r.oldId in w.memory && w.memory[r.oldId] in w.heap && r.newId != r.oldId
    requires var s := w.heap[w.memory[r.oldId]]; r.trustedLocal && r.now <= s.expiresAt && now <= s.expiresAt
    requires r.newId !in w.memory && r.save.Answered? && r.deleteOld.Answered?
    ensures var v := After(c, w, Race(w, r, now));
            && r.oldId !in v.memory && r.newId in v.memory && r.oldId in v.redis
            && ContextOf(v.redis[r.oldId]) == ContextOf(w.heap[w.memory[r.oldId]])
  {
    hide Fits, Step, Successor, ContextOf, Quiet;
    var out := Outside(now, Answered, None, None, Revoked, None);
    var e1, e2 := Rotate(r), Resume(w.nextTask, out);
    var e3, e4 := Validate(r.oldId, now, None, Answered, Answered, Plain), Resume(w.nextTask + 1, out);
    StepFits(c, w, e1);
    var w1 := Step(c, w, e1);
    Rotated1(c, w, r);
    StepFits(c, w1, e2);
    var w2 := Step(c, w1, e2);
    Rotated2(c, w, w1, r, out);
    StepFits(c, w2, e3);
    var w3 := Step(c, w2, e3);
    Rotated3(c, w, w2, r, now);
    StepFits(c, w3, e4);
    GoneOnReturnIff(c, w3, w.nextTask + 1, out);
    AfterFour(c, w, e1, e2, e3, e4);
  }

  lemma AfterFour(c: Config, w: World, e1: Event, e2: Event, e3: Event, e4: Event)
    requires Fits(w) && Fits(Step(c, w, e1)) && Fits(Step(c, Step(c, w, e1), e2))
    requires Fits(Step(c, Step(c, Step(c, w, e1), e2), e3))
    ensures After(c, w, [e1, e2, e3, e4]) == Step(c, Step(c, Step(c, Step(c, w, e1), e2), e3), e4)
  {
    hide Step, Fits;
    var run := [e1, e2, e3, e4];
    NextStep(c, w, run, 0);
    NextStep(c, w, run, 1);
    NextStep(c, w, run, 2);
    NextStep(c, w, run, 3);
    Whole(c, w, run);
  }

  lemma Rotated1(c: Config, w: World, r: Rotation)
    requires Fits(w) && c.redisEnabled && r.oldId in w.memory && r.trustedLocal && r.newId != r.oldId
    requires w.memory[r.oldId] in w.heap && r.now <= w.heap[w.memory[r.oldId]].expiresAt && r.save.Answered?
    ensures var s, v := w.heap[w.memory[r.oldId]], Step(c, w, Rotate(r));
            && v.memory == w.memory[r.newId := w.nextRef] && v.nextTask == w.nextTask + 1
            && w.memory[r.oldId] in v.heap && v.heap[w.memory[r.oldId]] == s
            && w.nextTask in v.tasks && v.tasks[w.nextTask] == RotateSaved(r, Successor(c, r, s), true)
  {
    RecordFits(w, w.memory[r.oldId]);
    hide Fits, Successor;
    assert Successor(c, r, w.heap[w.memory[r.oldId]]).id == r.newId by {
      SuccessorId(c, r, w.heap[w.memory[r.oldId]]);
    }
  }

  lemma SuccessorId(c: Config, r: Rotation, s: Session)
    requires r.trustedLocal || r.requester.Some?
    ensures Successor(c, r, s).id == r.newId
  {
  }

  lemma Rotated2(c: Config, w: World, v: World, r: Rotation, out: Outside)
    requires Fits(v) && c.redisEnabled && r.oldId in w.memory && r.newId != r.oldId && r.deleteOld.Answered?
    requires v.memory == w.memory[r.newId := w.nextRef] && v.nextTask == w.nextTask + 1 && w.memory[r.oldId] in v.heap
    requires w.nextTask in v.tasks && v.tasks[w.nextTask].RotateSaved? && v.tasks[w.nextTask].answered
             && v.tasks[w.nextTask].r == r
    ensures var u := Step(c, v, Resume(w.nextTask, out));
            && u.memory == v.memory && u.heap == v.heap && w.nextTask + 1 in u.tasks
            && u.tasks[w.nextTask + 1].RotateDeleted? && u.tasks[w.nextTask + 1].r == r
            && u.tasks[w.nextTask + 1].held && u.tasks[w.nextTask + 1].answered
  {
    BaseFits(v, Resume(w.nextTask, out));
    hide Fits, ResultOf;
  }

  lemma Rotated3(c: Config, w: World, v: World, r: Rotation, now: int)
    requires Fits(v) && c.redisEnabled && r.newId != r.oldId && r.oldId in w.memory
    requires v.memory == w.memory[r.newId := w.nextRef] && w.memory[r.oldId] in v.heap
    requires now <= v.heap[w.memory[r.oldId]].expiresAt && w.nextTask + 1 in v.tasks
    ensures var u := Step(c, v, Validate(r.oldId, now, None, Answered, Answered, Plain));
            && u.memory == v.memory && r.oldId in u.redis
            && ContextOf(u.redis[r.oldId]) == ContextOf(v.heap[w.memory[r.oldId]])
            && w.nextTask + 1 in u.tasks && u.tasks[w.nextTask + 1] == v.tasks[w.nextTask + 1]
  {
    InMemory(v, r.oldId);
    hide Fits;
  }
}
