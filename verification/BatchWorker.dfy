/** The worker of `lib/memory/write/BatchRememberWorker.js` on the reliable queue: no accepted job is ever lost. */
module BatchWorker {
  import opened Options
  import opened RedisQueue

  /** A queued envelope; its JSON text and its fields determine each other. */
  datatype Envelope = Envelope(job: string, retry: nat, queuedAt: int)

  /** What a worker is doing: nothing, processing an envelope, or about to acknowledge one. */
  datatype Phase = Idle | Holding(raw: Envelope) | Settled(raw: Envelope)

  /** The lists, the workers, the jobs whose processing succeeded and those whose first push was answered. */
  datatype State = State(lists: Lists<Envelope>, workers: map<nat, Phase>, done: set<string>, accepted: set<string>)

  datatype Event =
    | Submit(job: string, now: int, wire: Wire)
    | Pop(worker: nat, wire: Wire)
    | Succeed(worker: nat)
    | Fail(worker: nat, now: int, wire: Wire)
    | Ack(worker: nat, wire: Wire)
    | Crash(worker: nat)
    | Recover(wire: Wire)

  function PhaseOf(s: State, worker: nat): Phase {
    if worker in s.workers then s.workers[worker] else Idle
  }

  /** `_processBatch`, `_processJobEnvelope` and `_onStart`, one atomic command at a time, with the retry limit. */
  function Step(limit: nat, s: State, e: Event): State {
    match e
    case Submit(job, now, wire) =>
      s.(lists := if wire.RequestLost? then s.lists else PushHead(s.lists, Envelope(job, 0, now)),
         accepted := if wire.Answered? then s.accepted + {job} else s.accepted)
    case Pop(w, wire) =>
      if !PhaseOf(s, w).Idle? || wire.RequestLost? || s.lists.main == [] then s
      else
        var raw := s.lists.main[|s.lists.main| - 1];
        s.(lists := Take(s.lists), workers := if wire.Answered? then s.workers[w := Holding(raw)] else s.workers)
    case Succeed(w) =>
      var p := PhaseOf(s, w);
      if !p.Holding? then s else s.(done := s.done + {p.raw.job}, workers := s.workers[w := Settled(p.raw)])
    case Fail(w, now, wire) =>
      var p := PhaseOf(s, w);
      if !p.Holding? then s
      else
        var lists :=
          if wire.RequestLost? then s.lists
          else if p.raw.retry < limit then PushHead(s.lists, p.raw.(retry := p.raw.retry + 1, queuedAt := now))
          else Bury(s.lists, p.raw);
        s.(lists := lists, workers := s.workers[w := if wire.Answered? then Settled(p.raw) else Idle])
    case Ack(w, wire) =>
      var p := PhaseOf(s, w);
      if !p.Settled? then s
      else s.(lists := if wire.RequestLost? then s.lists else Acknowledge(s.lists, p.raw),
              workers := s.workers[w := Idle])
    case Crash(w) => s.(workers := s.workers[w := Idle])
    case Recover(wire) => s.(lists := if wire.RequestLost? then s.lists else GiveBack(s.lists))
  }

  function Run(limit: nat, run: seq<Event>): State {
    if run == [] then State(Lists([], [], []), map[], {}, {})
    else Step(limit, Run(limit, run[..|run| - 1]), run[|run| - 1])
  }

  /**
    * An envelope of `job` that has been tried at least `retry` times is queued or in processing, or one is given up on.
    */
  ghost predicate Kept(l: Lists<Envelope>, job: string, retry: nat) {
    || (exists e :: (e in l.main || e in l.processing) && e.job == job && e.retry >= retry)
    || (exists e :: e in l.dead && e.job == job)
  }

  /** What a worker that is about to acknowledge `raw` relies on. */
  ghost predicate Secured(done: set<string>, l: Lists<Envelope>, raw: Envelope) {
    raw.job in done || Kept(l, raw.job, raw.retry + 1)
  }

  ghost predicate Inv(s: State) {
    && (forall job :: job in s.accepted ==> job in s.done || Kept(s.lists, job, 0))
    && (forall w :: w in s.workers && s.workers[w].Settled? ==>
          Secured(s.done, s.lists, s.workers[w].raw))
  }

  /** Every envelope stays where it can be found. */
  ghost predicate KeepsAll(l: Lists<Envelope>, m: Lists<Envelope>) {
    && (forall e :: e in l.main || e in l.processing ==> e in m.main || e in m.processing)
    && (forall e :: e in l.dead ==> e in m.dead)
  }

  lemma KeptStays(l: Lists<Envelope>, m: Lists<Envelope>, job: string, retry: nat)
    requires KeepsAll(l, m) && Kept(l, job, retry)
    ensures Kept(m, job, retry)
  {
  }

  lemma TakeKeeps(l: Lists<Envelope>)
    ensures KeepsAll(l, Take(l)) && KeepsAll(l, GiveBack(l))
  {
    if l.main != [] {
      assert l.main == l.main[..|l.main| - 1] + [l.main[|l.main| - 1]];
    }
    if l.processing != [] {
      assert l.processing == l.processing[..|l.processing| - 1] + [l.processing[|l.processing| - 1]];
    }
  }

  lemma PushKeeps(l: Lists<Envelope>, e: Envelope)
    ensures KeepsAll(l, PushHead(l, e)) && Kept(PushHead(l, e), e.job, e.retry)
    ensures KeepsAll(l, Bury(l, e)) && forall retry: nat :: Kept(Bury(l, e), e.job, retry)
  {
    assert e in PushHead(l, e).main && e in Bury(l, e).dead;
  }

  /** Acknowledging an envelope that was settled leaves every later one in place. */
  lemma AckKeeps(l: Lists<Envelope>, raw: Envelope, job: string, retry: nat)
    requires Kept(l, job, retry) && (job == raw.job ==> Kept(l, job, raw.retry + 1))
    ensures Kept(Acknowledge(l, raw), job, retry)
  {
    var m := Acknowledge(l, raw);
    forall e | e in l.processing && e != raw
      ensures e in m.processing
    {
      assert e in multiset(l.processing);
      assert e in multiset(m.processing);
    }
    if e :| e in l.dead && e.job == job {
      assert e in m.dead;
    } else {
      var bound := if job == raw.job && retry <= raw.retry then raw.retry + 1 else retry;
      var e :| (e in l.main || e in l.processing) && e.job == job && e.retry >= bound;
      assert e != raw;
    }
  }

  /** A step that keeps every envelope where it can be found keeps the invariant. */
  lemma KeepsInv(s: State, t: State)
    requires Inv(s) && KeepsAll(s.lists, t.lists) && s.done <= t.done
    requires forall job :: job in t.accepted ==> job in s.accepted || Kept(t.lists, job, 0)
    requires forall w :: w in t.workers && t.workers[w].Settled? ==>
               PhaseOf(s, w) == t.workers[w] || Secured(t.done, t.lists, t.workers[w].raw)
    ensures Inv(t)
  {
    hide KeepsAll, Kept;
    forall job | job in t.accepted && job !in t.done
      ensures Kept(t.lists, job, 0)
    {
      if Kept(s.lists, job, 0) {
        KeptStays(s.lists, t.lists, job, 0);
      }
    }
    forall w | w in t.workers && t.workers[w].Settled?
      ensures Secured(t.done, t.lists, t.workers[w].raw)
    {
      var raw := t.workers[w].raw;
      if PhaseOf(s, w) == t.workers[w] && Kept(s.lists, raw.job, raw.retry + 1) {
        KeptStays(s.lists, t.lists, raw.job, raw.retry + 1);
      }
    }
  }

  lemma AckInv(s: State, w: nat)
    requires Inv(s) && PhaseOf(s, w).Settled?
    ensures Inv(s.(lists := Acknowledge(s.lists, PhaseOf(s, w).raw), workers := s.workers[w := Idle]))
  {
    hide Kept, Acknowledge;
    var raw := PhaseOf(s, w).raw;
    forall job, retry: nat | job !in s.done && Kept(s.lists, job, retry)
      ensures Kept(Acknowledge(s.lists, raw), job, retry)
    {
      AckKeeps(s.lists, raw, job, retry);
    }
  }

  lemma KeepsItself(l: Lists<Envelope>)
    ensures KeepsAll(l, l)
  {
  }

  lemma StepKeepsInv(limit: nat, s: State, e: Event)
    requires Inv(s)
    ensures Inv(Step(limit, s, e))
  {
    hide Inv, KeepsAll, Kept, PushHead, Bury, Take, GiveBack, Acknowledge;
    KeepsItself(s.lists);
    TakeKeeps(s.lists);
    match e
    case Submit(job, now, wire) =>
      PushKeeps(s.lists, Envelope(job, 0, now));
      KeepsInv(s, Step(limit, s, e));
    case Fail(w, now, wire) =>
      var p := PhaseOf(s, w);
      if p.Holding? {
        PushKeeps(s.lists, p.raw.(retry := p.raw.retry + 1, queuedAt := now));
        PushKeeps(s.lists, p.raw);
        KeepsInv(s, Step(limit, s, e));
      }
    case Ack(w, wire) =>
      if PhaseOf(s, w).Settled? && !wire.RequestLost? {
        AckInv(s, w);
      } else {
        KeepsInv(s, Step(limit, s, e));
      }
    case Pop(w, wire) => KeepsInv(s, Step(limit, s, e));
    case Succeed(w) => KeepsInv(s, Step(limit, s, e));
    case Crash(w) => KeepsInv(s, Step(limit, s, e));
    case Recover(wire) => KeepsInv(s, Step(limit, s, e));
  }

  lemma {:induction false} InvAlways(limit: nat, run: seq<Event>)
    ensures Inv(Run(limit, run))
  {
    if run != [] {
      InvAlways(limit, run[..|run| - 1]);
      StepKeepsInv(limit, Run(limit, run[..|run| - 1]), run[|run| - 1]);
    }
  }

  /**
    * Whatever is lost, crashes or runs twice: an accepted job has succeeded, or is still queued, in processing or given
    * up on.
    */
  lemma NoJobLost(limit: nat, run: seq<Event>, job: string)
    requires job in Run(limit, run).accepted
    ensures var s := Run(limit, run);
            || job in s.done
            || (exists e :: (e in s.lists.main || e in s.lists.processing || e in s.lists.dead) && e.job == job)
  {
    InvAlways(limit, run);
    hide Run;
  }
}
