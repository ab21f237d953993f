/** What becomes of a job over whole runs of the worker: how often it is tried, and when it is done or given up on. */
module BatchRetries {
  import opened Options
  import opened RedisQueue
  import opened BatchWorker

  /* ---------- Steps, told from the lists and the workers ---------- */

  /** A job is queued behind all others with no retry counted, unless its request is lost. */
  lemma SubmitQueues(limit: nat, s: State, job: string, now: int, wire: Wire)
    ensures var t := Step(limit, s, Submit(job, now, wire));
            && t.lists.main == (if wire == RequestLost then s.lists.main else [Envelope(job, 0, now)] + s.lists.main)
            && t.lists.processing == s.lists.processing && t.lists.dead == s.lists.dead
            && t.workers == s.workers && t.done == s.done
            && (forall j :: j in t.accepted <==> j in s.accepted || (j == job && wire == Answered))
  {
  }

  /** An idle worker is handed the oldest waiting envelope, which moves to the processing list. */
  lemma PopHands(limit: nat, s: State, w: nat, wire: Wire)
    ensures var t := Step(limit, s, Pop(w, wire));
            if PhaseOf(s, w) == Idle && wire != RequestLost && |s.lists.main| > 0 then
              var n := |s.lists.main| - 1;
              && t.lists == Lists(s.lists.main[..n], [s.lists.main[n]] + s.lists.processing, s.lists.dead)
              && PhaseOf(t, w) == (if wire == Answered then Holding(s.lists.main[n]) else Idle)
              && t.done == s.done && t.accepted == s.accepted
            else t == s
  {
  }

  /** A worker that holds an envelope and succeeds has done its job. */
  lemma SuccessIsDone(limit: nat, s: State, w: nat)
    ensures var t := Step(limit, s, Succeed(w));
            if PhaseOf(s, w).Holding? then
              var raw := PhaseOf(s, w).raw;
              t.done == s.done + {raw.job} && PhaseOf(t, w) == Settled(raw) && t.lists == s.lists
            else t == s
  {
  }

  /** One that fails queues the job again with one more retry counted, or gives it up at the limit. */
  lemma FailureRetries(limit: nat, s: State, w: nat, now: int, wire: Wire)
    ensures var t := Step(limit, s, Fail(w, now, wire));
            if PhaseOf(s, w).Holding? then
              var raw := PhaseOf(s, w).raw;
              var again := wire != RequestLost && raw.retry < limit;
              var given := wire != RequestLost && raw.retry >= limit;
              && t.lists.main == (if again then [Envelope(raw.job, raw.retry + 1, now)] + s.lists.main
                                  else s.lists.main)
              && t.lists.dead == (if given then [raw] + s.lists.dead else s.lists.dead)
              && t.lists.processing == s.lists.processing && t.done == s.done
              && PhaseOf(t, w) == (if wire == Answered then Settled(raw) else Idle)
            else t == s
  {
  }

  /** An acknowledgement takes one copy of the settled envelope out of the processing list. */
  lemma AckRemoves(limit: nat, s: State, w: nat, wire: Wire)
    ensures var t := Step(limit, s, BatchWorker.Ack(w, wire));
            if PhaseOf(s, w).Settled? then
              var raw := PhaseOf(s, w).raw;
              && t.lists.main == s.lists.main && t.lists.dead == s.lists.dead && PhaseOf(t, w) == Idle
              && multiset(t.lists.processing)
                 == multiset(s.lists.processing) - (if wire == RequestLost then multiset{} else multiset{raw})
            else t == s
  {
  }

  /** A restart puts the oldest envelope in processing back behind the waiting ones. */
  lemma RecoverGivesBack(limit: nat, s: State, wire: Wire)
    ensures var t := Step(limit, s, Recover(wire));
            if wire != RequestLost && |s.lists.processing| > 0 then
              var n := |s.lists.processing| - 1;
              t == s.(lists := Lists([s.lists.processing[n]] + s.lists.main, s.lists.processing[..n], s.lists.dead))
            else t == s
  {
  }

  lemma CrashForgets(limit: nat, s: State, w: nat)
    ensures var t := Step(limit, s, Crash(w));
            t.lists == s.lists && PhaseOf(t, w) == Idle && t.done == s.done && t.accepted == s.accepted
  {
  }

  /* ---------- Runs ---------- */

  /** The step is a failure of `job`. */
  predicate FailsJob(s: State, e: Event, job: string) {
    e.Fail? && PhaseOf(s, e.worker).Holding? && PhaseOf(s, e.worker).raw.job == job
  }

  predicate SucceedsJob(s: State, e: Event, job: string) {
    e.Succeed? && PhaseOf(s, e.worker).Holding? && PhaseOf(s, e.worker).raw.job == job
  }

  /** How often processing of `job` has failed. */
  function Failures(limit: nat, run: seq<Event>, job: string): nat {
    if run == [] then 0
    else
      var n := |run| - 1;
      Failures(limit, run[..n], job) + if FailsJob(Run(limit, run[..n]), run[n], job) then 1 else 0
  }

  /** Step `k` of the run is a success of `job`. */
  predicate SucceedsAt(limit: nat, run: seq<Event>, k: nat, job: string) {
    k < |run| && SucceedsJob(Run(limit, run[..k]), run[k], job)
  }

  /** A job is done exactly if a worker that held it succeeded. */
  lemma {:induction false} DoneIff(limit: nat, run: seq<Event>, job: string)
    ensures job in Run(limit, run).done <==> exists k :: SucceedsAt(limit, run, k, job)
  {
    if run != [] {
      var n := |run| - 1;
      DoneIff(limit, run[..n], job);
      StepDone(limit, Run(limit, run[..n]), run[n], job);
      if k :| SucceedsAt(limit, run[..n], k, job) {
        EarlierSuccess(limit, run, k, job);
      }
      if k :| SucceedsAt(limit, run, k, job) && k != n {
        EarlierSuccess(limit, run, k, job);
      }
      assert SucceedsAt(limit, run, n, job) <==> SucceedsJob(Run(limit, run[..n]), run[n], job);
      hide SucceedsAt, SucceedsJob, Step;
    }
  }

  lemma EarlierSuccess(limit: nat, run: seq<Event>, k: nat, job: string)
    requires k + 1 < |run|
    ensures SucceedsAt(limit, run, k, job) <==> SucceedsAt(limit, run[..|run| - 1], k, job)
  {
    assert run[..|run| - 1][..k] == run[..k];
  }

  lemma StepDone(limit: nat, s: State, e: Event, job: string)
    ensures job in Step(limit, s, e).done <==> job in s.done || SucceedsJob(s, e, job)
  {
  }

  /** The envelope counts no more retries than its job has had failures, and no more than the limit. */
  ghost predicate Counted(limit: nat, failures: string -> nat, e: Envelope) {
    e.retry <= limit && e.retry <= failures(e.job)
  }

  ghost predicate AllCounted(limit: nat, failures: string -> nat, s: State) {
    && (forall e :: e in s.lists.main || e in s.lists.processing ==> Counted(limit, failures, e))
    && (forall w :: w in s.workers && !s.workers[w].Idle? ==> Counted(limit, failures, s.workers[w].raw))
    && (forall e :: e in s.lists.dead ==> e.retry == limit && failures(e.job) > limit)
  }

  lemma MoreCounted(limit: nat, s: State, failures: string -> nat, failures': string -> nat)
    requires AllCounted(limit, failures, s) && forall job :: failures(job) <= failures'(job)
    ensures AllCounted(limit, failures', s)
  {
    forall e | Counted(limit, failures, e)
      ensures Counted(limit, failures', e)
    {
      assert failures(e.job) <= failures'(e.job);
    }
    forall e | e in s.lists.dead
      ensures failures'(e.job) > limit
    {
      assert failures(e.job) <= failures'(e.job);
    }
    hide Counted;
  }

  lemma StepCounted(limit: nat, s: State, e: Event, failures: string -> nat)
    requires AllCounted(limit, failures, s)
    requires e.Fail? && PhaseOf(s, e.worker).Holding? ==>
               failures(PhaseOf(s, e.worker).raw.job) > PhaseOf(s, e.worker).raw.retry
    ensures AllCounted(limit, failures, Step(limit, s, e))
  {
    if e.Ack? && PhaseOf(s, e.worker).Settled? {
      StillThere(s.lists.processing, PhaseOf(s, e.worker).raw);
    }
    hide RemoveFirst;
  }

  lemma {:induction false} StillThere(s: seq<Envelope>, v: Envelope)
    ensures forall e :: e in RemoveFirst(s, v) ==> e in s
  {
    if s != [] {
      assert s == [s[0]] + s[1..];
      StillThere(s[1..], v);
    }
  }

  /**
    * Envelopes count no more retries than their jobs have had failures and never more than the limit; a job is given up
    * on only after more failures than the limit.
    */
  lemma {:induction false} GivenUpAfter(limit: nat, run: seq<Event>)
    ensures AllCounted(limit, job => Failures(limit, run, job), Run(limit, run))
  {
    hide Counted, Step;
    if run != [] {
      var n := |run| - 1;
      var s := Run(limit, run[..n]);
      GivenUpAfter(limit, run[..n]);
      var failures := job => Failures(limit, run, job);
      assert forall job :: Failures(limit, run[..n], job) <= failures(job);
      MoreCounted(limit, s, job => Failures(limit, run[..n], job), failures);
      HeldFails(limit, run, job => Failures(limit, run[..n], job));
      hide AllCounted;
      StepCounted(limit, s, run[n], failures);
    }
  }

  lemma HeldFails(limit: nat, run: seq<Event>, failures: string -> nat)
    requires run != [] && failures == (job => Failures(limit, run[..|run| - 1], job))
    requires AllCounted(limit, failures, Run(limit, run[..|run| - 1]))
    ensures var n := |run| - 1;
            var p := if run[n].Fail? then PhaseOf(Run(limit, run[..n]), run[n].worker) else Idle;
            p.Holding? ==> Failures(limit, run, p.raw.job) > p.raw.retry
  {
    var n := |run| - 1;
    if run[n].Fail? && PhaseOf(Run(limit, run[..n]), run[n].worker).Holding? {
      var raw := PhaseOf(Run(limit, run[..n]), run[n].worker).raw;
      assert Counted(limit, failures, raw);
      assert failures(raw.job) == Failures(limit, run[..n], raw.job);
    }
  }
}
