/** What the bounded runner keeps over any run of submissions and completions. */
module HashLimiterLaws {
  import opened HashLimiter

  datatype Event<T> = Submit(job: T) | Settled

  function Step<T>(l: Limits, s: State<T>, e: Event<T>): State<T> {
    match e
    case Submit(job) => RunStep(l, s, job)
    case Settled => if s.active > 0 then SettleStep(l, s) else s
  }

  function After<T>(l: Limits, run: seq<Event<T>>): State<T> {
    if run == [] then State(0, [], []) else Step(l, After(l, run[..|run| - 1]), run[|run| - 1])
  }

  /** The job an event adds to those accepted. */
  function Taken<T>(l: Limits, s: State<T>, e: Event<T>): seq<T> {
    if e.Submit? && !IsBusy(l, s) then [e.job] else []
  }

  function Completed<T>(s: State<T>, e: Event<T>): nat {
    if e.Settled? && s.active > 0 then 1 else 0
  }

  /** The jobs that were not turned away, in the order they came. */
  function Accepted<T>(l: Limits, run: seq<Event<T>>): seq<T> {
    if run == [] then [] else Accepted(l, run[..|run| - 1]) + Taken(l, After(l, run[..|run| - 1]), run[|run| - 1])
  }

  function Completions<T>(l: Limits, run: seq<Event<T>>): nat {
    if run == [] then 0 else Completions(l, run[..|run| - 1]) + Completed(After(l, run[..|run| - 1]), run[|run| - 1])
  }

  /** The limits hold, and nothing waits while a slot is free. */
  ghost predicate Inv<T>(l: Limits, s: State<T>) {
    s.active <= l.concurrency && |s.queue| <= l.queueMax && (s.queue != [] ==> s.active == l.concurrency)
  }

  lemma {:induction false} InvAlways<T>(l: Limits, run: seq<Event<T>>)
    ensures Inv(l, After(l, run))
  {
    if run != [] {
      InvAlways(l, run[..|run| - 1]);
    }
  }

  lemma StepInOrder<T>(l: Limits, s: State<T>, e: Event<T>)
    ensures var t := Step(l, s, e);
            && t.started + t.queue == s.started + s.queue + Taken(l, s, e)
            && |t.started| + s.active == |s.started| + t.active + Completed(s, e)
  {
    var q := s.queue + Taken(l, s, e);
    if q != [] {
      assert s.started + q == (s.started + [q[0]]) + q[1..];
    }
  }

  /** Accepted jobs are started in the order they came, each once; those not started yet are the ones that wait. */
  lemma {:induction false} FirstInFirstOut<T>(l: Limits, run: seq<Event<T>>)
    ensures var s := After(l, run);
            s.started + s.queue == Accepted(l, run) && |s.started| == s.active + Completions(l, run)
  {
    hide Step, Taken, Completed;
    if run != [] {
      FirstInFirstOut(l, run[..|run| - 1]);
      StepInOrder(l, After(l, run[..|run| - 1]), run[|run| - 1]);
    }
  }

  /** A job is turned away exactly when every slot is taken and the queue is full. */
  lemma BusyIff<T>(l: Limits, run: seq<Event<T>>)
    ensures var s := After(l, run); IsBusy(l, s) <==> s.active == l.concurrency && |s.queue| == l.queueMax
  {
    InvAlways(l, run);
  }

  function Settlings<T>(n: nat): seq<Event<T>> {
    if n == 0 then [] else Settlings(n - 1) + [Settled]
  }

  function InHand<T>(s: State<T>): nat {
    s.active + |s.queue|
  }

  lemma SettledTakesOne<T>(l: Limits, s: State<T>)
    requires Inv(l, s) && l.concurrency > 0
    ensures InHand(Step(l, s, Settled)) == if InHand(s) > 0 then InHand(s) - 1 else 0
    ensures Taken(l, s, Settled) == []
  {
  }

  lemma {:induction false} Drain<T>(l: Limits, run: seq<Event<T>>, n: nat)
    requires l.concurrency > 0 && n <= InHand(After(l, run))
    ensures InHand(After(l, run + Settlings(n))) == InHand(After(l, run)) - n
    ensures Accepted(l, run + Settlings(n)) == Accepted(l, run)
  {
    hide Step, Taken, InHand, Inv;
    if n == 0 {
      assert run + Settlings(0) == run;
    } else {
      Drain(l, run, n - 1);
      var all := run + Settlings(n);
      assert all[..|all| - 1] == run + Settlings(n - 1);
      InvAlways(l, run + Settlings(n - 1));
      SettledTakesOne(l, After(l, run + Settlings(n - 1)));
    }
  }

  /** With at least one slot, as many completions as there are jobs in hand start and finish every accepted job. */
  lemma EveryJobRuns<T>(l: Limits, run: seq<Event<T>>)
    requires l.concurrency > 0
    ensures var t := After(l, run + Settlings(InHand(After(l, run))));
            t.active == 0 && t.queue == [] && t.started == Accepted(l, run)
  {
    hide After, Accepted, Settlings;
    var n := InHand(After(l, run));
    Drain(l, run, n);
    FirstInFirstOut(l, run + Settlings(n));
  }
}
