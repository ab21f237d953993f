/** The bounded runner of `lib/admin/admin-password.js`: some jobs run, some wait, the rest are turned away. */
module HashLimiter {

  datatype Limits = Limits(concurrency: nat, queueMax: nat)

  /** How many jobs run, which ones wait, and which were started, in order. */
  datatype State<T> = State(active: nat, queue: seq<T>, started: seq<T>)

  function NextStep<T>(l: Limits, s: State<T>): State<T> {
    if s.active >= l.concurrency || s.queue == [] then s
    else State(s.active + 1, s.queue[1..], s.started + [s.queue[0]])
  }

  predicate IsBusy<T>(l: Limits, s: State<T>) {
    s.active >= l.concurrency && |s.queue| >= l.queueMax
  }

  function RunStep<T>(l: Limits, s: State<T>, job: T): State<T> {
    if IsBusy(l, s) then s else NextStep(l, s.(queue := s.queue + [job]))
  }

  function SettleStep<T>(l: Limits, s: State<T>): State<T>
    requires s.active > 0
  {
    NextStep(l, s.(active := s.active - 1))
  }

  class HashLimiter<T> {
    const limits: Limits
    var active: nat
    var queue: seq<T>
    var started: seq<T>

    constructor (concurrency: nat, queueMax: nat)
      ensures limits == Limits(concurrency, queueMax) && Contents() == State(0, [], [])
    {
      limits := Limits(concurrency, queueMax);
      active, queue, started := 0, [], [];
    }

    function Contents(): State<T>
      reads this
    {
      State(active, queue, started)
    }

    /** `next`: start the first waiting job if a slot is free. */
    method Next()
      modifies this
      ensures Contents() == NextStep(limits, old(Contents()))
    {
      if active >= limits.concurrency || |queue| == 0 {
        return;
      }
      var job := queue[0];
      queue := queue[1..];
      active := active + 1;
      started := started + [job];
    }

    /** `run`; false where the source rejects with `HashBusyError`. */
    method Run(job: T) returns (accepted: bool)
      modifies this
      ensures accepted == !IsBusy(limits, old(Contents()))
      ensures Contents() == RunStep(limits, old(Contents()), job)
    {
      if active >= limits.concurrency && |queue| >= limits.queueMax {
        return false;
      }
      queue := queue + [job];
      Next();
      return true;
    }

    /** A running job, whichever it is, has settled. */
    method Settle()
      requires active > 0
      modifies this
      ensures Contents() == SettleStep(limits, old(Contents()))
    {
      active := active - 1;
      Next();
    }
  }
}
