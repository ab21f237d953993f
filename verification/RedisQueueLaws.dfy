/** No item is lost or duplicated by the lists, and no job by the worker, in any interleaving with any faults. */
module RedisQueueLaws {
  import opened Options
  import opened RedisQueue

  /* ---------- The lists ---------- */

  datatype Op<T> = ToHead(v: T) | ToTail(v: T) | Pop | Ack(v: T) | Requeue

  /** One command of any client; a crashed client just sends no more. */
  datatype Event<T> = Event(op: Op<T>, wire: Wire)

  function Apply<T(==)>(l: Lists<T>, e: Event<T>): Lists<T> {
    if e.wire.RequestLost? then l
    else match e.op
      case ToHead(v) => PushHead(l, v)
      case ToTail(v) => PushTail(l, v)
      case Pop => Take(l)
      case Ack(v) => Acknowledge(l, v)
      case Requeue => GiveBack(l)
  }

  function After<T(==)>(run: seq<Event<T>>): Lists<T> {
    if run == [] then Lists([], [], []) else Apply(After(run[..|run| - 1]), run[|run| - 1])
  }

  function Added<T>(e: Event<T>): multiset<T> {
    if !e.wire.RequestLost? && (e.op.ToHead? || e.op.ToTail?) then multiset{e.op.v} else multiset{}
  }

  function Removed<T(==)>(l: Lists<T>, e: Event<T>): multiset<T> {
    if !e.wire.RequestLost? && e.op.Ack? && e.op.v in l.processing then multiset{e.op.v} else multiset{}
  }

  /** The items whose push was carried out. */
  function Pushed<T>(run: seq<Event<T>>): multiset<T> {
    if run == [] then multiset{}
    else
      Pushed(run[..|run| - 1]) + Added(run[|run| - 1])
  }

  /** The items whose acknowledgement was carried out. */
  function Acknowledged<T(==)>(run: seq<Event<T>>): multiset<T> {
    if run == [] then multiset{}
    else
      var n := |run| - 1;
      Acknowledged(run[..n]) + Removed(After(run[..n]), run[n])
  }

  function Held<T>(l: Lists<T>): multiset<T> {
    multiset(l.main) + multiset(l.processing)
  }

  /** Waiting, in processing and acknowledged items together are exactly the pushed ones. */
  lemma {:induction false} Conservation<T>(run: seq<Event<T>>)
    ensures Held(After(run)) + Acknowledged(run) == Pushed(run)
  {
    if run != [] {
      var n := |run| - 1;
      var before, e := After(run[..n]), run[n];
      Conservation(run[..n]);
      StepConserves(before, e);
      Balance(Held(After(run)), Removed(before, e), Held(before), Added(e), Acknowledged(run[..n]), Pushed(run[..n]));
    }
  }

  lemma Balance<T>(now: multiset<T>, removed: multiset<T>, before: multiset<T>, added: multiset<T>,
                   acknowledged: multiset<T>, pushed: multiset<T>)
    requires now + removed == before + added && before + acknowledged == pushed
    ensures now + (acknowledged + removed) == pushed + added
  {
    assert now + (acknowledged + removed) == (now + removed) + acknowledged;
    assert (before + added) + acknowledged == (before + acknowledged) + added;
  }

  lemma StepConserves<T>(l: Lists<T>, e: Event<T>)
    ensures Held(Apply(l, e)) + Removed(l, e) == Held(l) + Added(e)
  {
    if !e.wire.RequestLost? {
      match e.op
      case ToHead(v) =>
      case ToTail(v) =>
      case Ack(v) =>
        var r := RemoveFirst(l.processing, v);
        assert Held(Apply(l, e)) == multiset(l.main) + multiset(r);
      case Pop => TakeConserves(l);
      case Requeue => GiveBackConserves(l);
    }
  }

  lemma TakeConserves<T>(l: Lists<T>)
    ensures Held(Take(l)) == Held(l)
  {
    if l.main != [] {
      assert l.main == l.main[..|l.main| - 1] + [l.main[|l.main| - 1]];
    }
  }

  lemma GiveBackConserves<T>(l: Lists<T>)
    ensures Held(GiveBack(l)) == Held(l)
  {
    if l.processing != [] {
      assert l.processing == l.processing[..|l.processing| - 1] + [l.processing[|l.processing| - 1]];
    }
  }

  /* ---------- Order ---------- */

  function Reversed<T>(s: seq<T>): seq<T> {
    if s == [] then [] else Reversed(s[1..]) + [s[0]]
  }

  lemma {:induction false} ReversedLast<T>(s: seq<T>, v: T)
    ensures Reversed(s + [v]) == [v] + Reversed(s)
  {
    if s == [] {
      assert s + [v] == [v];
    } else {
      assert (s + [v])[1..] == s[1..] + [v];
      ReversedLast(s[1..], v);
    }
  }

  function Sent<T>(e: Event<T>): seq<T> {
    if e.op.ToHead? && !e.wire.RequestLost? then [e.op.v] else []
  }

  function Moved<T>(l: Lists<T>, e: Event<T>): seq<T> {
    if e.op.Pop? && !e.wire.RequestLost? && l.main != [] then [l.main[|l.main| - 1]] else []
  }

  /** The items pushed at the head, in order. */
  function Submitted<T>(run: seq<Event<T>>): seq<T> {
    if run == [] then [] else Submitted(run[..|run| - 1]) + Sent(run[|run| - 1])
  }

  /** The items moved to the processing list, in order. */
  function Taken<T(==)>(run: seq<Event<T>>): seq<T> {
    if run == [] then [] else Taken(run[..|run| - 1]) + Moved(After(run[..|run| - 1]), run[|run| - 1])
  }

  lemma StepInOrder<T>(l: Lists<T>, e: Event<T>)
    requires !e.op.ToTail? && !e.op.Requeue?
    ensures Moved(l, e) + Reversed(Apply(l, e).main) == Reversed(l.main) + Sent(e)
  {
    hide RemoveFirst;
    if e.op.ToHead? && !e.wire.RequestLost? {
      assert ([e.op.v] + l.main)[1..] == l.main;
    } else if e.op.Pop? && !e.wire.RequestLost? && l.main != [] {
      var k := |l.main| - 1;
      assert l.main == l.main[..k] + [l.main[k]];
      ReversedLast(l.main[..k], l.main[k]);
    }
  }

  /**
    * Without priority pushes and recovery, items are taken in the order they were pushed; the rest waits in that order.
    */
  lemma {:induction false} TakenInOrder<T>(run: seq<Event<T>>)
    requires forall i :: 0 <= i < |run| ==> !run[i].op.ToTail? && !run[i].op.Requeue?
    ensures Taken(run) + Reversed(After(run).main) == Submitted(run)
  {
    hide Apply, Reversed, Sent, Moved;
    if run == [] {
      assert Reversed<T>([]) == [] by { ReversedNothing<T>(); }
    } else {
      var init, e := run[..|run| - 1], run[|run| - 1];
      var main, moved := Reversed(After(init).main), Moved(After(init), e);
      TakenInOrder(init);
      StepInOrder(After(init), e);
      assert (Taken(init) + moved) + Reversed(After(run).main) == Taken(init) + (moved + Reversed(After(run).main));
      assert (Taken(init) + main) + Sent(e) == Taken(init) + (main + Sent(e));
    }
  }

  lemma ReversedNothing<T>()
    ensures Reversed<T>([]) == []
  {
  }

  function ApplyAll<T(==)>(l: Lists<T>, run: seq<Event<T>>): Lists<T> {
    if run == [] then l else Apply(ApplyAll(l, run[..|run| - 1]), run[|run| - 1])
  }

  /**
    * A priority push is what the next pop takes, unless it is followed by another one, whatever else happens between.
    */
  lemma {:induction false} PriorityIsNext<T>(l: Lists<T>, v: T, run: seq<Event<T>>)
    requires forall i :: 0 <= i < |run| ==> !run[i].op.ToTail? && !run[i].op.Pop?
    ensures var t := ApplyAll(PushTail(l, v), run);
            t.main != [] && t.main[|t.main| - 1] == v && Take(t).processing == [v] + t.processing
  {
    if run != [] {
      PriorityIsNext(l, v, run[..|run| - 1]);
    }
  }

  /* ---------- Recovery ---------- */

  /** All of the processing list moved back, as the undisturbed recovery leaves the lists. */
  function Recovered<T>(l: Lists<T>): Lists<T> {
    GiveBackMany(l, |l.processing|)
  }

  function TakeMany<T>(l: Lists<T>, k: nat): Lists<T> {
    if k == 0 then l else Take(TakeMany(l, k - 1))
  }

  lemma {:induction false} TakeManyMeans<T>(l: Lists<T>, k: nat)
    requires k <= |l.main|
    ensures var n := |l.main| - k; TakeMany(l, k) == Lists(l.main[..n], l.main[n..] + l.processing, l.dead)
  {
    var n := |l.main| - k;
    if k == 0 {
      assert l.main[n..] + l.processing == l.processing;
    } else {
      TakeManyMeans(l, k - 1);
      assert l.main[..n + 1][..n] == l.main[..n];
      assert [l.main[n]] + (l.main[n + 1..] + l.processing) == l.main[n..] + l.processing;
    }
  }

  /** After a recovery the items that waited are popped first, from the tail, and only then the recovered ones. */
  lemma {:induction false} WaitingFirst<T>(l: Lists<T>, k: nat)
    requires k <= |l.main| + |l.processing|
    ensures var t := TakeMany(Recovered(l), k); var i, j := |l.main| - k, |l.main| + |l.processing| - k;
            if k <= |l.main| then t.main == l.processing + l.main[..i] && t.processing == l.main[i..]
            else t.main == l.processing[..j] && t.processing == l.processing[j..] + l.main
  {
    hide GiveBackMany;
    GiveBackEnds(l);
    TakeManyMeans(Recovered(l), k);
    var all, j := l.processing + l.main, |l.main| + |l.processing| - k;
    if k <= |l.main| {
      assert all[..j] == l.processing + l.main[..|l.main| - k] && all[j..] + [] == l.main[|l.main| - k..];
    } else {
      assert all[..j] == l.processing[..j] && all[j..] + [] == l.processing[j..] + l.main;
    }
  }

  /** So a recovered item is what the next pop takes exactly when nothing was waiting. */
  lemma {:induction false} RecoveredIsNextIff<T>(l: Lists<T>)
    requires l.processing != []
    ensures var t := Take(Recovered(l));
            && (l.main == [] <==> |t.main| < |l.processing|)
            && t.processing == [if l.main == [] then l.processing[|l.processing| - 1] else l.main[|l.main| - 1]]
  {
    assert Take(Recovered(l)) == TakeMany(Recovered(l), 1) by {
      assert TakeMany(Recovered(l), 0) == Recovered(l);
    }
    WaitingFirst(l, 1);
    if l.main == [] {
      assert l.processing[|l.processing| - 1..] + l.main == [l.processing[|l.processing| - 1]];
    }
  }

  /** An item that was in processing when a worker stopped waits behind one that was never handed out. */
  lemma WaitingOvertakes<T>(interrupted: T, waiting: T)
    ensures var run := [Event(ToHead(interrupted), Answered), Event(Pop, Answered), Event(ToHead(waiting), Answered),
                        Event(Requeue, Answered), Event(Pop, Answered)];
            && After(run[..2]).processing == [interrupted] && After(run[..4]).processing == []
            && After(run).processing == [waiting] && After(run).main == [interrupted]
  {
    var run := [Event(ToHead(interrupted), Answered), Event(Pop, Answered), Event(ToHead(waiting), Answered),
                Event(Requeue, Answered), Event(Pop, Answered)];
    assert run[..1][..0] == [] && run[..2][..1] == run[..1] && run[..3][..2] == run[..2] && run[..4][..3] == run[..3];
    assert run[..5] == run;
    assert After(run[..1]) == Lists([interrupted], [], []);
    assert After(run[..2]) == Lists([], [interrupted], []);
    assert After(run[..3]) == Lists([waiting], [interrupted], []);
    assert After(run[..4]) == Lists([interrupted, waiting], [], []);
  }
}
