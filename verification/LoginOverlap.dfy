/** The login guard under overlapping attempts: each is checked before its password is verified and recorded after. */
module LoginOverlap {
  import opened Options
  import opened LoginGuard
  import opened LoginGuardLaws

  /** When a failing attempt was checked: before event `at` of the run, at `time`. */
  datatype Check = Check(at: nat, time: int)

  /** Time does not run backwards, and every failing attempt was allowed when it was checked. */
  ghost predicate Overlapping(g: Guard, run: seq<Event>, checks: seq<Check>) {
    && |checks| == |run|
    && (forall i, j :: 0 <= i <= j < |run| && run[i].Failure? && run[j].Failure? ==> run[i].now <= run[j].now)
    && (forall i :: 0 <= i < |run| && run[i].Failure? ==> CheckedBefore(g, run, checks[i], i))
  }

  predicate CheckedBefore(g: Guard, run: seq<Event>, c: Check, i: nat)
    requires i < |run| && run[i].Failure?
  {
    c.at <= i && c.time <= run[i].now && AllowedAt(After(g, run[..c.at]), run[i].key, c.time)
  }

  predicate Fails(run: seq<Event>, j: int, key: string) {
    0 <= j < |run| && run[j].Failure? && run[j].key == key
  }

  /** The failing attempts of `key` that were checked but not recorded before event `p`. */
  function InFlight(run: seq<Event>, checks: seq<Check>, key: string, p: nat): set<int>
    requires |checks| == |run|
  {
    set j | p <= j < |run| && Fails(run, j, key) && checks[j].at <= p
  }

  /** At no time are more than `k` attempts of `key` between check and record. */
  ghost predicate AtMost(run: seq<Event>, checks: seq<Check>, key: string, k: nat)
    requires |checks| == |run|
  {
    forall p: nat :: p <= |run| ==> |InFlight(run, checks, key, p)| <= k
  }

  /* ---------- The log of a key, with the events that made it ---------- */

  /** Where in the run the marks of `Log` were made. */
  function Places(g: Guard, run: seq<Event>, key: string): seq<nat> {
    if run == [] || Find(After(g, run), key).None? then []
    else
      var n := |run| - 1;
      Places(g, run[..n], key) + if Fails(run, n, key) then [n] else []
  }

  /** A failure within the longest delay counts on, any other starts over. */
  ghost predicate Counted(log: seq<Mark>) {
    && (forall i :: 0 <= i < |log| ==> log[i].count >= 1)
    && (forall i :: 0 <= i < |log| - 1 ==>
          log[i + 1].count == if log[i + 1].now - log[i].now <= MAX_DELAY_MS then log[i].count + 1 else 1)
  }

  lemma {:induction false} LogIsCounted(g: Guard, run: seq<Event>, key: string)
    ensures Counted(Log(g, run, key)) && StoresLast(g, Find(After(g, run), key), key, Log(g, run, key))
  {
    hide Find, Step, Delay, Counted, NextCount;
    NothingCounted();
    NothingFound(key);
    if run != [] {
      var n := |run| - 1;
      var es, e := After(g, run[..n]), run[n];
      LogIsCounted(g, run[..n], key);
      AfterDistinct(g, run[..n]);
      StepFind(g, es, e, key);
      if e.Failure? && e.key == key {
        CountedExtends(g, Log(g, run[..n], key), Find(es, key), key, e.now);
      }
    }
  }

  lemma NothingCounted()
    ensures Counted([])
  {
  }

  lemma CountedExtends(g: Guard, log: seq<Mark>, prev: Option<Entry>, key: string, now: int)
    requires Counted(log) && StoresLast(g, prev, key, log)
    ensures Counted(log + [Mark(now, NextCount(prev, now))])
  {
    hide Delay;
  }

  /** The places are those of the marks, in order. */
  ghost predicate Matches(run: seq<Event>, key: string, places: seq<nat>, log: seq<Mark>) {
    && |places| == |log|
    && (forall i :: 0 <= i < |log| ==> Fails(run, places[i], key) && run[places[i]].now == log[i].now)
    && (forall i, j :: 0 <= i < j < |log| ==> places[i] < places[j])
  }

  lemma {:induction false} PlacesMatch(g: Guard, run: seq<Event>, key: string)
    ensures Matches(run, key, Places(g, run, key), Log(g, run, key))
  {
    hide Find, After, NextCount;
    if run != [] {
      PlacesMatch(g, run[..|run| - 1], key);
    }
  }

  /** The first `p` events made a prefix of the log, which holds the marks made by them. */
  lemma {:induction false} LogSoFar(g: Guard, run: seq<Event>, key: string, k: nat, p: nat) returns (c: nat)
    requires |Places(g, run, key)| == |Log(g, run, key)| && k < |Places(g, run, key)|
             && Places(g, run, key)[k] < p <= |run|
    ensures k < c <= |Log(g, run, key)| && Log(g, run[..p], key) == Log(g, run, key)[..c]
    ensures forall q :: 0 <= q < |Places(g, run, key)| && Places(g, run, key)[q] >= p ==> c <= q
  {
    hide Find, After, NextCount;
    var n := |run| - 1;
    PlacesMatch(g, run, key);
    if p == |run| {
      assert run[..p] == run;
      c := |Log(g, run, key)|;
    } else {
      PlacesMatch(g, run[..n], key);
      assert run[..n][..p] == run[..p];
      c := LogSoFar(g, run[..n], key, k, p);
    }
  }

  /* ---------- Sizes of sets ---------- */

  lemma {:induction false} SubsetSize<T>(a: set<T>, b: set<T>)
    requires a <= b
    ensures |a| <= |b|
  {
    if a != {} {
      var x :| x in a;
      SubsetSize(a - {x}, b - {x});
    }
  }

  lemma {:induction false} IncreasingSize(xs: seq<nat>)
    requires forall i, j :: 0 <= i < j < |xs| ==> xs[i] < xs[j]
    ensures |set i | 0 <= i < |xs| :: xs[i] as int| == |xs|
  {
    if xs != [] {
      var n := |xs| - 1;
      IncreasingSize(xs[..n]);
      var front := set i | 0 <= i < n :: xs[..n][i] as int;
      assert (set i | 0 <= i < |xs| :: xs[i] as int) == front + {xs[n] as int} by {
        assert forall i :: 0 <= i < n ==> xs[..n][i] == xs[i];
      }
      assert xs[n] as int !in front;
    }
  }

  /* ---------- The bound ---------- */

  /**
    * With at most `k` attempts in flight, one of the next `k` failures was checked after the one before was recorded.
    */
  lemma CheckedAfter(g: Guard, run: seq<Event>, checks: seq<Check>, key: string, k: nat, n: nat) returns (q: nat)
    requires Overlapping(g, run, checks) && AtMost(run, checks, key, k) && n + k < |Places(g, run, key)|
    ensures n < q <= n + k && Places(g, run, key)[q] < |run|
    ensures checks[Places(g, run, key)[q]].at > Places(g, run, key)[n]
  {
    hide Places, Log, After, AllowedAt;
    PlacesMatch(g, run, key);
    var places := Places(g, run, key);
    if forall q :: n < q <= n + k ==> checks[places[q]].at <= places[n] {
      var some := places[n..n + k + 1];
      IncreasingSize(some);
      var waiting := set i | 0 <= i < |some| :: some[i] as int;
      forall j | j in waiting
        ensures j in InFlight(run, checks, key, places[n])
      {
        var i :| 0 <= i < |some| && some[i] == j;
        assert places[n + i] == j;
      }
      SubsetSize(waiting, InFlight(run, checks, key, places[n]));
      assert false;
    }
    q :| n < q <= n + k && checks[places[q]].at > places[n];
  }

  /** No gap from mark `i` to mark `j` is longer than the longest delay. */
  ghost predicate Unbroken(log: seq<Mark>, i: nat, j: nat) {
    i <= j < |log| && forall k :: i < k <= j ==> log[k].now - log[k - 1].now <= MAX_DELAY_MS
  }

  lemma {:induction false} CountsOn(log: seq<Mark>, i: nat, j: nat)
    requires Counted(log) && Unbroken(log, i, j)
    ensures log[j].count == log[i].count + (j - i)
  {
    if i < j {
      CountsOn(log, i, j - 1);
      assert log[j - 1 + 1].count == log[j - 1].count + 1;
    }
  }

  lemma MarksOrdered(g: Guard, run: seq<Event>, checks: seq<Check>, key: string, i: nat, j: nat)
    requires Overlapping(g, run, checks) && i <= j < |Log(g, run, key)|
    ensures Log(g, run, key)[i].now <= Log(g, run, key)[j].now
  {
    hide Places, Log, After, AllowedAt;
    PlacesMatch(g, run, key);
  }

  /** A check after mark `n` was recorded waits for the delay of the latest mark then. */
  lemma CheckWaits(g: Guard, run: seq<Event>, checks: seq<Check>, key: string, n: nat, q: nat) returns (m: nat)
    requires Overlapping(g, run, checks) && n < q < |Places(g, run, key)|
    requires Places(g, run, key)[q] < |run| && checks[Places(g, run, key)[q]].at > Places(g, run, key)[n]
    ensures |Log(g, run, key)| == |Places(g, run, key)| && n <= m < q
    ensures var log := Log(g, run, key); log[q].now >= log[m].now + Delay(log[m].count, g.threshold)
  {
    hide Places, Log, After, Find, Delay, AllowedAt;
    PlacesMatch(g, run, key);
    var at, time := checks[Places(g, run, key)[q]].at, checks[Places(g, run, key)[q]].time;
    var c := LogSoFar(g, run, key, n, at);
    LogIsCounted(g, run[..at], key);
    m := c - 1;
    assert CheckedBefore(g, run, checks[Places(g, run, key)[q]], Places(g, run, key)[q]);
    AllowedMeans(After(g, run[..at]), key, time);
  }

  /**
    * With at most `k` attempts of a key in flight, the `k`-th failure after any failure comes at least the delay later
    * that the earlier one imposed.
    */
  lemma KthLaterWaits(g: Guard, run: seq<Event>, checks: seq<Check>, key: string, k: nat, n: nat)
    requires Overlapping(g, run, checks) && AtMost(run, checks, key, k) && n + k < |Log(g, run, key)|
    ensures var log := Log(g, run, key); log[n + k].now - log[n].now >= Delay(log[n].count, g.threshold)
  {
    hide *;
    MatchingLengths(g, run, key);
    var log := Log(g, run, key);
    LogIsCounted(g, run, key);
    DelayMonotone(log[n].count, log[n].count, g.threshold);
    MarksOrdered(g, run, checks, key, n, n + k);
    if Gap(log, n, n + k) {
      GapSpans(g, run, checks, key, n, n + k);
    } else {
      var q := CheckedAfter(g, run, checks, key, k, n);
      var m := CheckWaits(g, run, checks, key, n, q);
      NoGap(log, n, n + k, m);
      CountsOn(log, n, m);
      DelayMonotone(log[n].count, log[m].count, g.threshold);
      MarksOrdered(g, run, checks, key, n, m);
      MarksOrdered(g, run, checks, key, q, n + k);
    }
  }

  lemma MatchingLengths(g: Guard, run: seq<Event>, key: string)
    ensures |Places(g, run, key)| == |Log(g, run, key)|
  {
    hide Places, Log;
    PlacesMatch(g, run, key);
  }

  ghost predicate Gap(log: seq<Mark>, i: nat, j: nat) {
    i <= j < |log| && exists k :: i < k <= j && log[k].now - log[k - 1].now > MAX_DELAY_MS
  }

  lemma NoGap(log: seq<Mark>, i: nat, j: nat, m: nat)
    requires i <= m <= j < |log| && !Gap(log, i, j)
    ensures Unbroken(log, i, m)
  {
  }

  lemma GapSpans(g: Guard, run: seq<Event>, checks: seq<Check>, key: string, i: nat, j: nat)
    requires Overlapping(g, run, checks) && Gap(Log(g, run, key), i, j)
    ensures Log(g, run, key)[j].now - Log(g, run, key)[i].now > 60_000 == MAX_DELAY_MS
  {
    hide Log, Overlapping;
    var log := Log(g, run, key);
    var k :| i < k <= j && log[k].now - log[k - 1].now > MAX_DELAY_MS;
    MarksOrdered(g, run, checks, key, i, k - 1);
    MarksOrdered(g, run, checks, key, k, j);
  }

  /**
    * At the defaults, with at most `k` attempts of a key in flight, no half-open minute holds more than `11 + k`
    * failures of a key that neither succeeds nor is evicted.
    */
  lemma OverlappingFailuresPerMinute(g: Guard, run: seq<Event>, checks: seq<Check>, key: string, k: nat, i: nat)
    requires g.threshold == FAILURE_THRESHOLD && Overlapping(g, run, checks) && AtMost(run, checks, key, k)
    requires i + 11 + k < |Log(g, run, key)|
    ensures Log(g, run, key)[i + 11 + k].now - Log(g, run, key)[i].now >= 60_000
  {
    hide *;
    var log := Log(g, run, key);
    LogIsCounted(g, run, key);
    MarksOrdered(g, run, checks, key, i, i + 11);
    MarksOrdered(g, run, checks, key, i + 11, i + 11 + k);
    if Gap(log, i, i + 11) {
      GapSpans(g, run, checks, key, i, i + 11);
    } else {
      NoGap(log, i, i + 11, i + 11);
      CountsOn(log, i, i + 11);
      CountAtLeastOne(log, i);
      KthLaterWaits(g, run, checks, key, k, i + 11);
      DelayMonotone(12, log[i + 11].count, g.threshold);
      TwelfthDelay();
    }
  }

  lemma CountAtLeastOne(log: seq<Mark>, i: nat)
    requires Counted(log) && i < |log|
    ensures log[i].count >= 1
  {
  }

  lemma TwelfthDelay()
    ensures Delay(12, FAILURE_THRESHOLD) == 60_000
  {
  }

  /** Attempts that are checked and recorded at once are at most one in flight. */
  lemma GuardedIsAlone(g: Guard, run: seq<Event>, key: string)
    requires Guarded(g, run)
    ensures var checks := seq(|run|, i requires 0 <= i < |run| => Check(i, if run[i].Failure? then run[i].now else 0));
            Overlapping(g, run, checks) && AtMost(run, checks, key, 1)
  {
    hide After, AllowedAt;
    var checks := seq(|run|, i requires 0 <= i < |run| => Check(i, if run[i].Failure? then run[i].now else 0));
    forall p: nat | p <= |run|
      ensures |InFlight(run, checks, key, p)| <= 1
    {
      SubsetSize(InFlight(run, checks, key, p), {p});
    }
  }

  /* ---------- Attempts checked together ---------- */

  function Failures(key: string, time: int, n: nat): (run: seq<Event>)
    ensures |run| == n && (forall i :: 0 <= i < n ==> run[i] == Failure(key, time))
    ensures n > 0 ==> run[..n - 1] == Failures(key, time, n - 1)
  {
    if n == 0 then [] else Failures(key, time, n - 1) + [Failure(key, time)]
  }

  function Counting(time: int, n: nat): (log: seq<Mark>)
    ensures |log| == n && forall i :: 0 <= i < n ==> log[i] == Mark(time, i + 1)
  {
    if n == 0 then [] else Counting(time, n - 1) + [Mark(time, n)]
  }

  /** Attempts all checked before the first is recorded pass together, however many: the bound needs its `k`. */
  lemma AllAtOnce(g: Guard, key: string, time: int, n: nat)
    requires g.maxEntries >= 1
    ensures Overlapping(g, Failures(key, time, n), seq(n, i => Check(0, time)))
    ensures Log(g, Failures(key, time, n), key) == Counting(time, n)
  {
    hide Log;
    var run := Failures(key, time, n);
    assert forall i :: 0 <= i < n ==> run[..0] == [] && CheckedBefore(g, run, Check(0, time), i);
    AllLogged(g, key, time, n);
  }

  lemma {:induction false} AllLogged(g: Guard, key: string, time: int, n: nat)
    requires g.maxEntries >= 1
    ensures Log(g, Failures(key, time, n), key) == Counting(time, n)
  {
    hide After, Find;
    if n > 0 {
      AllLogged(g, key, time, n - 1);
      Stored(g, key, time, n);
      Stored(g, key, time, n - 1);
    }
  }

  lemma Stored(g: Guard, key: string, time: int, n: nat)
    requires g.maxEntries >= 1
    ensures Find(After(g, Failures(key, time, n)), key)
         == if n == 0 then None else Some(Entry(key, n, time, time + Delay(n, g.threshold)))
  {
    hide Delay;
    if n > 0 {
      OneEntry(g, key, time, n);
    }
  }

  lemma {:induction false} OneEntry(g: Guard, key: string, time: int, n: nat)
    requires g.maxEntries >= 1 && n >= 1
    ensures After(g, Failures(key, time, n)) == [Entry(key, n, time, time + Delay(n, g.threshold))]
  {
    hide *;
    OneMore(g, key, time, n);
    if n > 1 {
      OneEntry(g, key, time, n - 1);
      FailsAgain(Some(Entry(key, n - 1, time, time + Delay(n - 1, g.threshold))), key, time, g.threshold, g.maxEntries);
    } else {
      NothingYet(g, key, time);
      FailsAgain(None, key, time, g.threshold, g.maxEntries);
    }
  }

  lemma NothingYet(g: Guard, key: string, time: int)
    ensures After(g, Failures(key, time, 0)) == []
  {
  }

  lemma OneMore(g: Guard, key: string, time: int, n: nat)
    requires n >= 1
    ensures After(g, Failures(key, time, n))
         == FailStep(After(g, Failures(key, time, n - 1)), key, time, g.threshold, g.maxEntries)
  {
    hide FailStep;
  }

  lemma FailsAgain(prev: Option<Entry>, key: string, time: int, threshold: int, max: nat)
    requires max >= 1 && (prev.Some? ==> prev.value.key == key && prev.value.lastFailureAt == time)
    ensures var count := if prev.Some? then prev.value.failures + 1 else 1;
            FailStep(if prev.Some? then [prev.value] else [], key, time, threshold, max)
            == [Entry(key, count, time, time + Delay(count, threshold))]
  {
    hide Delay;
    var es := if prev.Some? then [prev.value] else [];
    assert Remove(es, key) == [];
    assert Find(es, key) == prev;
  }
}
