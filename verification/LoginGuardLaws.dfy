/** How slowly a guarded key can fail, over whole runs. */
module LoginGuardLaws {
  import opened Options
  import opened BitArithmetic
  import opened LoginGuard

  datatype Event = Failure(key: string, now: int) | Success(key: string)

  datatype Guard = Guard(threshold: int, maxEntries: nat)

  function Step(g: Guard, es: Entries, e: Event): Entries {
    match e
    case Failure(key, now) => FailStep(es, key, now, g.threshold, g.maxEntries)
    case Success(key) => Remove(es, key)
  }

  function After(g: Guard, run: seq<Event>): Entries {
    if run == [] then [] else Step(g, After(g, run[..|run| - 1]), run[|run| - 1])
  }

  /** Time does not run backwards, and every failing attempt was allowed when it was made. */
  ghost predicate Guarded(g: Guard, run: seq<Event>) {
    && (forall i, j :: 0 <= i <= j < |run| && run[i].Failure? && run[j].Failure? ==> run[i].now <= run[j].now)
    && (forall i :: 0 <= i < |run| && run[i].Failure? ==> AllowedAt(After(g, run[..i]), run[i].key, run[i].now))
  }

  /** A failure of the key under study and the count it was given. */
  datatype Mark = Mark(now: int, count: nat)

  /** The failures of `key` since it was last absent: never yet failed, succeeded or evicted. */
  function Log(g: Guard, run: seq<Event>, key: string): seq<Mark> {
    if run == [] || Find(After(g, run), key).None? then []
    else
      var n := |run| - 1;
      var before := Log(g, run[..n], key);
      if run[n].Failure? && run[n].key == key
          then before + [Mark(run[n].now, NextCount(Find(After(g, run[..n]), key), run[n].now))]
      else before
  }

  /** `b` follows `a`: either after the delay `a` imposed, one count up, or in a new stretch after a long gap. */
  ghost predicate Follows(g: Guard, a: Mark, b: Mark) {
    || (b.count == a.count + 1 && b.now - a.now >= Delay(a.count, g.threshold))
    || (b.count == 1 && b.now - a.now > MAX_DELAY_MS)
  }

  ghost predicate Chain(g: Guard, log: seq<Mark>) {
    && (forall i :: 0 <= i < |log| - 1 ==> Follows(g, log[i], log[i + 1]))
    && (forall i :: 0 <= i < |log| ==> log[i].count >= 1)
    && (log != [] ==> log[0].count == 1)
  }

  lemma {:induction false} FindMember(es: Entries, e: Entry)
    requires DistinctKeys(es) && e in es
    ensures Find(es, e.key) == Some(e)
  {
    var f := Find(es, e.key).value;
    var i :| 0 <= i < |es| && es[i] == e;
    var j :| 0 <= j < |es| && es[j] == f;
  }

  lemma {:induction false} RemoveDistinct(es: Entries, key: string)
    requires DistinctKeys(es)
    ensures DistinctKeys(Remove(es, key))
  {
    if es != [] {
      RemoveDistinct(es[1..], key);
    }
  }

  lemma RemoveFind(es: Entries, key: string, other: string)
    requires DistinctKeys(es)
    ensures Find(Remove(es, key), other) == if other == key then None else Find(es, other)
  {
    RemoveDistinct(es, key);
    if other != key && Find(es, other).Some? {
      FindMember(Remove(es, key), Find(es, other).value);
    }
    if other != key && Find(Remove(es, key), other).Some? {
      FindMember(es, Find(Remove(es, key), other).value);
    }
  }

  lemma {:induction false} AppendFind(es: Entries, e: Entry, key: string)
    requires Find(es, e.key).None?
    ensures Find(es + [e], key) == if key == e.key then Some(e) else Find(es, key)
  {
    if es == [] {
      assert es + [e] == [e];
    } else {
      assert (es + [e])[1..] == es[1..] + [e];
      AppendFind(es[1..], e, key);
    }
  }

  lemma AppendDistinct(es: Entries, e: Entry)
    requires DistinctKeys(es) && Find(es, e.key).None?
    ensures DistinctKeys(es + [e])
  {
  }

  /** Trimming evicts entries and changes none. */
  lemma TrimFind(es: Entries, max: nat, key: string)
    requires DistinctKeys(es)
    ensures DistinctKeys(Trim(es, max))
    ensures Find(Trim(es, max), key).None? || Find(Trim(es, max), key) == Find(es, key)
  {
    if Find(Trim(es, max), key).Some? {
      FindMember(es, Find(Trim(es, max), key).value);
    }
  }

  /** A step leaves the entry of another key alone or evicts it, and records the failing key's new entry. */
  lemma StepFind(g: Guard, es: Entries, e: Event, key: string)
    requires DistinctKeys(es)
    ensures DistinctKeys(Step(g, es, e))
    ensures var r := Find(Step(g, es, e), key);
            r.None? || r == if e.Failure? && e.key == key
                            then var count := NextCount(Find(es, key), e.now);
                                 Some(Entry(key, count, e.now, e.now + Delay(count, g.threshold)))
                            else Find(es, key)
    ensures e.Success? && e.key == key ==> Find(Step(g, es, e), key).None?
  {
    hide Find, Remove, Trim, Delay, NextCount;
    RemoveDistinct(es, e.key);
    RemoveFind(es, e.key, key);
    if e.Failure? {
      RemoveFind(es, e.key, e.key);
      var count := NextCount(Find(es, e.key), e.now);
      var added := Entry(e.key, count, e.now, e.now + Delay(count, g.threshold));
      AppendFind(Remove(es, e.key), added, key);
      AppendDistinct(Remove(es, e.key), added);
      TrimFind(Remove(es, e.key) + [added], g.maxEntries, key);
    }
  }

  lemma {:induction false} AfterDistinct(g: Guard, run: seq<Event>)
    ensures DistinctKeys(After(g, run))
  {
    if run != [] {
      AfterDistinct(g, run[..|run| - 1]);
      StepFind(g, After(g, run[..|run| - 1]), run[|run| - 1], "");
    }
  }

  /** `stored` is the entry the last mark of `log` leaves. */
  ghost predicate StoresLast(g: Guard, stored: Option<Entry>, key: string, log: seq<Mark>) {
    && (stored.Some? <==> log != [])
    && (stored.Some? ==>
          var last := log[|log| - 1];
          stored.value == Entry(key, last.count, last.now, last.now + Delay(last.count, g.threshold)))
  }

  lemma ChainExtends(g: Guard, log: seq<Mark>, m: Mark)
    requires Chain(g, log) && m.count >= 1
    requires if log == [] then m.count == 1 else Follows(g, log[|log| - 1], m)
    ensures Chain(g, log + [m])
  {
  }

  /** A recorded failure after `prev`, allowed when it was made, follows the last mark. */
  lemma FailureExtends(g: Guard, log: seq<Mark>, prev: Option<Entry>, key: string, now: int)
    requires Chain(g, log) && StoresLast(g, prev, key, log)
    requires prev.Some? ==> now >= prev.value.nextAllowedAt
    ensures var count := NextCount(prev, now); var r := log + [Mark(now, count)];
            Chain(g, r) && StoresLast(g, Some(Entry(key, count, now, now + Delay(count, g.threshold))), key, r)
  {
    hide Delay;
    ChainExtends(g, log, Mark(now, NextCount(prev, now)));
  }

  /** The stored entry of a key is the last mark of its log, whose marks follow each other. */
  lemma {:induction false} LogIsChain(g: Guard, run: seq<Event>, key: string)
    requires Guarded(g, run)
    ensures Chain(g, Log(g, run, key)) && StoresLast(g, Find(After(g, run), key), key, Log(g, run, key))
  {
    hide Find, Step, Delay, Chain, Guarded, NextCount, AllowedAt;
    EmptyChain(g);
    NothingFound(key);
    if run != [] {
      var n := |run| - 1;
      var es, e := After(g, run[..n]), run[n];
      GuardedPrefix(g, run);
      LogIsChain(g, run[..n], key);
      AfterDistinct(g, run[..n]);
      StepFind(g, es, e, key);
      if e.Failure? && e.key == key {
        AllowedMeans(es, key, e.now);
        FailureExtends(g, Log(g, run[..n], key), Find(es, key), key, e.now);
      }
    }
  }

  lemma AllowedMeans(es: Entries, key: string, now: int)
    requires AllowedAt(es, key, now)
    ensures Find(es, key).Some? ==> now >= Find(es, key).value.nextAllowedAt
  {
  }

  lemma GuardedPrefix(g: Guard, run: seq<Event>)
    requires run != [] && Guarded(g, run)
    ensures var n := |run| - 1; Guarded(g, run[..n])
    ensures var e := run[|run| - 1]; e.Failure? ==> AllowedAt(After(g, run[..|run| - 1]), e.key, e.now)
  {
    hide After, AllowedAt;
    var n := |run| - 1;
    assert forall i :: 0 <= i < n ==> run[..n][..i] == run[..i];
  }

  lemma NothingFound(key: string)
    ensures Find([], key).None?
  {
  }

  lemma EmptyChain(g: Guard)
    ensures Chain(g, [])
  {
  }

  /* ---------- The bounds ---------- */

  /** The delays after `lo`, `lo + 1`, ..., `hi - 1` failures. */
  function SumDelays(threshold: int, lo: int, hi: int): int
    decreases hi - lo
  {
    if lo >= hi then 0 else Delay(lo, threshold) + SumDelays(threshold, lo + 1, hi)
  }

  lemma {:induction false} SumDelaysLast(threshold: int, lo: int, hi: int)
    requires lo < hi
    ensures SumDelays(threshold, lo, hi) == SumDelays(threshold, lo, hi - 1) + Delay(hi - 1, threshold)
    decreases hi - lo
  {
    hide Delay;
    if lo + 1 < hi {
      SumDelaysLast(threshold, lo + 1, hi);
    }
  }

  /** No mark from `i + 1` to `j` begins a new stretch. */
  ghost predicate OneStretch(log: seq<Mark>, i: nat, j: nat) {
    i <= j < |log| && forall k :: i < k <= j ==> log[k].count != 1
  }

  /** Within a stretch, the failures are at least as far apart as the delays between them add up to. */
  lemma {:induction false} StretchSpacing(g: Guard, log: seq<Mark>, i: nat, j: nat)
    requires Chain(g, log) && OneStretch(log, i, j)
    ensures log[j].count == log[i].count + (j - i)
    ensures log[j].now - log[i].now >= SumDelays(g.threshold, log[i].count, log[j].count)
  {
    hide Delay;
    if i < j {
      StretchSpacing(g, log, i, j - 1);
      assert Follows(g, log[j - 1], log[j - 1 + 1]);
      SumDelaysLast(g.threshold, log[i].count, log[j].count);
    }
  }

  /** The n-th failure of a stretch comes at least the sum of the delays after 1 .. n-1 failures after the first. */
  lemma NthFailure(g: Guard, run: seq<Event>, key: string, i: nat, j: nat)
    requires Guarded(g, run) && OneStretch(Log(g, run, key), i, j) && Log(g, run, key)[i].count == 1
    ensures var log, n := Log(g, run, key), j - i + 1;
            log[j].count == n && log[j].now - log[i].now >= SumDelays(g.threshold, 1, n)
  {
    hide Log, Guarded, Chain;
    LogIsChain(g, run, key);
    StretchSpacing(g, Log(g, run, key), i, j);
  }

  lemma {:induction false} Pow2Monotone(a: nat, b: nat)
    requires a <= b
    ensures Pow2(a) <= Pow2(b)
  {
    if a < b {
      Pow2Monotone(a, b - 1);
    }
  }

  /** More failures never shorten the delay. */
  lemma DelayMonotone(a: int, b: int, threshold: int)
    requires a <= b
    ensures Delay(a, threshold) <= Delay(b, threshold) && 0 <= Delay(a, threshold) <= MAX_DELAY_MS
  {
    if a > threshold {
      Pow2Monotone(Min(a - threshold - 1, 30), Min(b - threshold - 1, 30));
    }
  }

  lemma {:induction false} SumDelaysShift(threshold: int, from: int, n: nat)
    requires from >= 1
    ensures SumDelays(threshold, from, from + n) >= SumDelays(threshold, 1, 1 + n)
  {
    hide Delay;
    if n > 0 {
      SumDelaysShift(threshold, from, n - 1);
      SumDelaysLast(threshold, from, from + n);
      SumDelaysLast(threshold, 1, 1 + n);
      DelayMonotone(n, from + n - 1, threshold);
    }
  }

  /** At the defaults the first eleven delays add up to 63 seconds. */
  lemma ElevenDelays()
    ensures SumDelays(FAILURE_THRESHOLD, 1, 12) == 63_000
  {
    assert Delay(11, 5) == 32_000 && Delay(10, 5) == 16_000 && Delay(9, 5) == 8_000 && Delay(8, 5) == 4_000
           && Delay(7, 5) == 2_000 && Delay(6, 5) == 1_000;
    hide Delay;
    assert SumDelays(5, 9, 12) == 56_000;
    assert SumDelays(5, 6, 12) == 63_000;
    assert forall k :: 1 <= k <= 5 ==> Delay(k, 5) == 0 by { NoDelayYet(); }
    assert SumDelays(5, 3, 12) == 63_000;
  }

  lemma NoDelayYet()
    ensures forall k :: 1 <= k <= 5 ==> Delay(k, 5) == 0
  {
  }

  lemma {:induction false} LogOrdered(g: Guard, log: seq<Mark>, i: nat, j: nat)
    requires Chain(g, log) && i <= j < |log|
    ensures log[i].now <= log[j].now
  {
    if i < j {
      LogOrdered(g, log, i, j - 1);
      assert Follows(g, log[j - 1], log[j - 1 + 1]);
      DelayMonotone(log[j - 1].count, log[j - 1].count, g.threshold);
    }
  }

  /** At the defaults, twelve failures of a key that neither succeeds nor is evicted span more than a minute. */
  lemma TwelveFailuresSpanAMinute(g: Guard, run: seq<Event>, key: string, i: nat)
    requires g.threshold == FAILURE_THRESHOLD && Guarded(g, run) && i + 11 < |Log(g, run, key)|
    ensures Log(g, run, key)[i + 11].now - Log(g, run, key)[i].now > 60_000
  {
    hide *;
    LogIsChain(g, run, key);
    TwelveMarksSpanAMinute(g, Log(g, run, key), i);
  }

  lemma TwelveMarksSpanAMinute(g: Guard, log: seq<Mark>, i: nat)
    requires g.threshold == FAILURE_THRESHOLD && Chain(g, log) && i + 11 < |log|
    ensures log[i + 11].now - log[i].now > 60_000
  {
    hide SumDelays, Delay, Chain, Follows;
    if OneStretch(log, i, i + 11) {
      CountsPositive(g, log, i);
      StretchSpacing(g, log, i, i + 11);
      SumDelaysShift(g.threshold, log[i].count, 11);
      ElevenDelays();
    } else {
      var k :| i < k <= i + 11 && log[k].count == 1;
      NewStretchGap(g, log, k);
      LogOrdered(g, log, i, k - 1);
      LogOrdered(g, log, k, i + 11);
    }
  }

  lemma CountsPositive(g: Guard, log: seq<Mark>, i: nat)
    requires Chain(g, log) && i < |log|
    ensures log[i].count >= 1
  {
  }

  lemma NewStretchGap(g: Guard, log: seq<Mark>, k: nat)
    requires Chain(g, log) && 0 < k < |log| && log[k].count == 1
    ensures log[k].now - log[k - 1].now > MAX_DELAY_MS
  {
    hide Delay;
    assert Follows(g, log[k - 1], log[k - 1 + 1]);
  }

  /* ---------- Eviction ---------- */

  /** Entries stand in the order of their last failures, none later than `now`. */
  ghost predicate ByAge(es: Entries, now: int) {
    && (forall i, j :: 0 <= i < j < |es| ==> es[i].lastFailureAt <= es[j].lastFailureAt)
    && (forall i :: 0 <= i < |es| ==> es[i].lastFailureAt <= now)
  }

  lemma {:induction false} RemoveByAge(es: Entries, key: string, now: int)
    requires ByAge(es, now)
    ensures ByAge(Remove(es, key), now)
  {
    if es != [] {
      RemoveByAge(es[1..], key, now);
      var rest := Remove(es[1..], key);
      hide Remove;
      assert forall e :: e in rest ==> e in es[1..];
      forall i | 0 <= i < |rest|
        ensures es[0].lastFailureAt <= rest[i].lastFailureAt
      {
        assert rest[i] in es[1..];
        var k :| 0 <= k < |es[1..]| && es[1..][k] == rest[i];
        assert es[k + 1] == rest[i];
      }
      ConsByAge(es[0], rest, now);
      RemoveUnfold(es, key);
    }
  }

  lemma ConsByAge(e: Entry, rest: Entries, now: int)
    requires ByAge(rest, now) && e.lastFailureAt <= now
    requires forall i :: 0 <= i < |rest| ==> e.lastFailureAt <= rest[i].lastFailureAt
    ensures ByAge([e] + rest, now)
  {
  }

  lemma RemoveUnfold(es: Entries, key: string)
    requires es != []
    ensures Remove(es, key) == if es[0].key == key then Remove(es[1..], key) else [es[0]] + Remove(es[1..], key)
  {
  }

  lemma AppendByAge(es: Entries, e: Entry, now: int)
    requires ByAge(es, e.lastFailureAt) && e.lastFailureAt <= now
    ensures ByAge(es + [e], now)
  {
  }

  lemma TrimByAge(es: Entries, max: nat, now: int)
    requires ByAge(es, now)
    ensures ByAge(Trim(es, max), now) && |Trim(es, max)| <= max
    ensures forall gone, kept :: gone in es && gone !in Trim(es, max) && kept in Trim(es, max) ==>
            gone.lastFailureAt <= kept.lastFailureAt
  {
    var t := Trim(es, max);
    forall gone, kept | gone in es && gone !in t && kept in t
      ensures gone.lastFailureAt <= kept.lastFailureAt
    {
      var i :| 0 <= i < |es| && es[i] == gone;
      var j :| 0 <= j < |t| && t[j] == kept;
      assert i < |es| - max;
    }
  }

  /** The time of the last failure of a run. */
  function Clock(run: seq<Event>, start: int): int {
    if run == [] then start
    else if run[|run| - 1].Failure? then run[|run| - 1].now else Clock(run[..|run| - 1], start)
  }

  ghost predicate Forward(run: seq<Event>, start: int) {
    run == [] ||
    (var init, e := run[..|run| - 1], run[|run| - 1];
     Forward(init, start) && (e.Failure? ==> Clock(init, start) <= e.now))
  }

  /** There are never more entries than allowed, and they stand by age: evicting from the front evicts the oldest. */
  lemma {:induction false} EvictsOldest(g: Guard, run: seq<Event>, start: int)
    requires Forward(run, start)
    ensures ByAge(After(g, run), Clock(run, start)) && |After(g, run)| <= g.maxEntries
  {
    hide ByAge, Remove, Trim, Delay, NextCount, Find;
    if run == [] {
      NoneByAge(start);
    } else {
      var init, e := run[..|run| - 1], run[|run| - 1];
      EvictsOldest(g, init, start);
      RemoveByAge(After(g, init), e.key, Clock(init, start));
      if e.Failure? {
        LaterByAge(Remove(After(g, init), e.key), Clock(init, start), e.now);
        var count := NextCount(Find(After(g, init), e.key), e.now);
        var added := Entry(e.key, count, e.now, e.now + Delay(count, g.threshold));
        AppendByAge(Remove(After(g, init), e.key), added, e.now);
        TrimByAge(Remove(After(g, init), e.key) + [added], g.maxEntries, e.now);
      }
    }
  }

  lemma NoneByAge(now: int)
    ensures ByAge([], now)
  {
  }

  lemma LaterByAge(es: Entries, before: int, now: int)
    requires ByAge(es, before) && before <= now
    ensures ByAge(es, now)
  {
  }
}
