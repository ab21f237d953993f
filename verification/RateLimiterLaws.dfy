/** What the limiter answers over a whole run, in terms of the calls it accepted before. */
module RateLimiterLaws {
  import opened RateLimiter

  datatype Event = Allow(key: string, now: int) | Peek(key: string, now: int) | Cleanup(now: int)

  ghost predicate Ordered(es: seq<Event>) {
    forall i, j :: 0 <= i <= j < |es| ==> es[i].now <= es[j].now
  }

  function Step(l: Limits, b: Buckets, e: Event): (Buckets, bool) {
    match e
    case Allow(key, now) => AllowStep(l, b, key, now)
    case Peek(key, now) => (b, PeekStep(l, b, key, now))
    case Cleanup(now) => (CleanupStep(l, b, now), true)
  }

  /** The buckets after a run from an empty limiter. */
  function After(l: Limits, es: seq<Event>): Buckets {
    if es == [] then map[] else Step(l, After(l, es[..|es| - 1]), es[|es| - 1]).0
  }

  /** What the run answers to its event `i`. */
  function Answer(l: Limits, es: seq<Event>, i: nat): bool
    requires i < |es|
  {
    Step(l, After(l, es[..i]), es[i]).1
  }

  predicate Accepts(l: Limits, es: seq<Event>, i: nat, key: string)
    requires i < |es|
  {
    es[i].Allow? && es[i].key == key && Answer(l, es, i)
  }

  /** The times of all calls of `key` the run accepted: the history an unpruned limiter would keep. */
  function History(l: Limits, es: seq<Event>, key: string): seq<int> {
    if es == [] then []
    else
      var n := |es| - 1;
      History(l, es[..n], key) + if Accepts(l, es, n, key) then [es[n].now] else []
  }

  /** How many calls of `key` the run accepted after `lo` and up to `hi`. */
  function AcceptedIn(l: Limits, es: seq<Event>, key: string, lo: int, hi: int): nat {
    if es == [] then 0
    else
      var n := |es| - 1;
      AcceptedIn(l, es[..n], key, lo, hi) + if Accepts(l, es, n, key) && lo < es[n].now <= hi then 1 else 0
  }

  ghost predicate Sorted(xs: seq<int>) {
    forall i, j :: 0 <= i <= j < |xs| ==> xs[i] <= xs[j]
  }

  /** `hits` is `history` less a prefix of times no later than `expired`. */
  ghost predicate Suffix(hits: seq<int>, history: seq<int>, expired: int) {
    |hits| <= |history| && history[|history| - |hits|..] == hits
    && forall i :: 0 <= i < |history| - |hits| ==> history[i] <= expired
  }

  lemma {:induction false} PruneSuffix(hits: seq<int>, history: seq<int>, expired: int, cutoff: int)
    requires Suffix(hits, history, expired) && expired <= cutoff
    ensures Suffix(Prune(hits, cutoff), history, cutoff)
  {
    if hits != [] && hits[0] <= cutoff {
      var k := |history| - |hits|;
      assert history[k] == hits[0] && history[k + 1..] == hits[1..];
      PruneSuffix(hits[1..], history, cutoff, cutoff);
    }
  }

  lemma {:induction false} PruneHead(hits: seq<int>, cutoff: int)
    ensures var p := Prune(hits, cutoff); p != [] ==> p[0] > cutoff
  {
    if hits != [] && hits[0] <= cutoff {
      PruneHead(hits[1..], cutoff);
    }
  }

  lemma {:induction false} CountConcat(a: seq<int>, b: seq<int>, cutoff: int)
    ensures CountAfter(a + b, cutoff) == CountAfter(a, cutoff) + CountAfter(b, cutoff)
  {
    if b == [] {
      assert a + b == a;
    } else {
      assert (a + b)[..|a + b| - 1] == a + b[..|b| - 1];
      CountConcat(a, b[..|b| - 1], cutoff);
    }
  }

  lemma {:induction false} CountUniform(a: seq<int>, cutoff: int)
    ensures (forall i :: 0 <= i < |a| ==> a[i] <= cutoff) ==> CountAfter(a, cutoff) == 0
    ensures (forall i :: 0 <= i < |a| ==> a[i] > cutoff) ==> CountAfter(a, cutoff) == |a|
  {
    if a != [] {
      CountUniform(a[..|a| - 1], cutoff);
    }
  }

  /** A pruned list counts as the history does, for any later cutoff. */
  lemma SuffixCount(hits: seq<int>, history: seq<int>, expired: int, cutoff: int)
    requires Suffix(hits, history, expired) && expired <= cutoff
    ensures CountAfter(hits, cutoff) == CountAfter(history, cutoff)
  {
    var k := |history| - |hits|;
    assert history == history[..k] + hits;
    CountConcat(history[..k], hits, cutoff);
    CountUniform(history[..k], cutoff);
  }

  lemma PrunedCount(hits: seq<int>, history: seq<int>, expired: int, cutoff: int)
    requires Suffix(hits, history, expired) && expired <= cutoff && Sorted(history)
    ensures |Prune(hits, cutoff)| == CountAfter(history, cutoff)
  {
    PruneSuffix(hits, history, expired, cutoff);
    var p := Prune(hits, cutoff);
    PruneHead(hits, cutoff);
    SuffixCount(p, history, cutoff, cutoff);
    var k := |history| - |p|;
    assert forall i :: 0 <= i < |p| ==> p[i] == history[k + i];
    CountUniform(p, cutoff);
  }

  /** What one event adds to the history of `key`. */
  function Added(l: Limits, b: Buckets, e: Event, key: string): seq<int> {
    if e.Allow? && e.key == key && Step(l, b, e).1 then [e.now] else []
  }

  lemma StepSuffix(l: Limits, b: Buckets, e: Event, key: string, history: seq<int>, expired: int)
    requires Suffix(Bucket(b, key), history, expired) && expired <= e.now - l.windowMs
    ensures Suffix(Bucket(Step(l, b, e).0, key), history + Added(l, b, e, key), e.now - l.windowMs)
  {
    hide Prune, CountAfter;
    var cutoff := e.now - l.windowMs;
    PruneSuffix(Bucket(b, key), history, expired, cutoff);
    if e.Allow? && e.key == key {
      SuffixGrows(Prune(Bucket(b, key), cutoff), history, cutoff, e.now);
    }
    assert history + [] == history;
    if e.Cleanup? && key in b {
      assert Bucket(Step(l, b, e).0, key) == Prune(b[key], cutoff);
    }
    if e.Cleanup? && key !in b {
      assert Bucket(Step(l, b, e).0, key) == [];
    }
  }

  lemma SuffixGrows(hits: seq<int>, history: seq<int>, expired: int, now: int)
    requires Suffix(hits, history, expired)
    ensures Suffix(hits + [now], history + [now], expired)
  {
    var k := |history| - |hits|;
    assert (history + [now])[k..] == history[k..] + [now];
  }

  lemma StepHistory(l: Limits, es: seq<Event>, key: string)
    requires es != []
    ensures var n := |es| - 1;
            && After(l, es) == Step(l, After(l, es[..n]), es[n]).0
            && History(l, es, key) == History(l, es[..n], key) + Added(l, After(l, es[..n]), es[n], key)
  {
    hide Step;
  }

  /** What the run keeps: each bucket is the key's history less expired times, and the history is sorted. */
  lemma {:induction false} BucketIsHistory(l: Limits, es: seq<Event>, key: string, clock: int)
    requires Ordered(es) && forall i :: 0 <= i < |es| ==> es[i].now <= clock
    ensures Sorted(History(l, es, key)) && forall i :: 0 <= i < |History(l, es, key)| ==>
            History(l, es, key)[i] <= clock
    ensures Suffix(Bucket(After(l, es), key), History(l, es, key), clock - l.windowMs)
  {
    if es != [] {
      var n := |es| - 1;
      BucketIsHistory(l, es[..n], key, es[n].now);
      StepHistory(l, es, key);
      hide History, After, Step;
      StepSuffix(l, After(l, es[..n]), es[n], key, History(l, es[..n], key), es[n].now - l.windowMs);
    }
  }

  lemma {:induction false} HistoryCount(l: Limits, es: seq<Event>, key: string, lo: int, hi: int)
    requires forall i :: 0 <= i < |es| ==> es[i].now <= hi
    ensures CountAfter(History(l, es, key), lo) == AcceptedIn(l, es, key, lo, hi)
  {
    if es != [] {
      var n := |es| - 1;
      HistoryCount(l, es[..n], key, lo, hi);
      if Accepts(l, es, n, key) {
        CountConcat(History(l, es[..n], key), [es[n].now], lo);
        assert [es[n].now][..0] == [];
      } else {
        assert History(l, es, key) == History(l, es[..n], key);
      }
    }
  }

  /** A call is accepted exactly when fewer than `maxRequests` of the key were accepted in the last `windowMs`. */
  lemma AllowedIff(l: Limits, es: seq<Event>, i: nat)
    requires Ordered(es) && i < |es| && es[i].Allow?
    ensures Answer(l, es, i) <==>
            AcceptedIn(l, es[..i], es[i].key, es[i].now - l.windowMs, es[i].now) < l.maxRequests
  {
    hide After, History, AcceptedIn, Prune, CountAfter, Suffix;
    var key, now := es[i].key, es[i].now;
    BucketIsHistory(l, es[..i], key, now);
    HistoryCount(l, es[..i], key, now - l.windowMs, now);
    PrunedCount(Bucket(After(l, es[..i]), key), History(l, es[..i], key), now - l.windowMs, now - l.windowMs);
  }

  /** `peek` answers as `allow` would at the same moment, except for an unknown key when nothing is allowed. */
  lemma PeekIff(l: Limits, es: seq<Event>, i: nat)
    requires Ordered(es) && i < |es| && es[i].Peek?
    ensures var free := AcceptedIn(l, es[..i], es[i].key, es[i].now - l.windowMs, es[i].now) < l.maxRequests;
            Answer(l, es, i) == free <==> es[i].key in After(l, es[..i]) || l.maxRequests > 0
    ensures AllowStep(l, After(l, es[..i]), es[i].key, es[i].now).1 ==
            (AcceptedIn(l, es[..i], es[i].key, es[i].now - l.windowMs, es[i].now) < l.maxRequests)
  {
    hide After, History, AcceptedIn, Prune, CountAfter, Suffix;
    var key, now := es[i].key, es[i].now;
    BucketIsHistory(l, es[..i], key, now);
    HistoryCount(l, es[..i], key, now - l.windowMs, now);
    var hits, history := Bucket(After(l, es[..i]), key), History(l, es[..i], key);
    PrunedCount(hits, history, now - l.windowMs, now - l.windowMs);
    SuffixCount(hits, history, now - l.windowMs, now - l.windowMs);
    CountUniform([], now - l.windowMs);
  }

  /** With nothing allowed at all, `peek` says yes of an unknown key and `allow` says no. */
  lemma PeekMisleads(windowMs: int, key: string, now: int)
    ensures var l, es := Limits(windowMs, 0), [Peek(key, now), Allow(key, now)];
            Ordered(es) && Answer(l, es, 0) && !Answer(l, es, 1)
  {
    var es := [Peek(key, now), Allow(key, now)];
    assert es[..0] == [] && es[..1] == [es[0]];
  }

  /* ---------- The bound ---------- */

  lemma {:induction false} AcceptedUpTo(l: Limits, es: seq<Event>, key: string, lo: int, lo': int, hi: int)
    requires lo <= lo'
    ensures AcceptedIn(l, es, key, lo', hi) <= AcceptedIn(l, es, key, lo, hi)
  {
    if es != [] {
      AcceptedUpTo(l, es[..|es| - 1], key, lo, lo', hi);
    }
  }

  lemma {:induction false} AcceptedLater(l: Limits, es: seq<Event>, key: string, lo: int, hi: int, hi': int)
    requires hi <= hi' && forall i :: 0 <= i < |es| ==> es[i].now <= hi
    ensures AcceptedIn(l, es, key, lo, hi') == AcceptedIn(l, es, key, lo, hi)
  {
    if es != [] {
      AcceptedLater(l, es[..|es| - 1], key, lo, hi, hi');
    }
  }

  /** In every window `(lo, lo + windowMs]` of every run, at most `maxRequests` calls of a key are accepted. */
  lemma {:induction false} WindowBound(l: Limits, es: seq<Event>, key: string, lo: int)
    requires Ordered(es)
    ensures AcceptedIn(l, es, key, lo, lo + l.windowMs) <= if l.maxRequests > 0 then l.maxRequests else 0
  {
    if es != [] {
      var n := |es| - 1;
      WindowBound(l, es[..n], key, lo);
      var now := es[n].now;
      if Accepts(l, es, n, key) && lo < now <= lo + l.windowMs {
        AllowedIff(l, es, n);
        AcceptedUpTo(l, es[..n], key, now - l.windowMs, lo, now);
        AcceptedLater(l, es[..n], key, lo, now, lo + l.windowMs);
      }
    }
  }
}
