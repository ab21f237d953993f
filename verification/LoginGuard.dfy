/** The keyed login guard of `lib/admin/admin-login-guard.js`: failures per key in an insertion-ordered map. */
module LoginGuard {
  import opened BitArithmetic
  import opened Options

  const FAILURE_THRESHOLD := 5
  const BASE_DELAY_MS := 1_000
  const MAX_DELAY_MS := 60_000

  function Min(a: int, b: int): int {
    if a <= b then a else b
  }

  /** `loginDelayMs`. */
  function LoginDelayMs(failures: int, threshold: int, baseMs: int, maxMs: int): int {
    if failures <= threshold then 0
    else Min(baseMs * Pow2(Min(failures - threshold - 1, 30)), maxMs)
  }

  /** The delay after `failures` failures at the guard's base and maximum. */
  function Delay(failures: int, threshold: int): int {
    LoginDelayMs(failures, threshold, BASE_DELAY_MS, MAX_DELAY_MS)
  }

  datatype Entry = Entry(key: string, failures: nat, lastFailureAt: int, nextAllowedAt: int)

  /** The map in insertion order: no key twice. */
  type Entries = seq<Entry>

  ghost predicate DistinctKeys(es: Entries) {
    forall i, j :: 0 <= i < j < |es| ==> es[i].key != es[j].key
  }

  function Find(es: Entries, key: string): (r: Option<Entry>)
    ensures r.Some? ==> r.value in es && r.value.key == key
    ensures r.None? <==> forall i :: 0 <= i < |es| ==> es[i].key != key
  {
    if es == [] then None
    else if es[0].key == key then Some(es[0])
    else Find(es[1..], key)
  }

  function Remove(es: Entries, key: string): (r: Entries)
    ensures forall e :: e in r <==> e in es && e.key != key
    ensures |r| <= |es|
  {
    if es == [] then []
    else (if es[0].key == key then [] else [es[0]]) + Remove(es[1..], key)
  }

  /** The count `recordFailure` stores. */
  function NextCount(prev: Option<Entry>, now: int): (n: nat)
    ensures n >= 1
  {
    if prev.Some? && now - prev.value.lastFailureAt <= MAX_DELAY_MS then prev.value.failures + 1 else 1
  }

  /** Drop the least recently updated entries beyond `max`. */
  function Trim(es: Entries, max: nat): Entries {
    if |es| > max then es[|es| - max..] else es
  }

  lemma TrimFirst(es: Entries, max: nat)
    requires |es| > max
    ensures Trim(es[1..], max) == Trim(es, max)
  {
    assert es[1..][|es| - 1 - max..] == es[|es| - max..];
  }

  lemma TrimNothing(es: Entries, max: nat)
    requires |es| <= max
    ensures Trim(es, max) == es
  {
  }

  function FailStep(es: Entries, key: string, now: int, threshold: int, max: nat): Entries {
    var count := NextCount(Find(es, key), now);
    Trim(Remove(es, key) + [Entry(key, count, now, now + Delay(count, threshold))], max)
  }

  predicate AllowedAt(es: Entries, key: string, now: int) {
    var e := Find(es, key);
    e.None? || now >= e.value.nextAllowedAt
  }

  class KeyedLoginGuard {
    const threshold: int
    const maxEntries: nat
    var entries: Entries

    constructor (threshold: int, maxEntries: nat)
      ensures this.threshold == threshold && this.maxEntries == maxEntries && entries == []
    {
      this.threshold, this.maxEntries, entries := threshold, maxEntries, [];
    }

    /** `check`; the waiting time is the seconds until the next attempt is allowed, rounded up. */
    method Check(key: string, now: int) returns (allowed: bool, retryAfterSec: int)
      ensures allowed == AllowedAt(entries, key, now)
      ensures allowed ==> retryAfterSec == 0
      ensures !allowed ==> var wait := Find(entries, key).value.nextAllowedAt - now;
                1000 * (retryAfterSec - 1) < wait <= 1000 * retryAfterSec
    {
      var entry := Find(entries, key);
      if entry.None? || now >= entry.value.nextAllowedAt {
        return true, 0;
      }
      return false, (entry.value.nextAllowedAt - now + 999) / 1000;
    }

    method RecordFailure(key: string, now: int) returns (count: nat)
      modifies this
      ensures count == NextCount(Find(old(entries), key), now)
      ensures entries == FailStep(old(entries), key, now, threshold, maxEntries)
    {
      hide Remove, Find, Delay, Trim;
      var prev := Find(entries, key);
      count := if prev.Some? && now - prev.value.lastFailureAt <= MAX_DELAY_MS then prev.value.failures + 1 else 1;
      entries := Remove(entries, key);
      entries := entries + [Entry(key, count, now, now + Delay(count, threshold))];
      ghost var all := entries;
      while |entries| > maxEntries
        invariant Trim(entries, maxEntries) == Trim(all, maxEntries)
      {
        TrimFirst(entries, maxEntries);
        entries := entries[1..];
      }
      TrimNothing(entries, maxEntries);
    }

    method RecordSuccess(key: string)
      modifies this
      ensures entries == Remove(old(entries), key)
    {
      entries := Remove(entries, key);
    }
  }
}
