/** The sliding window limiter of `lib/rate-limiter.js`: one list of recent hits per key, pruned in place. */
module RateLimiter {
  import opened Options

  type Buckets = map<string, seq<int>>

  datatype Limits = Limits(windowMs: int, maxRequests: int)

  /** The loop `while (hits.length > 0 && hits[0] <= cutoff) hits.shift()`. */
  function Prune(hits: seq<int>, cutoff: int): seq<int> {
    if hits != [] && hits[0] <= cutoff then Prune(hits[1..], cutoff) else hits
  }

  function CountAfter(hits: seq<int>, cutoff: int): nat {
    if hits == [] then 0
    else CountAfter(hits[..|hits| - 1], cutoff) + if hits[|hits| - 1] > cutoff then 1 else 0
  }

  function Bucket(b: Buckets, key: string): seq<int> {
    if key in b then b[key] else []
  }

  function AllowStep(l: Limits, b: Buckets, key: string, now: int): (Buckets, bool) {
    var hits := Prune(Bucket(b, key), now - l.windowMs);
    if |hits| >= l.maxRequests then (b[key := hits], false) else (b[key := hits + [now]], true)
  }

  function PeekStep(l: Limits, b: Buckets, key: string, now: int): bool {
    key !in b || CountAfter(b[key], now - l.windowMs) < l.maxRequests
  }

  function CleanupStep(l: Limits, b: Buckets, now: int): Buckets {
    map key | key in b && Prune(b[key], now - l.windowMs) != [] :: Prune(b[key], now - l.windowMs)
  }

  class RateLimiter {
    const limits: Limits
    var buckets: Buckets

    constructor (windowMs: int, maxRequests: int)
      ensures limits == Limits(windowMs, maxRequests) && buckets == map[]
    {
      limits := Limits(windowMs, maxRequests);
      buckets := map[];
    }

    method Allow(key: string, now: int) returns (allowed: bool)
      modifies this
      ensures (buckets, allowed) == AllowStep(limits, old(buckets), key, now)
    {
      var cutoff := now - limits.windowMs;
      if key !in buckets {
        buckets := buckets[key := []];
      }
      var hits := buckets[key];
      while |hits| > 0 && hits[0] <= cutoff
        invariant Prune(hits, cutoff) == Prune(Bucket(old(buckets), key), cutoff)
      {
        hits := hits[1..];
      }
      buckets := buckets[key := hits];
      assert buckets == old(buckets)[key := hits];
      if |hits| >= limits.maxRequests {
        return false;
      }
      buckets := buckets[key := hits + [now]];
      assert buckets == old(buckets)[key := hits + [now]];
      return true;
    }

    method Peek(key: string, now: int) returns (free: bool)
      ensures free == PeekStep(limits, buckets, key, now)
    {
      if key !in buckets {
        return true;
      }
      var hits, cutoff := buckets[key], now - limits.windowMs;
      var live: nat := 0;
      for i := 0 to |hits|
        invariant live == CountAfter(hits[..i], cutoff)
      {
        assert hits[..i + 1][..i] == hits[..i];
        if hits[i] > cutoff {
          live := live + 1;
        }
      }
      assert hits[..|hits|] == hits;
      return live < limits.maxRequests;
    }

    method Cleanup(now: int)
      modifies this
      ensures buckets == CleanupStep(limits, old(buckets), now)
    {
      var cutoff := now - limits.windowMs;
      ghost var before, done := buckets, {};
      var keys := buckets.Keys;
      while keys != {}
        invariant keys !! done && keys + done == before.Keys
        invariant forall k :: k in keys ==> k in buckets && buckets[k] == before[k]
        invariant forall k :: k in done ==>
                    if Prune(before[k], cutoff) == [] then k !in buckets
                    else k in buckets && buckets[k] == Prune(before[k], cutoff)
        invariant buckets.Keys <= before.Keys
      {
        var key :| key in keys;
        var hits := buckets[key];
        while |hits| > 0 && hits[0] <= cutoff
          invariant Prune(hits, cutoff) == Prune(before[key], cutoff)
        {
          hits := hits[1..];
        }
        if |hits| == 0 {
          buckets := buckets - {key};
        } else {
          buckets := buckets[key := hits];
        }
        keys, done := keys - {key}, done + {key};
      }
    }
  }

  /** Two limiters: by API key where there is one, by client address otherwise. */
  class DualRateLimiter {
    const ipLimiter: RateLimiter
    const keyLimiter: RateLimiter

    constructor (windowMs: int, perIp: int, perKey: int)
      ensures fresh(ipLimiter) && fresh(keyLimiter) && ipLimiter != keyLimiter
      ensures ipLimiter.limits == Limits(windowMs, perIp) && keyLimiter.limits == Limits(windowMs, perKey)
      ensures ipLimiter.buckets == map[] && keyLimiter.buckets == map[]
    {
      ipLimiter := new RateLimiter(windowMs, perIp);
      keyLimiter := new RateLimiter(windowMs, perKey);
    }

    method Allow(clientIp: string, keyId: Option<string>, now: int) returns (allowed: bool)
      requires ipLimiter != keyLimiter
      modifies ipLimiter, keyLimiter
      ensures if keyId.Some? && keyId.value != ""
              then (keyLimiter.buckets, allowed)
                   == AllowStep(keyLimiter.limits, old(keyLimiter.buckets), "key:" + keyId.value, now)
                   && ipLimiter.buckets == old(ipLimiter.buckets)
              else (ipLimiter.buckets, allowed)
                   == AllowStep(ipLimiter.limits, old(ipLimiter.buckets), "ip:" + clientIp, now)
                   && keyLimiter.buckets == old(keyLimiter.buckets)
    {
      if keyId.Some? && keyId.value != "" {
        allowed := keyLimiter.Allow("key:" + keyId.value, now);
      } else {
        allowed := ipLimiter.Allow("ip:" + clientIp, now);
      }
    }
  }
}
