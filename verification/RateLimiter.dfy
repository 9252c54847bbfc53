/**
  The token-bucket rate limiter of src/network/security/rate_limiter.hpp.

  Doubles are reals and the steady clock is a parameter. `Consume` and `Sweep` are the two
  operations as functions on the table of buckets; the class `Limiter` is the code.
 */
module RateLimiter {
  import opened Wrappers

  datatype Config = Config(maxTokens: real, refillRate: real, idleLimit: real)

  predicate ValidConfig(c: Config) {
    c.maxTokens > 0.0 && c.refillRate > 0.0
  }

  /** The defaults of rate_limiter.hpp:12 and request_server_base.hpp:11-12. */
  const DEFAULT_CONFIG := Config(50.0, 0.5, 120.0)

  datatype Bucket = Bucket(tokens: real, lastRefill: real)

  type Table = map<string, Bucket>

  function Min(a: real, b: real): real {
    if a < b then a else b
  }

  /** What `elapsed` seconds bring in. */
  function Refill(c: Config, elapsed: real): real {
    elapsed * c.refillRate
  }

  predicate ValidCost(c: Config, cost: real) {
    0.0 < cost <= c.maxTokens
  }

  /** The tokens `who` would have after a refill at `now`. */
  function Available(c: Config, t: Table, who: string, now: real): real {
    if who in t then Min(c.maxTokens, t[who].tokens + Refill(c, now - t[who].lastRefill)) else c.maxTokens
  }

  function Consume(c: Config, t: Table, who: string, cost: real, now: real): (Table, bool) {
    if !ValidCost(c, cost) then (t, false)
    else if who !in t then (t[who := Bucket(c.maxTokens - cost, now)], true)
    else
      var tokens := Available(c, t, who, now);
      if tokens < cost then (t[who := Bucket(tokens, now)], false)
      else (t[who := Bucket(tokens - cost, now)], true)
  }

  predicate Stale(c: Config, b: Bucket, now: real) {
    now - b.lastRefill > c.idleLimit
  }

  function Sweep(c: Config, t: Table, now: real): Table {
    map who | who in t && !Stale(c, t[who], now) :: t[who]
  }

  class Limiter {
    const config: Config
    var requests: Table

    constructor (config: Config)
      requires ValidConfig(config)
      ensures this.config == config && requests == map[]
    {
      this.config := config;
      requests := map[];
    }

    /** The C++ constructor, which throws on a non-positive capacity or rate. */
    static method Create(maxTokens: real, refillRate: real, idleLimit: real) returns (r: Option<Limiter>)
      ensures r.Some? <==> maxTokens > 0.0 && refillRate > 0.0
      ensures r.Some? ==> r.value.config == Config(maxTokens, refillRate, idleLimit) && r.value.requests == map[]
      ensures r.Some? ==> fresh(r.value)
    {
      if maxTokens <= 0.0 {
        return None;
      }
      if refillRate <= 0.0 {
        return None;
      }
      var limiter := new Limiter(Config(maxTokens, refillRate, idleLimit));
      return Some(limiter);
    }

    method TryConsume(identifier: string, cost: real, now: real) returns (granted: bool)
      modifies this
      ensures (requests, granted) == Consume(config, old(requests), identifier, cost, now)
    {
      if cost <= 0.0 || cost > config.maxTokens {
        return false;
      }
      if identifier !in requests {
        requests := requests[identifier := Bucket(config.maxTokens - cost, now)];
        return true;
      }
      var bucket := requests[identifier];
      var elapsed := now - bucket.lastRefill;
      bucket := bucket.(tokens := Min(config.maxTokens, bucket.tokens + Refill(config, elapsed)));
      bucket := bucket.(lastRefill := now);
      if bucket.tokens < cost {
        requests := requests[identifier := bucket];
        return false;
      }
      bucket := bucket.(tokens := bucket.tokens - cost);
      requests := requests[identifier := bucket];
      return true;
    }

    method Cleanup(now: real)
      modifies this
      ensures requests == Sweep(config, old(requests), now)
    {
      var rest := requests.Keys;
      while rest != {}
        invariant rest <= old(requests).Keys
        invariant requests.Keys == rest + (Sweep(config, old(requests), now).Keys - rest)
        invariant forall who <- requests :: requests[who] == old(requests)[who]
        decreases rest
      {
        var who :| who in rest;
        rest := rest - {who};
        var idle := now - requests[who].lastRefill;
        if idle > config.idleLimit {
          requests := requests - {who};
        }
      }
    }
  }
}
